/**
 Big-endian integers inside a run of octets (backend/src/ThirdParty/RtpCpp/endianness.hpp).
 Shifting an unsigned value right or left by whole octets is dividing or multiplying by a power of 256.
 */
module Endian {
  import opened Blocks
  import opened Octets

  function Read16(b: seq<Byte>, at: nat): U16
    requires at + 2 <= |b|
  {
    b[at] as int * 0x100 + b[at + 1] as int
  }

  function Read32(b: seq<Byte>, at: nat): U32
    requires at + 4 <= |b|
  {
    b[at] as int * 0x100_0000 + b[at + 1] as int * 0x1_0000 + b[at + 2] as int * 0x100 + b[at + 3] as int
  }

  function Bytes16(v: U16): (b: seq<Byte>)
    ensures |b| == 2 && Read16(b, 0) == v
  {
    [v / 0x100, v % 0x100]
  }

  function Bytes32(v: U32): (b: seq<Byte>)
    ensures |b| == 4 && Read32(b, 0) == v
  {
    Bytes16(v / 0x1_0000) + Bytes16(v % 0x1_0000)
  }

  /** The most significant octet comes first. */
  lemma Bytes16Octets(v: U16)
    ensures Bytes16(v) == [v / 0x100, v % 0x100]
  {
  }

  /** The four octets the source computes one by one. */
  lemma Bytes32Octets(v: U32)
    ensures Bytes32(v) == [v / 0x100_0000, v / 0x1_0000 % 0x100, v / 0x100 % 0x100, v % 0x100]
  {
    var high, low := v / 0x1_0000, v % 0x1_0000;
    assert v / 0x100_0000 == high / 0x100;
    assert v / 0x100 == high * 0x100 + low / 0x100;
    assert v % 0x100 == low % 0x100;
  }

  /** Writing what was read gives the same octets back. */
  lemma Bytes16OfRead16(b: seq<Byte>, at: nat)
    requires at + 2 <= |b|
    ensures Bytes16(Read16(b, at)) == b[at..at + 2]
  {
    assert Read16(b, at) / 0x100 == b[at];
  }

  lemma Bytes32OfRead32(b: seq<Byte>, at: nat)
    requires at + 4 <= |b|
    ensures Bytes32(Read32(b, at)) == b[at..at + 4]
  {
    var high, low := Read16(b, at), Read16(b, at + 2);
    assert Read32(b, at) == high as int * 0x1_0000 + low;
    Bytes16OfRead16(b, at);
    Bytes16OfRead16(b, at + 2);
  }

  /** Equal octets hold equal values, wherever they stand. */
  lemma Read16Frame(b: seq<Byte>, at: nat, c: seq<Byte>, at': nat)
    requires at + 2 <= |b| && at' + 2 <= |c|
    requires b[at..at + 2] == c[at'..at' + 2]
    ensures Read16(b, at) == Read16(c, at')
  {
    var x := b[at..at + 2];
    assert x[0] == c[at'] && x[1] == c[at' + 1];
  }

  lemma Read32Frame(b: seq<Byte>, at: nat, c: seq<Byte>, at': nat)
    requires at + 4 <= |b| && at' + 4 <= |c|
    requires b[at..at + 4] == c[at'..at' + 4]
    ensures Read32(b, at) == Read32(c, at')
  {
    var x := b[at..at + 4];
    assert x[0] == c[at'] && x[1] == c[at' + 1] && x[2] == c[at' + 2] && x[3] == c[at' + 3];
  }

  /** The 32-bit words a run of octets holds. */
  function Words(b: seq<Byte>): (w: seq<U32>)
    requires |b| % 4 == 0
    ensures 4 * |w| == |b|
  {
    if b == [] then [] else Words(b[..|b| - 4]) + [Read32(b, |b| - 4)]
  }

  function BytesOfWords(w: seq<U32>): (b: seq<Byte>)
    ensures |b| == 4 * |w|
  {
    if w == [] then [] else BytesOfWords(w[..|w| - 1]) + Bytes32(w[|w| - 1])
  }

  lemma BytesOfWordsSnoc(w: seq<U32>, v: U32)
    ensures BytesOfWords(w + [v]) == BytesOfWords(w) + Bytes32(v)
  {
    assert (w + [v])[..|w|] == w;
  }

  lemma WordsSnoc(b: seq<Byte>, v: U32)
    requires |b| % 4 == 0
    ensures Words(b + Bytes32(v)) == Words(b) + [v]
  {
    hide Bytes32, Read32;
    var w := b + Bytes32(v);
    assert |w| > 0 && w[..|w| - 4] == b;
    assert w[|w| - 4..|w|] == Bytes32(v) == Bytes32(v)[0..4];
    Read32Frame(w, |w| - 4, Bytes32(v), 0);
  }

  lemma {:induction false} WordsOfBytes(w: seq<U32>)
    ensures Words(BytesOfWords(w)) == w
  {
    hide Words, BytesOfWords, Bytes32;
    if w == [] {
      NoWords();
    } else {
      var init, v := w[..|w| - 1], w[|w| - 1];
      WordsOfBytes(init);
      assert w == init + [v];
      BytesOfWordsSnoc(init, v);
      WordsSnoc(BytesOfWords(init), v);
    }
  }

  lemma NoWords()
    ensures BytesOfWords([]) == [] && Words([]) == []
  {
  }

  lemma {:induction false} BytesOfWordsOf(b: seq<Byte>)
    requires |b| % 4 == 0
    ensures BytesOfWords(Words(b)) == b
  {
    if b == [] {
    } else {
      hide BytesOfWords, Bytes32, Read32;
      var init := b[..|b| - 4];
      BytesOfWordsOf(init);
      BytesOfWordsSnoc(Words(init), Read32(b, |b| - 4));
      Bytes32OfRead32(b, |b| - 4);
      assert b == init + b[|b| - 4..|b|];
    }
  }

  /** `write_big_endian` for a 16-bit value. */
  method Write16(a: array<Byte>, at: nat, v: U16)
    requires at + 2 <= a.Length
    modifies a
    ensures a[..] == Splice(old(a[..]), at, Bytes16(v))
    ensures a[at] == v / 0x100 && a[at + 1] == v % 0x100
  {
    a[at] := v / 0x100;
    a[at + 1] := v % 0x100;
  }

  /** `write_big_endian` for a 32-bit value. */
  method Write32(a: array<Byte>, at: nat, v: U32)
    requires at + 4 <= a.Length
    modifies a
    ensures a[..] == Splice(old(a[..]), at, Bytes32(v))
    ensures a[at] == v / 0x100_0000 && a[at + 1] == v / 0x1_0000 % 0x100
    ensures a[at + 2] == v / 0x100 % 0x100 && a[at + 3] == v % 0x100
  {
    Bytes32Octets(v);
    a[at] := v / 0x100_0000;
    a[at + 1] := v / 0x1_0000 % 0x100;
    a[at + 2] := v / 0x100 % 0x100;
    a[at + 3] := v % 0x100;
  }
}
