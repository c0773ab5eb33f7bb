/**
 The RTP packet as data, and its octets as sections 5.1 and 5.3.1 of RFC 3550 lay them out.
 `Encode` and `Decode` are the reference form that the in-place editor of `Packet` is measured against;
 neither mentions an offset field or a buffer.
 */
module Wire {
  import opened Option
  import opened Octets
  import opened Endian

  const FIXED_SIZE := 12
  const MAX_CSRC := 15

  /** `length` counts 32-bit words of `data`. */
  datatype Extension = Extension(id: U16, length: U16, data: seq<Byte>)

  /** `padding` is the padding count: how many trailing octets are not payload, 0 for an unpadded packet. */
  datatype Rtp = Rtp(
    marked: bool, payloadType: Byte, sequence: U16, timestamp: U32, ssrc: U32,
    csrc: seq<U32>, extension: Option<Extension>, payload: seq<Byte>, padding: Byte)

  const EMPTY := Rtp(false, 0, 0, 0, 0, [], None, [], 0)

  predicate WellFormed(p: Rtp) {
    && p.payloadType < 128
    && |p.csrc| <= MAX_CSRC
    && (p.extension.Some? ==> |p.extension.value.data| == 4 * p.extension.value.length)
  }

  function ExtensionSize(e: Option<Extension>): nat {
    if e.Some? then 4 + |e.value.data| else 0
  }

  /** The number of octets the packet takes on the wire. */
  function Size(p: Rtp): nat {
    FIXED_SIZE + 4 * |p.csrc| + ExtensionSize(p.extension) + |p.payload| + p.padding
  }

  function Header(p: Rtp): (b: seq<Byte>)
    requires WellFormed(p)
    ensures |b| == FIXED_SIZE
  {
    [Flags(2, p.padding != 0, p.extension.Some?, |p.csrc|), MarkerAndType(p.marked, p.payloadType)]
    + Bytes16(p.sequence) + Bytes32(p.timestamp) + Bytes32(p.ssrc)
  }

  function ExtensionBytes(e: Option<Extension>): (b: seq<Byte>)
    ensures |b| == ExtensionSize(e)
  {
    if e.Some? then Bytes16(e.value.id) + Bytes16(e.value.length) + e.value.data else []
  }

  /** `filler` is what the padding holds before its count octet: the format leaves it free. */
  predicate Fills(filler: seq<Byte>, padding: Byte) {
    if padding == 0 then filler == [] else |filler| + 1 == padding
  }

  function Trailer(padding: Byte, filler: seq<Byte>): (b: seq<Byte>)
    requires Fills(filler, padding)
    ensures |b| == padding
  {
    if padding == 0 then [] else filler + [padding]
  }

  function Encode(p: Rtp, filler: seq<Byte>): (b: seq<Byte>)
    requires WellFormed(p) && Fills(filler, p.padding)
    ensures |b| == Size(p)
  {
    Header(p) + BytesOfWords(p.csrc) + ExtensionBytes(p.extension) + p.payload + Trailer(p.padding, filler)
  }

  function PaddingCount(b: seq<Byte>): Byte
    requires |b| >= FIXED_SIZE
  {
    if PaddingBit(b[0]) then b[|b| - 1] else 0
  }

  /** Where the CSRC list ends. */
  function CsrcEnd(b: seq<Byte>): nat
    requires |b| >= FIXED_SIZE
  {
    FIXED_SIZE + 4 * Count(b[0])
  }

  /** Where the payload starts; needs the extension's own header when there is one. */
  function PayloadStart(b: seq<Byte>): nat
    requires |b| >= FIXED_SIZE && (ExtensionBit(b[0]) ==> CsrcEnd(b) + 4 <= |b|)
  {
    if ExtensionBit(b[0]) then CsrcEnd(b) + 4 + 4 * Read16(b, CsrcEnd(b) + 2) else CsrcEnd(b)
  }

  /** The packets the format admits. */
  predicate Acceptable(b: seq<Byte>) {
    && |b| >= FIXED_SIZE
    && Version(b[0]) == 2
    && (PaddingBit(b[0]) ==> PaddingCount(b) != 0)
    && (ExtensionBit(b[0]) ==> CsrcEnd(b) + 4 <= |b|)
    && PayloadStart(b) + PaddingCount(b) <= |b|
  }

  function DecodeExtension(b: seq<Byte>): Option<Extension>
    requires Acceptable(b)
  {
    var at := CsrcEnd(b);
    if ExtensionBit(b[0])
    then Some(Extension(Read16(b, at), Read16(b, at + 2), b[at + 4..PayloadStart(b)]))
    else None
  }

  function Decode(b: seq<Byte>): Option<Rtp> {
    if !Acceptable(b) then None
    else Some(Rtp(
      MarkerBit(b[1]), PayloadType(b[1]), Read16(b, 2), Read32(b, 4), Read32(b, 8),
      Words(b[FIXED_SIZE..CsrcEnd(b)]), DecodeExtension(b),
      b[PayloadStart(b)..|b| - PaddingCount(b)], PaddingCount(b)))
  }

  /** The padding octets of an acceptable packet, without the count. */
  function Filler(b: seq<Byte>): seq<Byte>
    requires Acceptable(b)
  {
    if PaddingBit(b[0]) then b[|b| - PaddingCount(b)..|b| - 1] else []
  }

  /** The twelve fixed octets, read back. */
  lemma HeaderReads(p: Rtp)
    requires WellFormed(p)
    ensures var h := Header(p);
            && Version(h[0]) == 2 && PaddingBit(h[0]) == (p.padding != 0)
            && ExtensionBit(h[0]) == p.extension.Some? && Count(h[0]) == |p.csrc|
            && MarkerBit(h[1]) == p.marked && PayloadType(h[1]) == p.payloadType
            && Read16(h, 2) == p.sequence && Read32(h, 4) == p.timestamp && Read32(h, 8) == p.ssrc
  {
    var h := Header(p);
    FlagsFields(2, p.padding != 0, p.extension.Some?, |p.csrc|);
    assert h[2..4] == Bytes16(p.sequence)[0..2];
    Read16Frame(h, 2, Bytes16(p.sequence), 0);
    assert h[4..8] == Bytes32(p.timestamp)[0..4];
    Read32Frame(h, 4, Bytes32(p.timestamp), 0);
    assert h[8..12] == Bytes32(p.ssrc)[0..4];
    Read32Frame(h, 8, Bytes32(p.ssrc), 0);
  }

  /** The regions of a packet cut at `at`, `start` and `end`. */
  predicate Regions(b: seq<Byte>, p: Rtp, at: nat, start: nat, end: nat) {
    && FIXED_SIZE <= at <= start <= end <= |b|
    && at == FIXED_SIZE + 4 * |p.csrc| && start == at + ExtensionSize(p.extension)
    && end == start + |p.payload| && |b| == end + p.padding
    && (p.padding != 0 ==> b[|b| - 1] == p.padding)
    && b[FIXED_SIZE..at] == BytesOfWords(p.csrc)
    && b[at..start] == ExtensionBytes(p.extension)
    && b[start..end] == p.payload
  }

  /** A packet is encoded exactly when its header octets and its four regions are in place. */
  lemma EncodedRegions(p: Rtp, filler: seq<Byte>)
    requires WellFormed(p) && Fills(filler, p.padding)
    ensures var b := Encode(p, filler);
            var at := FIXED_SIZE + 4 * |p.csrc|;
            var start := at + ExtensionSize(p.extension);
            var end := start + |p.payload|;
            && b[..FIXED_SIZE] == Header(p) && Regions(b, p, at, start, end)
            && b[end..] == Trailer(p.padding, filler)
  {
    Parts(Header(p), BytesOfWords(p.csrc), ExtensionBytes(p.extension), p.payload, Trailer(p.padding, filler));
  }

  /** The parts of a concatenation, cut out again. */
  lemma Parts<T>(h: seq<T>, w: seq<T>, e: seq<T>, p: seq<T>, t: seq<T>)
    ensures var b, i, j, k := h + w + e + p + t, |h| + |w|, |h| + |w| + |e|, |h| + |w| + |e| + |p|;
            b[..|h|] == h && b[|h|..i] == w && b[i..j] == e && b[j..k] == p && b[k..] == t
  {
  }

  lemma RegionsEncode(b: seq<Byte>, p: Rtp, at: nat, start: nat, end: nat)
    requires WellFormed(p) && Regions(b, p, at, start, end)
    requires b[..FIXED_SIZE] == Header(p)
    ensures var filler := if p.padding == 0 then [] else b[end..|b| - 1];
            Fills(filler, p.padding) && Encode(p, filler) == b
  {
    assert b == b[..FIXED_SIZE] + b[FIXED_SIZE..at] + b[at..start] + b[start..end] + b[end..];
    if p.padding != 0 {
      assert b[end..] == b[end..|b| - 1] + [p.padding];
    }
  }

  lemma HeaderDecode(b: seq<Byte>, p: Rtp)
    requires WellFormed(p) && |b| >= FIXED_SIZE && b[..FIXED_SIZE] == Header(p)
    ensures Version(b[0]) == 2 && PaddingBit(b[0]) == (p.padding != 0)
    ensures ExtensionBit(b[0]) == p.extension.Some? && Count(b[0]) == |p.csrc|
    ensures MarkerBit(b[1]) == p.marked && PayloadType(b[1]) == p.payloadType
    ensures Read16(b, 2) == p.sequence && Read32(b, 4) == p.timestamp && Read32(b, 8) == p.ssrc
  {
    var h := b[..FIXED_SIZE];
    HeaderReads(p);
    assert b[0] == h[0] && b[1] == h[1];
    Read16Frame(b, 2, h, 2);
    Read32Frame(b, 4, h, 4);
    Read32Frame(b, 8, h, 8);
  }

  /** The decoder cuts a packet where its regions are. */
  lemma RegionsBounds(b: seq<Byte>, p: Rtp, at: nat, start: nat, end: nat)
    requires WellFormed(p) && Regions(b, p, at, start, end)
    requires b[..FIXED_SIZE] == Header(p)
    ensures Acceptable(b) && CsrcEnd(b) == at && PayloadStart(b) == start && |b| - PaddingCount(b) == end
    ensures DecodeExtension(b) == p.extension && PaddingCount(b) == p.padding
  {
    HeaderDecode(b, p);
    assert CsrcEnd(b) == at;
    if p.extension.Some? {
      ExtensionReads(b, p.extension.value, at, start);
    }
  }

  /** Header octets and regions in place are decoded to the packet. */
  lemma RegionsDecode(b: seq<Byte>, p: Rtp, at: nat, start: nat, end: nat)
    requires WellFormed(p) && Regions(b, p, at, start, end)
    requires b[..FIXED_SIZE] == Header(p)
    ensures Decode(b) == Some(p)
  {
    RegionsBounds(b, p, at, start, end);
    HeaderDecode(b, p);
    var q := Decode(b).value;
    assert q.csrc == p.csrc by { WordsOfBytes(p.csrc); }
    assert q.payload == p.payload;
    assert q.extension == p.extension;
  }

  lemma ExtensionReads(b: seq<Byte>, e: Extension, at: nat, start: nat)
    requires at <= start <= |b| && b[at..start] == ExtensionBytes(Some(e))
    ensures Read16(b, at) == e.id && Read16(b, at + 2) == e.length && b[at + 4..start] == e.data
  {
    var x := ExtensionBytes(Some(e));
    assert x == Bytes16(e.id) + Bytes16(e.length) + e.data;
    assert forall k :: 0 <= k < |x| ==> b[at + k] == b[at..start][k];
    assert b[at] == x[0] && b[at + 1] == x[1] && b[at + 2] == x[2] && b[at + 3] == x[3];
    assert b[at + 4..start] == x[4..];
  }

  /** Round trip, first half: every well-formed packet is read back from its octets, whatever the filler. */
  lemma DecodeEncode(p: Rtp, filler: seq<Byte>)
    requires WellFormed(p) && Fills(filler, p.padding)
    ensures Decode(Encode(p, filler)) == Some(p)
    ensures Filler(Encode(p, filler)) == filler
  {
    hide Encode, Words, Read16, Read32;
    var b := Encode(p, filler);
    var at := FIXED_SIZE + 4 * |p.csrc|;
    var start := at + ExtensionSize(p.extension);
    var end := start + |p.payload|;
    EncodedRegions(p, filler);
    RegionsDecode(b, p, at, start, end);
    assert Decode(b).value.padding == p.padding;
    if p.padding != 0 {
      assert b[end..|b| - 1] == b[end..][..p.padding - 1] == filler;
    }
  }

  /** The fixed octets of an acceptable packet are the header of what it decodes to. */
  lemma HeaderOfDecoded(b: seq<Byte>)
    requires Acceptable(b)
    ensures WellFormed(Decode(b).value) && b[..FIXED_SIZE] == Header(Decode(b).value)
  {
    hide Words, Read16, Read32, Bytes16, Bytes32;
    var p := Decode(b).value;
    FlagsOfFields(b[0]);
    Bytes16OfRead16(b, 2);
    Bytes32OfRead32(b, 4);
    Bytes32OfRead32(b, 8);
    assert b[..FIXED_SIZE] == [b[0], b[1]] + b[2..4] + b[4..8] + b[8..12];
  }

  lemma ExtensionOfDecoded(b: seq<Byte>)
    requires Acceptable(b)
    ensures ExtensionBytes(DecodeExtension(b)) == b[CsrcEnd(b)..PayloadStart(b)]
  {
    var at, start := CsrcEnd(b), PayloadStart(b);
    if ExtensionBit(b[0]) {
      Bytes16OfRead16(b, at);
      Bytes16OfRead16(b, at + 2);
      assert b[at..start] == b[at..at + 2] + b[at + 2..at + 4] + b[at + 4..start];
    }
  }

  /** Round trip, second half: an acceptable packet is the encoding of what it decodes to. */
  lemma EncodeDecode(b: seq<Byte>)
    requires Acceptable(b)
    ensures WellFormed(Decode(b).value) && Fills(Filler(b), Decode(b).value.padding)
    ensures Encode(Decode(b).value, Filler(b)) == b
  {
    hide Words, BytesOfWords, Header, ExtensionBytes, Read16, Read32, Encode;
    HeaderOfDecoded(b);
    BytesOfWordsOf(b[FIXED_SIZE..CsrcEnd(b)]);
    ExtensionOfDecoded(b);
    RegionsEncode(b, Decode(b).value, CsrcEnd(b), PayloadStart(b), |b| - PaddingCount(b));
  }

  // ----- the format as a table of octets -----

  /** A 16-bit number at `at`, the most significant octet first. */
  predicate Half(b: seq<Byte>, at: nat, v: U16) {
    at + 2 <= |b| && v == b[at] as int * 0x100 + b[at + 1]
  }

  /** A 32-bit number at `at`. */
  predicate Word(b: seq<Byte>, at: nat, v: U32) {
    at + 4 <= |b| && v == b[at] as int * 0x100_0000 + b[at + 1] as int * 0x1_0000 + b[at + 2] as int * 0x100 + b[at + 3]
  }

  /** The first twelve octets of a packet, field by field. */
  predicate HeaderLaidOut(b: seq<Byte>, p: Rtp) {
    && |b| >= 12 && p.payloadType < 128 && |p.csrc| < 16
    && b[0] == 128 + (if p.padding > 0 then 32 else 0) + (if p.extension.Some? then 16 else 0) + |p.csrc|
    && b[1] == (if p.marked then 128 else 0) + p.payloadType
    && Half(b, 2, p.sequence) && Word(b, 4, p.timestamp) && Word(b, 8, p.ssrc)
  }

  predicate SourcesLaidOut(b: seq<Byte>, at: nat, w: seq<U32>) {
    forall i :: 0 <= i < |w| ==> Word(b, at + 4 * i, w[i])
  }

  predicate ExtensionLaidOut(b: seq<Byte>, at: nat, e: Extension) {
    && at + 4 + 4 * e.length <= |b| && Half(b, at, e.id) && Half(b, at + 2, e.length)
    && e.data == b[at + 4..at + 4 + 4 * e.length]
  }

  /** The payload, and the padding whose last octet is its count, up to the end of the packet. */
  predicate TailLaidOut(b: seq<Byte>, start: nat, payload: seq<Byte>, padding: Byte) {
    && |b| == start + |payload| + padding
    && payload == b[start..start + |payload|]
    && (padding > 0 ==> b[|b| - 1] == padding)
  }

  /** Header, CSRC list, extension, payload and padding, one after the other. */
  predicate LaidOut(b: seq<Byte>, p: Rtp) {
    && HeaderLaidOut(b, p) && SourcesLaidOut(b, 12, p.csrc)
    && var at := 12 + 4 * |p.csrc|;
    if p.extension.Some? then
      && ExtensionLaidOut(b, at, p.extension.value)
      && TailLaidOut(b, at + 4 + 4 * p.extension.value.length, p.payload, p.padding)
    else TailLaidOut(b, at, p.payload, p.padding)
  }

  lemma HalfIsBytes(b: seq<Byte>, at: nat, v: U16)
    requires at + 2 <= |b|
    ensures Half(b, at, v) <==> b[at..at + 2] == Bytes16(v)
  {
    Bytes16OfRead16(b, at);
    if b[at..at + 2] == Bytes16(v) {
      Read16Frame(b, at, Bytes16(v), 0);
    }
  }

  lemma WordIsBytes(b: seq<Byte>, at: nat, v: U32)
    requires at + 4 <= |b|
    ensures Word(b, at, v) <==> b[at..at + 4] == Bytes32(v)
  {
    Bytes32OfRead32(b, at);
    if b[at..at + 4] == Bytes32(v) {
      Read32Frame(b, at, Bytes32(v), 0);
    }
  }

  lemma HeaderIsTable(b: seq<Byte>, p: Rtp)
    requires |b| >= FIXED_SIZE && WellFormed(p)
    ensures b[..FIXED_SIZE] == Header(p) <==> HeaderLaidOut(b, p)
  {
    hide Bytes16, Bytes32;
    HalfIsBytes(b, 2, p.sequence);
    WordIsBytes(b, 4, p.timestamp);
    WordIsBytes(b, 8, p.ssrc);
    var h := Header(p);
    assert h[2..4] == Bytes16(p.sequence) && h[4..8] == Bytes32(p.timestamp) && h[8..12] == Bytes32(p.ssrc);
    assert b[..FIXED_SIZE] == [b[0], b[1]] + b[2..4] + b[4..8] + b[8..12];
    if b[..FIXED_SIZE] == h {
      assert b[0] == h[0] && b[1] == h[1];
      assert b[2..4] == b[..FIXED_SIZE][2..4] && b[4..8] == b[..FIXED_SIZE][4..8] && b[8..12] == b[..FIXED_SIZE][8..12];
    }
  }

  lemma BothParts<T>(x: seq<T>, y: seq<T>, u: seq<T>, v: seq<T>)
    requires |x| == |u|
    ensures x + y == u + v <==> x == u && y == v
  {
    if x + y == u + v {
      assert (x + y)[..|x|] == x && (u + v)[..|x|] == u && (x + y)[|x|..] == y && (u + v)[|x|..] == v;
    }
  }

  lemma {:induction false} WordsAreTable(b: seq<Byte>, at: nat, w: seq<U32>)
    requires at + 4 * |w| <= |b|
    ensures b[at..at + 4 * |w|] == BytesOfWords(w) <==> SourcesLaidOut(b, at, w)
  {
    hide Word, Bytes32;
    if w == [] {
    } else {
      var init, v := w[..|w| - 1], w[|w| - 1];
      var mid, end := at + 4 * |init|, at + 4 * |w|;
      WordsAreTable(b, at, init);
      WordIsBytes(b, mid, v);
      BytesOfWordsSnoc(init, v);
      SourcesSnoc(b, at, init, v);
      hide BytesOfWords, SourcesLaidOut;
      assert w == init + [v];
      assert b[at..end] == b[at..mid] + b[mid..end];
      BothParts(b[at..mid], b[mid..end], BytesOfWords(init), Bytes32(v));
    }
  }

  lemma SourcesSnoc(b: seq<Byte>, at: nat, w: seq<U32>, v: U32)
    ensures SourcesLaidOut(b, at, w + [v]) <==> SourcesLaidOut(b, at, w) && Word(b, at + 4 * |w|, v)
  {
    hide Word;
    var x := w + [v];
    assert x[|w|] == v && forall i :: 0 <= i < |w| ==> x[i] == w[i];
  }

  lemma ThreeParts<T>(b: seq<T>, at: nat, x: seq<T>, y: seq<T>, z: seq<T>)
    requires at + |x| + |y| + |z| <= |b|
    ensures var i, j, k := at + |x|, at + |x| + |y|, at + |x| + |y| + |z|;
            b[at..k] == x + y + z <==> b[at..i] == x && b[i..j] == y && b[j..k] == z
  {
    var i, j, k := at + |x|, at + |x| + |y|, at + |x| + |y| + |z|;
    assert b[at..k] == b[at..i] + b[i..j] + b[j..k];
    BothParts(b[at..i] + b[i..j], b[j..k], x + y, z);
    BothParts(b[at..i], b[i..j], x, y);
  }

  lemma ExtensionIsTable(b: seq<Byte>, at: nat, e: Extension)
    requires at + 4 + 4 * e.length <= |b| && |e.data| == 4 * e.length
    ensures b[at..at + 4 + 4 * e.length] == ExtensionBytes(Some(e)) <==> ExtensionLaidOut(b, at, e)
  {
    HalfIsBytes(b, at, e.id);
    HalfIsBytes(b, at + 2, e.length);
    hide Half, Bytes16;
    ThreeParts(b, at, Bytes16(e.id), Bytes16(e.length), e.data);
  }

  /** Everything behind the header and the CSRC list. */
  lemma TailIsTable(b: seq<Byte>, p: Rtp, at: nat, start: nat, end: nat)
    requires WellFormed(p) && at == FIXED_SIZE + 4 * |p.csrc| && start == at + ExtensionSize(p.extension)
    requires end == start + |p.payload|
    ensures Regions(b, p, at, start, end) <==>
      TailLaidOut(b, start, p.payload, p.padding)
      && b[FIXED_SIZE..at] == BytesOfWords(p.csrc) && b[at..start] == ExtensionBytes(p.extension)
  {
    hide BytesOfWords, ExtensionBytes;
  }

  lemma TableParts(b: seq<Byte>, p: Rtp, at: nat, start: nat)
    requires WellFormed(p) && at == FIXED_SIZE + 4 * |p.csrc| && start == at + ExtensionSize(p.extension)
    ensures LaidOut(b, p) <==>
      && HeaderLaidOut(b, p) && SourcesLaidOut(b, FIXED_SIZE, p.csrc)
      && (p.extension.Some? ==> ExtensionLaidOut(b, at, p.extension.value))
      && TailLaidOut(b, start, p.payload, p.padding)
  {
    hide HeaderLaidOut, SourcesLaidOut, ExtensionLaidOut, TailLaidOut;
  }

  lemma ExtensionPartIsTable(b: seq<Byte>, at: nat, start: nat, e: Option<Extension>)
    requires start == at + ExtensionSize(e) <= |b|
    requires e.Some? ==> |e.value.data| == 4 * e.value.length
    ensures b[at..start] == ExtensionBytes(e) <==> (e.Some? ==> ExtensionLaidOut(b, at, e.value))
  {
    if e.Some? {
      ExtensionIsTable(b, at, e.value);
    }
  }

  lemma RegionsAreTable(b: seq<Byte>, p: Rtp, at: nat, start: nat, end: nat)
    requires WellFormed(p) && |b| >= FIXED_SIZE
    requires at == FIXED_SIZE + 4 * |p.csrc| && start == at + ExtensionSize(p.extension) && end == start + |p.payload|
    ensures b[..FIXED_SIZE] == Header(p) && Regions(b, p, at, start, end) <==> LaidOut(b, p)
  {
    HeaderIsTable(b, p);
    TailIsTable(b, p, at, start, end);
    TableParts(b, p, at, start);
    if TailLaidOut(b, start, p.payload, p.padding) {
      WordsAreTable(b, FIXED_SIZE, p.csrc);
      ExtensionPartIsTable(b, at, start, p.extension);
    }
    hide Regions, Header, HeaderLaidOut, SourcesLaidOut, ExtensionLaidOut, BytesOfWords, ExtensionBytes, WellFormed;
    hide TailLaidOut, LaidOut, ExtensionSize;
  }

  lemma DecodedRegions(b: seq<Byte>, p: Rtp)
    requires Decode(b) == Some(p)
    ensures WellFormed(p) && |b| >= FIXED_SIZE && b[..FIXED_SIZE] == Header(p)
    ensures var at := FIXED_SIZE + 4 * |p.csrc|;
            var start := at + ExtensionSize(p.extension);
            Regions(b, p, at, start, start + |p.payload|)
  {
    assert Acceptable(b);
    EncodeDecode(b);
    hide Decode, Encode, Filler, Header, Regions, Acceptable;
    EncodedRegions(p, Filler(b));
  }

  lemma LaidOutWellFormed(b: seq<Byte>, p: Rtp)
    requires LaidOut(b, p)
    ensures WellFormed(p) && |b| >= FIXED_SIZE
  {
  }

  /** Octets decode to a packet exactly when they are laid out as the table says. */
  lemma DecodesIffLaidOut(b: seq<Byte>, p: Rtp)
    ensures Decode(b) == Some(p) <==> LaidOut(b, p)
  {
    hide Decode, LaidOut, Header, Regions, WellFormed;
    var at := FIXED_SIZE + 4 * |p.csrc|;
    var start := at + ExtensionSize(p.extension);
    if Decode(b) == Some(p) {
      DecodedRegions(b, p);
      RegionsAreTable(b, p, at, start, start + |p.payload|);
    } else if LaidOut(b, p) {
      LaidOutWellFormed(b, p);
      RegionsAreTable(b, p, at, start, start + |p.payload|);
      RegionsDecode(b, p, at, start, start + |p.payload|);
    }
  }
}
