/**
 How one buffer and a few numbers stand for an RTP packet: the layout `RtpPacket` keeps while it edits
 (backend/src/ThirdParty/RtpCpp/RtpPacket.hpp:683-693). `Framed` is the invariant, `View` the packet the
 buffer stands for. Each lemma is the effect of one kind of edit on both.
 */
module Layout {
  import opened Option
  import opened Octets
  import opened Endian
  import opened Wire

  datatype FixedHeader = FixedHeader(
    timestamp: U32, ssrc: U32, sequence: U16, csrcCount: Byte, payloadType: Byte, extended: bool, marked: bool)

  datatype ExtensionHeader = ExtensionHeader(id: U16, length: U16)

  const NO_FIELDS := FixedHeader(0, 0, 0, 0, 0, false, false)
  const NO_EXTENSION := ExtensionHeader(0, 0)

  /** Everything the editor remembers beside the buffer and the offsets derived from it. */
  datatype Shape = Shape(fields: FixedHeader, extension: ExtensionHeader, payloadSize: nat, padding: Byte) {
    function CsrcEnd(): nat { FIXED_SIZE + 4 * fields.csrcCount }

    function ExtensionSize(): nat { if fields.extended then 4 + 4 * extension.length else 0 }

    function PayloadOffset(): nat { CsrcEnd() + ExtensionSize() }

    function PayloadEnd(): nat { PayloadOffset() + payloadSize }

    function PacketSize(): nat { PayloadEnd() + padding }

    predicate Fits(capacity: nat) { fields.csrcCount <= MAX_CSRC && PacketSize() <= capacity }
  }

  /** The packet that `b` stands for under the shape `s`. */
  function View(b: seq<Byte>, s: Shape): Rtp
    requires s.Fits(|b|)
  {
    Rtp(s.fields.marked, s.fields.payloadType, s.fields.sequence, s.fields.timestamp, s.fields.ssrc,
        Words(b[FIXED_SIZE..s.CsrcEnd()]), ViewExtension(b, s),
        b[s.PayloadOffset()..s.PayloadEnd()], s.padding)
  }

  function ViewExtension(b: seq<Byte>, s: Shape): Option<Extension>
    requires s.Fits(|b|)
  {
    if s.fields.extended
    then Some(Extension(s.extension.id, s.extension.length, b[s.CsrcEnd() + 4..s.PayloadOffset()]))
    else None
  }

  /** The octets that leave with the packet: the version is stamped last. */
  function Stamped(b: seq<Byte>): (r: seq<Byte>)
    requires |b| > 0
    ensures |r| == |b|
  {
    b[0 := WithVersion2(b[0])]
  }

  /** The first twelve octets a shape asks for. */
  function HeaderOf(s: Shape): (h: seq<Byte>)
    requires s.fields.csrcCount <= MAX_CSRC && s.fields.payloadType < 128
    ensures |h| == FIXED_SIZE
  {
    [Flags(2, s.padding != 0, s.fields.extended, s.fields.csrcCount),
     MarkerAndType(s.fields.marked, s.fields.payloadType)]
    + Bytes16(s.fields.sequence) + Bytes32(s.fields.timestamp) + Bytes32(s.fields.ssrc)
  }

  /** The layout invariant. */
  predicate Framed(b: seq<Byte>, s: Shape) {
    && s.Fits(|b|)
    && s.fields.payloadType < 128
    && Stamped(b[..FIXED_SIZE]) == HeaderOf(s)
    && (s.fields.extended ==> b[s.CsrcEnd()..s.CsrcEnd() + 4] == Bytes16(s.extension.id) + Bytes16(s.extension.length))
    && (s.padding != 0 ==> b[s.PacketSize() - 1] == s.padding)
  }

  lemma ViewWellFormed(b: seq<Byte>, s: Shape)
    requires Framed(b, s)
    ensures WellFormed(View(b, s)) && Size(View(b, s)) == s.PacketSize()
    ensures Header(View(b, s)) == HeaderOf(s)
  {
  }

  /** What a caller needs of the invariant to do its arithmetic. */
  lemma FramedFits(b: seq<Byte>, s: Shape)
    requires Framed(b, s)
    ensures s.Fits(|b|) && FIXED_SIZE <= s.CsrcEnd() <= s.PayloadOffset() <= s.PayloadEnd() <= s.PacketSize()
    ensures Size(View(b, s)) == s.PacketSize() && |View(b, s).csrc| == s.fields.csrcCount
    ensures View(b, s).payload == b[s.PayloadOffset()..s.PayloadEnd()] && View(b, s).padding == s.padding
    ensures View(b, s).extension.Some? == s.fields.extended && View(b, s).marked == s.fields.marked
    ensures ExtensionSize(View(b, s).extension) == s.ExtensionSize()
  {
  }

  lemma ViewExtensionHeader(b: seq<Byte>, s: Shape)
    requires s.Fits(|b|)
    ensures View(b, s).extension.Some? == s.fields.extended
    ensures s.fields.extended ==>
      View(b, s).extension.value.id == s.extension.id && View(b, s).extension.value.length == s.extension.length
  {
  }

  lemma StampedSlice(b: seq<Byte>, n: nat, i: nat, j: nat)
    requires 1 <= i <= j <= n <= |b|
    ensures Stamped(b[..n])[i..j] == b[i..j]
  {
  }

  lemma FramedRegions(b: seq<Byte>, s: Shape)
    requires Framed(b, s)
    ensures Regions(Stamped(b[..s.PacketSize()]), View(b, s), s.CsrcEnd(), s.PayloadOffset(), s.PayloadEnd())
  {
    var n, p := s.PacketSize(), View(b, s);
    StampedSlice(b, n, FIXED_SIZE, s.CsrcEnd());
    BytesOfWordsOf(b[FIXED_SIZE..s.CsrcEnd()]);
    StampedSlice(b, n, s.CsrcEnd(), s.PayloadOffset());
    if s.fields.extended {
      SliceSplit(b, s.CsrcEnd(), s.CsrcEnd() + 4, s.PayloadOffset());
    }
    assert b[s.CsrcEnd()..s.PayloadOffset()] == ExtensionBytes(p.extension);
    StampedSlice(b, n, s.PayloadOffset(), s.PayloadEnd());
  }

  /** The layout invariant is the wire format: the stamped packet decodes to the view. */
  lemma FramedDecodes(b: seq<Byte>, s: Shape)
    requires Framed(b, s)
    ensures Decode(Stamped(b[..s.PacketSize()])) == Some(View(b, s))
  {
    var w := Stamped(b[..s.PacketSize()]);
    ViewWellFormed(b, s);
    FramedRegions(b, s);
    assert w[..FIXED_SIZE] == Stamped(b[..FIXED_SIZE]);
    RegionsDecode(w, View(b, s), s.CsrcEnd(), s.PayloadOffset(), s.PayloadEnd());
  }

  /** What agrees on a range agrees on its parts. */
  lemma SamePart<T>(b: seq<T>, b': seq<T>, lo: nat, hi: nat, i: nat, j: nat)
    requires lo <= i <= j <= hi <= |b| && hi <= |b'| && b[lo..hi] == b'[lo..hi]
    ensures b[i..j] == b'[i..j]
  {
    SubSlice(b, i, j, lo, hi);
    SubSlice(b', i, j, lo, hi);
  }

  lemma SliceSplit<T>(b: seq<T>, i: nat, j: nat, k: nat)
    requires i <= j <= k <= |b|
    ensures b[i..j] + b[j..k] == b[i..k]
  {
  }

  /** Sequences with the same tail have the same slices in it. */
  lemma TailSlice<T>(b: seq<T>, b': seq<T>, from: nat, i: nat, j: nat)
    requires |b| == |b'| && from <= i <= j <= |b| && b[from..] == b'[from..]
    ensures b[i..j] == b'[i..j]
  {
    forall k | 0 <= k < j - i
      ensures b[i..j][k] == b'[i..j][k]
    {
      assert b[from..][i + k - from] == b'[from..][i + k - from];
    }
  }

  /** A slice of a slice. */
  lemma SubSlice<T>(b: seq<T>, i: nat, j: nat, x: nat, y: nat)
    requires x <= i <= j <= y <= |b|
    ensures b[i..j] == b[x..y][i - x..j - x]
  {
    forall k | 0 <= k < j - i
      ensures b[i..j][k] == b[x..y][i - x..j - x][k]
    {
      assert b[x..y][i - x + k] == b[i + k];
    }
  }

  lemma LastOfSlice<T>(b: seq<T>, n: nat)
    requires 1 <= n <= |b|
    ensures b[n - 1..n] == [b[n - 1]]
  {
  }

  /** What lies behind the fixed header, under shapes that differ in the fixed header only. */
  lemma SameTail(b: seq<Byte>, b': seq<Byte>, s: Shape)
    requires s.Fits(|b|) && |b'| == |b| && b'[FIXED_SIZE..] == b[FIXED_SIZE..]
    ensures b[FIXED_SIZE..s.CsrcEnd()] == b'[FIXED_SIZE..s.CsrcEnd()]
    ensures b[s.PayloadOffset()..s.PayloadEnd()] == b'[s.PayloadOffset()..s.PayloadEnd()]
    ensures ViewExtension(b, s) == ViewExtension(b', s)
    ensures s.fields.extended ==> b[s.CsrcEnd()..s.CsrcEnd() + 4] == b'[s.CsrcEnd()..s.CsrcEnd() + 4]
    ensures s.padding != 0 ==> b[s.PacketSize() - 1] == b'[s.PacketSize() - 1]
  {
    TailSlice(b, b', FIXED_SIZE, FIXED_SIZE, s.CsrcEnd());
    TailSlice(b, b', FIXED_SIZE, s.PayloadOffset(), s.PayloadEnd());
    if s.fields.extended {
      TailSlice(b, b', FIXED_SIZE, s.CsrcEnd(), s.CsrcEnd() + 4);
      TailSlice(b, b', FIXED_SIZE, s.CsrcEnd() + 4, s.PayloadOffset());
    }
    if s.padding != 0 {
      TailSlice(b, b', FIXED_SIZE, s.PacketSize() - 1, s.PacketSize());
      LastOfSlice(b, s.PacketSize());
      LastOfSlice(b', s.PacketSize());
    }
  }

  /** The twelve fixed octets, field by field. */
  lemma HeaderParts(b: seq<Byte>, s: Shape)
    requires |b| >= FIXED_SIZE && s.fields.csrcCount <= MAX_CSRC && s.fields.payloadType < 128
    ensures Stamped(b[..FIXED_SIZE]) == HeaderOf(s) <==>
            && WithVersion2(b[0]) == Flags(2, s.padding != 0, s.fields.extended, s.fields.csrcCount)
            && b[1] == MarkerAndType(s.fields.marked, s.fields.payloadType)
            && b[2..4] == Bytes16(s.fields.sequence)
            && b[4..8] == Bytes32(s.fields.timestamp)
            && b[8..12] == Bytes32(s.fields.ssrc)
  {
    var h, w := HeaderOf(s), Stamped(b[..FIXED_SIZE]);
    assert h[2..4] == Bytes16(s.fields.sequence) && h[4..8] == Bytes32(s.fields.timestamp);
    assert h[8..12] == Bytes32(s.fields.ssrc);
    assert w[2..4] == b[2..4] && w[4..8] == b[4..8] && w[8..12] == b[8..12];
    assert w == [w[0], w[1]] + w[2..4] + w[4..8] + w[8..12];
    assert h == [h[0], h[1]] + h[2..4] + h[4..8] + h[8..12];
  }

  /** Single octets under the invariant: the SSRC, and the header of an extension. */
  lemma FramedOctets(b: seq<Byte>, s: Shape)
    requires Framed(b, s)
    ensures s.Fits(|b|) && View(b, s).ssrc == s.fields.ssrc && b[8..12] == Bytes32(s.fields.ssrc)
    ensures s.fields.extended ==>
      b[s.CsrcEnd()..s.CsrcEnd() + 4] == Bytes16(s.extension.id) + Bytes16(s.extension.length)
  {
    hide Words;
    HeaderParts(b, s);
  }

  /** An all-zero buffer is the empty packet. */
  lemma ZeroFramed(b: seq<Byte>)
    requires |b| >= FIXED_SIZE && forall i :: 0 <= i < |b| ==> b[i] == 0
    ensures var s := Shape(NO_FIELDS, NO_EXTENSION, 0, 0);
            Framed(b, s) && View(b, s) == EMPTY && s.CsrcEnd() == s.PayloadOffset() == s.PacketSize() == FIXED_SIZE
  {
    hide Words;
    var s := Shape(NO_FIELDS, NO_EXTENSION, 0, 0);
    HeaderParts(b, s);
    assert b[FIXED_SIZE..FIXED_SIZE] == [] && Words([]) == [] by { NoWords(); }
  }

  /** An edit of the fixed header: nothing behind the twelfth octet moves. */
  lemma HeaderStep(b: seq<Byte>, s: Shape, b': seq<Byte>, f: FixedHeader)
    requires Framed(b, s)
    requires f.csrcCount == s.fields.csrcCount && f.extended == s.fields.extended && f.payloadType < 128
    requires |b'| == |b| && b'[FIXED_SIZE..] == b[FIXED_SIZE..]
    requires Stamped(b'[..FIXED_SIZE]) == HeaderOf(s.(fields := f))
    ensures Framed(b', s.(fields := f))
    ensures View(b', s.(fields := f))
         == View(b, s).(marked := f.marked, payloadType := f.payloadType, sequence := f.sequence,
                        timestamp := f.timestamp, ssrc := f.ssrc)
  {
    var s' := s.(fields := f);
    assert s'.CsrcEnd() == s.CsrcEnd() && s'.PayloadOffset() == s.PayloadOffset();
    assert s'.PayloadEnd() == s.PayloadEnd() && s'.PacketSize() == s.PacketSize();
    SameTail(b, b', s);
    assert Framed(b', s');
    var v, v' := View(b, s), View(b', s');
    assert v'.csrc == v.csrc && v'.extension == v.extension && v'.payload == v.payload;
  }

  /** One octet or one word of the fixed header was written, or left alone. */
  predicate Kept(x: int, x': int, octets: seq<Byte>, octets': seq<Byte>, written: seq<Byte>) {
    octets' == written || (x' == x && octets' == octets)
  }

  /** An edit of the fixed header, given by the octets it wrote. */
  lemma HeaderEdit(b: seq<Byte>, s: Shape, b': seq<Byte>, f: FixedHeader)
    requires Framed(b, s)
    requires f.csrcCount == s.fields.csrcCount && f.extended == s.fields.extended && f.payloadType < 128
    requires |b'| == |b| && b'[FIXED_SIZE..] == b[FIXED_SIZE..] && b'[0] == b[0]
    requires b'[1] == MarkerAndType(f.marked, f.payloadType)
          || (b'[1] == b[1] && f.marked == s.fields.marked && f.payloadType == s.fields.payloadType)
    requires Kept(s.fields.sequence, f.sequence, b[2..4], b'[2..4], Bytes16(f.sequence))
    requires Kept(s.fields.timestamp, f.timestamp, b[4..8], b'[4..8], Bytes32(f.timestamp))
    requires Kept(s.fields.ssrc, f.ssrc, b[8..12], b'[8..12], Bytes32(f.ssrc))
    ensures Framed(b', s.(fields := f))
    ensures View(b', s.(fields := f))
         == View(b, s).(marked := f.marked, payloadType := f.payloadType, sequence := f.sequence,
                        timestamp := f.timestamp, ssrc := f.ssrc)
  {
    HeaderParts(b, s);
    HeaderParts(b', s.(fields := f));
    HeaderStep(b, s, b', f);
  }

  lemma SecondOctet(b: seq<Byte>, s: Shape)
    requires Framed(b, s)
    ensures b[1] == MarkerAndType(s.fields.marked, s.fields.payloadType)
  {
    assert Stamped(b[..FIXED_SIZE])[1] == HeaderOf(s)[1];
  }

  /** A payload type of 128 or more is read back as a smaller one behind a set marker bit. */
  lemma PayloadTypeEdit(b: seq<Byte>, s: Shape, payloadType: Byte, f: FixedHeader)
    requires Framed(b, s)
    requires f == if payloadType < 128 then s.fields.(payloadType := payloadType)
                  else s.fields.(payloadType := payloadType - 128, marked := true)
    ensures var b', s' := b[1 := WithType(b[1], payloadType)], s.(fields := f);
            Framed(b', s') && View(b', s') == View(b, s).(marked := f.marked, payloadType := f.payloadType)
  {
    SecondOctet(b, s);
    HeaderEdit(b, s, b[1 := WithType(b[1], payloadType)], f);
  }

  lemma FlagsOf(b: seq<Byte>, s: Shape)
    requires Framed(b, s)
    ensures WithVersion2(b[0]) == Flags(2, s.padding != 0, s.fields.extended, s.fields.csrcCount)
  {
    assert Stamped(b[..FIXED_SIZE])[0] == HeaderOf(s)[0];
  }

  /** The stamped header when only the first octet was written. */
  lemma FirstOctet(b: seq<Byte>, s: Shape, b': seq<Byte>, s': Shape)
    requires Framed(b, s) && |b'| >= FIXED_SIZE && b'[1..FIXED_SIZE] == b[1..FIXED_SIZE]
    requires s'.fields.csrcCount <= MAX_CSRC
    requires s'.fields == s.fields.(csrcCount := s'.fields.csrcCount, extended := s'.fields.extended)
    requires WithVersion2(b'[0]) == Flags(2, s'.padding != 0, s'.fields.extended, s'.fields.csrcCount)
    ensures Stamped(b'[..FIXED_SIZE]) == HeaderOf(s')
  {
    var h, h' := HeaderOf(s), HeaderOf(s');
    assert h'[1..] == h[1..] == Stamped(b[..FIXED_SIZE])[1..] == b[1..FIXED_SIZE];
    assert Stamped(b'[..FIXED_SIZE]) == [WithVersion2(b'[0])] + b'[1..FIXED_SIZE];
  }

  /** An edit of payload or padding: nothing between the first octet and the payload moves. */
  lemma PayloadStep(b: seq<Byte>, s: Shape, b': seq<Byte>, s': Shape)
    requires Framed(b, s) && s'.Fits(|b'|)
    requires s'.fields == s.fields && s'.extension == s.extension
    requires b'[1..s.PayloadOffset()] == b[1..s.PayloadOffset()]
    requires WithVersion2(b'[0]) == Flags(2, s'.padding != 0, s'.fields.extended, s'.fields.csrcCount)
    requires s'.padding != 0 ==> b'[s'.PacketSize() - 1] == s'.padding
    ensures Framed(b', s')
    ensures View(b', s') == View(b, s).(payload := b'[s'.PayloadOffset()..s'.PayloadEnd()], padding := s'.padding)
  {
    hide Words, HeaderOf, Stamped, Bytes16, Flags, WithVersion2;
    var n := s.PayloadOffset();
    assert s'.CsrcEnd() == s.CsrcEnd() && s'.PayloadOffset() == n;
    SamePart(b, b', 1, n, 1, FIXED_SIZE);
    FirstOctet(b, s, b', s');
    SamePart(b, b', 1, n, FIXED_SIZE, s.CsrcEnd());
    if s.fields.extended {
      SamePart(b, b', 1, n, s.CsrcEnd(), s.CsrcEnd() + 4);
      SamePart(b, b', 1, n, s.CsrcEnd() + 4, n);
    }
    assert Framed(b', s');
    var v, v' := View(b, s), View(b', s');
    assert v'.csrc == v.csrc;
    assert v'.extension == v.extension;
  }

  /** The block from the extension to the end of the padding stands where `s'` has it. */
  predicate MovedCsrc(b: seq<Byte>, s: Shape, b': seq<Byte>, s': Shape) {
    && s.Fits(|b|) && s'.Fits(|b'|)
    && s' == s.(fields := s.fields.(csrcCount := s'.fields.csrcCount))
    && b'[s'.CsrcEnd()..s'.PacketSize()] == b[s.CsrcEnd()..s.PacketSize()]
  }

  lemma MovedBlock(b: seq<Byte>, s: Shape, b': seq<Byte>, s': Shape)
    requires MovedCsrc(b, s, b', s')
    ensures b'[s'.PayloadOffset()..s'.PayloadEnd()] == b[s.PayloadOffset()..s.PayloadEnd()]
    ensures b'[s'.PayloadEnd()..s'.PacketSize()] == b[s.PayloadEnd()..s.PacketSize()]
    ensures s.padding != 0 ==> b'[s'.PacketSize() - 1] == b[s.PacketSize() - 1]
    ensures ViewExtension(b', s') == ViewExtension(b, s)
    ensures s.fields.extended ==> b'[s'.CsrcEnd()..s'.CsrcEnd() + 4] == b[s.CsrcEnd()..s.CsrcEnd() + 4]
  {
    hide Words, HeaderOf, Bytes16;
    var x, x', e, p, n := s.CsrcEnd(), s'.CsrcEnd(), s.ExtensionSize(), s.payloadSize, s.PacketSize() - s.CsrcEnd();
    assert b'[x'..x' + n] == b[x..x + n];
    SameSub(b, b', x, x', n, e, e + p);
    SameSub(b, b', x, x', n, e + p, n);
    if s.padding != 0 {
      SameAt(b, b', x, x', n, n - 1);
    }
    if s.fields.extended {
      SameSub(b, b', x, x', n, 0, 4);
      SameSub(b, b', x, x', n, 4, e);
    }
  }

  /** Equal blocks have equal sub-blocks. */
  lemma SameSub<T>(b: seq<T>, b': seq<T>, x: nat, x': nat, n: nat, i: nat, j: nat)
    requires x + n <= |b| && x' + n <= |b'| && i <= j <= n
    requires b[x..x + n] == b'[x'..x' + n]
    ensures b[x + i..x + j] == b'[x' + i..x' + j]
  {
    SubSlice(b, x + i, x + j, x, x + n);
    SubSlice(b', x' + i, x' + j, x', x' + n);
  }

  /** A new CSRC list: extension, payload and padding are moved behind it as one block. */
  lemma CsrcStep(b: seq<Byte>, s: Shape, list: seq<U32>, b': seq<Byte>, s': Shape)
    requires Framed(b, s) && |list| == s'.fields.csrcCount && MovedCsrc(b, s, b', s')
    requires b'[0] == WithCount(b[0], |list|) && b'[1..FIXED_SIZE] == b[1..FIXED_SIZE]
    requires b'[FIXED_SIZE..s'.CsrcEnd()] == BytesOfWords(list)
    ensures Framed(b', s')
    ensures View(b', s') == View(b, s).(csrc := list)
    ensures b'[s'.PayloadEnd()..s'.PacketSize()] == b[s.PayloadEnd()..s.PacketSize()]
  {
    FlagsOf(b, s);
    StampedFlags(b[0], s.padding != 0, s.fields.extended, s.fields.csrcCount, false, |list|);
    FirstOctet(b, s, b', s');
    MovedBlock(b, s, b', s');
    assert Framed(b', s');
    var v, v' := View(b, s), View(b', s');
    assert v'.csrc == list by { WordsOfBytes(list); }
    assert v'.extension == v.extension;
    assert v'.payload == v.payload;
  }

  lemma SameAt<T>(b: seq<T>, b': seq<T>, x: nat, x': nat, n: nat, i: nat)
    requires x + n <= |b| && x' + n <= |b'| && i < n
    requires b[x..x + n] == b'[x'..x' + n]
    ensures b[x + i] == b'[x' + i]
  {
    assert b[x..x + n][i] == b'[x'..x' + n][i];
  }

  /** Payload and padding stand where `s'` has them. */
  predicate MovedExtension(b: seq<Byte>, s: Shape, b': seq<Byte>, s': Shape) {
    && s.Fits(|b|) && s'.Fits(|b'|)
    && s' == s.(fields := s.fields.(extended := s'.fields.extended), extension := s'.extension)
    && b'[s'.PayloadOffset()..s'.PacketSize()] == b[s.PayloadOffset()..s.PacketSize()]
  }

  lemma MovedPayload(b: seq<Byte>, s: Shape, b': seq<Byte>, s': Shape)
    requires MovedExtension(b, s, b', s')
    ensures b'[s'.PayloadOffset()..s'.PayloadEnd()] == b[s.PayloadOffset()..s.PayloadEnd()]
    ensures b'[s'.PayloadEnd()..s'.PacketSize()] == b[s.PayloadEnd()..s.PacketSize()]
    ensures s.padding != 0 ==> b'[s'.PacketSize() - 1] == b[s.PacketSize() - 1]
  {
    var x, x', p, n := s.PayloadOffset(), s'.PayloadOffset(), s.payloadSize, s.payloadSize + s.padding;
    assert b'[x'..x' + n] == b[x..x + n];
    SameSub(b, b', x, x', n, 0, p);
    SameSub(b, b', x, x', n, p, n);
    if s.padding != 0 {
      SameAt(b, b', x, x', n, n - 1);
    }
  }

  /** A new extension header: payload and padding are moved behind the room its data takes. */
  lemma ExtensionStep(b: seq<Byte>, s: Shape, b': seq<Byte>, s': Shape)
    requires Framed(b, s) && s'.fields.extended && MovedExtension(b, s, b', s')
    requires b'[s.CsrcEnd()..s.CsrcEnd() + 4] == Bytes16(s'.extension.id) + Bytes16(s'.extension.length)
    requires b'[0] == WithExtensionBit(b[0], true) && b'[1..s.CsrcEnd()] == b[1..s.CsrcEnd()]
    ensures Framed(b', s')
    ensures View(b', s') == View(b, s).(extension := Some(Extension(
              s'.extension.id, s'.extension.length, b'[s.CsrcEnd() + 4..s'.PayloadOffset()])))
    ensures b'[s'.PayloadEnd()..s'.PacketSize()] == b[s.PayloadEnd()..s.PacketSize()]
  {
    hide Words, HeaderOf, Stamped, Bytes16;
    var at := s.CsrcEnd();
    assert s'.CsrcEnd() == at && s'.padding == s.padding;
    FlagsOf(b, s);
    StampedFlags(b[0], s.padding != 0, s.fields.extended, s.fields.csrcCount, true, 0);
    SamePart(b, b', 1, at, 1, FIXED_SIZE);
    FirstOctet(b, s, b', s');
    SamePart(b, b', 1, at, FIXED_SIZE, at);
    MovedPayload(b, s, b', s');
    assert Framed(b', s');
    var v, v' := View(b, s), View(b', s');
    assert v'.csrc == v.csrc;
    assert v'.payload == v.payload;
  }

  lemma FramedFlags(b: seq<Byte>, s: Shape)
    requires Framed(b, s)
    ensures PaddingBit(b[0]) == (s.padding != 0) && ExtensionBit(b[0]) == s.fields.extended
  {
    FlagsOf(b, s);
    StampedFlags(b[0], s.padding != 0, s.fields.extended, s.fields.csrcCount, false, 0);
  }

  /** Clearing the padding bit alone: what the octets then stand for has the padding as payload. */
  lemma UnpadStep(b: seq<Byte>, s: Shape, b': seq<Byte>, s': Shape)
    requires Framed(b, s) && b' == b[0 := WithPaddingBit(b[0], false)]
    requires s' == s.(payloadSize := s.payloadSize + s.padding, padding := 0)
    ensures Framed(b', s') && s'.PacketSize() == s.PacketSize()
    ensures View(b', s') == View(b, s).(payload := b[s.PayloadOffset()..s.PacketSize()], padding := 0)
  {
    assert s'.PayloadOffset() == s.PayloadOffset() && s'.PayloadEnd() == s'.PacketSize() == s.PacketSize();
    FlagsOf(b, s);
    StampedFlags(b[0], s.padding != 0, s.fields.extended, s.fields.csrcCount, false, 0);
    UpdatedSlice(b, 0, b'[0], 1, s.PayloadOffset());
    PayloadStep(b, s, b', s');
    UpdatedSlice(b, 0, b'[0], s.PayloadOffset(), s.PacketSize());
    assert View(b', s').payload == b[s.PayloadOffset()..s.PacketSize()];
  }

  /** Clearing the extension bit alone: what the octets then stand for has the extension as payload. */
  lemma UnextendStep(b: seq<Byte>, s: Shape, b': seq<Byte>, s': Shape)
    requires Framed(b, s) && b' == b[0 := WithExtensionBit(b[0], false)]
    requires s' == s.(fields := s.fields.(extended := false), extension := NO_EXTENSION,
                     payloadSize := s.ExtensionSize() + s.payloadSize)
    ensures Framed(b', s') && s'.PacketSize() == s.PacketSize()
    ensures View(b', s') == View(b, s).(payload := b[s.CsrcEnd()..s.PayloadEnd()], extension := None)
  {
    assert s'.CsrcEnd() == s'.PayloadOffset() == s.CsrcEnd();
    assert s'.PayloadEnd() == s.PayloadEnd() && s'.PacketSize() == s.PacketSize();
    FlagsOf(b, s);
    StampedFlags(b[0], s.padding != 0, s.fields.extended, s.fields.csrcCount, false, 0);
    UpdatedSlice(b, 0, b'[0], 1, FIXED_SIZE);
    FirstOctet(b, s, b', s');
    UpdatedSlice(b, 0, b'[0], FIXED_SIZE, s.CsrcEnd());
    UpdatedSlice(b, 0, b'[0], s.CsrcEnd(), s.PayloadEnd());
    assert Framed(b', s');
    var v, v' := View(b, s), View(b', s');
    assert v'.csrc == v.csrc;
    assert v'.payload == b[s.CsrcEnd()..s.PayloadEnd()];
  }

  lemma UpdatedSlice<T>(b: seq<T>, at: nat, v: T, i: nat, j: nat)
    requires at < |b| && i <= j <= |b| && (at < i || j <= at)
    ensures b[at := v][i..j] == b[i..j]
  {
  }

  /** The shape a parser reads off an acceptable packet. */
  function ShapeOf(w: seq<Byte>): Shape
    requires Acceptable(w)
  {
    var at := CsrcEnd(w);
    Shape(
      FixedHeader(Read32(w, 4), Read32(w, 8), Read16(w, 2), Count(w[0]), PayloadType(w[1]), ExtensionBit(w[0]),
                  MarkerBit(w[1])),
      if ExtensionBit(w[0]) then ExtensionHeader(Read16(w, at), Read16(w, at + 2)) else NO_EXTENSION,
      |w| - PayloadStart(w) - PaddingCount(w), PaddingCount(w))
  }

  lemma ShapeOfOffsets(w: seq<Byte>)
    requires Acceptable(w)
    ensures var s := ShapeOf(w);
            && s.CsrcEnd() == CsrcEnd(w) && s.PayloadOffset() == PayloadStart(w)
            && s.PacketSize() == |w| && s.fields.csrcCount <= MAX_CSRC
  {
  }

  lemma ParsedHeader(b: seq<Byte>, n: nat)
    requires n <= |b| && Acceptable(b[..n])
    ensures Stamped(b[..n]) == b[..n]
    ensures Stamped(b[..FIXED_SIZE]) == HeaderOf(ShapeOf(b[..n]))
  {
    var w := b[..n];
    FlagsOfFields(w[0]);
    SetVersion(w[0]);
    assert WithVersion2(w[0]) == w[0];
    Bytes16OfRead16(w, 2);
    Bytes32OfRead32(w, 4);
    Bytes32OfRead32(w, 8);
    ShapeOfOffsets(w);
    PrefixSlice(b, n, 2, 4);
    PrefixSlice(b, n, 4, 8);
    PrefixSlice(b, n, 8, 12);
    HeaderParts(b, ShapeOf(w));
  }

  lemma ParsedExtension(b: seq<Byte>, n: nat)
    requires n <= |b| && Acceptable(b[..n])
    ensures var s := ShapeOf(b[..n]);
            && s.Fits(|b|) && ViewExtension(b, s) == DecodeExtension(b[..n])
            && (s.fields.extended ==>
                b[s.CsrcEnd()..s.CsrcEnd() + 4] == Bytes16(s.extension.id) + Bytes16(s.extension.length))
  {
    var w := b[..n];
    var s, at := ShapeOf(w), CsrcEnd(w);
    ShapeOfOffsets(w);
    if s.fields.extended {
      Bytes16OfRead16(w, at);
      Bytes16OfRead16(w, at + 2);
      SliceSplit(w, at, at + 2, at + 4);
      PrefixSlice(b, n, at, at + 4);
      PrefixSlice(b, n, at + 4, s.PayloadOffset());
    }
  }

  /** What was parsed is framed: the buffer stands for the decoded packet and is its wire form already. */
  lemma ParsedFramed(b: seq<Byte>, n: nat)
    requires n <= |b| && Acceptable(b[..n])
    ensures Framed(b, ShapeOf(b[..n]))
    ensures View(b, ShapeOf(b[..n])) == Decode(b[..n]).value
    ensures Stamped(b[..n]) == b[..n]
  {
    hide HeaderOf, Stamped, Words, Bytes16, Bytes32, WithVersion2;
    var w := b[..n];
    var s, p := ShapeOf(w), Decode(w).value;
    ShapeOfOffsets(w);
    ParsedHeader(b, n);
    ParsedExtension(b, n);
    PrefixSlice(b, n, FIXED_SIZE, s.CsrcEnd());
    PrefixSlice(b, n, s.PayloadOffset(), s.PayloadEnd());
    var v := View(b, s);
    assert v.csrc == p.csrc;
    assert v.payload == p.payload;
    assert v.extension == p.extension;
  }

  lemma PrefixSlice<T>(b: seq<T>, n: nat, i: nat, j: nat)
    requires i <= j <= n <= |b|
    ensures b[..n][i..j] == b[i..j]
  {
  }
}
