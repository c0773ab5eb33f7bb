/**
 Whole editing runs. `Apply` says what an edit means for the packet alone, with one size check and no offsets;
 `Replay` runs the same edits in place and is proved to compute it, and `SendAndParse` closes the round trip.
 */
module Edits {
  import opened Option
  import opened Octets
  import opened Wire
  import opened Packet

  datatype Edit =
    | SetMarker(marked: bool)
    | SetPayloadType(payloadType: Byte)
    | SetSequence(sequence: U16)
    | SetTimestamp(timestamp: U32)
    | SetSsrc(ssrc: U32)
    | SetCsrc(list: seq<U32>)
    | SetExtension(extension: Extension)
    | SetExtensionId(id: U16)
    | ResizeExtension(length: U16, data: seq<Byte>)
    | SetPayload(payload: seq<Byte>)
    | SetPadding(padding: Byte)

  /** The packet an edit asks for, before anyone asks whether it fits. */
  function Wanted(p: Rtp, e: Edit): Rtp {
    match e
    case SetMarker(marked) => p.(marked := marked)
    case SetPayloadType(payloadType) => p.(payloadType := payloadType)
    case SetSequence(sequence) => p.(sequence := sequence)
    case SetTimestamp(timestamp) => p.(timestamp := timestamp)
    case SetSsrc(ssrc) => p.(ssrc := ssrc)
    case SetCsrc(list) => p.(csrc := list)
    case SetExtension(extension) => p.(extension := Some(extension))
    case SetExtensionId(id) =>
      p.(extension := Some(if p.extension.Some? then p.extension.value.(id := id) else Extension(id, 0, [])))
    case ResizeExtension(length, data) =>
      p.(extension := Some(Extension(if p.extension.Some? then p.extension.value.id else 0, length, data)))
    case SetPayload(payload) => p.(payload := payload)
    case SetPadding(padding) => p.(padding := padding)
  }

  /** An edit that does not fit, or lists too many sources, changes nothing. */
  function Apply(p: Rtp, e: Edit, capacity: nat): Rtp {
    var q := Wanted(p, e);
    if |q.csrc| > MAX_CSRC || Size(q) > capacity then p else q
  }

  function ApplyAll(p: Rtp, edits: seq<Edit>, capacity: nat): Rtp {
    if edits == [] then p
    else Apply(ApplyAll(p, edits[..|edits| - 1], capacity), edits[|edits| - 1], capacity)
  }

  /** What the source leaves to the caller of each setter. */
  predicate Guarded(p: Rtp, e: Edit, capacity: nat) {
    match e
    case SetPayloadType(payloadType) => payloadType < 128
    case SetExtension(extension) => |extension.data| == 4 * extension.length
    case ResizeExtension(length, data) => |data| == 4 * length
    case SetPayload(payload) => |payload| <= 0xFFFF && |payload| + p.padding > 0
    case SetPadding(padding) =>
      padding > 0 && (Size(p.(padding := padding)) <= capacity || FIXED_SIZE + padding > capacity)
    case _ => true
  }

  predicate GuardedAll(p: Rtp, edits: seq<Edit>, capacity: nat) {
    edits != [] ==>
      var init := edits[..|edits| - 1];
      GuardedAll(p, init, capacity) && Guarded(ApplyAll(p, init, capacity), edits[|edits| - 1], capacity)
  }

  /** Every prefix of a guarded run is guarded. */
  lemma {:induction false} GuardedPrefix(p: Rtp, edits: seq<Edit>, n: nat, capacity: nat)
    requires n < |edits| && GuardedAll(p, edits, capacity)
    ensures GuardedAll(p, edits[..n], capacity) && Guarded(ApplyAll(p, edits[..n], capacity), edits[n], capacity)
  {
    if n == |edits| - 1 {
    } else {
      GuardedPrefix(p, edits[..|edits| - 1], n, capacity);
      assert edits[..|edits| - 1][..n] == edits[..n];
    }
  }

  /** A guarded run never leaves the packets the buffer can hold. */
  lemma {:induction false} RunFits(p: Rtp, edits: seq<Edit>, capacity: nat)
    requires WellFormed(p) && Size(p) <= capacity && GuardedAll(p, edits, capacity)
    ensures var q := ApplyAll(p, edits, capacity); WellFormed(q) && Size(q) <= capacity
  {
    if edits == [] {
    } else {
      var init, e := edits[..|edits| - 1], edits[|edits| - 1];
      RunFits(p, init, capacity);
      ApplyFits(ApplyAll(p, init, capacity), e, capacity);
    }
  }

  lemma ApplyFits(p: Rtp, e: Edit, capacity: nat)
    requires WellFormed(p) && Size(p) <= capacity && Guarded(p, e, capacity)
    ensures WellFormed(Apply(p, e, capacity)) && Size(Apply(p, e, capacity)) <= capacity
  {
  }

  // ----- what a run amounts to -----

  /** The packet says what the edit asked for. */
  predicate Shows(p: Rtp, e: Edit) {
    match e
    case SetMarker(marked) => p.marked == marked
    case SetPayloadType(payloadType) => p.payloadType == payloadType
    case SetSequence(sequence) => p.sequence == sequence
    case SetTimestamp(timestamp) => p.timestamp == timestamp
    case SetSsrc(ssrc) => p.ssrc == ssrc
    case SetCsrc(list) => p.csrc == list
    case SetExtension(extension) => p.extension == Some(extension)
    case SetExtensionId(id) => p.extension.Some? && p.extension.value.id == id
    case ResizeExtension(length, data) =>
      p.extension.Some? && p.extension.value.length == length && p.extension.value.data == data
    case SetPayload(payload) => p.payload == payload
    case SetPadding(padding) => p.padding == padding
  }

  /** There is room for what the edit asks for. */
  predicate HasRoom(p: Rtp, e: Edit, capacity: nat) {
    match e
    case SetCsrc(list) => |list| <= MAX_CSRC && Size(p) - 4 * |p.csrc| + 4 * |list| <= capacity
    case SetExtension(extension) => Size(p) - ExtensionSize(p.extension) + 4 + |extension.data| <= capacity
    case SetExtensionId(_) => p.extension.Some? || Size(p) + 4 <= capacity
    case ResizeExtension(_, data) => Size(p) - ExtensionSize(p.extension) + 4 + |data| <= capacity
    case SetPayload(payload) => Size(p) - |p.payload| + |payload| <= capacity
    case SetPadding(padding) => Size(p) - p.padding + padding <= capacity
    case _ => true
  }

  /** The edit `later` may undo what `e` asked for. */
  predicate Overwrites(later: Edit, e: Edit) {
    match e
    case SetMarker(_) => later.SetMarker?
    case SetPayloadType(_) => later.SetPayloadType?
    case SetSequence(_) => later.SetSequence?
    case SetTimestamp(_) => later.SetTimestamp?
    case SetSsrc(_) => later.SetSsrc?
    case SetCsrc(_) => later.SetCsrc?
    case SetExtension(_) => later.SetExtension? || later.SetExtensionId? || later.ResizeExtension?
    case SetExtensionId(_) => later.SetExtension? || later.SetExtensionId?
    case ResizeExtension(_, _) => later.SetExtension? || later.ResizeExtension?
    case SetPayload(_) => later.SetPayload?
    case SetPadding(_) => later.SetPadding?
  }

  /** An edit is heeded exactly when there is room for it, and touches nothing that is not its own. */
  lemma ApplyShows(p: Rtp, e: Edit, capacity: nat)
    requires WellFormed(p) && Size(p) <= capacity
    ensures if HasRoom(p, e, capacity) then Shows(Apply(p, e, capacity), e) else Apply(p, e, capacity) == p
  {
  }

  lemma ApplyKeeps(p: Rtp, e: Edit, capacity: nat, earlier: Edit)
    requires Shows(p, earlier) && !Overwrites(e, earlier)
    ensures Shows(Apply(p, e, capacity), earlier)
  {
  }

  /** What a packet shows at some point of a run it shows at the end, unless a later edit is of that kind. */
  lemma {:induction false} StandsUntilOverwritten(p: Rtp, edits: seq<Edit>, n: nat, e: Edit, capacity: nat)
    requires n <= |edits| && Shows(ApplyAll(p, edits[..n], capacity), e)
    requires forall j :: n <= j < |edits| ==> !Overwrites(edits[j], e)
    ensures Shows(ApplyAll(p, edits, capacity), e)
  {
    hide Shows, Overwrites, Apply;
    if n == |edits| {
      assert edits[..n] == edits;
    } else {
      var init := edits[..|edits| - 1];
      assert init[..n] == edits[..n];
      StandsUntilOverwritten(p, init, n, e, capacity);
      ApplyKeeps(ApplyAll(p, init, capacity), edits[|edits| - 1], capacity, e);
    }
  }

  /** In a guarded run the last edit of a kind that there was room for is what the packet ends up with. */
  lemma LastEditStands(p: Rtp, edits: seq<Edit>, i: nat, capacity: nat)
    requires WellFormed(p) && Size(p) <= capacity && GuardedAll(p, edits, capacity)
    requires i < |edits| && HasRoom(ApplyAll(p, edits[..i], capacity), edits[i], capacity)
    requires forall j :: i < j < |edits| ==> !Overwrites(edits[j], edits[i])
    ensures Shows(ApplyAll(p, edits, capacity), edits[i])
  {
    hide Shows, HasRoom, Overwrites, Apply, GuardedAll, WellFormed, Size;
    GuardedPrefix(p, edits, i, capacity);
    RunFits(p, edits[..i], capacity);
    ApplyShows(ApplyAll(p, edits[..i], capacity), edits[i], capacity);
    assert edits[..i + 1][..i] == edits[..i];
    StandsUntilOverwritten(p, edits, i + 1, edits[i], capacity);
  }

  method CommitList(p: RtpPacket, list: seq<U32>)
    requires p.Valid()
    modifies p, p.buffer
    ensures p.Valid() && p.View() == Apply(old(p.View()), SetCsrc(list), p.buffer.Length)
    ensures p.csrc == list
  {
    hide Layout.Framed, Layout.View;
    Layout.FramedFits(p.buffer[..], p.Shape());
    p.csrc := list;
    var _ := p.CommitCsrc();
  }

  lemma SizeWithExtension(p: Rtp, extension: Extension)
    requires |extension.data| == 4 * extension.length
    ensures Size(p.(extension := Some(extension))) == Size(p) - ExtensionSize(p.extension) + 4 + 4 * extension.length
  {
  }

  method PlaceExtension(p: RtpPacket, extension: Extension)
    requires p.Valid() && |extension.data| == 4 * extension.length
    modifies p, p.buffer
    ensures p.Valid() && p.View() == Apply(old(p.View()), SetExtension(extension), p.buffer.Length)
    ensures p.csrc == old(p.csrc)
  {
    hide Layout.Framed, Layout.View, Size;
    Layout.FramedFits(p.buffer[..], p.Shape());
    SizeWithExtension(p.View(), extension);
    var r := p.SetExtension(Layout.ExtensionHeader(extension.id, extension.length));
    if r == Success {
      Layout.FramedFits(p.buffer[..], p.Shape());
      p.WriteExtensionData(extension.data);
    }
  }

  /** `set_extension` with a length only, and then the data. */
  method ReplaceExtension(p: RtpPacket, length: U16, data: seq<Byte>)
    requires p.Valid() && |data| == 4 * length
    modifies p, p.buffer
    ensures p.Valid() && p.View() == Apply(old(p.View()), ResizeExtension(length, data), p.buffer.Length)
    ensures p.csrc == old(p.csrc)
  {
    hide Layout.Framed, Layout.View, Size;
    Layout.FramedFits(p.buffer[..], p.Shape());
    Layout.ViewExtensionHeader(p.buffer[..], p.Shape());
    ghost var v := p.View();
    ghost var id := if v.extension.Some? then v.extension.value.id else 0;
    SizeWithExtension(v, Extension(id, length, data));
    var r := p.SetExtensionLength(length);
    if r == Success {
      Layout.FramedFits(p.buffer[..], p.Shape());
      p.WriteExtensionData(data);
    }
  }

  lemma SizeWithPayload(p: Rtp, payload: seq<Byte>)
    ensures Size(p.(payload := payload)) == Size(p) - |p.payload| + |payload|
  {
  }

  method PlacePayload(p: RtpPacket, payload: seq<Byte>)
    requires p.Valid() && Guarded(p.View(), SetPayload(payload), p.buffer.Length)
    modifies p, p.buffer
    ensures p.Valid() && p.View() == Apply(old(p.View()), SetPayload(payload), p.buffer.Length)
    ensures p.csrc == old(p.csrc)
  {
    hide Layout.Framed, Layout.View, Size;
    Layout.FramedFits(p.buffer[..], p.Shape());
    SizeWithPayload(p.View(), payload);
    var r := p.SetPayloadSize(|payload|);
    if r == Success {
      p.WritePayload(payload);
    }
  }

  lemma SizeWithPadding(p: Rtp, padding: Byte)
    ensures Size(p.(padding := padding)) == Size(p) - p.padding + padding
  {
  }

  method PlacePadding(p: RtpPacket, padding: Byte)
    requires p.Valid() && Guarded(p.View(), SetPadding(padding), p.buffer.Length)
    modifies p, p.buffer
    ensures p.Valid() && p.View() == Apply(old(p.View()), SetPadding(padding), p.buffer.Length)
    ensures p.csrc == old(p.csrc)
  {
    hide Layout.Framed, Layout.View, Size, Wrapped16, Decode;
    ghost var v, end := p.View(), p.Shape().PayloadEnd();
    Layout.FramedFits(p.buffer[..], p.Shape());
    SizeWithPadding(v, padding);
    assert Size(v.(padding := padding)) == end + padding;
    assert padding > 0 && (end + padding <= p.buffer.Length || FIXED_SIZE + padding > p.buffer.Length);
    assert |v.csrc| <= MAX_CSRC && Size(v) <= p.buffer.Length;
    hide Layout.Shape.PayloadEnd, Layout.Shape.PacketSize;
    var r := p.SetPaddingBytes(padding);
    assert r == Success <==> FIXED_SIZE + padding <= p.buffer.Length;
  }

  method PlaceId(p: RtpPacket, id: U16)
    requires p.Valid()
    modifies p, p.buffer
    ensures p.Valid() && p.View() == Apply(old(p.View()), SetExtensionId(id), p.buffer.Length)
    ensures p.csrc == old(p.csrc)
  {
    hide Layout.Framed, Layout.View;
    Layout.FramedFits(p.buffer[..], p.Shape());
    var _ := p.SetExtensionId(id);
  }

  predicate FixedField(e: Edit) {
    e.SetMarker? || e.SetPayloadType? || e.SetSequence? || e.SetTimestamp? || e.SetSsrc?
  }

  lemma FixedFieldFits(p: Rtp, e: Edit, capacity: nat)
    requires |p.csrc| <= MAX_CSRC && Size(p) <= capacity && FixedField(e)
    ensures Apply(p, e, capacity) == Wanted(p, e)
  {
  }

  /** One edit, in place. */
  method Perform(p: RtpPacket, e: Edit)
    requires p.Valid() && Guarded(p.View(), e, p.buffer.Length)
    modifies p, p.buffer
    ensures p.Valid() && p.View() == Apply(old(p.View()), e, p.buffer.Length)
    ensures p.csrc == if e.SetCsrc? then e.list else old(p.csrc)
  {
    hide Layout.Framed, Layout.View, Size, Apply;
    if FixedField(e) {
      Layout.FramedFits(p.buffer[..], p.Shape());
      FixedFieldFits(p.View(), e, p.buffer.Length);
    }
    match e
    case SetMarker(marked) => p.SetMarker(marked);
    case SetPayloadType(payloadType) => p.SetPayloadType(payloadType);
    case SetSequence(sequence) => p.SetSequenceNumber(sequence);
    case SetTimestamp(timestamp) => p.SetTimestamp(timestamp);
    case SetSsrc(ssrc) => p.SetSsrc(ssrc);
    case SetCsrc(list) => CommitList(p, list);
    case SetExtension(extension) => PlaceExtension(p, extension);
    case SetExtensionId(id) => PlaceId(p, id);
    case ResizeExtension(length, data) => ReplaceExtension(p, length, data);
    case SetPayload(payload) => PlacePayload(p, payload);
    case SetPadding(padding) => PlacePadding(p, padding);
  }

  /** The in-place run computes what the packet-level run says, for every guarded run. */
  method Replay(p: RtpPacket, edits: seq<Edit>)
    requires p.Valid() && GuardedAll(p.View(), edits, p.buffer.Length)
    modifies p, p.buffer
    ensures p.Valid() && p.View() == ApplyAll(old(p.View()), edits, p.buffer.Length)
  {
    hide Layout.Framed, Layout.View, Guarded, Apply, Wanted;
    ghost var v, c := p.View(), p.buffer.Length;
    for i := 0 to |edits|
      invariant p.Valid() && p.View() == ApplyAll(v, edits[..i], c)
    {
      GuardedPrefix(v, edits, i, c);
      Perform(p, edits[i]);
      assert edits[..i + 1][..i] == edits[..i];
    }
    assert edits[..|edits|] == edits;
  }

  /** Hands the octets of one object to another, which parses them: the packet arrives. */
  method Deliver(p: RtpPacket) returns (q: RtpPacket, r: Result)
    requires p.Valid()
    modifies p.buffer
    ensures p.Valid() && p.View() == old(p.View())
    ensures r == Success && q.Framed() && q.View() == p.View() && q.csrc == q.View().csrc
    ensures q.Valid() <==> q.View().extension.Some? || q.View().csrc == []
  {
    hide Layout.Framed, Layout.View, Decode, Acceptable, Size, LaidOut, Readable, LeadPasses, Malformed, Overlong;
    hide Layout.Stamped;
    Layout.FramedFits(p.buffer[..], p.Shape());
    var octets := p.ToWire();
    Layout.FramedFits(p.buffer[..], p.Shape());
    q := new RtpPacket.Over(p.buffer[..]);
    StampedPrefix(p.buffer[..], |octets|);
    assert p.buffer[..|octets|] == p.buffer[..][..|octets|];
    assert octets == q.buffer[..][..|octets|] == q.buffer[..|octets|];
    WireAcceptable(octets, q.buffer[..]);
    r := q.Parse(|octets|);
    Layout.FramedFits(q.buffer[..], q.Shape());
  }

  lemma StampedPrefix(b: seq<Byte>, n: nat)
    requires 0 < n <= |b|
    ensures Layout.Stamped(b)[..n] == Layout.Stamped(b[..n])
  {
  }

  lemma WireAcceptable(octets: seq<Byte>, b: seq<Byte>)
    requires Decode(octets).Some? && octets <= b
    ensures Acceptable(octets) && Readable(b, |octets|)
  {
  }

  /** Build a packet by edits and deliver it. */
  method SendAndParse(edits: seq<Edit>, capacity: nat) returns (q: RtpPacket, r: Result)
    requires FIXED_SIZE <= capacity <= MAX_BUFFER
    requires GuardedAll(EMPTY, edits, capacity)
    ensures r == Success && q.Framed()
    ensures q.View() == ApplyAll(EMPTY, edits, capacity) && q.csrc == q.View().csrc
    ensures q.Valid() <==> q.View().extension.Some? || q.View().csrc == []
  {
    hide Layout.Framed, Layout.View, ApplyAll, GuardedAll;
    var p := new RtpPacket.Fresh(capacity);
    Replay(p, edits);
    q, r := Deliver(p);
  }
}
