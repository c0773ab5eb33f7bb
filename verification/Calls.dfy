/**
 Runs of single setter calls. A resize and the writes through the span it makes room for are calls of their own,
 with anything in between, so what the room holds until then is left open: `Did` says all that a call promises.
 */
module Calls {
  import opened Option
  import opened Octets
  import opened Wire
  import opened Packet
  import opened Edits
  import Layout

  datatype Call =
    | Whole(e: Edit)
    | FillList(list: seq<U32>)
    | Commit
    | Open(id: U16, length: U16)
    | Resize(length: U16)
    | FillExtension(data: seq<Byte>)
    | SetSize(size: U16)
    | FillPayload(data: seq<Byte>)

  /** The packet, and the list that waits for `commit_csrc`. */
  datatype Work = Work(packet: Rtp, pending: seq<U32>)

  const NEW := Work(EMPTY, [])

  predicate SamePrefix(before: seq<Byte>, after: seq<Byte>, n: int) {
    forall i :: 0 <= i < n && i < |before| && i < |after| ==> after[i] == before[i]
  }

  /** The data an extension of any length keeps: what fits of the data before. */
  predicate Reopened(p: Rtp, q: Rtp, id: U16, length: U16) {
    && q.extension.Some? && q == p.(extension := q.extension)
    && var e := q.extension.value;
    && e.id == id && e.length == length && |e.data| == 4 * length
    && (p.extension.Some? ==> SamePrefix(p.extension.value.data, e.data, 4 * length))
  }

  /** The payload of any new size keeps what fits, but the last octet is cleared when there is no padding. */
  predicate Resized(p: Rtp, q: Rtp, size: U16) {
    && q == p.(payload := q.payload) && |q.payload| == size
    && SamePrefix(p.payload, q.payload, if p.padding > 0 then size else size - 1)
    && (p.padding == 0 && size > 0 ==> q.payload[size - 1] == 0)
  }

  predicate Opens(p: Rtp, length: U16, capacity: nat) {
    Size(p) - ExtensionSize(p.extension) + 4 + 4 * length <= capacity
  }

  /** What the source leaves to the caller of each call. */
  predicate May(w: Work, c: Call, capacity: nat) {
    match c
    case Whole(e) => Guarded(w.packet, e, capacity)
    case FillExtension(data) => w.packet.extension.Some? && |data| == |w.packet.extension.value.data|
    case SetSize(size) => size + w.packet.padding > 0
    case FillPayload(data) => |data| == |w.packet.payload|
    case _ => true
  }

  /** What a call may make of a packet: a call that does not fit changes nothing. */
  predicate Did(w: Work, c: Call, r: Work, capacity: nat) {
    var p, q := w.packet, r.packet;
    match c
    case Whole(e) => q == Apply(p, e, capacity) && r.pending == if e.SetCsrc? then e.list else w.pending
    case FillList(list) => q == p && r.pending == list
    case Commit => q == Apply(p, SetCsrc(w.pending), capacity) && r.pending == w.pending
    case Open(id, length) =>
      r.pending == w.pending && if Opens(p, length, capacity) then Reopened(p, q, id, length) else q == p
    case Resize(length) =>
      && r.pending == w.pending
      && var id := if p.extension.Some? then p.extension.value.id else 0;
      if Opens(p, length, capacity) then Reopened(p, q, id, length) else q == p
    case FillExtension(data) =>
      && r.pending == w.pending && p.extension.Some?
      && q == p.(extension := Some(p.extension.value.(data := data)))
    case SetSize(size) =>
      r.pending == w.pending && if Size(p) - |p.payload| + size <= capacity then Resized(p, q, size) else q == p
    case FillPayload(data) => r.pending == w.pending && q == p.(payload := data)
  }

  /** Each call is guarded, whatever the calls before it left in the room they made. */
  ghost predicate Legal(w: Work, calls: seq<Call>, capacity: nat)
    decreases |calls|
  {
    calls != [] ==>
      && May(w, calls[0], capacity)
      && forall r :: Did(w, calls[0], r, capacity) ==> Legal(r, calls[1..], capacity)
  }

  ghost predicate Reaches(w: Work, calls: seq<Call>, r: Work, capacity: nat)
    decreases |calls|
  {
    if calls == [] then r == w
    else exists m :: Did(w, calls[0], m, capacity) && Reaches(m, calls[1..], r, capacity)
  }

  ghost function WorkOf(p: RtpPacket): Work
    reads p, p.buffer
    requires p.Framed()
  {
    Work(p.View(), p.csrc)
  }

  method DoWhole(p: RtpPacket, e: Edit)
    requires p.Valid() && Guarded(p.View(), e, p.buffer.Length)
    modifies p, p.buffer
    ensures p.Valid() && Did(old(WorkOf(p)), Whole(e), WorkOf(p), p.buffer.Length)
  {
    hide Layout.Framed, Layout.View, Apply, Guarded;
    Perform(p, e);
  }

  /** The room of an extension starts with the data of the extension before. */
  lemma KeptRoom(b: seq<Byte>, s: Layout.Shape, length: U16)
    requires s.Fits(|b|)
    ensures s.fields.extended && s.CsrcEnd() + 4 + 4 * length <= |b| ==>
              SamePrefix(Layout.View(b, s).extension.value.data,
                         b[s.CsrcEnd() + 4..s.CsrcEnd() + 4 + 4 * length], 4 * length)
  {
  }

  /** An extension over its room is one reopened. */
  lemma OverRoom(b: seq<Byte>, s: Layout.Shape, q: Rtp, id: U16, length: U16)
    requires s.Fits(|b|) && s.CsrcEnd() + 4 + 4 * length <= |b|
    requires var room := b[s.CsrcEnd() + 4..s.CsrcEnd() + 4 + 4 * length];
             q == Layout.View(b, s).(extension := Some(Extension(id, length, room)))
    ensures Reopened(Layout.View(b, s), q, id, length)
  {
    hide Layout.View;
    KeptRoom(b, s, length);
    Layout.ViewExtensionHeader(b, s);
  }

  method DoOpen(p: RtpPacket, id: U16, length: U16)
    requires p.Valid()
    modifies p, p.buffer
    ensures p.Valid() && Did(old(WorkOf(p)), Open(id, length), WorkOf(p), p.buffer.Length)
  {
    hide Layout.Framed, Layout.View, Size, Reopened;
    ghost var b, s := p.buffer[..], p.Shape();
    Layout.FramedFits(b, s);
    var r := p.SetExtension(Layout.ExtensionHeader(id, length));
    if r == Success {
      OverRoom(b, s, p.View(), id, length);
    }
  }

  method DoResize(p: RtpPacket, length: U16)
    requires p.Valid()
    modifies p, p.buffer
    ensures p.Valid() && Did(old(WorkOf(p)), Resize(length), WorkOf(p), p.buffer.Length)
  {
    hide Layout.Framed, Layout.View, Size, Reopened;
    ghost var b, s := p.buffer[..], p.Shape();
    Layout.FramedFits(b, s);
    Layout.ViewExtensionHeader(b, s);
    var r := p.SetExtensionLength(length);
    if r == Success {
      OverRoom(b, s, p.View(), if s.fields.extended then s.extension.id else 0, length);
    }
  }

  method DoSetSize(p: RtpPacket, size: U16)
    requires p.Valid() && May(WorkOf(p), SetSize(size), p.buffer.Length)
    modifies p, p.buffer
    ensures p.Valid() && Did(old(WorkOf(p)), SetSize(size), WorkOf(p), p.buffer.Length)
  {
    hide Layout.Framed, Layout.View, Size;
    Layout.FramedFits(p.buffer[..], p.Shape());
    var _ := p.SetPayloadSize(size);
  }

  method DoFillExtension(p: RtpPacket, data: seq<Byte>)
    requires p.Valid() && May(WorkOf(p), FillExtension(data), p.buffer.Length)
    modifies p, p.buffer
    ensures p.Valid() && Did(old(WorkOf(p)), FillExtension(data), WorkOf(p), p.buffer.Length)
  {
    hide Layout.Framed, Layout.View;
    Layout.FramedFits(p.buffer[..], p.Shape());
    p.WriteExtensionData(data);
  }

  method DoFillPayload(p: RtpPacket, data: seq<Byte>)
    requires p.Valid() && May(WorkOf(p), FillPayload(data), p.buffer.Length)
    modifies p, p.buffer
    ensures p.Valid() && Did(old(WorkOf(p)), FillPayload(data), WorkOf(p), p.buffer.Length)
  {
    hide Layout.Framed, Layout.View;
    Layout.FramedFits(p.buffer[..], p.Shape());
    p.WritePayload(data);
  }

  /** One call, in place. */
  method Do(p: RtpPacket, c: Call)
    requires p.Valid() && May(WorkOf(p), c, p.buffer.Length)
    modifies p, p.buffer
    ensures p.Valid() && Did(old(WorkOf(p)), c, WorkOf(p), p.buffer.Length)
  {
    hide Layout.Framed, Layout.View, Size, Wanted, Reopened, Resized;
    match c
    case Whole(e) => DoWhole(p, e);
    case FillList(list) => p.csrc := list;
    case Commit => CommitList(p, p.csrc);
    case Open(id, length) => DoOpen(p, id, length);
    case Resize(length) => DoResize(p, length);
    case FillExtension(data) => DoFillExtension(p, data);
    case SetSize(size) => DoSetSize(p, size);
    case FillPayload(data) => DoFillPayload(p, data);
  }

  /** Every legal run of calls, in place, keeps the invariant and makes what the calls promise. */
  method DoAll(p: RtpPacket, calls: seq<Call>)
    requires p.Valid() && Legal(WorkOf(p), calls, p.buffer.Length)
    modifies p, p.buffer
    ensures p.Valid() && Reaches(old(WorkOf(p)), calls, WorkOf(p), p.buffer.Length)
    decreases |calls|
  {
    hide Layout.Framed, Layout.View, May, Did;
    if calls != [] {
      Do(p, calls[0]);
      DoAll(p, calls[1..]);
    }
  }

  /** The round trip for runs of single calls: what they made, leftovers in the buffer included, arrives. */
  method CallAndParse(calls: seq<Call>, capacity: nat) returns (q: RtpPacket, r: Result, ghost w: Work)
    requires FIXED_SIZE <= capacity <= MAX_BUFFER
    requires Legal(NEW, calls, capacity)
    ensures Reaches(NEW, calls, w, capacity)
    ensures r == Success && q.Framed() && q.View() == w.packet && q.csrc == q.View().csrc
    ensures q.Valid() <==> q.View().extension.Some? || q.View().csrc == []
  {
    hide Layout.Framed, Layout.View, Legal, Reaches;
    var p := new RtpPacket.Fresh(capacity);
    DoAll(p, calls);
    w := WorkOf(p);
    q, r := Deliver(p);
  }

  lemma OneMoreCall(w: Work, c: Call, rest: seq<Call>, capacity: nat)
    ensures Legal(w, [c] + rest, capacity) <==>
            May(w, c, capacity) && forall r :: Did(w, c, r, capacity) ==> Legal(r, rest, capacity)
    ensures forall q :: Reaches(w, [c] + rest, q, capacity) <==>
                        exists m :: Did(w, c, m, capacity) && Reaches(m, rest, q, capacity)
  {
    assert ([c] + rest)[1..] == rest;
  }

  /** Every legal way of making the calls ends with the given packet. */
  ghost predicate Makes(w: Work, calls: seq<Call>, p: Rtp, capacity: nat) {
    Legal(w, calls, capacity) && forall r :: Reaches(w, calls, r, capacity) ==> r.packet == p
  }

  lemma OneCallBefore(w: Work, c: Call, rest: seq<Call>, p: Rtp, capacity: nat)
    requires May(w, c, capacity) && forall m :: Did(w, c, m, capacity) ==> Makes(m, rest, p, capacity)
    ensures Makes(w, [c] + rest, p, capacity)
  {
    hide Legal, Reaches, May, Did;
    OneMoreCall(w, c, rest, capacity);
  }

  /** The CSRC list goes in between making room for the payload and writing it. */
  lemma InterleavedExample(payload: seq<Byte>)
    requires |payload| == 4
    ensures Makes(NEW, [SetSize(4), FillList([7]), Commit, FillPayload(payload)],
                  EMPTY.(csrc := [7], payload := payload), 100)
  {
    var p := EMPTY.(csrc := [7], payload := payload);
    forall w1 | Did(NEW, SetSize(4), w1, 100)
      ensures Makes(w1, [FillList([7]), Commit, FillPayload(payload)], p, 100)
    {
      var w2 := w1.(pending := [7]);
      var w3 := w2.(packet := w2.packet.(csrc := [7]));
      assert Makes(w3.(packet := p), [], p, 100);
      OneCallBefore(w3, FillPayload(payload), [], p, 100);
      assert [FillPayload(payload)] + [] == [FillPayload(payload)];
      OneCallBefore(w2, Commit, [FillPayload(payload)], p, 100);
      assert [Commit] + [FillPayload(payload)] == [Commit, FillPayload(payload)];
      OneCallBefore(w1, FillList([7]), [Commit, FillPayload(payload)], p, 100);
      assert [FillList([7])] + [Commit, FillPayload(payload)] == [FillList([7]), Commit, FillPayload(payload)];
    }
    OneCallBefore(NEW, SetSize(4), [FillList([7]), Commit, FillPayload(payload)], p, 100);
    assert [SetSize(4)] + [FillList([7]), Commit, FillPayload(payload)]
        == [SetSize(4), FillList([7]), Commit, FillPayload(payload)];
  }
}
