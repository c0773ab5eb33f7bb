/**
 Routing of audio through a bridge (backend/src/api/Bridge.cpp), one call at a time. A `Lane` is one direction,
 from a peer to its partner; its book says what became of every packet that came in.
 */
module BridgeRouting {
  import opened Option
  import opened Octets
  import opened Wire
  import opened PttHandler

  /** `Undeliverable`: the partner's connection is gone when the packet is to be sent. */
  datatype Fate = Live | Rejected | Buffered | Released | EncodeFailed | Discarded | Undeliverable

  /** One fate an arrival; `pending` are the buffered arrivals, `origins` the sent ones, in their order. */
  datatype Book = Book(fates: seq<Fate>, pending: seq<nat>, origins: seq<nat>)

  predicate Sent(f: Fate) { f == Live || f == Released }

  ghost predicate Ascending(s: seq<nat>) {
    forall j, k :: 0 <= j < k < |s| ==> s[j] < s[k]
  }

  /** `pending` lists the buffered arrivals, each once and in order. */
  ghost predicate PendingKept(b: Book) {
    && Ascending(b.pending)
    && (forall k :: 0 <= k < |b.pending| ==> b.pending[k] < |b.fates| && b.fates[b.pending[k]] == Buffered)
    && (forall i :: 0 <= i < |b.fates| && b.fates[i] == Buffered ==> i in b.pending)
  }

  /** `origins` lists the sent arrivals, each once and in order. */
  ghost predicate OriginsKept(b: Book) {
    && Ascending(b.origins)
    && (forall k :: 0 <= k < |b.origins| ==> b.origins[k] < |b.fates| && Sent(b.fates[b.origins[k]]))
    && (forall i :: 0 <= i < |b.fates| && Sent(b.fates[i]) ==> i in b.origins)
  }

  ghost predicate Kept(b: Book) {
    && PendingKept(b) && OriginsKept(b)
    && (forall o, p :: o in b.origins && p in b.pending ==> o < p)
  }

  function Enter(b: Book, f: Fate): Book {
    Book(b.fates + [f],
         if f == Buffered then b.pending + [|b.fates|] else b.pending,
         if Sent(f) then b.origins + [|b.fates|] else b.origins)
  }

  function SettleFirst(b: Book, f: Fate): Book
    requires b.pending != [] && b.pending[0] < |b.fates|
  {
    Book(b.fates[b.pending[0] := f], b.pending[1..], if Sent(f) then b.origins + [b.pending[0]] else b.origins)
  }

  function DropAll(b: Book): Book {
    Book(seq(|b.fates|, i requires 0 <= i < |b.fates| => if b.fates[i] == Buffered then Discarded else b.fates[i]),
         [], b.origins)
  }

  lemma EnterKeepsPending(b: Book, f: Fate)
    requires PendingKept(b)
    ensures PendingKept(Enter(b, f))
  {
    var b', n := Enter(b, f), |b.fates|;
    forall i | 0 <= i < |b'.fates| && b'.fates[i] == Buffered
      ensures i in b'.pending
    {
      if i == n {
        assert b'.pending[|b.pending|] == n;
      }
    }
  }

  lemma EnterKeepsOrigins(b: Book, f: Fate)
    requires OriginsKept(b)
    ensures OriginsKept(Enter(b, f))
  {
    var b', n := Enter(b, f), |b.fates|;
    forall i | 0 <= i < |b'.fates| && Sent(b'.fates[i])
      ensures i in b'.origins
    {
      if i == n {
        assert b'.origins[|b.origins|] == n;
      }
    }
  }

  /** A packet is sent past the buffer only when the buffer is empty. */
  lemma EnterKeeps(b: Book, f: Fate)
    requires Kept(b) && (Sent(f) ==> b.pending == [])
    ensures Kept(Enter(b, f))
  {
    EnterKeepsPending(b, f);
    EnterKeepsOrigins(b, f);
  }

  lemma SettleFirstKeepsPending(b: Book, f: Fate)
    requires PendingKept(b) && b.pending != [] && f != Buffered
    ensures PendingKept(SettleFirst(b, f))
  {
    var b' := SettleFirst(b, f);
    forall j | 0 <= j < |b'.fates| && b'.fates[j] == Buffered
      ensures j in b'.pending
    {
      assert j in b.pending;
      var k :| 0 <= k < |b.pending| && b.pending[k] == j;
      assert b'.pending[k - 1] == j;
    }
  }

  lemma SettleFirstKeepsOrigins(b: Book, f: Fate)
    requires Kept(b) && b.pending != []
    ensures OriginsKept(SettleFirst(b, f))
  {
    var b', i := SettleFirst(b, f), b.pending[0];
    assert i in b.pending;
    forall k | 0 <= k < |b.origins|
      ensures b.origins[k] < i
    {
      assert b.origins[k] in b.origins;
    }
    forall j | 0 <= j < |b'.fates| && Sent(b'.fates[j])
      ensures j in b'.origins
    {
      if j == i {
        assert b'.origins[|b.origins|] == i;
      } else {
        assert j in b.origins;
      }
    }
  }

  lemma SettleFirstKeeps(b: Book, f: Fate)
    requires Kept(b) && b.pending != [] && f != Buffered
    ensures Kept(SettleFirst(b, f))
  {
    SettleFirstKeepsPending(b, f);
    SettleFirstKeepsOrigins(b, f);
    assert b.pending[0] in b.pending;
  }

  lemma DropAllKeeps(b: Book)
    requires Kept(b)
    ensures Kept(DropAll(b))
  {
  }

  /** `handled` is false when no transcoder could be made for the side: its packets then always go past. */
  datatype Lane<!D, !E, Pcm> = Lane(
    handled: bool, decoder: D, encoder: E, active: bool, frames: seq<Frame<Pcm>>,
    arrivals: seq<seq<Byte>>, offered: seq<seq<Byte>>, book: Book)

  /** `reachable` says whether the partner's connection still exists. */
  datatype Event = Packet(octets: seq<Byte>, reachable: bool) | Down | Up(reachable: bool)

  /** A buffered frame is what the codec made of that arrival. */
  ghost predicate Carries<Pcm>(f: Frame<Pcm>, octets: seq<Byte>) {
    Heard(octets).Some? && f == FrameOf(Heard(octets).value, f.pcm)
  }

  /** `sent` parses to a 160-octet payload behind the header fields of what was heard. */
  predicate SameHeader(sent: seq<Byte>, octets: seq<Byte>) {
    && Heard(octets).Some? && Decode(sent).Some?
    && var p, q := Heard(octets).value, Decode(sent).value;
    && q == Rtp(p.marked, p.payloadType, p.sequence, p.timestamp, p.ssrc, [], None, q.payload, 0)
    && |q.payload| == BLOCK_SIZE && |sent| == FIXED_SIZE + BLOCK_SIZE
  }

  /** A live packet is sent as it came, a released one in the header it came with. */
  predicate Delivers(f: Fate, sent: seq<Byte>, octets: seq<Byte>) {
    if f == Live then sent == octets else SameHeader(sent, octets)
  }

  /** Buffer, partner and book agree. */
  ghost predicate Agrees<D, E, Pcm>(l: Lane<D, E, Pcm>) {
    && Kept(l.book)
    && |l.book.fates| == |l.arrivals| && |l.book.pending| == |l.frames| && |l.book.origins| == |l.offered|
    && (forall k :: 0 <= k < |l.frames| ==> Carries(l.frames[k], l.arrivals[l.book.pending[k]]))
    && (forall k :: 0 <= k < |l.offered| ==>
          Delivers(l.book.fates[l.book.origins[k]], l.offered[k], l.arrivals[l.book.origins[k]]))
  }

  /** Between events: every arrival has its one fate, and nothing is left in a buffer that is not filling. */
  ghost predicate Inv<D, E, Pcm>(l: Lane<D, E, Pcm>) {
    Agrees(l) && (l.active ==> l.handled) && (!l.active ==> l.frames == [])
  }

  function FreshLane<D, E, Pcm>(handled: bool, d: D, e: E): (l: Lane<D, E, Pcm>)
    ensures Inv(l)
  {
    Lane(handled, d, e, false, [], [], [], Book([], [], []))
  }

  /** A packet comes in: `process_packet`, then the partner if it was not consumed. */
  function Arrive<D, E, Pcm>(c: Codec<D, E, Pcm>, l: Lane<D, E, Pcm>, octets: seq<Byte>, reachable: bool):
    Lane<D, E, Pcm>
  {
    var l' := l.(arrivals := l.arrivals + [octets]);
    if l.active then
      var (d, frames) := Take(c, l.decoder, l.frames, octets);
      l'.(decoder := d, frames := frames,
          book := Enter(l.book, if |frames| == |l.frames| then Rejected else Buffered))
    else if reachable then l'.(offered := l.offered + [octets], book := Enter(l.book, Live))
    else l'.(book := Enter(l.book, Undeliverable))
  }

  /** The button goes down; frames that are still there are dropped. */
  function PressDown<D, E, Pcm>(l: Lane<D, E, Pcm>): Lane<D, E, Pcm> {
    l.(active := true, frames := [], book := DropAll(l.book))
  }

  /** The first buffered frame is encoded and sent. */
  function HandOne<D, E, Pcm>(c: Codec<D, E, Pcm>, l: Lane<D, E, Pcm>, reachable: bool): Lane<D, E, Pcm>
    requires Agrees(l) && l.frames != []
  {
    assert Carries(l.frames[0], l.arrivals[l.book.pending[0]]);
    var (e, block) := c.encode(l.encoder, l.frames[0].pcm);
    var l' := l.(encoder := e, frames := l.frames[1..]);
    if block.None? then l'.(book := SettleFirst(l.book, EncodeFailed))
    else if !reachable then l'.(book := SettleFirst(l.book, Undeliverable))
    else
      l'.(book := SettleFirst(l.book, Released),
          offered := l.offered + [Encode(Resent(l.frames[0], block.value), [])])
  }

  /** The book says of every packet that came before what it said, wherever its index is looked up. */
  lemma EnterExtends(b: Book, f: Fate)
    requires Kept(b)
    ensures var r := Enter(b, f);
            && b.pending <= r.pending && b.origins <= r.origins && b.fates <= r.fates
            && (forall k :: 0 <= k < |b.pending| ==> r.pending[k] == b.pending[k] < |b.fates|)
            && (forall k :: 0 <= k < |b.origins| ==> r.origins[k] == b.origins[k] < |b.fates|)
  {
  }

  lemma ArriveKeeps<D, E, Pcm>(c: Codec<D, E, Pcm>, l: Lane<D, E, Pcm>, octets: seq<Byte>, reachable: bool)
    requires Inv(l)
    ensures Inv(Arrive(c, l, octets, reachable))
  {
    hide Kept, Heard, SameHeader, Take;
    var l' := Arrive(c, l, octets, reachable);
    var f := l'.book.fates[|l.book.fates|];
    EnterKeeps(l.book, f);
    EnterExtends(l.book, f);
    TakeCarries(c, l.decoder, l.frames, octets);
  }

  lemma InRange(b: Book)
    requires Kept(b)
    ensures forall k :: 0 <= k < |b.pending| ==> b.pending[k] < |b.fates| && b.fates[b.pending[k]] == Buffered
    ensures forall k :: 0 <= k < |b.origins| ==> b.origins[k] < |b.fates| && Sent(b.fates[b.origins[k]])
  {
  }

  /** One packet adds one frame of its own or none. */
  lemma TakeCarries<D, E, Pcm>(c: Codec<D, E, Pcm>, d: D, frames: seq<Frame<Pcm>>, octets: seq<Byte>)
    ensures var (d', frames') := Take(c, d, frames, octets);
            if |frames'| == |frames| then frames' == frames
            else |frames'| == |frames| + 1 && frames <= frames' && Carries(frames'[|frames|], octets)
  {
  }

  lemma PressDownKeeps<D, E, Pcm>(l: Lane<D, E, Pcm>)
    requires Inv(l) && l.handled
    ensures Inv(PressDown(l))
  {
    hide Heard, SameHeader;
    DropAllKeeps(l.book);
  }

  lemma SettleExtends(b: Book, f: Fate)
    requires Kept(b) && b.pending != []
    ensures var r := SettleFirst(b, f);
            && |r.fates| == |b.fates| && r.fates[b.pending[0]] == f
            && (forall k :: 0 <= k < |r.pending| ==> r.pending[k] == b.pending[k + 1] < |b.fates|)
            && (forall k :: 0 <= k < |b.origins| ==>
                  r.origins[k] == b.origins[k] < |b.fates| && r.fates[b.origins[k]] == b.fates[b.origins[k]])
            && (Sent(f) ==> r.origins[|b.origins|] == b.pending[0])
  {
  }

  lemma HandOneKeeps<D, E, Pcm>(c: Codec<D, E, Pcm>, l: Lane<D, E, Pcm>, reachable: bool)
    requires Agrees(l) && l.frames != []
    ensures Agrees(HandOne(c, l, reachable))
  {
    hide Kept, Heard, SameHeader, Encode, Decode;
    var l', i := HandOne(c, l, reachable), l.book.pending[0];
    InRange(l.book);
    var f := l'.book.fates[i];
    SettleFirstKeeps(l.book, f);
    SettleExtends(l.book, f);
    if f == Released {
      ResentHeader(l.frames[0], c.encode(l.encoder, l.frames[0].pcm).1.value, l.arrivals[i]);
    }
  }

  lemma ResentHeader<Pcm>(f: Frame<Pcm>, block: Block, octets: seq<Byte>)
    requires Carries(f, octets)
    ensures SameHeader(Encode(Resent(f, block), []), octets)
  {
    DecodeEncode(Resent(f, block), []);
  }

  function HandAll<D, E, Pcm>(c: Codec<D, E, Pcm>, l: Lane<D, E, Pcm>, reachable: bool): (r: Lane<D, E, Pcm>)
    requires Agrees(l)
    ensures Agrees(r) && r.frames == [] && r.active == l.active && r.handled == l.handled
    decreases |l.frames|
  {
    if l.frames == [] then l
    else
      HandOneKeeps(c, l, reachable);
      HandAll(c, HandOne(c, l, reachable), reachable)
  }

  /** One event of a lane; the button going up releases the buffer frame by frame. */
  function Step<D, E, Pcm>(c: Codec<D, E, Pcm>, l: Lane<D, E, Pcm>, e: Event): (r: Lane<D, E, Pcm>)
    requires Inv(l)
    ensures Inv(r) && r.handled == l.handled
  {
    match e
    case Packet(octets, reachable) => ArriveKeeps(c, l, octets, reachable); Arrive(c, l, octets, reachable)
    case Down => if l.handled then PressDownKeeps(l); PressDown(l) else l
    case Up(reachable) => if l.handled then HandAll(c, l.(active := false), reachable) else l
  }

  function Run<D, E, Pcm>(c: Codec<D, E, Pcm>, l: Lane<D, E, Pcm>, es: seq<Event>): (r: Lane<D, E, Pcm>)
    requires Inv(l)
    ensures Inv(r)
  {
    if es == [] then l else Step(c, Run(c, l, es[..|es| - 1]), es[|es| - 1])
  }

  /** What one event may do to the fate of an earlier packet: only buffered ones change, and Down discards them. */
  predicate Moves(f: Fate, g: Fate, e: Event) {
    if f != Buffered then g == f
    else match e
      case Packet(_, _) => g == Buffered
      case Down => g == Discarded
      case Up(reachable) => g == EncodeFailed || g == if reachable then Released else Undeliverable
  }

  lemma {:induction false} HandAllMoves<D, E, Pcm>(c: Codec<D, E, Pcm>, l: Lane<D, E, Pcm>, reachable: bool)
    requires Agrees(l)
    ensures var r := HandAll(c, l, reachable);
            && l.arrivals == r.arrivals && l.offered <= r.offered
            && forall i :: 0 <= i < |l.book.fates| ==> Moves(l.book.fates[i], r.book.fates[i], Up(reachable))
    decreases |l.frames|
  {
    hide Carries, Delivers, HandOne;
    if l.frames == [] {
    } else {
      HandOneKeeps(c, l, reachable);
      var m := HandOne(c, l, reachable);
      HandOneMoves(c, l, reachable);
      HandAllMoves(c, m, reachable);
      assert HandAll(c, l, reachable) == HandAll(c, m, reachable);
    }
  }

  lemma HandOneMoves<D, E, Pcm>(c: Codec<D, E, Pcm>, l: Lane<D, E, Pcm>, reachable: bool)
    requires Agrees(l) && l.frames != []
    ensures var m := HandOne(c, l, reachable);
            && |m.frames| < |l.frames| && l.arrivals == m.arrivals && l.offered <= m.offered
            && |m.book.fates| == |l.book.fates|
            && forall i :: 0 <= i < |l.book.fates| ==>
                 m.book.fates[i] == l.book.fates[i] || Moves(l.book.fates[i], m.book.fates[i], Up(reachable))
  {
    hide Carries, Delivers, OriginsKept;
  }

  /** Every event: earlier fates move as `Moves` says, a new packet gets a fate, nothing sent is taken back. */
  lemma StepMoves<D, E, Pcm>(c: Codec<D, E, Pcm>, l: Lane<D, E, Pcm>, e: Event)
    requires Inv(l)
    ensures var r := Step(c, l, e);
            && l.offered <= r.offered
            && r.arrivals == l.arrivals + (if e.Packet? then [e.octets] else [])
            && forall i :: 0 <= i < |l.book.fates| ==> Moves(l.book.fates[i], r.book.fates[i], e)
  {
    hide Carries, Delivers, Heard, Take, HandAll;
    if !l.handled {
      NoneBuffered(l);
    }
    if e.Up? && l.handled {
      HandAllMoves(c, l.(active := false), e.reachable);
    }
  }

  /** The fate a packet gets when it comes in, by the flag, what it holds and what the decoder makes of that. */
  lemma ArrivalFate<D, E, Pcm>(c: Codec<D, E, Pcm>, l: Lane<D, E, Pcm>, octets: seq<Byte>, reachable: bool)
    requires Inv(l)
    ensures var fates := Step(c, l, Packet(octets, reachable)).book.fates;
            && |fates| == |l.arrivals| + 1
            && var fate := fates[|l.arrivals|];
               if !l.active then fate == if reachable then Live else Undeliverable
               else
                 && ((forall p :: !Holds(octets, p)) ==> fate == Rejected)
                 && (forall p :: Holds(octets, p) ==>
                       fate == if c.decode(l.decoder, p.payload).1.Some? then Buffered else Rejected)
  {
    hide Kept, Carries, Delivers, Take, Holds, Heard;
    TakeHeeds(c, l.decoder, l.frames, octets);
  }

  lemma NoneBuffered<D, E, Pcm>(l: Lane<D, E, Pcm>)
    requires Agrees(l) && l.frames == []
    ensures Buffered !in l.book.fates
  {
  }

  function Packets(es: seq<Event>): seq<seq<Byte>> {
    if es == [] then []
    else
      var e := es[|es| - 1];
      Packets(es[..|es| - 1]) + if e.Packet? then [e.octets] else []
  }

  lemma {:induction false} RunArrivals<D, E, Pcm>(c: Codec<D, E, Pcm>, l: Lane<D, E, Pcm>, es: seq<Event>)
    requires Inv(l)
    ensures Run(c, l, es).arrivals == l.arrivals + Packets(es)
  {
    hide Inv, Step;
    if es == [] {
    } else {
      RunArrivals(c, l, es[..|es| - 1]);
      StepMoves(c, Run(c, l, es[..|es| - 1]), es[|es| - 1]);
    }
  }

  /**
   Whole runs: each packet that came in has one fate; the partner was offered exactly the live and the released
   ones, once each and in the order they came in; with the button up nothing is still held back.
   */
  lemma EveryPacketOneFate<D, E, Pcm>(c: Codec<D, E, Pcm>, handled: bool, d: D, e: E, es: seq<Event>)
    ensures var r := Run(c, FreshLane(handled, d, e), es);
            var fates, origins := r.book.fates, r.book.origins;
            && r.arrivals == Packets(es) && |fates| == |Packets(es)|
            && |r.offered| == |origins| && Ascending(origins)
            && (forall i :: 0 <= i < |fates| ==> (Sent(fates[i]) <==> i in origins))
            && (forall k :: 0 <= k < |origins| ==>
                  origins[k] < |fates| && Delivers(fates[origins[k]], r.offered[k], Packets(es)[origins[k]]))
            && (!r.active ==> Buffered !in fates)
  {
    hide Delivers, Carries, Run, Packets, PendingKept;
    var r := Run(c, FreshLane(handled, d, e), es);
    RunArrivals(c, FreshLane(handled, d, e), es);
    if !r.active {
      NoneBuffered(r);
    }
  }

  /** Releasing from the front, as the lane does, is releasing the whole buffer, as the handler does. */
  lemma {:induction false} ReleaseFront<D, E, Pcm>(c: Codec<D, E, Pcm>, e: E, frames: seq<Frame<Pcm>>)
    requires frames != [] && forall f :: f in frames ==> f.payloadType < 128
    ensures var (e1, block) := c.encode(e, frames[0].pcm);
            var (e2, out) := Release(c, e1, frames[1..]);
            var first := if block.Some? then [Encode(Resent(frames[0], block.value), [])] else [];
            Release(c, e, frames) == (e2, first + out)
  {
    hide Encode;
    var n, tail := |frames| - 1, frames[1..];
    var (e1, block) := c.encode(e, frames[0].pcm);
    var first := if block.Some? then [Encode(Resent(frames[0], block.value), [])] else [];
    if n == 0 {
      assert frames[..0] == [] && Release(c, e, frames[..0]) == (e, []);
      assert [] + first == first + [] == first;
      assert tail == [] && Release(c, e1, tail) == (e1, []);
      assert Release(c, e, frames) == (e1, [] + first);
    } else {
      ReleaseFront(c, e, frames[..n]);
      assert frames[..n][1..] == tail[..n - 1] && tail[n - 1] == frames[n];
      var (e2, out) := Release(c, e1, tail[..n - 1]);
      assert Release(c, e, frames[..n]) == (e2, first + out);
      var last := Release(c, e1, tail).1[|out|..];
      assert Release(c, e1, tail).1 == out + last;
      assert (first + out) + last == first + (out + last);
    }
  }

  lemma FrameTypes<D, E, Pcm>(l: Lane<D, E, Pcm>)
    requires Agrees(l)
    ensures forall f :: f in l.frames ==> f.payloadType < 128
  {
    hide Kept, Delivers;
    InRange(l.book);
    forall f | f in l.frames
      ensures f.payloadType < 128
    {
      var k :| 0 <= k < |l.frames| && l.frames[k] == f;
      assert Carries(f, l.arrivals[l.book.pending[k]]);
    }
  }

  lemma HandOneEffect<D, E, Pcm>(c: Codec<D, E, Pcm>, l: Lane<D, E, Pcm>, reachable: bool)
    requires Agrees(l) && l.frames != []
    ensures l.frames[0].payloadType < 128
    ensures var (e, block) := c.encode(l.encoder, l.frames[0].pcm);
            var m := HandOne(c, l, reachable);
            && m.encoder == e && m.decoder == l.decoder && m.frames == l.frames[1..]
            && m.offered == if reachable && block.Some?
                              then l.offered + [Encode(Resent(l.frames[0], block.value), [])] else l.offered
  {
    hide Encode, SettleFirst, Kept, Delivers;
    FrameTypes(l);
    var (e, block) := c.encode(l.encoder, l.frames[0].pcm);
    var m := HandOne(c, l, reachable);
    assert m.encoder == e && m.decoder == l.decoder && m.frames == l.frames[1..];
    if block.Some? && reachable {
      assert m.offered == l.offered + [Encode(Resent(l.frames[0], block.value), [])];
    }
  }

  /** Handing the frames over one by one sends what the handler's release returns. */
  lemma {:induction false} HandAllReleases<D, E, Pcm>(c: Codec<D, E, Pcm>, l: Lane<D, E, Pcm>, reachable: bool)
    requires Agrees(l)
    ensures forall f :: f in l.frames ==> f.payloadType < 128
    ensures var (e, out) := Release(c, l.encoder, l.frames);
            var r := HandAll(c, l, reachable);
            && r.encoder == e && r.decoder == l.decoder
            && r.offered == if reachable then l.offered + out else l.offered
    decreases |l.frames|
  {
    hide Agrees, Encode, HandOne, Release;
    FrameTypes(l);
    if l.frames == [] {
      assert Release(c, l.encoder, []) == (l.encoder, []) by { EmptyRelease(c, l.encoder); }
    } else {
      HandOneKeeps(c, l, reachable);
      HandOneEffect(c, l, reachable);
      HandAllReleases(c, HandOne(c, l, reachable), reachable);
      ReleaseFront(c, l.encoder, l.frames);
    }
  }

  lemma EmptyRelease<D, E, Pcm>(c: Codec<D, E, Pcm>, e: E)
    ensures Release(c, e, []) == (e, [])
  {
  }
}
