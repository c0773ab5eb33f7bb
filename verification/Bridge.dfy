/**
 A bridge between two peers (backend/src/api/Bridge.cpp): one lane in each direction, each with a push-to-talk
 handler of its own. The peers are held weakly, so either may be gone when something is to be sent to it.
 */
module Bridges {
  import opened Octets
  import opened PttHandler
  import opened BridgeRouting
  import Signalling

  /** The first lane runs from the first peer to the second. */
  datatype Pair<!D, !E, Pcm> = Pair(first: Lane<D, E, Pcm>, second: Lane<D, E, Pcm>)

  datatype PairEvent = OnFirst(e: Event) | OnSecond(e: Event)

  ghost predicate PairInv<D, E, Pcm>(p: Pair<D, E, Pcm>) { Inv(p.first) && Inv(p.second) }

  function PairStep<D, E, Pcm>(c: Codec<D, E, Pcm>, p: Pair<D, E, Pcm>, e: PairEvent): (r: Pair<D, E, Pcm>)
    requires PairInv(p)
    ensures PairInv(r)
  {
    match e
    case OnFirst(e) => p.(first := Step(c, p.first, e))
    case OnSecond(e) => p.(second := Step(c, p.second, e))
  }

  function PairRun<D, E, Pcm>(c: Codec<D, E, Pcm>, p: Pair<D, E, Pcm>, es: seq<PairEvent>): (r: Pair<D, E, Pcm>)
    requires PairInv(p)
    ensures PairInv(r)
  {
    if es == [] then p else PairStep(c, PairRun(c, p, es[..|es| - 1]), es[|es| - 1])
  }

  function Firsts(es: seq<PairEvent>): seq<Event> {
    if es == [] then []
    else
      var e := es[|es| - 1];
      Firsts(es[..|es| - 1]) + if e.OnFirst? then [e.e] else []
  }

  function Seconds(es: seq<PairEvent>): seq<Event> {
    if es == [] then []
    else
      var e := es[|es| - 1];
      Seconds(es[..|es| - 1]) + if e.OnSecond? then [e.e] else []
  }

  lemma RunOneMore<D, E, Pcm>(c: Codec<D, E, Pcm>, l: Lane<D, E, Pcm>, es: seq<Event>, e: Event)
    requires Inv(l)
    ensures Run(c, l, es + [e]) == Step(c, Run(c, l, es), e)
  {
    hide Inv, Step;
    assert (es + [e])[..|es|] == es;
  }

  /** Neither direction can tell what happens on the other, push-to-talk included. */
  lemma {:induction false} LanesIndependent<D, E, Pcm>(
      c: Codec<D, E, Pcm>, p: Pair<D, E, Pcm>, es: seq<PairEvent>)
    requires PairInv(p)
    ensures PairRun(c, p, es) == Pair(Run(c, p.first, Firsts(es)), Run(c, p.second, Seconds(es)))
  {
    hide Inv, Step;
    if es == [] {
    } else {
      var init, last := es[..|es| - 1], es[|es| - 1];
      LanesIndependent(c, p, init);
      match last {
        case OnFirst(e) =>
          RunOneMore(c, p.first, Firsts(init), e);
          assert Seconds(es) == Seconds(init);
        case OnSecond(e) =>
          RunOneMore(c, p.second, Seconds(init), e);
          assert Firsts(es) == Firsts(init);
      }
    }
  }

  class Peer {
    var received: seq<seq<Byte>>

    constructor ()
      ensures received == []
    {
      received := [];
    }

    /** `send_audio_packet`. */
    method Send(packet: seq<Byte>)
      modifies this
      ensures received == old(received) + [packet]
    {
      received := received + [packet];
    }

    method SendAll(packets: seq<seq<Byte>>)
      modifies this
      ensures received == old(received) + packets
    {
      for i := 0 to |packets|
        invariant received == old(received) + packets[..i]
      {
        Send(packets[i]);
        assert packets[..i + 1] == packets[..i] + [packets[i]];
      }
      assert packets[..|packets|] == packets;
    }
  }

  /** What one packet changes, seen from the handler and from the partner. */
  lemma PacketEffect<D, E, Pcm>(c: Codec<D, E, Pcm>, l: Lane<D, E, Pcm>, octets: seq<Byte>, reachable: bool)
    requires Inv(l)
    ensures var (r, (d, frames)) := (Step(c, l, Packet(octets, reachable)), Take(c, l.decoder, l.frames, octets));
            && (r.handled, r.encoder, r.active) == (l.handled, l.encoder, l.active)
            && (!l.handled ==> !l.active)
            && (r.decoder, r.frames) == (if l.active then (d, frames) else (l.decoder, l.frames))
            && r.offered == l.offered + (if !l.active && reachable then [octets] else [])
  {
    hide Agrees, Take, Enter;
  }

  lemma DownEffect<D, E, Pcm>(c: Codec<D, E, Pcm>, l: Lane<D, E, Pcm>)
    requires Inv(l)
    ensures Step(c, l, Down) ==
              if l.handled then l.(active := true, frames := [], book := DropAll(l.book)) else l
  {
    hide Agrees, DropAll;
  }

  lemma UpEffect<D, E, Pcm>(c: Codec<D, E, Pcm>, l: Lane<D, E, Pcm>, reachable: bool)
    requires Inv(l)
    ensures forall f :: f in l.frames ==> f.payloadType < 128
    ensures var (e, out) := Release(c, l.encoder, l.frames);
            var r := Step(c, l, Up(reachable));
            if !l.handled then r == l
            else
              && r.handled && !r.active && r.frames == [] && (r.decoder, r.encoder) == (l.decoder, e)
              && r.offered == if reachable then l.offered + out else l.offered
  {
    hide Kept, Carries, Delivers, Release, HandAll;
    FrameTypes(l);
    if l.handled {
      HandAllReleases(c, l.(active := false), reachable);
    }
  }

  class Bridge<D, E, Pcm> {
    const session1: Signalling.Id
    const session2: Signalling.Id
    const codec: Codec<D, E, Pcm>
    const handler1: PttHandler?<D, E, Pcm>
    const handler2: PttHandler?<D, E, Pcm>
    var peer1: Peer?
    var peer2: Peer?
    ghost var lanes: Pair<D, E, Pcm>

    /** The bridge and the objects it owns. */
    ghost function Parts(): set<object> {
      {this as object} + (if handler1 == null then {} else {handler1 as object})
                       + (if handler2 == null then {} else {handler2 as object})
    }

    /** A side with a handler holds the handler's state, a side without one is never active. */
    static ghost predicate Mirrors(h: PttHandler?<D, E, Pcm>, c: Codec<D, E, Pcm>, l: Lane<D, E, Pcm>)
      reads h
    {
      if h == null then !l.handled
      else
        && h.Valid() && l.handled && h.codec == c
        && (h.decoder, h.encoder, h.active, h.frames) == (l.decoder, l.encoder, l.active, l.frames)
    }

    ghost predicate Valid()
      reads this, handler1, handler2
    {
      && session1 != session2
      && (peer1 == null || peer1 != peer2) && (handler1 == null || handler1 != handler2)
      && PairInv(lanes) && Mirrors(handler1, codec, lanes.first) && Mirrors(handler2, codec, lanes.second)
    }

    /** What a peer got in a step is what its lane newly offered. */
    static twostate predicate Got(peer: Peer?, before: Lane<D, E, Pcm>, after: Lane<D, E, Pcm>)
      reads peer
    {
      && before.offered <= after.offered
      && (peer != null ==> peer.received == old(peer.received) + after.offered[|before.offered|..])
    }

    /** A packet goes to the handler while its button is down, and past it to the other peer otherwise. */
    static twostate predicate Forwarded(h: PttHandler?<D, E, Pcm>, peer: Peer?, packet: seq<Byte>)
      reads h, peer
    {
      if h != null && old(h.active) then
        && h.active && h.encoder == old(h.encoder)
        && Heeds(h.codec, packet, old(h.decoder), old(h.frames), h.decoder, h.frames)
        && (peer != null ==> peer.received == old(peer.received))
      else
        && (h != null ==> unchanged(h))
        && (peer != null ==> peer.received == old(peer.received) + [packet])
    }

    /** A handler whose button goes down, if it is its own. */
    static twostate predicate Started(h: PttHandler?<D, E, Pcm>, own: bool)
      reads h
    {
      h != null ==>
        if own then h.active && h.frames == [] && h.decoder == old(h.decoder) && h.encoder == old(h.encoder)
        else unchanged(h)
    }

    /** A handler whose button goes up, if it is its own; then the peer gets what is released, and nothing otherwise. */
    static twostate predicate Stopped(h: PttHandler?<D, E, Pcm>, own: bool, peer: Peer?)
      reads h, peer
    {
      if h != null && own then
        && old(h.Valid()) && !h.active && h.frames == [] && h.decoder == old(h.decoder)
        && var (encoder, released) := Release(h.codec, old(h.encoder), old(h.frames));
           h.encoder == encoder && (peer != null ==> peer.received == old(peer.received) + released)
      else
        && (h != null ==> unchanged(h))
        && (peer != null ==> peer.received == old(peer.received))
    }

    /** The lane and the handler of the session have seen its button go down, nothing else has changed. */
    twostate predicate Pressed(id: Signalling.Id)
      reads this, handler1, handler2
    {
      && old(PairInv(lanes))
      && lanes == (if id == session1 then PairStep(codec, old(lanes), OnFirst(Down))
                   else if id == session2 then PairStep(codec, old(lanes), OnSecond(Down))
                   else old(lanes))
      && Started(handler1, id == session1) && Started(handler2, id == session2)
    }

    /** The lane and the handler of the session have seen its button go up, and the partner got what was released. */
    twostate predicate Lifted(id: Signalling.Id)
      reads this, handler1, handler2, peer1, peer2
    {
      && old(PairInv(lanes)) && (peer1, peer2) == (old(peer1), old(peer2))
      && lanes == (if id == session1 then PairStep(codec, old(lanes), OnFirst(Up(peer2 != null)))
                   else if id == session2 then PairStep(codec, old(lanes), OnSecond(Up(peer1 != null)))
                   else old(lanes))
      && Stopped(handler1, id == session1, peer2) && Stopped(handler2, id == session2, peer1)
      && Got(peer2, old(lanes).first, lanes.first) && Got(peer1, old(lanes).second, lanes.second)
    }

    constructor (codec: Codec<D, E, Pcm>, decoder: D, encoder: E, created1: bool, created2: bool,
                 peer1: Peer?, peer2: Peer?, session1: Signalling.Id, session2: Signalling.Id)
      requires session1 != session2 && (peer1 == null || peer1 != peer2)
      ensures Valid() && this.codec == codec
      ensures this.peer1 == peer1 && this.peer2 == peer2
      ensures this.session1 == session1 && this.session2 == session2
      ensures lanes == Pair(FreshLane(created1, decoder, encoder), FreshLane(created2, decoder, encoder))
      ensures fresh(Parts() - {this})
    {
      this.codec, this.session1, this.session2 := codec, session1, session2;
      this.peer1, this.peer2 := peer1, peer2;
      var h1: PttHandler?<D, E, Pcm>, h2: PttHandler?<D, E, Pcm> := null, null;
      if created1 {
        h1 := new PttHandler(codec, decoder, encoder);
      }
      if created2 {
        h2 := new PttHandler(codec, decoder, encoder);
      }
      handler1, handler2 := h1, h2;
      lanes := Pair(FreshLane(created1, decoder, encoder), FreshLane(created2, decoder, encoder));
    }

    /** The first peer's audio callback. */
    method FromFirst(packet: seq<Byte>)
      requires Valid()
      modifies this`lanes, handler1, peer2
      ensures Valid() && (peer1, peer2) == (old(peer1), old(peer2))
      ensures lanes == PairStep(codec, old(lanes), OnFirst(Packet(packet, peer2 != null)))
      ensures Got(peer2, old(lanes).first, lanes.first)
      ensures Forwarded(handler1, peer2, packet)
    {
      hide Inv, Step, Take, Heeds;
      PacketEffect(codec, lanes.first, packet, peer2 != null);
      lanes := PairStep(codec, lanes, OnFirst(Packet(packet, peer2 != null)));
      var consumed := false;
      if handler1 != null {
        consumed := handler1.ProcessPacket(packet);
      }
      if !consumed && peer2 != null {
        peer2.Send(packet);
      }
    }

    /** The second peer's audio callback. */
    method FromSecond(packet: seq<Byte>)
      requires Valid()
      modifies this`lanes, handler2, peer1
      ensures Valid() && (peer1, peer2) == (old(peer1), old(peer2))
      ensures lanes == PairStep(codec, old(lanes), OnSecond(Packet(packet, peer1 != null)))
      ensures Got(peer1, old(lanes).second, lanes.second)
      ensures Forwarded(handler2, peer1, packet)
    {
      hide Inv, Step, Take, Heeds;
      PacketEffect(codec, lanes.second, packet, peer1 != null);
      lanes := PairStep(codec, lanes, OnSecond(Packet(packet, peer1 != null)));
      var consumed := false;
      if handler2 != null {
        consumed := handler2.ProcessPacket(packet);
      }
      if !consumed && peer1 != null {
        peer1.Send(packet);
      }
    }

    method StartPtt(id: Signalling.Id)
      requires Valid()
      modifies this`lanes, handler1, handler2
      ensures Valid() && (peer1, peer2) == (old(peer1), old(peer2))
      ensures Pressed(id)
      ensures lanes.first.offered == old(lanes.first.offered) && lanes.second.offered == old(lanes.second.offered)
    {
      hide Inv, Step, DropAll;
      DownEffect(codec, lanes.first);
      DownEffect(codec, lanes.second);
      if id == session1 {
        lanes := PairStep(codec, lanes, OnFirst(Down));
      } else if id == session2 {
        lanes := PairStep(codec, lanes, OnSecond(Down));
      }
      if id == session1 && handler1 != null {
        handler1.Start();
      } else if id == session2 && handler2 != null {
        handler2.Start();
      }
    }

    method StopPtt(id: Signalling.Id)
      requires Valid()
      modifies this`lanes, handler1, handler2, peer1, peer2
      ensures Valid() && (peer1, peer2) == (old(peer1), old(peer2))
      ensures Lifted(id)
    {
      hide Inv, Step, Release;
      UpEffect(codec, lanes.first, peer2 != null);
      UpEffect(codec, lanes.second, peer1 != null);
      if id == session1 {
        lanes := PairStep(codec, lanes, OnFirst(Up(peer2 != null)));
      } else if id == session2 {
        lanes := PairStep(codec, lanes, OnSecond(Up(peer1 != null)));
      }
      if id == session1 && handler1 != null {
        var packets := handler1.StopAndRelease();
        if peer2 != null {
          peer2.SendAll(packets);
        }
      } else if id == session2 && handler2 != null {
        var packets := handler2.StopAndRelease();
        if peer1 != null {
          peer1.SendAll(packets);
        }
      }
    }
  }

  // ----- whole runs on the objects -----

  datatype Call =
    | FirstAudio(packet: seq<Byte>)
    | SecondAudio(packet: seq<Byte>)
    | Press(id: Signalling.Id)
    | Lift(id: Signalling.Id)

  /** Who is at the ends of a bridge, and whose connection exists. */
  datatype Setting = Setting(session1: Signalling.Id, session2: Signalling.Id, up1: bool, up2: bool)

  /** The event a call is, none for a stranger's button. */
  function EventOf(at: Setting, c: Call): (es: seq<PairEvent>)
    ensures |es| <= 1
  {
    match c
    case FirstAudio(packet) => [OnFirst(Packet(packet, at.up2))]
    case SecondAudio(packet) => [OnSecond(Packet(packet, at.up1))]
    case Press(id) => if id == at.session1 then [OnFirst(Down)] else if id == at.session2 then [OnSecond(Down)] else []
    case Lift(id) =>
      if id == at.session1 then [OnFirst(Up(at.up2))] else if id == at.session2 then [OnSecond(Up(at.up1))] else []
  }

  function EventsOf(at: Setting, calls: seq<Call>): seq<PairEvent> {
    if calls == [] then [] else EventsOf(at, calls[..|calls| - 1]) + EventOf(at, calls[|calls| - 1])
  }

  lemma PairRunMore<D, E, Pcm>(c: Codec<D, E, Pcm>, p: Pair<D, E, Pcm>, es: seq<PairEvent>, more: seq<PairEvent>)
    requires PairInv(p) && |more| <= 1
    ensures PairRun(c, p, es + more) ==
            if more == [] then PairRun(c, p, es) else PairStep(c, PairRun(c, p, es), more[0])
  {
    hide Inv, PairStep;
    if more == [] {
      assert es + more == es;
    } else {
      assert (es + more)[..|es|] == es;
    }
  }

  method ServeOne<D, E, Pcm>(b: Bridge<D, E, Pcm>, c: Call, ghost at: Setting)
    requires b.Valid() && at == Setting(b.session1, b.session2, b.peer1 != null, b.peer2 != null)
    modifies b, b.handler1, b.handler2, b.peer1, b.peer2
    ensures b.Valid() && (b.peer1, b.peer2) == (old(b.peer1), old(b.peer2))
    ensures b.lanes == var e := EventOf(at, c); if e == [] then old(b.lanes) else PairStep(b.codec, old(b.lanes), e[0])
    ensures b.Got(b.peer2, old(b.lanes).first, b.lanes.first) && b.Got(b.peer1, old(b.lanes).second, b.lanes.second)
  {
    hide Inv, Step;
    match c
    case FirstAudio(packet) => b.FromFirst(packet);
    case SecondAudio(packet) => b.FromSecond(packet);
    case Press(id) => b.StartPtt(id);
    case Lift(id) => b.StopPtt(id);
  }

  lemma NewlyOffered<T>(before: seq<T>, between: seq<T>, after: seq<T>)
    requires before <= between <= after
    ensures between[|before|..] + after[|between|..] == after[|before|..]
  {
  }

  method ServeEach<D, E, Pcm>(b: Bridge<D, E, Pcm>, calls: seq<Call>, ghost at: Setting)
    returns (ghost es: seq<PairEvent>)
    requires b.Valid() && at == Setting(b.session1, b.session2, b.peer1 != null, b.peer2 != null)
    modifies b, b.handler1, b.handler2, b.peer1, b.peer2
    ensures b.Valid() && (b.peer1, b.peer2) == (old(b.peer1), old(b.peer2))
    ensures es == EventsOf(at, calls) && b.lanes == PairRun(b.codec, old(b.lanes), es)
    ensures b.Got(b.peer2, old(b.lanes).first, b.lanes.first) && b.Got(b.peer1, old(b.lanes).second, b.lanes.second)
    decreases |calls|
  {
    hide Inv, PairStep, EventOf, Bridge.Mirrors;
    if calls == [] {
      return [];
    }
    var last := calls[|calls| - 1];
    es := ServeEach(b, calls[..|calls| - 1], at);
    ghost var was := b.lanes;
    ServeOne(b, last, at);
    NewlyOffered(old(b.lanes).first.offered, was.first.offered, b.lanes.first.offered);
    NewlyOffered(old(b.lanes).second.offered, was.second.offered, b.lanes.second.offered);
    PairRunMore(b.codec, old(b.lanes), es, EventOf(at, last));
    es := es + EventOf(at, last);
  }

  /**
   Any calls on a bridge, in any order: each direction is where its own events alone lead, and each peer was sent
   exactly what the lane towards it newly offered.
   */
  method ServeAll<D, E, Pcm>(b: Bridge<D, E, Pcm>, calls: seq<Call>) returns (ghost es: seq<PairEvent>)
    requires b.Valid()
    modifies b, b.handler1, b.handler2, b.peer1, b.peer2
    ensures b.Valid() && (b.peer1, b.peer2) == (old(b.peer1), old(b.peer2))
    ensures es == EventsOf(Setting(b.session1, b.session2, b.peer1 != null, b.peer2 != null), calls)
    ensures b.lanes.first == Run(b.codec, old(b.lanes).first, Firsts(es))
    ensures b.lanes.second == Run(b.codec, old(b.lanes).second, Seconds(es))
    ensures b.Got(b.peer2, old(b.lanes).first, b.lanes.first) && b.Got(b.peer1, old(b.lanes).second, b.lanes.second)
  {
    hide Inv, PairStep, EventOf, Run;
    es := ServeEach(b, calls, Setting(b.session1, b.session2, b.peer1 != null, b.peer2 != null));
    LanesIndependent(b.codec, old(b.lanes), es);
  }
}
