/**
 The server's objects behind the signalling steps (backend/src/api/BridgeManager.cpp, coordinator.cpp and
 HttpRouter.cpp). Requests are taken as parsed, answers reduced to their status.
 */
module Coordinators {
  import BridgeRouting
  import opened Bridges
  import opened PttHandler
  import opened Signalling

  /** A bridge is as it was when it and its handlers did not change, whatever its peers got. */
  twostate lemma Untouched<D, E, Pcm>(b: Bridge<D, E, Pcm>)
    requires old(b.Valid()) && unchanged(b)
    requires b.handler1 != null ==> unchanged(b.handler1)
    requires b.handler2 != null ==> unchanged(b.handler2)
    ensures b.Valid() && b.lanes == old(b.lanes)
  {
  }

  lemma PartsOf<D, E, Pcm>(b: Bridge<D, E, Pcm>)
    ensures b in b.Parts()
    ensures b.handler1 != null ==> b.handler1 in b.Parts()
    ensures b.handler2 != null ==> b.handler2 in b.Parts()
  {
  }

  class BridgeManager<D, E, Pcm> {
    var bridged: map<Id, Bridge<D, E, Pcm>>
    /** Which bridge an object belongs to. */
    ghost var owner: map<object, Bridge<D, E, Pcm>>

    /** The table of the signalling model: who is on the bridge of whom. */
    ghost function Table(): map<Id, Ends>
      reads this
    {
      map k | k in bridged :: Ends(bridged[k].session1, bridged[k].session2)
    }

    ghost predicate Owns(b: Bridge<D, E, Pcm>)
      reads `owner
    {
      forall o :: o in b.Parts() ==> o in owner && owner[o] == b
    }

    ghost predicate Holds(b: Bridge<D, E, Pcm>)
      reads `owner, owner.Keys
    {
      Owns(b) && b.Parts() <= owner.Keys && b.Valid()
    }

    /** Every bridge is in order, and no two share a handler. */
    ghost predicate Valid()
      reads this, owner.Keys
    {
      this !in owner && forall k :: k in bridged ==> Holds(bridged[k])
    }

    lemma PartsOwned(id: Id)
      requires Valid() && id in bridged
      ensures bridged[id].Parts() <= owner.Keys && bridged[id].Valid()
    {
      hide Bridge.Valid, Bridge.Parts;
    }

    constructor ()
      ensures bridged == map[] && Valid() && owner == map[]
    {
      bridged, owner := map[], map[];
    }

    method AddBridge(bridge: Bridge<D, E, Pcm>)
      requires Valid() && bridge.Valid() && this !in bridge.Parts() && bridge.Parts() !! owner.Keys
      modifies this
      ensures bridged == old(bridged)[bridge.session1 := bridge][bridge.session2 := bridge]
      ensures Valid() && owner.Keys == old(owner.Keys) + bridge.Parts()
    {
      hide Bridge.Valid, Bridge.Parts;
      ghost var before := owner;
      bridged := bridged[bridge.session1 := bridge];
      bridged := bridged[bridge.session2 := bridge];
      owner := owner + map o | o in bridge.Parts() :: bridge;
      forall k | k in bridged
        ensures Holds(bridged[k])
      {
        PartsOf(bridged[k]);
        Untouched(bridged[k]);
      }
    }

    function GetPartner(id: Id): (p: Id)
      reads this
      ensures p == if id in Table() then Table()[id].Partner(id) else ""
    {
      if id in bridged then Ends(bridged[id].session1, bridged[id].session2).Partner(id) else ""
    }

    method RemoveBridge(id: Id)
      requires Valid()
      modifies this`bridged
      ensures Valid() && Table() == Signalling.RemoveBridge(old(Table()), id)
      ensures forall k :: k in bridged ==> k in old(bridged) && bridged[k] == old(bridged)[k]
    {
      hide Bridge.Valid, Bridge.Parts, Holds, Owns;
      if id in bridged {
        var partner := GetPartner(id);
        bridged := bridged - {id};
        bridged := bridged - {partner};
      }
    }

    /** The objects of the bridge the session is on. */
    ghost function Mine(id: Id): set<object>
      reads this
    {
      if id in bridged then bridged[id].Parts() else {}
    }

    /** The peers of that bridge. */
    ghost function Peers(id: Id): set<Peer?>
      reads this, if id in bridged then {bridged[id]} else {}
    {
      if id in bridged then {bridged[id].peer1, bridged[id].peer2} else {}
    }

    /** The bridges that the session is not on are as they were. */
    twostate predicate OthersKept(id: Id)
      reads this, set k | k in bridged :: bridged[k]
    {
      && bridged == old(bridged)
      && forall k :: k in bridged && (id in bridged ==> bridged[k] != bridged[id]) ==>
           bridged[k].lanes == old(bridged[k].lanes)
    }

    /** When one bridge alone changes, and its peers, all the others stay in order and as they were. */
    twostate lemma OthersStay(b: Bridge<D, E, Pcm>)
      requires old(Valid()) && unchanged(this) && Owns(b)
      requires forall o: object :: o in owner && o !in b.Parts() && o != b.peer1 && o != b.peer2 ==> unchanged(o)
      ensures forall k :: k in bridged && bridged[k] != b ==>
                Holds(bridged[k]) && bridged[k].lanes == old(bridged[k].lanes)
    {
      hide Bridge.Valid, Bridge.Parts;
      forall k | k in bridged && bridged[k] != b
        ensures Holds(bridged[k]) && bridged[k].lanes == old(bridged[k].lanes)
      {
        PartsOf(bridged[k]);
        Untouched(bridged[k]);
      }
    }

    /** Starts the lane of the session on its bridge; every other bridge stays as it is. */
    method StartPtt(id: Id) returns (known: bool)
      requires Valid()
      modifies Mine(id)
      ensures unchanged(this) && known == (id in bridged)
      ensures known ==> bridged[id].Pressed(id)
      ensures Valid()
      ensures OthersKept(id)
    {
      hide Bridge.Valid, Bridge.Parts;
      if id !in bridged {
        return false;
      }
      var b := bridged[id];
      PartsOf(b);
      b.StartPtt(id);
      OthersStay(b);
      return true;
    }

    /** Stops it, and the partner gets what was released. */
    method StopPtt(id: Id) returns (known: bool)
      requires Valid()
      modifies Mine(id)
      modifies Peers(id)
      ensures unchanged(this) && known == (id in bridged)
      ensures known ==> bridged[id].Lifted(id)
      ensures Valid()
      ensures OthersKept(id)
    {
      hide Bridge.Valid, Bridge.Parts;
      if id !in bridged {
        return false;
      }
      var b := bridged[id];
      PartsOf(b);
      b.StopPtt(id);
      OthersStay(b);
      return true;
    }
  }

  lemma NothingToClose(s: State, id: Id)
    requires id !in s.pc
    ensures Close(s, id) == s
  {
  }

  class Coordinator<D, E, Pcm> {
    const bridges: BridgeManager<D, E, Pcm>
    const codec: Codec<D, E, Pcm>
    /** The states of a new transcoder. */
    const decoder: D
    const encoder: E
    var ws: set<Id>
    var pc: map<Id, Peer>
    var live: set<Id>
    var closing: multiset<Id>
    var sent: seq<Letter>
    ghost var created: nat
    ghost var removed: nat

    ghost function View(): State
      reads this, bridges
    {
      State(ws, pc.Keys, bridges.Table(), live, closing, sent, created, removed)
    }

    ghost predicate Valid()
      reads this, bridges, bridges.owner.Keys
    {
      && bridges.Valid() && this !in bridges.owner && live <= pc.Keys
      && forall j, k :: j in pc && k in pc && j != k ==> pc[j] != pc[k]
    }

    constructor (codec: Codec<D, E, Pcm>, decoder: D, encoder: E)
      ensures View() == NOTHING && Valid() && fresh(bridges)
    {
      this.codec, this.decoder, this.encoder := codec, decoder, encoder;
      bridges := new BridgeManager();
      ws, pc, live, closing, sent, created, removed := {}, map[], {}, multiset{}, [], 0, 0;
    }

    /** `get_peer(id)->close()`, which must not be asked of a peer that is not there. */
    method ClosePeer(id: Id)
      requires id in pc
      modifies this`live, this`closing
      ensures View() == Close(old(View()), id) && live == old(live) - {id}
    {
      if id in live {
        live := live - {id};
        closing := closing + multiset{id};
      }
    }

    /** `get_peer(id)->initialize_webrtc()`. */
    method OpenPeer(id: Id)
      requires id in pc
      modifies this`live, this`closing
      ensures View() == Open(old(View()), id)
    {
      if id in live {
        closing := closing + multiset{id};
      }
      live := live + {id};
    }

    /** `get_session(id)->dispatch_message(...)`, which must not be asked of a session that is not there. */
    method Dispatch(id: Id, message: Message)
      requires id in ws
      modifies this`sent
      ensures View() == Send(old(View()), id, message)
    {
      sent := sent + [Letter(id, message)];
    }

    /** The part of `disconnect_session` for a session in a call. */
    method EndBridge(id: Id)
      requires Valid() && id in bridges.bridged
      modifies this`live, this`closing, this`sent, this`removed, bridges`bridged
      ensures Valid() && View() == EndedBridge(old(View()), id)
    {
      hide Close, Send, Signalling.RemoveBridge, BridgeManager.Valid;
      var partner := bridges.GetPartner(id);
      bridges.RemoveBridge(id);
      removed := removed + 1;
      ghost var t := View();
      assert t == old(View().(bridges := Signalling.RemoveBridge(bridges.Table(), id), removed := removed + 1));
      if partner in pc {
        ClosePeer(partner);
      } else {
        NothingToClose(t, partner);
      }
      assert View() == Close(t, partner);
      if partner in ws {
        Dispatch(partner, PartnerDisconnected);
      }
    }

    method DisconnectSession(id: Id)
      requires Valid()
      modifies this`live, this`closing, this`sent, this`removed, bridges`bridged
      ensures Valid() && View() == Disconnect(old(View()), id)
      ensures OutOfCall(old(View()), id, View(), [])
    {
      hide Close, EndedBridge, BridgeManager.Valid, OutOfCall;
      ghost var s := View();
      DisconnectOutOfCall(s, id);
      if id in pc {
        ClosePeer(id);
      } else {
        NothingToClose(s, id);
      }
      if id in bridges.bridged {
        EndBridge(id);
      }
    }

    /** A websocket upgrade: the session id is new. */
    method Connect(id: Id)
      requires Valid() && Enabled(View(), Join(id))
      modifies this`ws, this`pc
      ensures Valid() && View() == Signalling.Step(old(View()), Join(id))
      ensures ws == old(ws) + {id} && pc.Keys == old(pc.Keys) + {id}
    {
      hide BridgeManager.Valid;
      var peer := new Peer();
      ws := ws + {id};
      pc := pc[id := peer];
      assert pc.Keys == old(pc.Keys) + {id};
    }

    method OnWsLeave(id: Id)
      requires Valid() && Enabled(View(), Leave(id))
      modifies this, bridges`bridged
      ensures Valid() && View() == Signalling.Step(old(View()), Leave(id))
      ensures ws == old(ws) - {id} && pc.Keys == old(pc.Keys) - {id} && id !in live && id !in bridges.bridged
    {
      hide Disconnect, BridgeManager.Valid;
      DisconnectSession(id);
      ws := ws - {id};
      pc := pc - {id};
    }

    /** The state callback of a peer connection that was closed. */
    method OnClosed(id: Id)
      requires Valid() && Enabled(View(), Closed(id))
      modifies this, bridges`bridged
      ensures Valid() && View() == Signalling.Step(old(View()), Closed(id))
      ensures id !in live && id !in bridges.bridged
    {
      hide Disconnect, BridgeManager.Valid;
      closing := closing - multiset{id};
      DisconnectSession(id);
    }

    method OnFailed(id: Id)
      requires Valid() && Enabled(View(), Fail(id))
      modifies this, bridges`bridged
      ensures Valid() && View() == Signalling.Step(old(View()), Fail(id))
      ensures OutOfCall(old(View()), id, View(), [])
    {
      hide Disconnect, BridgeManager.Valid, OutOfCall;
      DisconnectSession(id);
    }

    /** The two sessions share a bridge that has just been set up between their peers. */
    ghost predicate Placed(caller: Id, target: Id, created1: bool, created2: bool)
      reads this, bridges, if caller in bridges.bridged then {bridges.bridged[caller]} else {}
    {
      && caller in bridges.bridged && target in bridges.bridged && caller in pc && target in pc
      && var b := bridges.bridged[caller];
      && bridges.bridged[target] == b && (b.peer1, b.peer2) == (pc[caller], pc[target]) && b.codec == codec
      && b.lanes == Pair(BridgeRouting.FreshLane(created1, decoder, encoder),
                         BridgeRouting.FreshLane(created2, decoder, encoder))
    }

    method PlaceBridge(caller: Id, target: Id, created1: bool, created2: bool)
      requires Valid() && caller != target && caller in pc && target in pc
      modifies bridges
      ensures bridges.Table() == old(bridges.Table())[caller := Ends(caller, target)][target := Ends(caller, target)]
      ensures Valid() && Placed(caller, target, created1, created2) && fresh(bridges.bridged[caller])
    {
      hide BridgeManager.Valid, Bridge.Valid, BridgeRouting.Inv, Bridge.Parts;
      var b := new Bridge(codec, decoder, encoder, created1, created2, pc[caller], pc[target], caller, target);
      bridges.AddBridge(b);
    }

    /** The part of `handle_call` behind the new bridge. */
    method Announce(caller: Id, target: Id)
      requires caller in ws && target in ws && caller in pc && target in pc
      modifies this`sent, this`live, this`closing, this`created
      ensures View() == Announced(old(View()), caller, target)
    {
      hide Send, Open;
      created := created + 1;
      Dispatch(caller, Match);
      Dispatch(target, Match);
      OpenPeer(caller);
      OpenPeer(target);
    }

    /**
     The registry is what keeps the lookups of both sessions and both peers from coming back empty. `created1`
     and `created2` say whether the bridge gets its two transcoders.
     */
    method HandleCall(caller: Id, target: Id, created1: bool, created2: bool) returns (status: Status)
      requires Valid() && Registry(View())
      modifies this, bridges
      ensures Valid() && View() == Signalling.Step(old(View()), Call(caller, target))
      ensures status == Ok <==> caller != target && target in old(ws) && target !in old(bridges.bridged)
                                && caller in old(pc) && target in old(pc)
      ensures status == BadRequest <==> caller == target
      ensures status == Answer(old(View()), caller, target)
      ensures status == Ok ==> live == old(live) + {caller, target}
      ensures status == Ok ==> sent == old(sent) + [Letter(caller, Match), Letter(target, Match)]
      ensures status != Ok ==> View() == old(View())
      ensures status == Ok ==> Placed(caller, target, created1, created2)
    {
      hide BridgeManager.Valid, Announced;
      CallEffect(View(), caller, target);
      if target == caller {
        return BadRequest;
      }
      if target !in ws || target in bridges.bridged {
        return NotFound;
      }
      if caller !in pc || target !in pc {
        return NotFound;
      }
      PlaceBridge(caller, target, created1, created2);
      Announce(caller, target);
      return Ok;
    }

    /** Refuses exactly sessions in no call; otherwise the button goes down on the session's own lane. */
    method HandlePttStart(id: Id) returns (status: Status)
      requires Valid()
      modifies bridges.Mine(id)
      ensures unchanged(this) && unchanged(bridges)
      ensures status == if id in bridges.bridged then Ok else NotFound
      ensures status == Ok ==> bridges.bridged[id].Pressed(id)
      ensures bridges.OthersKept(id)
      ensures Valid()
    {
      if id !in bridges.bridged {
        return NotFound;
      }
      hide BridgeManager.Valid, BridgeManager.OthersKept, Bridge.Pressed, Bridge.Valid, Bridge.Parts;
      bridges.PartsOwned(id);
      assert this !in bridges.bridged[id].Parts();
      var _ := bridges.StartPtt(id);
      return Ok;
    }

    /** The same for the button going up, with what was released going to the partner. */
    method HandlePttStop(id: Id) returns (status: Status)
      requires Valid()
      modifies bridges.Mine(id)
      modifies bridges.Peers(id)
      ensures unchanged(this) && unchanged(bridges)
      ensures status == if id in bridges.bridged then Ok else NotFound
      ensures status == Ok ==> bridges.bridged[id].Lifted(id)
      ensures bridges.OthersKept(id)
      ensures Valid()
    {
      if id !in bridges.bridged {
        return NotFound;
      }
      hide BridgeManager.Valid, BridgeManager.OthersKept, Bridge.Lifted, Bridge.Valid, Bridge.Parts;
      bridges.PartsOwned(id);
      assert this !in bridges.bridged[id].Parts();
      var _ := bridges.StopPtt(id);
      return Ok;
    }

    method HandleEndCall(id: Id) returns (status: Status)
      requires Valid()
      modifies this, bridges`bridged
      ensures Valid() && View() == Signalling.Step(old(View()), End(id)) && status == Ok
      ensures OutOfCall(old(View()), id, View(), if id in ws then [Letter(id, Disconnected)] else [])
    {
      hide Disconnect, BridgeManager.Valid, OutOfCall;
      EndEffect(View(), id);
      DisconnectSession(id);
      if id in ws {
        Dispatch(id, Disconnected);
      }
      return Ok;
    }
  }
}
