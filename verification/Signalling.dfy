/**
 Call signalling (backend/src/api/coordinator.cpp, HttpRouter.cpp, BridgeManager.cpp) as steps over the two
 registries and the bridge table. Each websocket callback, request and peer callback is one step.
 */
module Signalling {

  type Id = string

  /** The two sessions of a bridge. */
  datatype Ends = Ends(first: Id, second: Id) {
    predicate Has(id: Id) { id == first || id == second }

    /** `Bridge::get_partner`; the empty string for a stranger. */
    function Partner(id: Id): Id {
      if first == id then second else if second == id then first else ""
    }
  }

  datatype Message = Match | PartnerDisconnected | Disconnected

  datatype Letter = Letter(receiver: Id, message: Message)

  /**
   `live` are the peers with an open connection, `closing` the callbacks that closed connections still owe;
   `sent`, `created` and `removed` are history.
   */
  datatype State = State(
    ws: set<Id>, pc: set<Id>, bridges: map<Id, Ends>, live: set<Id>, closing: multiset<Id>,
    sent: seq<Letter>, created: nat, removed: nat)

  const NOTHING := State({}, {}, map[], {}, multiset{}, [], 0, 0)

  datatype Status = Ok | BadRequest | NotFound

  datatype Event =
    | Join(id: Id)             // a websocket upgrade, under a new session id
    | Leave(id: Id)            // the websocket is gone
    | Call(caller: Id, target: Id)
    | End(id: Id)
    | Fail(id: Id)             // an open connection fails
    | Closed(id: Id)           // the callback of a connection that was closed

  // ----- the operations -----

  /** `PeerConnection::close`: the callback comes later. */
  function Close(s: State, id: Id): State {
    if id in s.pc && id in s.live
    then s.(live := s.live - {id}, closing := s.closing + multiset{id})
    else s
  }

  /** `initialize_webrtc`: a connection that is still open is replaced, which closes it. */
  function Open(s: State, id: Id): State {
    s.(live := s.live + {id}, closing := if id in s.live then s.closing + multiset{id} else s.closing)
  }

  function Send(s: State, id: Id, message: Message): State {
    s.(sent := s.sent + [Letter(id, message)])
  }

  function RemoveBridge(bridges: map<Id, Ends>, id: Id): map<Id, Ends> {
    if id in bridges then bridges - {id} - {bridges[id].Partner(id)} else bridges
  }

  /** The part of `disconnect_session` for a session in a call. */
  function EndedBridge(s: State, id: Id): State
    requires id in s.bridges
  {
    var partner := s.bridges[id].Partner(id);
    var r := Close(s.(bridges := RemoveBridge(s.bridges, id), removed := s.removed + 1), partner);
    if partner in r.ws then Send(r, partner, PartnerDisconnected) else r
  }

  /** `disconnect_session`. */
  function Disconnect(s: State, id: Id): State {
    var s1 := Close(s, id);
    if id in s1.bridges then EndedBridge(s1, id) else s1
  }

  /** `handle_call`, as far as its answer goes. */
  function Answer(s: State, caller: Id, target: Id): Status {
    if target == caller then BadRequest
    else if target !in s.ws || target in s.bridges then NotFound
    else if caller !in s.pc || target !in s.pc then NotFound
    else Ok
  }

  /** The part of `handle_call` behind the new bridge. */
  function Announced(s: State, caller: Id, target: Id): State {
    Open(Open(Send(Send(s.(created := s.created + 1), caller, Match), target, Match), caller), target)
  }

  function PlaceCall(s: State, caller: Id, target: Id): State {
    if Answer(s, caller, target) != Ok then s
    else
      var ends := Ends(caller, target);
      Announced(s.(bridges := s.bridges[caller := ends][target := ends]), caller, target)
  }

  function EndCall(s: State, id: Id): State {
    var s1 := Disconnect(s, id);
    if id in s1.ws then Send(s1, id, Disconnected) else s1
  }

  /** When a step can happen: ids are new, callbacks come from connections. */
  predicate Enabled(s: State, e: Event) {
    match e
    case Join(id) => id !in s.ws && id !in s.pc
    case Leave(id) => id in s.ws
    case Fail(id) => id in s.live
    case Closed(id) => id in s.closing
    case _ => true
  }

  function Step(s: State, e: Event): State {
    match e
    case Join(id) => s.(ws := s.ws + {id}, pc := s.pc + {id})
    case Leave(id) => var s1 := Disconnect(s, id); s1.(ws := s1.ws - {id}, pc := s1.pc - {id})
    case Call(caller, target) => PlaceCall(s, caller, target)
    case End(id) => EndCall(s, id)
    case Fail(id) => Disconnect(s, id)
    case Closed(id) => Disconnect(s.(closing := s.closing - multiset{id}), id)
  }

  function Run(s: State, es: seq<Event>): State {
    if es == [] then s else Step(Run(s, es[..|es| - 1]), es[|es| - 1])
  }

  /** Every step of the run happens in a state that enables it. */
  predicate Possible(s: State, es: seq<Event>) {
    es == [] || (Possible(s, es[..|es| - 1]) && Enabled(Run(s, es[..|es| - 1]), es[|es| - 1]))
  }

  // ----- what holds with no assumption about callers -----

  /** Both registries know the same sessions, and a bridged session is registered and on its own bridge. */
  ghost predicate Registry(s: State) {
    && s.ws == s.pc
    && (forall k :: k in s.bridges ==> k in s.ws && s.bridges[k].Has(k))
    && (forall k :: k in s.bridges ==> s.bridges[k].first != s.bridges[k].second)
  }

  lemma DisconnectKeepsRegistry(s: State, id: Id)
    requires Registry(s)
    ensures Registry(Disconnect(s, id)) && id !in Disconnect(s, id).bridges
  {
  }

  lemma StepKeepsRegistry(s: State, e: Event)
    requires Registry(s) && Enabled(s, e)
    ensures Registry(Step(s, e))
  {
    hide Disconnect, Open, Send;
    match e {
      case Leave(id) =>
        DisconnectKeepsRegistry(s, id);
      case End(id) =>
        DisconnectKeepsRegistry(s, id);
        SendOnly(Disconnect(s, id), id, Disconnected);
      case Fail(id) =>
        DisconnectKeepsRegistry(s, id);
      case Closed(id) =>
        DisconnectKeepsRegistry(s.(closing := s.closing - multiset{id}), id);
      case Call(caller, target) =>
        PlacedCall(s, caller, target);
      case Join(id) =>
    }
  }

  /** Sending touches the log and nothing else. */
  lemma SendOnly(s: State, id: Id, message: Message)
    ensures Send(s, id, message) == s.(sent := s.sent + [Letter(id, message)])
  {
  }

  /** An accepted call changes the table at the two sessions, and writes to both. */
  lemma PlacedCall(s: State, caller: Id, target: Id)
    ensures var r := PlaceCall(s, caller, target);
            if Answer(s, caller, target) != Ok then r == s
            else
              && r.bridges == s.bridges[caller := Ends(caller, target)][target := Ends(caller, target)]
              && (r.ws, r.pc, r.created, r.removed) == (s.ws, s.pc, s.created + 1, s.removed)
              && r.sent == s.sent + [Letter(caller, Match), Letter(target, Match)]
  {
    assert s.sent + [Letter(caller, Match)] + [Letter(target, Match)]
        == s.sent + [Letter(caller, Match), Letter(target, Match)];
  }

  /** Over every run, whoever calls whom. */
  lemma {:induction false} RunKeepsRegistry(es: seq<Event>)
    requires Possible(NOTHING, es)
    ensures Registry(Run(NOTHING, es))
  {
    hide Step, Enabled;
    if es == [] {
    } else {
      RunKeepsRegistry(es[..|es| - 1]);
      StepKeepsRegistry(Run(NOTHING, es[..|es| - 1]), es[|es| - 1]);
    }
  }

  /** `handle_call` looks sessions up only after it found them. */
  lemma CallFindsSessions(es: seq<Event>, caller: Id, target: Id)
    requires Possible(NOTHING, es) && Answer(Run(NOTHING, es), caller, target) == Ok
    ensures caller != target
    ensures var s := Run(NOTHING, es);
            caller in s.ws && target in s.ws && caller in s.pc && target in s.pc && target !in s.bridges
  {
    hide Run;
    RunKeepsRegistry(es);
  }

  /** A bridged session is at exactly one end of its bridge, so a push-to-talk request finds its own side. */
  lemma PttPicksOwnSide(es: seq<Event>, id: Id)
    requires Possible(NOTHING, es) && id in Run(NOTHING, es).bridges
    ensures var ends := Run(NOTHING, es).bridges[id]; (id == ends.first) != (id == ends.second)
  {
    hide Run;
    RunKeepsRegistry(es);
  }

  // ----- what each step does, without naming how -----

  /** Nobody has a connection open who is not in the registry. */
  predicate Connected(s: State) { s.live <= s.pc }

  /**
   The session is out of its call, if it was in one: the bridge is gone under both keys, the connections of both
   parties are closed and owe their callbacks, the partner has been told if it is still there, then the letters `told`
   were sent, and nobody else is touched.
   */
  ghost predicate OutOfCall(s: State, id: Id, r: State, told: seq<Letter>) {
    var parties := if id in s.bridges then {id, s.bridges[id].Partner(id)} else {id};
    && (r.ws, r.pc, r.created) == (s.ws, s.pc, s.created)
    && r.live == s.live - parties
    && (forall k :: r.closing[k] == s.closing[k] + if k in parties && k in s.live then 1 else 0)
    && (if id in s.bridges then
          var partner := s.bridges[id].Partner(id);
          && (forall k :: k in r.bridges <==> k in s.bridges && k != id && k != partner)
          && (forall k :: k in r.bridges ==> r.bridges[k] == s.bridges[k])
          && r.removed == s.removed + 1
          && r.sent == s.sent + (if partner in s.ws then [Letter(partner, PartnerDisconnected)] else []) + told
        else (r.bridges, r.removed, r.sent) == (s.bridges, s.removed, s.sent + told))
  }

  lemma DisconnectOutOfCall(s: State, id: Id)
    requires Connected(s)
    ensures OutOfCall(s, id, Disconnect(s, id), []) && Connected(Disconnect(s, id))
  {
    CloseEffect(s, id);
    if id in s.bridges {
      BothClosed(s, id);
      EndedBridgeEffect(Close(s, id), id);
      hide Close, EndedBridge;
    }
    assert forall letters: seq<Letter> :: letters + [] == letters;
  }

  lemma BothClosed(s: State, id: Id)
    requires Connected(s) && id in s.bridges
    ensures var r, partner := Disconnect(s, id), s.bridges[id].Partner(id);
            && r.live == s.live - {id, partner}
            && forall k :: r.closing[k] == s.closing[k] + if (k == id || k == partner) && k in s.live then 1 else 0
  {
    CloseEffect(s, id);
    EndedBridgeEffect(Close(s, id), id);
    hide Close, EndedBridge;
  }

  lemma EndedBridgeEffect(s: State, id: Id)
    requires Connected(s) && id in s.bridges
    ensures var r, partner := EndedBridge(s, id), s.bridges[id].Partner(id);
            && (r.ws, r.pc, r.created, r.removed) == (s.ws, s.pc, s.created, s.removed + 1)
            && r.live == s.live - {partner}
            && (forall k :: r.closing[k] == s.closing[k] + if k == partner && k in s.live then 1 else 0)
            && (forall k :: k in r.bridges <==> k in s.bridges && k != id && k != partner)
            && (forall k :: k in r.bridges ==> r.bridges[k] == s.bridges[k])
            && r.sent == s.sent + if partner in s.ws then [Letter(partner, PartnerDisconnected)] else []
  {
    var s1 := s.(bridges := RemoveBridge(s.bridges, id), removed := s.removed + 1);
    RemoveEffect(s.bridges, id);
    CloseEffect(s1, s.bridges[id].Partner(id));
    hide Close, RemoveBridge;
  }

  lemma RemoveEffect(bridges: map<Id, Ends>, id: Id)
    requires id in bridges
    ensures var r := RemoveBridge(bridges, id);
            && (forall k :: k in r <==> k in bridges && k != id && k != bridges[id].Partner(id))
            && (forall k :: k in r ==> r[k] == bridges[k])
  {
  }

  lemma CloseEffect(s: State, id: Id)
    requires Connected(s)
    ensures Close(s, id) == s.(live := Close(s, id).live, closing := Close(s, id).closing)
    ensures Close(s, id).live == s.live - {id}
    ensures forall k :: Close(s, id).closing[k] == s.closing[k] + if k == id && k in s.live then 1 else 0
  {
  }

  /** A leaving session is out of its call and in neither registry. */
  lemma LeaveEffect(s: State, id: Id)
    requires Connected(s)
    ensures var r := Step(s, Leave(id));
            && OutOfCall(s, id, r.(ws := s.ws, pc := s.pc), [])
            && r.ws == s.ws - {id} && r.pc == s.pc - {id}
  {
    hide OutOfCall;
    DisconnectOutOfCall(s, id);
    DisconnectRegistries(s, id);
    var r := Step(s, Leave(id));
    assert r.(ws := s.ws, pc := s.pc) == Disconnect(s, id);
  }

  lemma DisconnectRegistries(s: State, id: Id)
    ensures Disconnect(s, id).ws == s.ws && Disconnect(s, id).pc == s.pc
  {
  }

  /** A session whose connection fails is out of its call. */
  lemma FailEffect(s: State, id: Id)
    requires Connected(s)
    ensures OutOfCall(s, id, Step(s, Fail(id)), [])
  {
    hide OutOfCall, Disconnect;
    DisconnectOutOfCall(s, id);
  }

  /** A session that ends its call is out of it, and is told so after its partner is. */
  lemma EndEffect(s: State, id: Id)
    requires Connected(s)
    ensures OutOfCall(s, id, Step(s, End(id)), if id in s.ws then [Letter(id, Disconnected)] else [])
  {
    DisconnectOutOfCall(s, id);
    hide Disconnect;
    var m, r := Disconnect(s, id), Step(s, End(id));
    if id in s.ws {
      assert r == m.(sent := m.sent + [Letter(id, Disconnected)]);
    }
  }

  /** A callback takes itself off the account, and its session is out of its call. */
  lemma ClosedEffect(s: State, id: Id)
    requires Connected(s) && id in s.closing
    ensures OutOfCall(s.(closing := s.closing[id := s.closing[id] - 1]), id, Step(s, Closed(id)), [])
  {
    hide OutOfCall, Disconnect;
    assert s.closing - multiset{id} == s.closing[id := s.closing[id] - 1];
    DisconnectOutOfCall(s.(closing := s.closing[id := s.closing[id] - 1]), id);
  }

  /** A new session is in both registries and nowhere else. */
  lemma JoinEffect(s: State, id: Id)
    ensures var r := Step(s, Join(id));
            && (forall k :: k in r.ws <==> k in s.ws || k == id) && (forall k :: k in r.pc <==> k in s.pc || k == id)
            && (r.bridges, r.live, r.closing) == (s.bridges, s.live, s.closing)
            && (r.sent, r.created, r.removed) == (s.sent, s.created, s.removed)
  {
  }

  /** When a call is answered how. */
  lemma AnswerIff(s: State, caller: Id, target: Id)
    ensures var answer := Answer(s, caller, target);
            && (answer == BadRequest <==> caller == target)
            && (answer == Ok <==> caller != target && target in s.ws && target !in s.bridges
                                  && caller in s.pc && target in s.pc)
            && (answer == NotFound <==> caller != target && (target !in s.ws || target in s.bridges
                                                             || caller !in s.pc || target !in s.pc))
  {
  }

  /**
   A call that is answered Ok puts both sessions on one bridge, tells the caller and then the target, and opens both
   connections; one that was open is replaced and owes its callback. Any other call changes nothing.
   */
  lemma CallEffect(s: State, caller: Id, target: Id)
    ensures var r := Step(s, Call(caller, target));
            if Answer(s, caller, target) != Ok then r == s
            else
              && (forall k :: k in r.bridges <==> k in s.bridges || k == caller || k == target)
              && r.bridges[caller] == r.bridges[target] == Ends(caller, target)
              && (forall k :: k in s.bridges && k != caller && k != target ==> r.bridges[k] == s.bridges[k])
              && (r.ws, r.pc, r.created, r.removed) == (s.ws, s.pc, s.created + 1, s.removed)
              && r.sent == s.sent + [Letter(caller, Match), Letter(target, Match)]
              && r.live == s.live + {caller, target}
              && forall k :: r.closing[k] ==
                   s.closing[k] + if (k == caller || k == target) && k in s.live then 1 else 0
  {
    PlacedCall(s, caller, target);
    if Answer(s, caller, target) == Ok {
      PlacedConnections(s, caller, target);
    }
    hide PlaceCall, Answer;
  }

  lemma PlacedConnections(s: State, caller: Id, target: Id)
    requires Answer(s, caller, target) == Ok
    ensures var r := PlaceCall(s, caller, target);
            && r.live == s.live + {caller, target}
            && forall k :: r.closing[k] ==
                 s.closing[k] + if (k == caller || k == target) && k in s.live then 1 else 0
  {
  }

  /** The session has joined and not left since. */
  ghost predicate HasJoined(es: seq<Event>, id: Id) {
    exists i :: 0 <= i < |es| && es[i] == Join(id) && forall j :: i < j < |es| ==> es[j] != Leave(id)
  }

  lemma HasJoinedOneMore(es: seq<Event>, e: Event, id: Id)
    ensures HasJoined(es + [e], id) <==> e == Join(id) || (HasJoined(es, id) && e != Leave(id))
  {
    var all := es + [e];
    assert all[|es|] == e;
    if HasJoined(all, id) && e != Join(id) {
      var i :| 0 <= i < |all| && all[i] == Join(id) && forall j :: i < j < |all| ==> all[j] != Leave(id);
      assert i < |es| && es[i] == Join(id) && forall j :: i < j < |es| ==> all[j] == es[j];
    }
    if HasJoined(es, id) && e != Leave(id) {
      var i :| 0 <= i < |es| && es[i] == Join(id) && forall j :: i < j < |es| ==> es[j] != Leave(id);
      assert all[i] == Join(id);
    }
  }

  /** Over every run: the registered sessions are those that have joined and not left since. */
  lemma {:induction false} RegisteredIff(es: seq<Event>, id: Id)
    requires Possible(NOTHING, es)
    ensures id in Run(NOTHING, es).ws <==> HasJoined(es, id)
    ensures Run(NOTHING, es).pc == Run(NOTHING, es).ws
  {
    hide Step, Enabled;
    if es == [] {
    } else {
      var init, last := es[..|es| - 1], es[|es| - 1];
      RegisteredIff(init, id);
      StepRegisters(Run(NOTHING, init), last);
      hide HasJoined;
      HasJoinedOneMore(init, last, id);
      assert es == init + [last];
    }
  }

  lemma StepRegisters(s: State, e: Event)
    ensures var r := Step(s, e);
            match e
            case Join(id) => r.ws == s.ws + {id} && r.pc == s.pc + {id}
            case Leave(id) => r.ws == s.ws - {id} && r.pc == s.pc - {id}
            case _ => r.ws == s.ws && r.pc == s.pc
  {
    hide Disconnect, PlaceCall;
    match e {
      case Leave(id) => DisconnectRegistries(s, id);
      case End(id) => DisconnectRegistries(s, id);
      case Fail(id) => DisconnectRegistries(s, id);
      case Closed(id) => DisconnectRegistries(s.(closing := s.closing - multiset{id}), id);
      case Call(caller, target) => PlacedCall(s, caller, target);
      case Join(_) =>
    }
  }

  /** Over every run, whoever calls whom: the open connections are those of the sessions in a call. */
  lemma {:induction false} OpenIffInCall(es: seq<Event>)
    requires Possible(NOTHING, es)
    ensures Run(NOTHING, es).live == Run(NOTHING, es).bridges.Keys
  {
    if es == [] {
    } else {
      hide Step, Enabled, Registry;
      OpenIffInCall(es[..|es| - 1]);
      RunKeepsRegistry(es[..|es| - 1]);
      StepKeepsOpen(Run(NOTHING, es[..|es| - 1]), es[|es| - 1]);
    }
  }

  lemma OutOfCallOpen(s: State, id: Id, r: State, told: seq<Letter>)
    requires s.live == s.bridges.Keys && OutOfCall(s, id, r, told)
    ensures r.live == r.bridges.Keys
  {
  }

  lemma StepKeepsOpen(s: State, e: Event)
    requires Registry(s) && Enabled(s, e) && s.live == s.bridges.Keys
    ensures Step(s, e).live == Step(s, e).bridges.Keys
  {
    assert Connected(s);
    hide Disconnect, EndCall, PlaceCall, OutOfCall, Registry;
    var r := Step(s, e);
    match e {
      case Leave(id) =>
        LeaveEffect(s, id);
        OutOfCallOpen(s, id, r.(ws := s.ws, pc := s.pc), []);
      case End(id) =>
        EndEffect(s, id);
        OutOfCallOpen(s, id, r, if id in s.ws then [Letter(id, Disconnected)] else []);
      case Fail(id) =>
        FailEffect(s, id);
        OutOfCallOpen(s, id, r, []);
      case Closed(id) =>
        ClosedEffect(s, id);
        OutOfCallOpen(s.(closing := s.closing[id := s.closing[id] - 1]), id, r, []);
      case Call(caller, target) => CallEffect(s, caller, target);
      case Join(_) =>
    }
  }

  /** Over every run: a call between two different registered sessions succeeds exactly if the target is free. */
  lemma CallSucceedsIff(es: seq<Event>, caller: Id, target: Id)
    requires Possible(NOTHING, es) && caller != target
    requires caller in Run(NOTHING, es).ws && target in Run(NOTHING, es).ws
    ensures Answer(Run(NOTHING, es), caller, target) == Ok <==> target !in Run(NOTHING, es).bridges
  {
    hide Run;
    RunKeepsRegistry(es);
    AnswerIff(Run(NOTHING, es), caller, target);
  }

  // ----- what holds when callers are free -----

  /** The partner map is an involution without a fixed point, and partners share one bridge. */
  ghost predicate Paired(s: State) {
    forall k :: k in s.bridges ==>
      var p := s.bridges[k].Partner(k);
      p in s.bridges && p != k && s.bridges[p] == s.bridges[k] && s.bridges[p].Partner(p) == k
  }

  /** The server does not look at the caller; the web client does before it calls. */
  predicate FreeCaller(s: State, e: Event) {
    e.Call? && Answer(s, e.caller, e.target) == Ok ==> e.caller !in s.bridges
  }

  predicate FreeCallers(s: State, es: seq<Event>) {
    es == [] || (FreeCallers(s, es[..|es| - 1]) && FreeCaller(Run(s, es[..|es| - 1]), es[|es| - 1]))
  }

  function Letters(sent: seq<Letter>, message: Message): nat {
    if sent == [] then 0
    else Letters(sent[..|sent| - 1], message) + if sent[|sent| - 1].message == message then 1 else 0
  }

  lemma OneMoreLetter(sent: seq<Letter>, letter: Letter, message: Message)
    ensures Letters(sent + [letter], message) == Letters(sent, message) + if letter.message == message then 1 else 0
  {
    assert (sent + [letter])[..|sent|] == sent;
  }

  /** Calls placed are ended or under way; partners are told of each, at its start and at its end. */
  ghost predicate Balanced(s: State) {
    && 2 * s.created == 2 * s.removed + |s.bridges.Keys|
    && Letters(s.sent, Match) == 2 * s.created
    && Letters(s.sent, PartnerDisconnected) == s.removed
  }

  ghost predicate Sound(s: State) { Registry(s) && Paired(s) && Balanced(s) }

  /** From either side `remove_bridge` takes out the pair and only the pair. */
  lemma RemovesThePair(s: State, k: Id)
    requires Paired(s) && k in s.bridges
    ensures var p := s.bridges[k].Partner(k);
            && RemoveBridge(s.bridges, k) == RemoveBridge(s.bridges, p) == s.bridges - {k, p}
            && |s.bridges.Keys| == |RemoveBridge(s.bridges, k).Keys| + 2
  {
    var p := s.bridges[k].Partner(k);
    assert s.bridges - {k} - {p} == s.bridges - {k, p} == s.bridges - {p} - {k};
    TwoFewer(s.bridges, k, p);
  }

  lemma TwoFewer(bridges: map<Id, Ends>, k: Id, p: Id)
    requires k in bridges && p in bridges && k != p
    ensures |bridges.Keys| == |(bridges - {k, p}).Keys| + 2
  {
    assert bridges.Keys == (bridges - {k, p}).Keys + {k, p};
    assert |{k, p}| == 2;
  }

  lemma PairGone(s: State, r: State, k: Id)
    requires Paired(s) && k in s.bridges && r.bridges == s.bridges - {k, s.bridges[k].Partner(k)}
    ensures Paired(r)
  {
  }

  /** What `disconnect_session` does to tables, log and counts. */
  lemma DisconnectEffect(s: State, id: Id)
    requires Registry(s)
    ensures var r := Disconnect(s, id);
            && (r.ws, r.pc, r.created, r.bridges) == (s.ws, s.pc, s.created, RemoveBridge(s.bridges, id))
            && (id !in s.bridges ==> r.bridges == s.bridges && r.removed == s.removed && r.sent == s.sent)
            && (id in s.bridges ==> r.removed == s.removed + 1)
            && (id in s.bridges && Paired(s) ==>
                  r.sent == s.sent + [Letter(s.bridges[id].Partner(id), PartnerDisconnected)])
  {
  }

  lemma DisconnectKeepsSound(s: State, id: Id)
    requires Sound(s)
    ensures Sound(Disconnect(s, id))
  {
    hide Disconnect, RemoveBridge, Paired, Registry;
    DisconnectKeepsRegistry(s, id);
    DisconnectEffect(s, id);
    if id in s.bridges {
      RemovesThePair(s, id);
      PairGone(s, Disconnect(s, id), id);
      OneMoreLetter(s.sent, Letter(s.bridges[id].Partner(id), PartnerDisconnected), Match);
      OneMoreLetter(s.sent, Letter(s.bridges[id].Partner(id), PartnerDisconnected), PartnerDisconnected);
    } else {
      SameTables(s, Disconnect(s, id));
    }
  }

  /** Pairing and balance look at the table, the log and the counts only. */
  lemma SameTables(s: State, r: State)
    requires (r.bridges, r.sent, r.created, r.removed) == (s.bridges, s.sent, s.created, s.removed)
    ensures (Paired(s) ==> Paired(r)) && (Balanced(s) ==> Balanced(r))
  {
  }

  /** After an accepted call the pairing holds exactly when the caller was free. */
  lemma CallKeepsPairingIff(s: State, caller: Id, target: Id)
    requires Registry(s) && Paired(s) && Answer(s, caller, target) == Ok
    ensures Paired(PlaceCall(s, caller, target)) <==> caller !in s.bridges
  {
    PlacedCall(s, caller, target);
    hide PlaceCall;
    var r := PlaceCall(s, caller, target);
    if caller in s.bridges {
      var left := s.bridges[caller].Partner(caller);
      assert left != target && left != caller && r.bridges[left] == s.bridges[left];
      assert s.bridges[left].Partner(left) == caller && !r.bridges[caller].Has(left);
    }
  }

  /** And so does the account of calls. */
  lemma CallKeepsBalanceIff(s: State, caller: Id, target: Id)
    requires Balanced(s) && Answer(s, caller, target) == Ok
    ensures Balanced(PlaceCall(s, caller, target)) <==> caller !in s.bridges
  {
    PlacedCall(s, caller, target);
    hide PlaceCall, Letters;
    TwoMatches(s.sent, caller, target);
    KeysAfterCall(s.bridges, caller, target, Ends(caller, target));
  }

  lemma TwoMatches(sent: seq<Letter>, caller: Id, target: Id)
    ensures var r := sent + [Letter(caller, Match), Letter(target, Match)];
            && Letters(r, Match) == Letters(sent, Match) + 2
            && Letters(r, PartnerDisconnected) == Letters(sent, PartnerDisconnected)
  {
    hide Letters;
    var middle := sent + [Letter(caller, Match)];
    assert sent + [Letter(caller, Match), Letter(target, Match)] == middle + [Letter(target, Match)];
    OneMoreLetter(sent, Letter(caller, Match), Match);
    OneMoreLetter(sent, Letter(caller, Match), PartnerDisconnected);
    OneMoreLetter(middle, Letter(target, Match), Match);
    OneMoreLetter(middle, Letter(target, Match), PartnerDisconnected);
  }

  lemma KeysAfterCall(bridges: map<Id, Ends>, caller: Id, target: Id, ends: Ends)
    requires target !in bridges && caller != target
    ensures |bridges[caller := ends][target := ends].Keys| == |bridges.Keys| + if caller in bridges then 1 else 2
  {
    assert bridges[caller := ends][target := ends].Keys == bridges.Keys + {target} + {caller};
  }

  lemma StepKeepsSound(s: State, e: Event)
    requires Sound(s) && Enabled(s, e) && FreeCaller(s, e)
    ensures Sound(Step(s, e))
  {
    hide Disconnect, Balanced, Paired;
    StepKeepsRegistry(s, e);
    match e {
      case Leave(id) =>
        DisconnectKeepsSound(s, id);
        SameTables(Disconnect(s, id), Step(s, e));
      case End(id) =>
        DisconnectKeepsSound(s, id);
        OtherLetter(Disconnect(s, id), id);
      case Fail(id) =>
        DisconnectKeepsSound(s, id);
      case Closed(id) =>
        var owed := s.(closing := s.closing - multiset{id});
        SameTables(s, owed);
        DisconnectKeepsSound(owed, id);
      case Call(caller, target) =>
        if Answer(s, caller, target) == Ok {
          CallKeepsPairingIff(s, caller, target);
          CallKeepsBalanceIff(s, caller, target);
        }
      case Join(id) =>
        SameTables(s, Step(s, e));
    }
  }

  lemma OtherLetter(s: State, id: Id)
    ensures Paired(s) ==> Paired(Send(s, id, Disconnected))
    ensures Balanced(s) ==> Balanced(Send(s, id, Disconnected))
  {
    OneMoreLetter(s.sent, Letter(id, Disconnected), Match);
    OneMoreLetter(s.sent, Letter(id, Disconnected), PartnerDisconnected);
  }

  /** Over every run in which callers are free: pairing and conservation. */
  lemma {:induction false} RunKeepsSound(es: seq<Event>)
    requires Possible(NOTHING, es) && FreeCallers(NOTHING, es)
    ensures Sound(Run(NOTHING, es))
  {
    hide Step, Enabled, FreeCaller;
    if es == [] {
      EmptySound();
    } else {
      hide Sound;
      RunKeepsSound(es[..|es| - 1]);
      StepKeepsSound(Run(NOTHING, es[..|es| - 1]), es[|es| - 1]);
    }
  }

  lemma EmptySound()
    ensures Sound(NOTHING)
  {
  }

  lemma RunOneMore(s: State, es: seq<Event>, e: Event)
    ensures Run(s, es + [e]) == Step(Run(s, es), e)
    ensures Possible(s, es + [e]) <==> Possible(s, es) && Enabled(Run(s, es), e)
    ensures FreeCallers(s, es + [e]) <==> FreeCallers(s, es) && FreeCaller(Run(s, es), e)
  {
    assert (es + [e])[..|es|] == es;
  }

  /** Three sessions in the register, the first two in a call. */
  lemma ThreeSessions() returns (es: seq<Event>)
    ensures Possible(NOTHING, es) && FreeCallers(NOTHING, es)
    ensures var s, r := Run(NOTHING, es), {"a", "b", "c"};
            && s.ws == s.pc == r && s.created == 1 && s.removed == 0
            && s.bridges == map["a" := Ends("a", "b"), "b" := Ends("a", "b")]
            && s.live == {"a", "b"} && s.closing == multiset{}
  {
    es := [];
    RunOneMore(NOTHING, es, Join("a"));
    es := es + [Join("a")];
    RunOneMore(NOTHING, es, Join("b"));
    es := es + [Join("b")];
    RunOneMore(NOTHING, es, Join("c"));
    es := es + [Join("c")];
    RunOneMore(NOTHING, es, Call("a", "b"));
    es := es + [Call("a", "b")];
  }

  /** When a busy session calls, the one it leaves behind still takes it for its partner. */
  lemma BusyCallerExample()
    ensures exists es ::
              && Possible(NOTHING, es) && !Paired(Run(NOTHING, es)) && !Balanced(Run(NOTHING, es))
              && Run(NOTHING, es).bridges == map["a" := Ends("a", "c"), "b" := Ends("a", "b"), "c" := Ends("a", "c")]
  {
    var es := ThreeSessions();
    hide Run, Possible, FreeCallers, PlaceCall, Paired, Balanced, Registry;
    RunKeepsSound(es);
    var s := Run(NOTHING, es);
    RunOneMore(NOTHING, es, Call("a", "c"));
    CallKeepsPairingIff(s, "a", "c");
    CallKeepsBalanceIff(s, "a", "c");
    PlacedCall(s, "a", "c");
  }

  // ----- disconnecting settles -----

  lemma DisconnectIdempotent(s: State, id: Id)
    requires Registry(s)
    ensures Disconnect(Disconnect(s, id), id) == Disconnect(s, id)
  {
  }

  /** Each callback takes away more than it can add. */
  ghost function Measure(s: State): nat { 2 * |s.live| + |s.closing| }

  lemma CloseMeasure(s: State, id: Id)
    ensures Measure(Close(s, id)) <= Measure(s)
  {
  }

  lemma DisconnectMeasure(s: State, id: Id)
    ensures Measure(Disconnect(s, id)) <= Measure(s)
  {
    hide Close, Measure;
    var s1 := Close(s, id);
    CloseMeasure(s, id);
    if id in s1.bridges {
      var s2 := s1.(bridges := RemoveBridge(s1.bridges, id), removed := s1.removed + 1);
      var partner := s1.bridges[id].Partner(id);
      CloseMeasure(s2, partner);
      SameMeasure(s1, s2);
      SameMeasure(Close(s2, partner), Send(Close(s2, partner), partner, PartnerDisconnected));
    }
  }

  lemma SameMeasure(s: State, r: State)
    requires r.live == s.live && r.closing == s.closing
    ensures Measure(r) == Measure(s)
  {
  }

  lemma ClosedMeasure(s: State, id: Id)
    requires id in s.closing
    ensures Measure(Step(s, Closed(id))) < Measure(s)
  {
    DisconnectMeasure(s.(closing := s.closing - multiset{id}), id);
  }

  /** Callbacks of the given sessions and nothing else. */
  predicate Callbacks(es: seq<Event>, ids: set<Id>) {
    forall i :: 0 <= i < |es| ==> es[i].Closed? && es[i].id in ids
  }

  /** The tables, the log and the counts are the same. */
  predicate SameCalls(s: State, r: State) {
    && (r.ws, r.pc, r.bridges) == (s.ws, s.pc, s.bridges)
    && (r.sent, r.created, r.removed) == (s.sent, s.created, s.removed)
  }

  /** Callbacks of sessions that are in no call: in any order and number they run out and change nothing else. */
  lemma {:induction false} IdleCallbacks(s: State, ids: set<Id>, es: seq<Event>)
    requires Registry(s) && ids !! s.bridges.Keys && Callbacks(es, ids) && Possible(s, es)
    ensures SameCalls(s, Run(s, es)) && |es| + Measure(Run(s, es)) <= Measure(s)
  {
    hide Disconnect, Measure, Registry;
    if es == [] {
    } else {
      var init, id := es[..|es| - 1], es[|es| - 1].id;
      assert es[|es| - 1] in es;
      IdleCallbacks(s, ids, init);
      var m := Run(s, init);
      ClosedMeasure(m, id);
      SameRegistry(s, m);
      RegistryOwed(m, id);
      DisconnectEffect(m.(closing := m.closing - multiset{id}), id);
    }
  }

  lemma SameRegistry(s: State, r: State)
    requires Registry(s) && SameCalls(s, r)
    ensures Registry(r)
  {
  }

  /** The session and, if it is in a call, its partner. */
  function Parties(s: State, id: Id): set<Id> {
    if id in s.bridges then {id, s.bridges[id].Partner(id)} else {id}
  }

  /**
   A disconnect and then the callbacks it causes, in any order, is the disconnect alone: whatever other sessions
   are still owed, the tables stay, no message follows, and the callbacks run out.
   */
  lemma DisconnectSettles(s: State, id: Id, es: seq<Event>)
    requires Registry(s) && Callbacks(es, Parties(s, id)) && Possible(Disconnect(s, id), es)
    ensures SameCalls(Disconnect(s, id), Run(Disconnect(s, id), es))
    ensures |es| + Measure(Run(Disconnect(s, id), es)) <= Measure(s)
  {
    hide Disconnect, Measure, Run, Possible;
    DisconnectKeepsRegistry(s, id);
    DisconnectMeasure(s, id);
    DisconnectEffect(s, id);
    IdleCallbacks(Disconnect(s, id), Parties(s, id), es);
  }

  predicate AllClosed(es: seq<Event>) { forall i :: 0 <= i < |es| ==> es[i].Closed? }

  /** Nobody who is in a call is owed a callback from a connection of before. */
  ghost predicate Quiet(s: State) {
    forall k :: k in s.bridges ==> k !in s.closing
  }

  lemma DisconnectKeepsQuiet(s: State, id: Id)
    requires Registry(s) && Quiet(s)
    ensures Quiet(Disconnect(s, id))
  {
  }

  /** Where nobody in a call is owed one, callbacks of all sessions run out and change neither table nor log. */
  lemma {:induction false} QuietSettles(s: State, es: seq<Event>)
    requires Registry(s) && Quiet(s) && AllClosed(es) && Possible(s, es)
    ensures var r := Run(s, es);
            SameCalls(s, r) && Quiet(r) && |es| + Measure(r) <= Measure(s)
  {
    hide Disconnect, Measure;
    if es == [] {
    } else {
      var init, id := es[..|es| - 1], es[|es| - 1].id;
      QuietSettles(s, init);
      var m := Run(s, init);
      ClosedMeasure(m, id);
      var owed := m.(closing := m.closing - multiset{id});
      DisconnectKeepsQuiet(owed, id);
      DisconnectEffect(owed, id);
    }
  }

  /** A disconnect and then callbacks of any sessions is the disconnect alone, where all callbacks are harmless. */
  lemma QuietDisconnectSettles(s: State, id: Id, es: seq<Event>)
    requires Registry(s) && Quiet(s) && AllClosed(es) && Possible(Disconnect(s, id), es)
    ensures SameCalls(Disconnect(s, id), Run(Disconnect(s, id), es))
    ensures |es| + Measure(Run(Disconnect(s, id), es)) <= Measure(s)
  {
    hide Disconnect, Measure, Run, Possible;
    DisconnectKeepsRegistry(s, id);
    DisconnectKeepsQuiet(s, id);
    DisconnectMeasure(s, id);
    QuietSettles(Disconnect(s, id), es);
  }

  /** Neither caller nor target has an earlier connection that is open or not done closing. */
  predicate CleanCall(s: State, e: Event) {
    e.Call? && Answer(s, e.caller, e.target) == Ok ==>
      e.caller !in s.live && e.target !in s.live && e.caller !in s.closing && e.target !in s.closing
  }

  predicate CleanCalls(s: State, es: seq<Event>) {
    es == [] || (CleanCalls(s, es[..|es| - 1]) && CleanCall(Run(s, es[..|es| - 1]), es[|es| - 1]))
  }

  /** A callback is harmless exactly when its session is in no call. */
  lemma CallbackHarmlessIff(s: State, id: Id)
    requires Registry(s) && id in s.closing
    ensures Step(s, Closed(id)).bridges == s.bridges <==> id !in s.bridges
  {
    DisconnectKeepsRegistry(s.(closing := s.closing - multiset{id}), id);
  }

  /** A call keeps late callbacks harmless exactly when neither side has, or is owed for, an earlier connection. */
  lemma CallKeepsQuietIff(s: State, caller: Id, target: Id)
    requires Quiet(s) && Answer(s, caller, target) == Ok
    ensures Quiet(PlaceCall(s, caller, target)) <==>
            caller !in s.live && target !in s.live && caller !in s.closing && target !in s.closing
  {
    var r := PlaceCall(s, caller, target);
    assert caller in r.bridges && target in r.bridges;
  }

  lemma StepKeepsQuiet(s: State, e: Event)
    requires Registry(s) && Quiet(s) && Enabled(s, e) && CleanCall(s, e)
    ensures Quiet(Step(s, e))
  {
    hide Disconnect, PlaceCall, Registry;
    match e {
      case Leave(id) => DisconnectKeepsQuiet(s, id);
      case End(id) => DisconnectKeepsQuiet(s, id);
      case Fail(id) => DisconnectKeepsQuiet(s, id);
      case Closed(id) =>
        var owed := s.(closing := s.closing - multiset{id});
        RegistryOwed(s, id);
        DisconnectKeepsQuiet(owed, id);
      case Call(caller, target) =>
        if Answer(s, caller, target) == Ok {
          CallKeepsQuietIff(s, caller, target);
        } else {
          PlacedCall(s, caller, target);
        }
      case Join(id) =>
    }
  }

  lemma RegistryOwed(s: State, id: Id)
    requires Registry(s)
    ensures Registry(s.(closing := s.closing - multiset{id}))
  {
  }

  /** Over every run whose calls are clean, each disconnect settles at once. */
  lemma {:induction false} RunKeepsQuiet(es: seq<Event>)
    requires Possible(NOTHING, es) && CleanCalls(NOTHING, es)
    ensures Quiet(Run(NOTHING, es))
  {
    hide Step, Enabled, CleanCall, Registry;
    if es == [] {
    } else {
      RunKeepsQuiet(es[..|es| - 1]);
      RunKeepsRegistry(es[..|es| - 1]);
      StepKeepsQuiet(Run(NOTHING, es[..|es| - 1]), es[|es| - 1]);
    }
  }

  /** The bridges that no owed callback will take down. */
  function Survivors(s: State): map<Id, Ends> {
    map k | k in s.bridges && k !in s.closing && s.bridges[k].Partner(k) !in s.closing :: s.bridges[k]
  }

  /** Disconnecting may owe callbacks to the session and its partner, and to nobody else. */
  lemma ClosingGrows(s: State, id: Id)
    ensures var r := Disconnect(s, id);
            forall k :: (k in s.closing ==> k in r.closing)
                     && (k in r.closing ==> k in s.closing || k == id
                                            || (id in s.bridges && k == s.bridges[id].Partner(id)))
  {
  }

  /** No partner of a third session is one of a pair. */
  lemma ThirdSession(s: State, id: Id, k: Id)
    requires Paired(s) && k in s.bridges && k != id && (id in s.bridges ==> k != s.bridges[id].Partner(id))
    ensures var p := s.bridges[k].Partner(k);
            p != id && (id in s.bridges ==> p != s.bridges[id].Partner(id))
  {
    var p := s.bridges[k].Partner(k);
    assert p in s.bridges && s.bridges[p].Partner(p) == k;
    if id in s.bridges {
      var q := s.bridges[id].Partner(id);
      assert s.bridges[q].Partner(q) == id;
    }
  }

  lemma SurvivorsKept(s: State, r: State, id: Id)
    requires Paired(s) && id in s.closing
    requires r.bridges == if id in s.bridges then s.bridges - {id, s.bridges[id].Partner(id)} else s.bridges
    requires forall k :: k in s.closing && k != id ==> k in r.closing
    requires forall k :: k in r.closing ==> k in s.closing || (id in s.bridges && k == s.bridges[id].Partner(id))
    ensures Survivors(r) == Survivors(s)
  {
    forall k
      ensures k in Survivors(r) <==> k in Survivors(s)
    {
      if k in s.bridges && k != id && (id in s.bridges ==> k != s.bridges[id].Partner(id)) {
        ThirdSession(s, id, k);
        hide Paired;
      } else if id in s.bridges && k == s.bridges[id].Partner(id) {
        assert s.bridges[k].Partner(k) == id;
      }
    }
  }

  lemma ClosedKeepsSurvivors(s: State, id: Id)
    requires Registry(s) && Paired(s) && id in s.closing
    ensures Survivors(Step(s, Closed(id))) == Survivors(s)
  {
    hide Disconnect, RemoveBridge, Survivors;
    var owed := s.(closing := s.closing - multiset{id});
    assert Registry(owed);
    hide Registry, Paired;
    DisconnectEffect(owed, id);
    ClosingGrows(owed, id);
    if id in s.bridges {
      RemovesThePair(s, id);
    }
    SurvivorsKept(s, Step(s, Closed(id)), id);
  }

  /** What callbacks alone do, in any order and as far as they have come. */
  lemma {:induction false} CascadeKeeps(s: State, es: seq<Event>)
    requires Sound(s) && AllClosed(es) && Possible(s, es)
    ensures var r := Run(s, es);
            && Sound(r) && Survivors(r) == Survivors(s)
            && r.created == s.created && |es| + Measure(r) <= Measure(s)
  {
    if es == [] {
    } else {
      hide Disconnect, Measure, Balanced, Paired, Registry, Survivors;
      var m, id := Run(s, es[..|es| - 1]), es[|es| - 1].id;
      CascadeKeeps(s, es[..|es| - 1]);
      StepKeepsSound(m, Closed(id));
      ClosedKeepsSurvivors(m, id);
      ClosedMeasure(m, id);
      var owed := m.(closing := m.closing - multiset{id});
      RegistryOwed(m, id);
      DisconnectEffect(owed, id);
    }
  }

  /**
   The cascade is confluent: whatever order the callbacks run in, once none is owed the bridges left are those
   neither of whose sessions was owed one, and one partner was told for each bridge that went.
   */
  lemma CascadeSettles(s: State, es: seq<Event>)
    requires Sound(s) && AllClosed(es) && Possible(s, es) && Run(s, es).closing == multiset{}
    ensures var r := Run(s, es);
            && r.bridges == Survivors(s) && |es| <= Measure(s)
            && 2 * (Letters(r.sent, PartnerDisconnected) - Letters(s.sent, PartnerDisconnected))
            == |s.bridges.Keys| - |r.bridges.Keys|
  {
    hide Run, Possible, Paired, Registry;
    CascadeKeeps(s, es);
    assert Survivors(Run(s, es)) == Run(s, es).bridges;
    assert |es| <= Measure(s);
  }

  /** Then `a` hangs up, and its connection owes a callback. */
  lemma HungUp() returns (es: seq<Event>)
    ensures Possible(NOTHING, es) && FreeCallers(NOTHING, es)
    ensures var s := Run(NOTHING, es);
            s.ws == s.pc == {"a", "b", "c"} && s.bridges == map[] && "a" in s.closing
  {
    es := ThreeSessions();
    hide Run, Possible, FreeCallers;
    RunOneMore(NOTHING, es, End("a"));
    es := es + [End("a")];
  }

  /** Then it calls the third, before that callback has come. */
  lemma SecondCall() returns (es: seq<Event>)
    ensures Possible(NOTHING, es) && FreeCallers(NOTHING, es)
    ensures var s := Run(NOTHING, es);
            s.bridges == map["a" := Ends("a", "c"), "c" := Ends("a", "c")] && "a" in s.closing
  {
    es := HungUp();
    hide Run, Possible, FreeCallers;
    RunOneMore(NOTHING, es, Call("a", "c"));
    PlacedCall(Run(NOTHING, es), "a", "c");
    es := es + [Call("a", "c")];
  }

  /** A late callback of a connection that is gone ends the call that came after it. */
  lemma LateCallbackExample()
    ensures exists es ::
              && Possible(NOTHING, es) && FreeCallers(NOTHING, es)
              && Run(NOTHING, es).bridges == map["a" := Ends("a", "c"), "c" := Ends("a", "c")]
              && Possible(NOTHING, es + [Closed("a")]) && Run(NOTHING, es + [Closed("a")]).bridges == map[]
  {
    var es := SecondCall();
    hide Run, Possible, FreeCallers;
    RunKeepsRegistry(es);
    var owed := Run(NOTHING, es).(closing := Run(NOTHING, es).closing - multiset{"a"});
    RegistryOwed(Run(NOTHING, es), "a");
    RunOneMore(NOTHING, es, Closed("a"));
    hide Disconnect, Registry;
    DisconnectEffect(owed, "a");
  }
}
