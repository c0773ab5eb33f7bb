/**
 The outgoing queue of a websocket session (backend/src/api/WebsocketSession.cpp:22-74): a coroutine writes the
 front message and pops it once it is written. Everything between two suspensions is one step.
 */
module WriteQueue {
  import opened Option

  /** A coroutine that is scheduled but has not run, or one that waits for its write. */
  datatype Writer<M> = Spawned | Suspended(message: M)

  /**
   Any number of writers, as nothing but the flag keeps them apart. `enqueued`, `written` and `broken` are history:
   `broken` says that the last writer to end did so on an error, and no writer was started since.
   */
  datatype State<M> = State(
    queue: seq<M>, writing: bool, open: bool, writers: seq<Writer<M>>,
    enqueued: seq<M>, written: seq<M>, broken: bool)

  /** `hello` is the connection packet, if it could be serialized; a failed accept changes nothing. */
  datatype Step<M> =
    | Enqueue(message: M)
    | Accept(hello: Option<M>)
    | Begin(writer: nat)
    | Wrote(writer: nat)
    | WriteFailed(writer: nat)

  function Initial<M>(): State<M> { State([], false, false, [], [], [], false) }

  function Spawn<M>(s: State<M>): State<M> {
    s.(writing := true, writers := s.writers + [Spawned], broken := false)
  }

  /** `queue_message`. */
  function Queued<M>(s: State<M>, message: M): State<M> {
    var s' := s.(queue := s.queue + [message], enqueued := s.enqueued + [message]);
    if s.open && !s.writing then Spawn(s') else s'
  }

  /** The head of the loop in `process_write_queue`. */
  function Continue<M>(s: State<M>, w: nat): State<M>
    requires w < |s.writers|
  {
    if s.queue == [] then s.(writing := false, writers := s.writers[..w] + s.writers[w + 1..])
    else s.(writers := s.writers[w := Suspended(s.queue[0])])
  }

  function Next<M>(s: State<M>, step: Step<M>): Option<State<M>> {
    match step
    case Enqueue(message) => Some(Queued(s, message))
    case Accept(hello) =>
      if s.open then None
      else
        var s1 := s.(open := true);
        var s2 := if hello.Some? then Queued(s1, hello.value) else s1;
        Some(if s2.queue != [] && !s2.writing then Spawn(s2) else s2)
    case Begin(w) =>
      if w < |s.writers| && s.writers[w].Spawned? then Some(Continue(s, w)) else None
    case Wrote(w) =>
      if w < |s.writers| && s.writers[w].Suspended? && s.queue != []
      then Some(Continue(s.(queue := s.queue[1..], written := s.written + [s.writers[w].message]), w))
      else None
    case WriteFailed(w) =>
      if w < |s.writers| && s.writers[w].Suspended?
      then Some(s.(writing := false, writers := s.writers[..w] + s.writers[w + 1..], broken := true))
      else None
  }

  function Run<M>(s: State<M>, steps: seq<Step<M>>): Option<State<M>>
    decreases |steps|
  {
    if steps == [] then Some(s)
    else
      var r := Next(s, steps[0]);
      if r.None? then None else Run(r.value, steps[1..])
  }

  /** One writer at most, at work on the front message; nothing lost, doubled or reordered; no lost wake-up. */
  predicate Inv<M(==)>(s: State<M>) {
    && |s.writers| == (if s.writing then 1 else 0)
    && (s.writing ==> s.open && s.queue != [] && !s.broken)
    && (s.writing && s.writers[0].Suspended? ==> s.writers[0].message == s.queue[0])
    && s.written + s.queue == s.enqueued
    && (s.open && s.queue != [] && !s.writing ==> s.broken)
  }

  lemma StepKeepsInv<M>(s: State<M>, step: Step<M>)
    requires Inv(s) && Next(s, step).Some?
    ensures Inv(Next(s, step).value)
  {
    var r := Next(s, step).value;
    match step {
      case Enqueue(m) =>
        assert s.written + (s.queue + [m]) == s.enqueued + [m];
      case Accept(hello) =>
        if hello.Some? {
          assert s.written + (s.queue + [hello.value]) == s.enqueued + [hello.value];
        }
      case Wrote(w) =>
        assert s.written + [s.queue[0]] + s.queue[1..] == s.written + s.queue;
      case _ =>
    }
  }

  function Enqueued<M>(steps: seq<Step<M>>): seq<M>
    decreases |steps|
  {
    if steps == [] then []
    else
      var rest := Enqueued(steps[1..]);
      match steps[0]
      case Enqueue(m) => [m] + rest
      case Accept(hello) => if hello.Some? then [hello.value] + rest else rest
      case _ => rest
  }

  /** Every run keeps the invariant, and what it enqueues can be read off its steps. */
  lemma {:induction false} RunKeepsInv<M>(s: State<M>, steps: seq<Step<M>>)
    requires Inv(s) && Run(s, steps).Some?
    ensures Inv(Run(s, steps).value)
    ensures Run(s, steps).value.enqueued == s.enqueued + Enqueued(steps)
    decreases |steps|
  {
    if steps == [] {
    } else {
      var r := Next(s, steps[0]).value;
      StepKeepsInv(s, steps[0]);
      hide Inv;
      StepEnqueues(s, steps[0], Enqueued(steps[1..]));
      RunKeepsInv(r, steps[1..]);
    }
  }

  lemma StepEnqueues<M>(s: State<M>, step: Step<M>, rest: seq<M>)
    requires Next(s, step).Some?
    ensures Next(s, step).value.enqueued + rest == s.enqueued +
              match step
              case Enqueue(m) => [m] + rest
              case Accept(hello) => if hello.Some? then [hello.value] + rest else rest
              case _ => rest
  {
  }

  /** Over every run: what was written, then what is queued, is what was enqueued, in that order. */
  lemma WrittenThenQueued<M>(steps: seq<Step<M>>)
    requires Run(Initial(), steps).Some?
    ensures var r := Run(Initial(), steps).value; r.written + r.queue == r.enqueued == Enqueued(steps)
  {
    RunKeepsInv(Initial(), steps);
  }

  /** Over every run: one writer at most, never without a message, and suspended on the front one. */
  lemma OneWriter<M>(steps: seq<Step<M>>)
    requires Run(Initial(), steps).Some?
    ensures var r := Run(Initial(), steps).value;
            && |r.writers| <= 1 && (r.writing <==> r.writers != [])
            && forall w :: w in r.writers ==> r.queue != [] && (w.Suspended? ==> w.message == r.queue[0])
  {
    RunKeepsInv(Initial(), steps);
  }

  /** Over every run: an open session with messages left has a writer, unless its last one broke off. */
  lemma NoLostWakeUp<M>(steps: seq<Step<M>>)
    requires Run(Initial(), steps).Some?
    ensures var r := Run(Initial(), steps).value;
            r.open && r.queue != [] && !r.broken ==> |r.writers| == 1
  {
    RunKeepsInv(Initial(), steps);
  }

  /** After an error the next message starts a writer, and that one takes up the same front message. */
  lemma RestartsAtFront<M>(s: State<M>, message: M)
    requires Inv(s) && s.open && s.writers == [] && s.queue != []
    ensures var r := Run(s, [Enqueue(message), Begin(0)]);
            && r.Some? && r.value.writers == [Suspended(s.queue[0])]
            && r.value.queue == s.queue + [message] && r.value.written == s.written
  {
    var q := Queued(s, message);
    var steps: seq<Step<M>> := [Enqueue(message), Begin(0)];
    assert steps[1..] == [Begin(0)] && steps[1..][1..] == [];
    assert q.writers == [Spawned];
    assert Run(q, steps[1..]) == Run(Continue(q, 0), []);
  }

  function Writes<M>(n: nat): (steps: seq<Step<M>>)
    ensures |steps| == n
  {
    seq(n, _ => Wrote(0))
  }

  /** A writer whose writes all succeed empties the queue, in order, and leaves. */
  lemma {:induction false} Drains<M>(s: State<M>)
    requires Inv(s) && s.writing && s.writers[0].Suspended?
    ensures Run(s, Writes(|s.queue|)) == Some(s.(
      queue := [], writing := false, writers := [], written := s.written + s.queue))
    decreases |s.queue|
  {
    var n := |s.queue|;
    var r := Next(s, Wrote(0)).value;
    StepKeepsInv(s, Wrote(0));
    assert Writes<M>(n)[0] == Wrote(0) && Writes<M>(n)[1..] == Writes(n - 1);
    assert Run(s, Writes(n)) == Run(r, Writes(n - 1));
    assert s.written + [s.queue[0]] + s.queue[1..] == s.written + s.queue;
    if n == 1 {
      assert s.queue == [s.queue[0]] && r.writers == [] && r.queue == [];
      assert Run(r, Writes(0)) == Some(r);
    } else {
      Drains(r);
    }
  }

  lemma {:induction false} RunAppend<M>(s: State<M>, first: seq<Step<M>>, rest: seq<Step<M>>)
    requires Run(s, first).Some?
    ensures Run(s, first + rest) == Run(Run(s, first).value, rest)
    decreases |first|
  {
    if first == [] {
      assert first + rest == rest;
    } else {
      assert (first + rest)[1..] == first[1..] + rest;
      RunAppend(Next(s, first[0]).value, first[1..], rest);
    }
  }

  /** So a broken session loses nothing: one more message and working writes deliver all there is. */
  lemma RetryDelivers<M>(s: State<M>, message: M)
    requires Inv(s) && s.open && s.writers == [] && s.queue != []
    ensures var r := Run(s, [Enqueue(message), Begin(0)] + Writes(|s.queue| + 1));
            r.Some? && r.value.queue == [] && r.value.written == s.enqueued + [message]
  {
    var steps := [Enqueue(message), Begin(0)];
    RestartsAtFront(s, message);
    RunKeepsInv(s, steps);
    RunAppend(s, steps, Writes(|s.queue| + 1));
    Drains(Run(s, steps).value);
    assert s.written + (s.queue + [message]) == s.enqueued + [message];
  }

  // ----- opening, enqueueing and breaking off -----

  /** An accepted session is open, its packet is queued behind what waits, and a writer runs if anything does. */
  lemma AcceptOpens<M>(s: State<M>, hello: Option<M>)
    requires Inv(s) && !s.open
    ensures Next(s, Accept(hello)).Some?
    ensures var r := Next(s, Accept(hello)).value;
            && r.open && r.written == s.written
            && r.queue == s.queue + (if hello.Some? then [hello.value] else [])
            && r.writers == if r.queue != [] then [Spawned] else []
  {
    if hello.None? {
      assert s.queue + [] == s.queue;
    }
  }

  /** A message goes to the end of the queue, and wakes a writer exactly when the session is open and has none. */
  lemma EnqueueEffect<M>(s: State<M>, message: M)
    requires Inv(s)
    ensures Next(s, Enqueue(message)).Some?
    ensures var r := Next(s, Enqueue(message)).value;
            && r.open == s.open && r.queue == s.queue + [message] && r.written == s.written
            && r.writers == if s.writers == [] && s.open then [Spawned] else s.writers
  {
  }

  /** A write that fails ends its writer, and the message it held is still at the front. */
  lemma FailureKeepsMessage<M>(s: State<M>, w: nat)
    requires Inv(s) && Next(s, WriteFailed(w)).Some?
    ensures var r := Next(s, WriteFailed(w)).value;
            && r.writers == [] && !r.writing && r.broken && r.open
            && r.queue == s.queue && r.queue != [] && s.writers[w] == Suspended(r.queue[0]) && r.written == s.written
  {
  }

  /** A session opens with the first step that accepts it, and stays open. */
  lemma {:induction false} OpenIffAccepted<M>(s: State<M>, steps: seq<Step<M>>)
    requires Run(s, steps).Some?
    ensures Run(s, steps).value.open <==> s.open || exists i :: 0 <= i < |steps| && steps[i].Accept?
    decreases |steps|
  {
    if steps == [] {
    } else {
      var first, rest := steps[0], steps[1..];
      OpenIffAccepted(Next(s, first).value, rest);
      assert forall i :: 0 <= i < |rest| ==> rest[i] == steps[i + 1];
      if exists i :: 0 <= i < |steps| && steps[i].Accept? {
        var i :| 0 <= i < |steps| && steps[i].Accept?;
        assert i > 0 ==> rest[i - 1].Accept?;
      }
      assert Next(s, first).value.open <==> s.open || first.Accept?;
    }
  }

  function Enqueues<M>(messages: seq<M>): (steps: seq<Step<M>>)
    ensures |steps| == |messages|
  {
    seq(|messages|, i requires 0 <= i < |messages| => Enqueue(messages[i]))
  }

  /** Before the session is open its messages wait, in order. */
  lemma {:induction false} WaitsBeforeAccept<M>(s: State<M>, messages: seq<M>)
    requires Inv(s) && !s.open
    ensures var r := Run(s, Enqueues(messages));
            && r == Some(s.(queue := s.queue + messages, enqueued := s.enqueued + messages)) && Inv(r.value)
    decreases |messages|
  {
    if messages == [] {
      assert s.queue + [] == s.queue && s.enqueued + [] == s.enqueued;
    } else {
      var m, rest := messages[0], messages[1..];
      var r := Next(s, Enqueue(m)).value;
      StepKeepsInv(s, Enqueue(m));
      WaitsBeforeAccept(r, rest);
      assert Enqueues(messages)[1..] == Enqueues(rest);
      assert s.queue + [m] + rest == s.queue + messages && s.enqueued + [m] + rest == s.enqueued + messages;
    }
  }

  /** From the start: what waits for the handshake and the connection packet are written, in order, once it is done. */
  lemma AcceptDelivers<M>(messages: seq<M>, hello: M)
    ensures var steps := Enqueues(messages) + ([Accept(Some(hello)), Begin(0)] + Writes(|messages| + 1));
            var r := Run(Initial(), steps);
            && r.Some? && r.value.open && r.value.queue == [] && r.value.writers == []
            && r.value.written == messages + [hello]
  {
    var opening: seq<Step<M>> := [Accept(Some(hello)), Begin(0)];
    WaitsBeforeAccept(Initial<M>(), messages);
    var s := Run(Initial<M>(), Enqueues(messages)).value;
    assert s.queue == messages && s.written == [];
    AcceptOpens(s, Some(hello));
    StepKeepsInv(s, Accept(Some(hello)));
    var t := Next(s, Accept(Some(hello))).value;
    StepKeepsInv(t, Begin(0));
    var u := Next(t, Begin(0)).value;
    assert opening[1..] == [Begin(0)] && opening[1..][1..] == [];
    assert Run(t, opening[1..]) == Run(u, []);
    assert Run(s, opening) == Some(u);
    Drains(u);
    RunAppend(s, opening, Writes(|messages| + 1));
    RunAppend(Initial<M>(), Enqueues(messages), opening + Writes(|messages| + 1));
    assert [] + (messages + [hello]) == messages + [hello];
  }

  class WebsocketSession<M> {
    var writeQueue: seq<M>
    var isWriting: bool
    var isOpen: bool
    /** The coroutines of `process_write_queue`, with the message each holds. */
    var writers: seq<Writer<M>>
    ghost var enqueued: seq<M>
    ghost var written: seq<M>
    ghost var broken: bool

    ghost function View(): State<M>
      reads this
    {
      State(writeQueue, isWriting, isOpen, writers, enqueued, written, broken)
    }

    constructor ()
      ensures View() == Initial()
    {
      writeQueue, isWriting, isOpen, writers := [], false, false, [];
      enqueued, written, broken := [], [], false;
    }

    /** `co_spawn` of a writer, with the flag that goes before it. */
    method SpawnWriter()
      modifies this
      ensures View() == Spawn(old(View()))
    {
      isWriting := true;
      writers := writers + [Spawned];
      broken := false;
    }

    method QueueMessage(message: M)
      modifies this
      ensures Some(View()) == Next(old(View()), Enqueue(message))
      ensures writeQueue == old(writeQueue) + [message] && isOpen == old(isOpen)
      ensures isWriting == (old(isWriting) || isOpen)
      ensures writers == old(writers) + if isWriting && !old(isWriting) then [Spawned] else []
    {
      writeQueue := writeQueue + [message];
      enqueued := enqueued + [message];
      if isOpen && !isWriting {
        SpawnWriter();
      }
    }

    /** `start`, from the accepted handshake to the joining callback. */
    method Accepted(hello: Option<M>)
      requires !isOpen
      modifies this
      ensures Some(View()) == Next(old(View()), Accept(hello))
      ensures isOpen && writeQueue == old(writeQueue) + if hello.Some? then [hello.value] else []
      ensures isWriting == (old(isWriting) || writeQueue != [])
      ensures writers == old(writers) + if isWriting && !old(isWriting) then [Spawned] else []
    {
      isOpen := true;
      if hello.Some? {
        QueueMessage(hello.value);
      }
      if writeQueue != [] && !isWriting {
        SpawnWriter();
      }
    }

    /** A writer at the head of its loop: it takes a copy of the front message, or leaves. */
    method LoopHead(w: nat)
      requires w < |writers|
      modifies this`isWriting, this`writers
      ensures View() == Continue(old(View()), w)
      ensures if writeQueue != []
              then isWriting == old(isWriting) && writers == old(writers)[w := Suspended(writeQueue[0])]
              else !isWriting && writers == old(writers)[..w] + old(writers)[w + 1..]
    {
      if writeQueue != [] {
        writers := writers[w := Suspended(writeQueue[0])];
      } else {
        isWriting := false;
        writers := writers[..w] + writers[w + 1..];
      }
    }

    method BeginWriter(w: nat)
      requires w < |writers| && writers[w].Spawned?
      modifies this`isWriting, this`writers
      ensures Some(View()) == Next(old(View()), Begin(w))
      ensures writeQueue != [] ==> writers[w] == Suspended(writeQueue[0])
    {
      LoopHead(w);
    }

    /** A writer comes back from its `co_await`; popping needs a message to pop. */
    method WriteDone(w: nat, failed: bool)
      requires Inv(View()) && w < |writers| && writers[w].Suspended?
      modifies this
      ensures Some(View()) == Next(old(View()), if failed then WriteFailed(w) else Wrote(w))
      ensures Inv(View())
      ensures isOpen == old(isOpen) && writeQueue == if failed then old(writeQueue) else old(writeQueue)[1..]
      ensures writers == if failed || writeQueue == [] then [] else [Suspended(writeQueue[0])]
      ensures isWriting == (writers != [])
    {
      StepKeepsInv(View(), if failed then WriteFailed(w) else Wrote(w));
      if failed {
        broken := true;
        isWriting := false;
        writers := writers[..w] + writers[w + 1..];
        return;
      }
      written := written + [writers[w].message];
      writeQueue := writeQueue[1..];
      LoopHead(w);
    }
  }
}
