/**
 The calls of a handler are atomic (backend/src/api/PTTHandler.cpp:22-129): every interleaving of their memory
 accesses that ends with the mutex free is a run of whole calls, one after the other in the order in which they
 took the mutex, and that is a run of the sequential handler.
 */
module PttAtomicity {
  import opened Option
  import opened Octets
  import opened PttHandler
  import P = PttProtocol
  import Wire

  /** A whole call; `work` is what parsing and decoding made of a packet, if the call came that far. */
  datatype Op<F> = Process(work: Option<F>) | Start | Stop | StopAndRelease

  datatype Handler<F> = Handler(active: bool, frames: seq<F>, batches: seq<P.Batch<F>>)

  function Atomic<F>(h: Handler<F>, op: Op<F>): Handler<F> {
    match op
    case Process(work) => if h.active && work.Some? then h.(frames := h.frames + [work.value]) else h
    case Start => Handler(true, [], h.batches + [P.Discarded(h.frames)])
    case Stop => h.(active := false)
    case StopAndRelease => Handler(false, [], h.batches + [P.Sent(h.frames)])
  }

  function AtomicAll<F>(h: Handler<F>, ops: seq<Op<F>>): Handler<F>
    decreases |ops|
  {
    if ops == [] then h else AtomicAll(Atomic(h, ops[0]), ops[1..])
  }

  // ----- from accesses to calls -----

  datatype Kind = Processing | Starting | Stopping | Releasing

  function KindOf<F>(op: Op<F>): Kind {
    match op
    case Process(_) => Processing
    case Start => Starting
    case Stop => Stopping
    case StopAndRelease => Releasing
  }

  /** The call a thread is in, until it has made its last access. */
  function Pending(pc: P.Pc): Option<Kind> {
    match pc
    case MediaWaiting | MediaLocked | MediaWorking => Some(Processing)
    case StartWaiting | StartLocked | StartStored => Some(Starting)
    case StopWaiting | StopLocked => Some(Stopping)
    case ReleaseWaiting | ReleaseLocked | Releasing(_) => Some(Releasing)
    case Leaving => None
  }

  /** The call that an access finishes. */
  function Finished<F>(s: P.State<F>, step: P.Step<F>): Option<Op<F>> {
    if !step.Advance? || step.thread !in s.pcs || s.holder != Some(step.thread) then None
    else
      match s.pcs[step.thread]
      case MediaLocked => if s.active then None else Some(Process(None))
      case MediaWorking => Some(Process(step.work))
      case StartStored => Some(Start)
      case Releasing(sent) => if sent < |s.frames| then None else Some(StopAndRelease)
      case StopLocked => Some(Stop)
      case _ => None
  }

  function Listed<T>(o: Option<T>): seq<T> { if o.Some? then [o.value] else [] }

  /** The calls a run finishes, in that order. */
  function Calls<F>(s: P.State<F>, steps: seq<P.Step<F>>): seq<Op<F>>
    requires P.Run(s, steps).Some?
    decreases |steps|
  {
    if steps == [] then []
    else Listed(Finished(s, steps[0])) + Calls(P.Next(s, steps[0]).value, steps[1..])
  }

  function Kinds<F>(ops: seq<Op<F>>): seq<Kind> {
    seq(|ops|, i requires 0 <= i < |ops| => KindOf(ops[i]))
  }

  /** The call of a thread that gets the mutex. */
  function Taken<F>(s: P.State<F>, step: P.Step<F>): Option<Kind> {
    if step.Lock? && step.thread in s.pcs then Pending(s.pcs[step.thread]) else None
  }

  /** The calls of a run in the order in which they took the mutex. */
  function Locks<F>(s: P.State<F>, steps: seq<P.Step<F>>): seq<Kind>
    requires P.Run(s, steps).Some?
    decreases |steps|
  {
    if steps == [] then [] else Listed(Taken(s, steps[0])) + Locks(P.Next(s, steps[0]).value, steps[1..])
  }

  /** The call that holds the mutex and is not finished. */
  function Underway<F>(s: P.State<F>): Option<Kind> {
    if s.holder.Some? && s.holder.value in s.pcs then Pending(s.pcs[s.holder.value]) else None
  }

  function Seen<F>(s: P.State<F>): Handler<F> { Handler(s.active, s.frames, s.batches) }

  /** `h` is the handler after the finished calls; a call under way has at most set the flag. */
  ghost predicate Behind<F>(s: P.State<F>, h: Handler<F>) {
    && (Seen(s) == h || (s.holder.Some? && s.holder.value in s.pcs
                         && (s.pcs[s.holder.value].StartStored? || s.pcs[s.holder.value].Releasing?)))
    && (s.frames, s.batches) == (h.frames, h.batches)
  }

  function After<F>(h: Handler<F>, op: Option<Op<F>>): Handler<F> {
    if op.Some? then Atomic(h, op.value) else h
  }

  /** An access of the holder: nothing of its call is seen before the last access, apart from the flag. */
  lemma AccessBehind<F>(s: P.State<F>, step: P.Step<F>, h: Handler<F>)
    requires P.Inv(s) && Behind(s, h) && P.Next(s, step).Some? && step.Advance?
    ensures Behind(P.Next(s, step).value, After(h, Finished(s, step)))
  {
    var t := step.thread;
    assert s.holder == Some(t);
    match s.pcs[t] {
      case Releasing(sent) => assert sent == |s.frames| ==> P.Handed(s.frames, sent) == s.frames;
      case _ =>
    }
  }

  lemma StepBehind<F>(s: P.State<F>, step: P.Step<F>, h: Handler<F>)
    requires P.Inv(s) && Behind(s, h) && P.Next(s, step).Some?
    ensures Behind(P.Next(s, step).value, After(h, Finished(s, step)))
  {
    if step.Advance? {
      AccessBehind(s, step, h);
    }
  }

  /** An access either leaves the call of the holder under way or finishes it. */
  lemma AccessUnderway<F>(s: P.State<F>, step: P.Step<F>)
    requires P.Inv(s) && P.Next(s, step).Some? && step.Advance?
    ensures var op, u' := Finished(s, step), Underway(P.Next(s, step).value);
            Underway(s).Some? && u' == if op.Some? then None else Underway(s)
    ensures Finished(s, step).Some? ==> Underway(s) == Some(KindOf(Finished(s, step).value))
  {
    hide P.Inv;
    assert s.holder == Some(step.thread);
  }

  /** A thread that takes the mutex finds no call under way, and its own call is under way then. */
  lemma LockUnderway<F>(s: P.State<F>, step: P.Step<F>)
    requires P.Inv(s) && P.Next(s, step).Some? && step.Lock?
    ensures Underway(s).None? && Taken(s, step).Some? && Underway(P.Next(s, step).value) == Taken(s, step)
  {
  }

  lemma OtherUnderway<F>(s: P.State<F>, step: P.Step<F>)
    requires P.Inv(s) && P.Next(s, step).Some? && (step.Enter? || step.Unlock?)
    ensures Underway(P.Next(s, step).value) == Underway(s)
  {
  }

  lemma StepUnderway<F>(s: P.State<F>, step: P.Step<F>)
    requires P.Inv(s) && P.Next(s, step).Some?
    ensures var op := Finished(s, step);
            Listed(Underway(s)) + Listed(Taken(s, step))
            == Kinds(Listed(op)) + Listed(Underway(P.Next(s, step).value))
  {
    hide P.Inv, P.Next, Underway;
    match step {
      case Advance(_, _) => AccessUnderway(s, step);
      case Lock(_) => LockUnderway(s, step);
      case _ => OtherUnderway(s, step);
    }
  }

  lemma KindsOfSum<F>(a: seq<Op<F>>, b: seq<Op<F>>)
    ensures Kinds(a + b) == Kinds(a) + Kinds(b)
  {
  }

  lemma AtomicCons<F>(h: Handler<F>, op: Option<Op<F>>, ops: seq<Op<F>>)
    ensures AtomicAll(h, Listed(op) + ops) == AtomicAll(After(h, op), ops)
  {
    if op.Some? {
      assert ([op.value] + ops)[1..] == ops;
    } else {
      assert [] + ops == ops;
    }
  }

  /** What a run does, access by access, its finished calls do one after the other. */
  lemma {:induction false} RunBehind<F>(s: P.State<F>, steps: seq<P.Step<F>>, h: Handler<F>)
    requires P.Inv(s) && Behind(s, h) && P.Run(s, steps).Some?
    ensures var r := P.Run(s, steps).value;
            P.Inv(r) && Behind(r, AtomicAll(h, Calls(s, steps)))
    decreases |steps|
  {
    hide P.Inv, Behind, P.Next, Atomic, Finished;
    if steps == [] {
    } else {
      var s', op := P.Next(s, steps[0]).value, Finished(s, steps[0]);
      P.StepKeepsInv(s, steps[0]);
      StepBehind(s, steps[0], h);
      RunBehind(s', steps[1..], After(h, op));
      AtomicCons(h, op, Calls(s', steps[1..]));
    }
  }

  /** They are finished in the order in which they took the mutex. */
  lemma {:induction false} RunUnderway<F>(s: P.State<F>, steps: seq<P.Step<F>>)
    requires P.Inv(s) && P.Run(s, steps).Some?
    ensures Listed(Underway(s)) + Locks(s, steps)
         == Kinds(Calls(s, steps)) + Listed(Underway(P.Run(s, steps).value))
    decreases |steps|
  {
    hide P.Inv, P.Next, Underway, Finished, Taken, Kinds, Listed;
    if steps == [] {
      NoCalls<F>();
      assert Listed(Underway(s)) + [] == [] + Listed(Underway(s));
    } else {
      var s', op, rest := P.Next(s, steps[0]).value, Finished(s, steps[0]), steps[1..];
      P.StepKeepsInv(s, steps[0]);
      StepUnderway(s, steps[0]);
      RunUnderway(s', rest);
      KindsOfSum(Listed(op), Calls(s', rest));
      assert Kinds(Listed(op)) + (Kinds(Calls(s', rest)) + Listed(Underway(P.Run(s', rest).value)))
          == (Kinds(Listed(op)) + Kinds(Calls(s', rest))) + Listed(Underway(P.Run(s', rest).value));
      Regroup(Listed(Underway(s)), Listed(Taken(s, steps[0])), Locks(s', rest),
              Kinds(Listed(op)), Listed(Underway(s')));
    }
  }

  lemma Regroup<T>(u: seq<T>, t: seq<T>, l: seq<T>, k: seq<T>, u': seq<T>)
    requires u + t == k + u'
    ensures u + (t + l) == k + (u' + l)
  {
    assert u + (t + l) == (u + t) + l;
  }

  lemma NoCalls<F>()
    ensures Kinds<F>([]) == []
  {
  }

  /** Every interleaving that ends with the mutex free is its calls made whole, in the order of their locks. */
  lemma InterleavingIsSequential<F>(steps: seq<P.Step<F>>)
    requires P.Run(P.Initial(), steps).Some? && P.Run(P.Initial(), steps).value.holder.None?
    ensures Seen(P.Run(P.Initial(), steps).value) == AtomicAll(Handler(false, [], []), Calls(P.Initial(), steps))
    ensures Locks(P.Initial(), steps) == Kinds(Calls(P.Initial(), steps))
  {
    var s: P.State<F> := P.Initial();
    var r := P.Run(s, steps).value;
    hide P.Run, Locks, Kinds, Calls, AtomicAll;
    RunBehind(s, steps, Handler(false, [], []));
    RunUnderway(s, steps);
    assert Underway(s).None? && Underway(r).None?;
    assert [] + Locks(s, steps) == Locks(s, steps) && Kinds(Calls(s, steps)) + [] == Kinds(Calls(s, steps));
  }

  /** The call of a thread, once it goes for the mutex; a packet that finds the flag down never does. */
  function Wanted(call: P.Call): Option<Kind> {
    match call
    case Process(seen) => if seen then Some(Processing) else None
    case Start => Some(Starting)
    case Stop => Some(Stopping)
    case StopAndRelease => Some(Releasing)
  }

  function PendingOf<F>(s: P.State<F>, t: nat): Option<Kind> {
    if t in s.pcs then Pending(s.pcs[t]) else None
  }

  function EntersOf<F>(step: P.Step<F>, t: nat): seq<Kind> {
    if step.thread == t && step.Enter? then Listed(Wanted(step.call)) else []
  }

  function FinishesOf<F>(s: P.State<F>, step: P.Step<F>, t: nat): seq<Kind> {
    if step.thread == t then Kinds(Listed(Finished(s, step))) else []
  }

  /** The calls a thread makes along a run. */
  function Entered<F>(steps: seq<P.Step<F>>, t: nat): seq<Kind>
    decreases |steps|
  {
    if steps == [] then [] else EntersOf(steps[0], t) + Entered(steps[1..], t)
  }

  /** The calls a thread finishes along a run. */
  function FinishedBy<F>(s: P.State<F>, steps: seq<P.Step<F>>, t: nat): seq<Kind>
    requires P.Run(s, steps).Some?
    decreases |steps|
  {
    if steps == [] then []
    else FinishesOf(s, steps[0], t) + FinishedBy(P.Next(s, steps[0]).value, steps[1..], t)
  }

  lemma AccessOfThread<F>(s: P.State<F>, step: P.Step<F>)
    requires P.Inv(s) && P.Next(s, step).Some? && step.Advance?
    ensures var t, op := step.thread, Finished(s, step);
            && PendingOf(s, t).Some? && (op.Some? ==> PendingOf(s, t) == Some(KindOf(op.value)))
            && PendingOf(P.Next(s, step).value, t) == if op.Some? then None else PendingOf(s, t)
  {
    AccessUnderway(s, step);
    hide P.Inv, P.Access, Pending, Finished;
    assert s.holder == Some(step.thread);
    AccessKeepsThread(s, step);
  }

  lemma AccessKeepsThread<F>(s: P.State<F>, step: P.Step<F>)
    requires P.Next(s, step).Some? && step.Advance?
    ensures var s' := P.Next(s, step).value; s'.holder == s.holder == Some(step.thread) && step.thread in s'.pcs
  {
  }

  /** Only an access finishes a call; entering starts one, and taking or leaving the mutex changes none. */
  lemma OtherOfThread<F>(s: P.State<F>, step: P.Step<F>)
    requires P.Next(s, step).Some? && !step.Advance?
    ensures var t := step.thread;
            && Finished(s, step).None?
            && PendingOf(P.Next(s, step).value, t) == (if step.Enter? then Wanted(step.call) else PendingOf(s, t))
            && (step.Enter? ==> PendingOf(s, t).None?)
  {
  }

  lemma OtherThread<F>(s: P.State<F>, step: P.Step<F>, t: nat)
    requires P.Next(s, step).Some? && step.thread != t
    ensures PendingOf(P.Next(s, step).value, t) == PendingOf(s, t)
  {
  }

  lemma StepOfThread<F>(s: P.State<F>, step: P.Step<F>, t: nat)
    requires P.Inv(s) && P.Next(s, step).Some?
    ensures Listed(PendingOf(s, t)) + EntersOf(step, t)
         == FinishesOf(s, step, t) + Listed(PendingOf(P.Next(s, step).value, t))
  {
    hide P.Inv, P.Next, PendingOf, Finished;
    if step.thread != t {
      OtherThread(s, step, t);
    } else if step.Advance? {
      AccessOfThread(s, step);
    } else {
      OtherOfThread(s, step);
    }
  }

  /** A thread finishes the calls it makes, each as what it is, in order and once. */
  lemma {:induction false} ThreadFinishesItsCalls<F>(s: P.State<F>, steps: seq<P.Step<F>>, t: nat)
    requires P.Inv(s) && P.Run(s, steps).Some?
    ensures Listed(PendingOf(s, t)) + Entered(steps, t)
         == FinishedBy(s, steps, t) + Listed(PendingOf(P.Run(s, steps).value, t))
    decreases |steps|
  {
    hide P.Inv, P.Next, PendingOf, EntersOf, FinishesOf, Listed;
    if steps == [] {
      assert Listed(PendingOf(s, t)) + [] == [] + Listed(PendingOf(s, t));
    } else {
      var s' := P.Next(s, steps[0]).value;
      P.StepKeepsInv(s, steps[0]);
      StepOfThread(s, steps[0], t);
      ThreadFinishesItsCalls(s', steps[1..], t);
      Regroup(Listed(PendingOf(s, t)), EntersOf(steps[0], t), Entered(steps[1..], t),
              FinishesOf(s, steps[0], t), Listed(PendingOf(s', t)));
      var k, k' := FinishesOf(s, steps[0], t), FinishedBy(s', steps[1..], t);
      var u := Listed(PendingOf(P.Run(s, steps).value, t));
      assert k + (k' + u) == (k + k') + u;
    }
  }

  // ----- from calls to the handler -----

  datatype Request = Packet(octets: seq<Byte>) | Press | Halt | Lift

  /** The state of the sequential handler, and all packets it has released. */
  datatype Machine<!D, !E, Pcm> = Machine(
    decoder: D, encoder: E, active: bool, frames: seq<Frame<Pcm>>, released: seq<seq<Byte>>)

  ghost predicate Sendable<D, E, Pcm>(m: Machine<D, E, Pcm>) {
    forall f :: f in m.frames ==> f.payloadType < 128
  }

  /** What parsing and decoding make of a packet in a given decoder state. */
  function Work<D, E, Pcm>(c: Codec<D, E, Pcm>, d: D, octets: seq<Byte>): Option<Frame<Pcm>> {
    var p := Heard(octets);
    if p.None? then None
    else
      var pcm := c.decode(d, p.value.payload).1;
      if pcm.None? then None else Some(FrameOf(p.value, pcm.value))
  }

  function Serve<D, E, Pcm>(c: Codec<D, E, Pcm>, m: Machine<D, E, Pcm>, r: Request): (m': Machine<D, E, Pcm>)
    requires Sendable(m)
    ensures Sendable(m')
  {
    match r
    case Packet(octets) =>
      if !m.active then m
      else
        var (d, frames) := Take(c, m.decoder, m.frames, octets);
        m.(decoder := d, frames := frames)
    case Press => m.(active := true, frames := [])
    case Halt => m.(active := false)
    case Lift =>
      var (e, out) := Release(c, m.encoder, m.frames);
      m.(active := false, frames := [], encoder := e, released := m.released + out)
  }

  /** The call a request is, with the work that the handler does in it. */
  function OpOf<D, E, Pcm>(c: Codec<D, E, Pcm>, m: Machine<D, E, Pcm>, r: Request): Op<Frame<Pcm>> {
    match r
    case Packet(octets) => Process(if m.active then Work(c, m.decoder, octets) else None)
    case Press => Start
    case Halt => Stop
    case Lift => StopAndRelease
  }

  function ServeAll<D, E, Pcm>(c: Codec<D, E, Pcm>, m: Machine<D, E, Pcm>, rs: seq<Request>): (m': Machine<D, E, Pcm>)
    requires Sendable(m)
    ensures Sendable(m')
    decreases |rs|
  {
    if rs == [] then m else ServeAll(c, Serve(c, m, rs[0]), rs[1..])
  }

  function OpsOf<D, E, Pcm>(c: Codec<D, E, Pcm>, m: Machine<D, E, Pcm>, rs: seq<Request>): seq<Op<Frame<Pcm>>>
    requires Sendable(m)
    decreases |rs|
  {
    if rs == [] then [] else [OpOf(c, m, rs[0])] + OpsOf(c, Serve(c, m, rs[0]), rs[1..])
  }

  /** The frames of all released batches, in order. */
  function SentFrames<F>(batches: seq<P.Batch<F>>): seq<F> {
    if batches == [] then []
    else
      var last := batches[|batches| - 1];
      SentFrames(batches[..|batches| - 1]) + if last.Sent? then last.frames else []
  }

  lemma SentSnoc<F>(batches: seq<P.Batch<F>>, b: P.Batch<F>)
    ensures SentFrames(batches + [b]) == SentFrames(batches) + if b.Sent? then b.frames else []
  {
    assert (batches + [b])[..|batches|] == batches;
  }

  /** Releasing in two goes is releasing at once, with the encoder's state carried over. */
  lemma {:induction false} ReleaseAppend<D, E, Pcm>(c: Codec<D, E, Pcm>, e: E, a: seq<Frame<Pcm>>, b: seq<Frame<Pcm>>)
    requires forall f :: f in a + b ==> f.payloadType < 128
    ensures (forall f :: f in a ==> f.payloadType < 128) && (forall f :: f in b ==> f.payloadType < 128)
    ensures var (e1, out1) := Release(c, e, a);
            var (e2, out2) := Release(c, e1, b);
            Release(c, e, a + b) == (e2, out1 + out2)
  {
    hide Wire.Encode;
    assert forall f :: f in a || f in b ==> f in a + b;
    var (e1, out1) := Release(c, e, a);
    if b == [] {
      assert a + b == a && out1 + [] == out1;
    } else {
      var init := b[..|b| - 1];
      assert (a + b)[..|a + b| - 1] == a + init;
      assert forall f :: f in a + init ==> f in a + b;
      ReleaseAppend(c, e, a, init);
      var (e2, out2) := Release(c, e1, init);
      var last := Release(c, e1, b).1[|out2|..];
      assert Release(c, e1, b).1 == out2 + last;
      assert (out1 + out2) + last == out1 + (out2 + last);
    }
  }

  /** The handler of the machine and the sequential one: same flag and buffer, and the batches sent are released. */
  ghost predicate Tied<D, E, Pcm>(c: Codec<D, E, Pcm>, e: E, h: Handler<Frame<Pcm>>, m: Machine<D, E, Pcm>) {
    && (h.active, h.frames) == (m.active, m.frames)
    && (forall f :: f in SentFrames(h.batches) ==> f.payloadType < 128)
    && Release(c, e, SentFrames(h.batches)) == (m.encoder, m.released)
  }

  lemma ServeIsAtomic<D, E, Pcm>(
      c: Codec<D, E, Pcm>, e: E, m: Machine<D, E, Pcm>, r: Request, h: Handler<Frame<Pcm>>)
    requires Sendable(m) && Tied(c, e, h, m)
    ensures Tied(c, e, Atomic(h, OpOf(c, m, r)), Serve(c, m, r))
  {
    hide Heard, Release;
    match r {
      case Press =>
        SentSnoc(h.batches, P.Discarded(h.frames));
        assert SentFrames(h.batches) + [] == SentFrames(h.batches);
      case Lift =>
        SentSnoc(h.batches, P.Sent(h.frames));
        ReleaseAppend(c, e, SentFrames(h.batches), h.frames);
      case _ =>
    }
  }

  /** The whole calls of the machine are the requests of the sequential handler. */
  lemma {:induction false} ServeAllIsAtomic<D, E, Pcm>(
      c: Codec<D, E, Pcm>, e: E, m: Machine<D, E, Pcm>, rs: seq<Request>, h: Handler<Frame<Pcm>>)
    requires Sendable(m) && Tied(c, e, h, m)
    ensures Tied(c, e, AtomicAll(h, OpsOf(c, m, rs)), ServeAll(c, m, rs))
    decreases |rs|
  {
    hide Serve, Atomic, OpOf, Tied;
    if rs == [] {
    } else {
      var op := OpOf(c, m, rs[0]);
      ServeIsAtomic(c, e, m, rs[0], h);
      ServeAllIsAtomic(c, e, Serve(c, m, rs[0]), rs[1..], Atomic(h, op));
      assert ([op] + OpsOf(c, Serve(c, m, rs[0]), rs[1..]))[1..] == OpsOf(c, Serve(c, m, rs[0]), rs[1..]);
    }
  }

  /**
   Every interleaving whose packets are worked on as the codec would, in the order of the locks, leaves flag and
   buffer where the sequential handler leaves them after the same requests in that order; and what that one released
   is what the batches that left the buffer encode to, one after the other.
   */
  lemma InterleavingIsHandler<D, E, Pcm>(
      c: Codec<D, E, Pcm>, d: D, e: E, steps: seq<P.Step<Frame<Pcm>>>, rs: seq<Request>)
    requires P.Run(P.Initial(), steps).Some? && P.Run(P.Initial(), steps).value.holder.None?
    requires Calls(P.Initial(), steps) == OpsOf(c, Machine(d, e, false, [], []), rs)
    ensures var r, m := P.Run(P.Initial(), steps).value, ServeAll(c, Machine(d, e, false, [], []), rs);
            && (r.active, r.frames) == (m.active, m.frames)
            && (forall f :: f in SentFrames(r.batches) ==> f.payloadType < 128)
            && Release(c, e, SentFrames(r.batches)) == (m.encoder, m.released)
  {
    hide P.Run, Calls, OpsOf, ServeAll, AtomicAll;
    InterleavingIsSequential(steps);
    ServeAllIsAtomic(c, e, Machine(d, e, false, [], []), rs, Handler(false, [], []));
  }

  ghost function MachineOf<D, E, Pcm>(h: PttHandler<D, E, Pcm>, released: seq<seq<Byte>>): Machine<D, E, Pcm>
    reads h
  {
    Machine(h.decoder, h.encoder, h.active, h.frames, released)
  }

  /** One request on a real handler, and what it returns to the partner. */
  method ServeOne<D, E, Pcm>(h: PttHandler<D, E, Pcm>, r: Request) returns (released: seq<seq<Byte>>)
    requires h.Valid()
    modifies h
    ensures h.Valid() && MachineOf(h, released) == Serve(h.codec, old(MachineOf(h, [])), r)
  {
    hide Take, Release, Heard, Heeds;
    released := [];
    match r {
      case Packet(octets) => var _ := h.ProcessPacket(octets);
      case Press => h.Start();
      case Halt => h.Stop();
      case Lift => released := h.StopAndRelease();
    }
  }

  lemma ServeBehind<D, E, Pcm>(c: Codec<D, E, Pcm>, m: Machine<D, E, Pcm>, before: seq<seq<Byte>>, r: Request)
    requires Sendable(m)
    ensures var m' := Serve(c, m, r);
            Serve(c, m.(released := before + m.released), r) == m'.(released := before + m'.released)
  {
    hide Take, Release;
    if r.Lift? {
      var out := Release(c, m.encoder, m.frames).1;
      assert before + m.released + out == before + (m.released + out);
    }
  }

  /** The requests on a real handler, one after the other. */
  method ServeOn<D, E, Pcm>(h: PttHandler<D, E, Pcm>, rs: seq<Request>) returns (released: seq<seq<Byte>>)
    requires h.Valid()
    modifies h
    ensures h.Valid() && MachineOf(h, released) == ServeAll(h.codec, old(MachineOf(h, [])), rs)
  {
    hide Serve;
    released := [];
    ghost var m := MachineOf(h, []);
    assert rs[0..] == rs;
    for i := 0 to |rs|
      invariant h.Valid()
      invariant ServeAll(h.codec, MachineOf(h, released), rs[i..]) == ServeAll(h.codec, m, rs)
    {
      ghost var before := MachineOf(h, []);
      var out := ServeOne(h, rs[i]);
      ServeBehind(h.codec, before, released, rs[i]);
      assert released + [] == released && rs[i..][0] == rs[i] && rs[i..][1..] == rs[i + 1..];
      released := released + out;
    }
  }
}
