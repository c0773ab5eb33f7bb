/**
 The push-to-talk flag under real interleaving (backend/src/api/PTTHandler.cpp:22-48, 89-129): any number of
 threads run `process_packet`, `start`, `stop` and `stop_and_release` on one handler, one memory access a step.
 The unlocked load of the flag may return anything, so stale relaxed reads are included. `F` is a decoded frame.
 */
module PttProtocol {
  import opened Option

  /** Where a thread stands; a thread that is in no call is not in the map. */
  datatype Pc =
    | MediaWaiting            // saw the flag set, wants the mutex
    | MediaLocked             // holds the mutex, has not looked again
    | MediaWorking            // saw the flag set a second time
    | StartWaiting
    | StartLocked
    | StartStored             // flag set, buffer not cleared yet
    | ReleaseWaiting
    | ReleaseLocked
    | Releasing(sent: nat)    // flag cleared, `sent` frames handed to the encoder
    | StopWaiting
    | StopLocked
    | Leaving                 // only the unlock is left

  datatype Control = Started | Stopped | Released

  /** A batch of frames that left the buffer: released to the partner, or discarded by a repeated start. */
  datatype Batch<F> = Sent(frames: seq<F>) | Discarded(frames: seq<F>)

  /** `last`, `appended` and `batches` are history: nothing in a step looks at them. */
  datatype State<F> = State(
    active: bool, frames: seq<F>, holder: Option<nat>, pcs: map<nat, Pc>,
    last: Control, appended: seq<F>, batches: seq<Batch<F>>)

  datatype Call = Process(seen: bool) | Start | Stop | StopAndRelease

  /** `work` is what parsing and decoding made of the packet, if anything. */
  datatype Step<F> =
    | Enter(thread: nat, call: Call)
    | Lock(thread: nat)
    | Advance(thread: nat, work: Option<F>)
    | Unlock(thread: nat)

  function Initial<F>(): State<F> { State(false, [], None, map[], Released, [], []) }

  predicate Waiting(pc: Pc) {
    pc in {MediaWaiting, StartWaiting, ReleaseWaiting, StopWaiting}
  }

  function Locked(pc: Pc): Pc
    requires Waiting(pc)
  {
    match pc
    case MediaWaiting => MediaLocked
    case StartWaiting => StartLocked
    case ReleaseWaiting => ReleaseLocked
    case StopWaiting => StopLocked
  }

  function At<F>(s: State<F>, t: nat, pc: Pc): State<F> { s.(pcs := s.pcs[t := pc]) }

  /** The frames that went to the encoder, when `n` of them did. */
  function Handed<F>(frames: seq<F>, n: nat): seq<F> { if n <= |frames| then frames[..n] else frames }

  /** One access of a thread that holds the mutex. */
  function Access<F>(s: State<F>, t: nat, pc: Pc, work: Option<F>): Option<State<F>> {
    match pc
    case MediaLocked => Some(At(s, t, if s.active then MediaWorking else Leaving))
    case MediaWorking =>
      var s' := At(s, t, Leaving);
      Some(if work.None? then s' else s'.(frames := s.frames + [work.value], appended := s.appended + [work.value]))
    case StartLocked => Some(At(s, t, StartStored).(active := true, last := Started))
    case StartStored => Some(At(s, t, Leaving).(frames := [], batches := s.batches + [Discarded(s.frames)]))
    case ReleaseLocked => Some(At(s, t, Releasing(0)).(active := false, last := Released))
    case Releasing(sent) =>
      if sent < |s.frames| then Some(At(s, t, Releasing(sent + 1)))
      else Some(At(s, t, Leaving).(frames := [], batches := s.batches + [Sent(Handed(s.frames, sent))]))
    case StopLocked => Some(At(s, t, Leaving).(active := false, last := Stopped))
    case _ => None
  }

  function Next<F>(s: State<F>, step: Step<F>): Option<State<F>> {
    var t := step.thread;
    match step
    case Enter(_, call) =>
      if t in s.pcs then None
      else Some(
        match call
        case Process(seen) => if seen then At(s, t, MediaWaiting) else s
        case Start => At(s, t, StartWaiting)
        case Stop => At(s, t, StopWaiting)
        case StopAndRelease => At(s, t, ReleaseWaiting))
    case Lock(_) =>
      if t in s.pcs && Waiting(s.pcs[t]) && s.holder.None?
      then Some(At(s, t, Locked(s.pcs[t])).(holder := Some(t)))
      else None
    case Advance(_, work) =>
      if t in s.pcs && s.holder == Some(t) then Access(s, t, s.pcs[t], work) else None
    case Unlock(_) =>
      if t in s.pcs && s.pcs[t] == Leaving then Some(s.(pcs := s.pcs - {t}, holder := None)) else None
  }

  function Run<F>(s: State<F>, steps: seq<Step<F>>): Option<State<F>>
    decreases |steps|
  {
    if steps == [] then Some(s)
    else
      var r := Next(s, steps[0]);
      if r.None? then None else Run(r.value, steps[1..])
  }

  function Flatten<F>(batches: seq<Batch<F>>): seq<F> {
    if batches == [] then [] else Flatten(batches[..|batches| - 1]) + batches[|batches| - 1].frames
  }

  /** What the mutex holder has established. */
  predicate HolderKnows<F>(s: State<F>, pc: Pc) {
    match pc
    case MediaWorking => s.active
    case StartStored => s.active && s.last == Started
    case Releasing(sent) => !s.active && s.last == Released && sent <= |s.frames|
    case Leaving => Settled(s)
    case _ => Settled(s)
  }

  /** A cleared flag means an empty buffer, unless the last control call was a bare `stop`. */
  predicate Settled<F>(s: State<F>) {
    !s.active && s.last != Stopped ==> s.frames == []
  }

  ghost predicate Inv<F>(s: State<F>) {
    && (forall t :: t in s.pcs && !Waiting(s.pcs[t]) ==> s.holder == Some(t))
    && (s.holder.Some? ==> s.holder.value in s.pcs && !Waiting(s.pcs[s.holder.value]))
    && (if s.holder.None? then Settled(s) else HolderKnows(s, s.pcs[s.holder.value]))
    && s.appended == Flatten(s.batches) + s.frames
  }

  lemma FlattenSnoc<F>(batches: seq<Batch<F>>, b: Batch<F>)
    ensures Flatten(batches + [b]) == Flatten(batches) + b.frames
  {
    assert (batches + [b])[..|batches|] == batches;
  }

  /** What leaves the buffer goes into a batch, what enters it was appended. */
  lemma AccessConserves<F>(s: State<F>, t: nat, work: Option<F>)
    requires t in s.pcs && Access(s, t, s.pcs[t], work).Some? && s.appended == Flatten(s.batches) + s.frames
    requires s.pcs[t].Releasing? ==> s.pcs[t].sent <= |s.frames|
    ensures var r := Access(s, t, s.pcs[t], work).value; r.appended == Flatten(r.batches) + r.frames
  {
    hide Flatten;
    match s.pcs[t] {
      case MediaWorking =>
        if work.Some? {
          assert Flatten(s.batches) + s.frames + [work.value] == Flatten(s.batches) + (s.frames + [work.value]);
        }
      case StartStored => FlattenSnoc(s.batches, Discarded(s.frames));
      case Releasing(sent) =>
        if sent == |s.frames| {
          assert s.frames[..|s.frames|] == s.frames;
          FlattenSnoc(s.batches, Sent(s.frames));
        }
      case _ =>
    }
  }

  lemma AccessKeepsInv<F>(s: State<F>, t: nat, work: Option<F>)
    requires Inv(s) && t in s.pcs && s.holder == Some(t) && Access(s, t, s.pcs[t], work).Some?
    ensures Inv(Access(s, t, s.pcs[t], work).value)
  {
    hide Flatten, Handed;
    AccessConserves(s, t, work);
  }

  lemma StepKeepsInv<F>(s: State<F>, step: Step<F>)
    requires Inv(s) && Next(s, step).Some?
    ensures Inv(Next(s, step).value)
  {
    hide Flatten, Access;
    if step.Advance? {
      AccessKeepsInv(s, step.thread, step.work);
    }
  }

  lemma {:induction false} RunKeepsInv<F>(s: State<F>, steps: seq<Step<F>>)
    requires Inv(s) && Run(s, steps).Some?
    ensures Inv(Run(s, steps).value)
    decreases |steps|
  {
    if steps == [] {
    } else {
      StepKeepsInv(s, steps[0]);
      RunKeepsInv(Next(s, steps[0]).value, steps[1..]);
    }
  }

  predicate NoStop<F>(steps: seq<Step<F>>) {
    forall i :: 0 <= i < |steps| ==> !(steps[i].Enter? && steps[i].call == Stop)
  }

  predicate NeverStopped<F>(s: State<F>) {
    s.last != Stopped && forall t :: t in s.pcs ==> s.pcs[t] != StopWaiting && s.pcs[t] != StopLocked
  }

  lemma StepNeverStops<F>(s: State<F>, step: Step<F>)
    requires NeverStopped(s) && Next(s, step).Some? && !(step.Enter? && step.call == Stop)
    ensures NeverStopped(Next(s, step).value)
  {
    var r := Next(s, step).value;
    forall t | t in r.pcs
      ensures r.pcs[t] != StopWaiting && r.pcs[t] != StopLocked
    {
      assert t != step.thread ==> t in s.pcs && r.pcs[t] == s.pcs[t];
    }
  }

  /** Without a call of `stop`, no thread ever stands inside it. */
  lemma {:induction false} RunNeverStops<F>(s: State<F>, steps: seq<Step<F>>)
    requires NeverStopped(s) && NoStop(steps) && Run(s, steps).Some?
    ensures NeverStopped(Run(s, steps).value)
    decreases |steps|
  {
    hide Next, NeverStopped;
    if steps == [] {
    } else {
      StepNeverStops(s, steps[0]);
      RunNeverStops(Next(s, steps[0]).value, steps[1..]);
    }
  }

  /**
   Over every interleaving: whenever the mutex is free and the flag is down, the buffer is empty. A frame whose
   packet raced with the release is never stranded by a late append.
   */
  lemma NoStrandedFrame<F>(steps: seq<Step<F>>)
    requires NoStop(steps) && Run(Initial<F>(), steps).Some?
    ensures var s := Run(Initial<F>(), steps).value; s.holder.None? && !s.active ==> s.frames == []
  {
    RunKeepsInv(Initial<F>(), steps);
    RunNeverStops(Initial<F>(), steps);
  }

  /** Every appended frame is still buffered or left in exactly one batch, in the order of the appends. */
  lemma FramesConserved<F>(steps: seq<Step<F>>)
    requires Run(Initial<F>(), steps).Some?
    ensures var s := Run(Initial<F>(), steps).value; s.appended == Flatten(s.batches) + s.frames
  {
    RunKeepsInv(Initial<F>(), steps);
  }

  /** An append is made by the mutex holder while the flag is up, and every batch takes the whole buffer. */
  lemma AppendsAndBatches<F>(steps: seq<Step<F>>, step: Step<F>)
    requires Run(Initial<F>(), steps).Some? && Next(Run(Initial<F>(), steps).value, step).Some?
    ensures var s := Run(Initial<F>(), steps).value;
            var s' := Next(s, step).value;
            && (s'.appended != s.appended ==> s.active && s.holder == Some(step.thread))
            && (s'.batches != s.batches ==>
                  && s'.frames == []
                  && s'.batches == s.batches + [if s'.active then Discarded(s.frames) else Sent(s.frames)])
  {
    RunKeepsInv(Initial<F>(), steps);
    var s := Run(Initial<F>(), steps).value;
    assert s.frames[..|s.frames|] == s.frames;
  }

  /** How many accesses the mutex holder has left before it unlocks. */
  function Remaining<F>(s: State<F>, pc: Pc): nat {
    match pc
    case MediaLocked => 2
    case MediaWorking => 1
    case StartLocked => 2
    case StartStored => 1
    case ReleaseLocked => |s.frames| + 2
    case Releasing(sent) => if sent <= |s.frames| then |s.frames| - sent + 1 else 1
    case StopLocked => 1
    case _ => 0
  }

  /** No thread holds the mutex for good: the holder can always step, only it can, and each access counts down. */
  lemma HolderFinishes<F>(s: State<F>, step: Step<F>)
    requires Inv(s) && s.holder.Some?
    ensures var t := s.holder.value;
            Next(s, if s.pcs[t] == Leaving then Unlock(t) else Advance(t, None)).Some?
    ensures Next(s, step).Some? ==>
      var t, s' := s.holder.value, Next(s, step).value;
      && (s'.holder.None? <==> step == Unlock(t))
      && (s'.holder.Some? ==> s'.holder == s.holder)
      && (step.Advance? && step.thread == t ==> Remaining(s', s'.pcs[t]) < Remaining(s, s.pcs[t]))
      && (step.thread != t ==> s'.frames == s.frames && s'.active == s.active && s'.pcs[t] == s.pcs[t])
  {
    hide Settled, Flatten;
  }

  function StopCall<F>(t: nat): seq<Step<F>> {
    [Enter(t, Stop), Lock(t), Advance(t, None), Unlock(t)]
  }

  /** `stop` is the exception, and exactly when there is something to strand. */
  lemma StopStrands<F>(s: State<F>, t: nat)
    requires Inv(s) && s.holder.None? && t !in s.pcs
    ensures Run(s, StopCall<F>(t)).Some?
    ensures var s' := Run(s, StopCall<F>(t)).value;
            && s'.holder.None? && !s'.active && s'.frames == s.frames && Inv(s')
            && ((s'.holder.None? && !s'.active ==> s'.frames == []) <==> s.frames == [])
  {
    hide Flatten, Inv;
    var c := StopCall<F>(t);
    var s1 := At(s, t, StopWaiting);
    var s2 := At(s1, t, StopLocked).(holder := Some(t));
    var s3 := At(s2, t, Leaving).(active := false, last := Stopped);
    RunCons(s, c, s1);
    RunCons(s1, c[1..], s2);
    RunCons(s2, c[2..], s3);
    RunCons(s3, c[3..], s3.(pcs := s3.pcs - {t}, holder := None));
    assert c[1..][1..] == c[2..] && c[2..][1..] == c[3..] && c[3..][1..] == [];
    RunKeepsInv(s, c);
  }

  lemma RunCons<F>(s: State<F>, c: seq<Step<F>>, s': State<F>)
    requires c != [] && Next(s, c[0]) == Some(s')
    ensures Run(s, c) == Run(s', c[1..])
  {
  }

  function Advances<F>(t: nat, n: nat): (steps: seq<Step<F>>)
    ensures |steps| == n
  {
    seq(n, _ => Advance(t, None))
  }

  /** The holder in the middle of a release hands over what is left, frame by frame, and clears the buffer. */
  lemma {:induction false} ReleasesRest<F>(s: State<F>, t: nat, sent: nat)
    requires t in s.pcs && s.pcs[t] == Releasing(sent) && s.holder == Some(t) && sent <= |s.frames|
    ensures Run(s, Advances<F>(t, |s.frames| - sent + 1)) ==
              Some(At(s, t, Leaving).(frames := [], batches := s.batches + [Sent(s.frames)]))
    decreases |s.frames| - sent
  {
    var n := |s.frames| - sent + 1;
    var s' := Access(s, t, Releasing(sent), None).value;
    assert Advances<F>(t, n)[1..] == Advances(t, n - 1);
    RunCons(s, Advances(t, n), s');
    if n == 1 {
      assert s.frames[..sent] == s.frames;
      assert Run(s', Advances(t, 0)) == Some(s');
    } else {
      ReleasesRest(s', t, sent + 1);
      assert At(s', t, Leaving) == At(s, t, Leaving);
    }
  }

  function ReleaseCall<F>(t: nat, n: nat): seq<Step<F>> {
    [Enter(t, StopAndRelease), Lock(t), Advance(t, None)] + Advances(t, n + 1) + [Unlock(t)]
  }

  lemma ReleaseStarts<F>(s: State<F>, t: nat)
    requires s.holder.None? && t !in s.pcs
    ensures Run(s, [Enter(t, StopAndRelease), Lock(t), Advance(t, None)]) ==
              Some(At(s, t, Releasing(0)).(holder := Some(t), active := false, last := Released))
  {
    hide Run;
    var s1 := At(s, t, ReleaseWaiting);
    var s2 := At(s1, t, ReleaseLocked).(holder := Some(t));
    var s3 := At(s2, t, Releasing(0)).(active := false, last := Released);
    var head: seq<Step<F>> := [Enter(t, StopAndRelease), Lock(t), Advance(t, None)];
    assert Next(s, head[0]) == Some(s1) && Next(s1, head[1]) == Some(s2) && Next(s2, head[2]) == Some(s3);
    assert s3 == At(s, t, Releasing(0)).(holder := Some(t), active := false, last := Released);
    hide Next;
    RunCons(s, head, s1);
    RunCons(s1, head[1..], s2);
    RunCons(s2, head[2..], s3);
    assert head[1..][1..] == head[2..] && head[2..][1..] == [];
    RunNothing(s3);
  }

  lemma RunNothing<F>(s: State<F>)
    ensures Run(s, []) == Some(s)
  {
  }

  lemma UnlockAlone<F>(s: State<F>, t: nat)
    requires t in s.pcs && s.pcs[t] == Leaving
    ensures Run(s, [Unlock(t)]) == Some(s.(pcs := s.pcs - {t}, holder := None))
  {
    RunNothing(s.(pcs := s.pcs - {t}, holder := None));
  }

  /** A release that finds the mutex free lowers the flag and takes the whole buffer. */
  lemma ReleaseAlone<F>(s: State<F>, t: nat)
    requires s.holder.None? && t !in s.pcs
    ensures Run(s, ReleaseCall<F>(t, |s.frames|)) == Some(s.(
              active := false, last := Released, frames := [], batches := s.batches + [Sent(s.frames)]))
  {
    hide Run, Next;
    var head: seq<Step<F>> := [Enter(t, StopAndRelease), Lock(t), Advance(t, None)];
    var middle, tail := Advances<F>(t, |s.frames| + 1), [Unlock(t)];
    var s3 := At(s, t, Releasing(0)).(holder := Some(t), active := false, last := Released);
    var s4 := At(s3, t, Leaving).(frames := [], batches := s.batches + [Sent(s.frames)]);
    assert s4.pcs - {t} == s.pcs;
    ReleaseStarts(s, t);
    ReleasesRest(s3, t, 0);
    UnlockAlone(s4, t);
    RunAppend(s3, middle, tail);
    RunAppend(s, head, middle + tail);
    assert ReleaseCall<F>(t, |s.frames|) == head + (middle + tail);
  }

  function Stranding<F>(f: F): seq<Step<F>> {
    [Enter(0, Start), Lock(0), Advance(0, None), Advance(0, None), Unlock(0)]
    + [Enter(0, Process(true)), Lock(0), Advance(0, None), Advance(0, Some(f)), Unlock(0)]
    + StopCall(0)
  }

  /** A frame that is stranded so: one talk with one packet, then a bare stop. */
  lemma StrandedExample<F>(f: F)
    ensures Run(Initial<F>(), Stranding(f)).Some?
    ensures var s := Run(Initial<F>(), Stranding(f)).value; s.holder.None? && !s.active && s.frames == [f]
  {
    var start: seq<Step<F>> := [Enter(0, Start), Lock(0), Advance(0, None), Advance(0, None), Unlock(0)];
    var talk: seq<Step<F>> := [Enter(0, Process(true)), Lock(0), Advance(0, None), Advance(0, Some(f)), Unlock(0)];
    StartAlone(Initial<F>());
    var s1 := Run(Initial<F>(), start).value;
    TalkAlone(s1, f);
    RunAppend(Initial<F>(), start, talk);
    RunKeepsInv(Initial<F>(), start + talk);
    StopStrands(Run(s1, talk).value, 0);
    RunAppend(Initial<F>(), start + talk, StopCall<F>(0));
  }

  lemma {:induction false} RunAppend<F>(s: State<F>, a: seq<Step<F>>, b: seq<Step<F>>)
    requires Run(s, a).Some?
    ensures Run(s, a + b) == Run(Run(s, a).value, b)
    decreases |a|
  {
    if a == [] {
      assert a + b == b;
    } else {
      assert (a + b)[1..] == a[1..] + b;
      RunAppend(Next(s, a[0]).value, a[1..], b);
    }
  }

  lemma StartAlone<F>(s: State<F>)
    requires s == Initial<F>()
    ensures Run(s, [Enter(0, Start), Lock(0), Advance(0, None), Advance(0, None), Unlock(0)])
         == Some(s.(active := true, last := Started, batches := [Discarded([])]))
  {
    hide Run;
    var c: seq<Step<F>> := [Enter(0, Start), Lock(0), Advance(0, None), Advance(0, None), Unlock(0)];
    var s1 := At(s, 0, StartWaiting);
    var s2 := At(s1, 0, StartLocked).(holder := Some(0));
    var s3 := At(s2, 0, StartStored).(active := true, last := Started);
    var s4 := At(s3, 0, Leaving).(frames := [], batches := s.batches + [Discarded(s.frames)]);
    var s5 := s.(active := true, last := Started, batches := [Discarded([])]);
    assert s4.pcs - {0} == s.pcs && s4.batches == s5.batches && s4.frames == s5.frames && s4.appended == s5.appended;
    assert s.batches + [Discarded(s.frames)] == [Discarded([])];
    assert Next(s, c[0]) == Some(s1) && Next(s1, c[1]) == Some(s2);
    assert Next(s2, c[2]) == Some(s3) && Next(s3, c[3]) == Some(s4);
    hide Access;
    FiveSteps(s, c, s1, s2, s3, s4, s5);
  }

  lemma TalkAlone<F>(s: State<F>, f: F)
    requires s.active && s.frames == [] && s.appended == [] && s.pcs == map[] && s.holder.None?
    ensures Run(s, [Enter(0, Process(true)), Lock(0), Advance(0, None), Advance(0, Some(f)), Unlock(0)])
         == Some(s.(frames := [f], appended := [f]))
  {
    var c: seq<Step<F>> := [Enter(0, Process(true)), Lock(0), Advance(0, None), Advance(0, Some(f)), Unlock(0)];
    var s1 := At(s, 0, MediaWaiting);
    var s2 := At(s1, 0, MediaLocked).(holder := Some(0));
    var s3 := At(s2, 0, MediaWorking);
    var s4 := At(s3, 0, Leaving).(frames := s.frames + [f], appended := s.appended + [f]);
    var s5 := s.(frames := [f], appended := [f]);
    assert s4.pcs - {0} == s.pcs && s4.batches == s5.batches && s4.frames == s5.frames && s4.appended == s5.appended;
    FiveSteps(s, c, s1, s2, s3, s4, s5);
  }

  lemma FiveSteps<F>(s: State<F>, c: seq<Step<F>>, s1: State<F>, s2: State<F>, s3: State<F>, s4: State<F>, s5: State<F>)
    requires |c| == 5 && Next(s, c[0]) == Some(s1) && Next(s1, c[1]) == Some(s2) && Next(s2, c[2]) == Some(s3)
    requires Next(s3, c[3]) == Some(s4) && Next(s4, c[4]) == Some(s5)
    ensures Run(s, c) == Some(s5)
  {
    RunCons(s, c, s1);
    RunCons(s1, c[1..], s2);
    RunCons(s2, c[2..], s3);
    RunCons(s3, c[3..], s4);
    RunCons(s4, c[4..], s5);
    assert c[1..][1..] == c[2..] && c[2..][1..] == c[3..] && c[3..][1..] == c[4..] && c[4..][1..] == [];
  }
}
