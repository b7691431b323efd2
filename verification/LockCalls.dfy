/** What one thread's call of `locked_file` does, whoever runs beside it: how a block is left, what a
    failing call leads to, and which sequences of steps a call is.
 */
module LockCalls {
  import opened Wrappers
  import opened LockFile

  /** A thread's own steps in a run. */
  function OwnSteps(steps: seq<Step>, p: Proc): seq<Step> {
    if steps == [] then []
    else (if steps[0].p == p then [steps[0]] else []) + OwnSteps(steps[1..], p)
  }

  /** It is not killed. */
  predicate Survives(steps: seq<Step>) {
    forall i :: 0 <= i < |steps| ==> !steps[i].Crash?
  }

  lemma OwnFirst(steps: seq<Step>, p: Proc)
    requires steps != [] && steps[0].p == p
    ensures OwnSteps(steps, p) == [steps[0]] + OwnSteps(steps[1..], p)
    ensures OwnSteps(steps, p)[0] == steps[0] && OwnSteps(steps, p)[1..] == OwnSteps(steps[1..], p)
    ensures Survives(OwnSteps(steps, p)) ==> !steps[0].Crash? && Survives(OwnSteps(steps[1..], p))
  {
    var own, rest := OwnSteps(steps, p), OwnSteps(steps[1..], p);
    forall i | 0 <= i < |rest| && Survives(own)
      ensures !rest[i].Crash?
    {
      assert rest[i] == own[i + 1];
    }
  }

  lemma OwnLater(steps: seq<Step>, p: Proc)
    requires steps != [] && steps[0].p != p
    ensures OwnSteps(steps, p) == OwnSteps(steps[1..], p)
  {
  }

  lemma OthersLeavePhase(s: System, step: Step, p: Proc)
    requires Enabled(s, step) && step.p != p
    ensures PhaseOf(Apply(s, step), p) == PhaseOf(s, p)
  {
  }

  ghost predicate HoldsNothing(s: System, p: Proc) {
    forall i :: i in s.holder ==> s.holder[i] != p
  }

  lemma NoDescriptorNoLock(s: System, p: Proc)
    requires Inv(s) && !HasFd(PhaseOf(s, p))
    ensures HoldsNothing(s, p)
  {
  }

  /** A thread that dies anywhere is gone, with its descriptor and its lock; the lock file stays. */
  lemma CrashLetsGo(s: System, p: Proc)
    requires Inv(s)
    ensures var t := Apply(s, Crash(p));
            PhaseOf(t, p).Outside? && HoldsNothing(t, p) && t.link == s.link
  {
    StepKeepsInv(s, Crash(p));
    NoDescriptorNoLock(Apply(s, Crash(p)), p);
  }

  // ---- Leaving a guarded body --------------------------------------------------------

  /** In a guarded body or on the way out of it. */
  predicate Leaving(ph: Phase) {
    ph.Body? || ph.Releasing? || ph.Unlinked? || (ph.Closing? && ph.next.Finished?)
  }

  function StepsOut(ph: Phase): nat {
    match ph
    case Body(_) => 4
    case Releasing(_) => 3
    case Unlinked(_) => 2
    case Closing(_, _) => 1
    case _ => 0
  }

  lemma StepIsOutward(s: System, step: Step)
    requires Enabled(s, step) && Leaving(PhaseOf(s, step.p)) && !step.Crash?
    ensures var n := StepsOut(PhaseOf(s, step.p));
            var ph := PhaseOf(Apply(s, step), step.p);
            StepsOut(ph) + 1 == n && (if n == 1 then ph.Outside? else Leaving(ph))
  {
  }

  /** A block that ends is left by four steps of its thread, the unlink and the unlock failing or not
      and other threads' steps between them or not: then it is back at its caller, without a lock. */
  lemma {:induction false} BodyIsLeft(s: System, p: Proc, steps: seq<Step>)
    requires Inv(s) && CanRun(s, steps)
    requires Leaving(PhaseOf(s, p)) || PhaseOf(s, p).Outside?
    requires Survives(OwnSteps(steps, p)) && |OwnSteps(steps, p)| == StepsOut(PhaseOf(s, p))
    ensures PhaseOf(Run(s, steps), p).Outside? && HoldsNothing(Run(s, steps), p)
    decreases |steps|
  {
    if steps == [] {
      NoDescriptorNoLock(s, p);
    } else {
      StepKeepsInv(s, steps[0]);
      if steps[0].p == p {
        OwnFirst(steps, p);
        StepIsOutward(s, steps[0]);
      } else {
        OwnLater(steps, p);
        OthersLeavePhase(s, steps[0], p);
      }
      BodyIsLeft(Apply(s, steps[0]), p, steps[1..]);
    }
  }

  /** Of the steps out the unlink alone touches the lock path, and it takes the name away from the
      thread's own file and from no other. */
  lemma OnlyUnlinkUnlinks(s: System, step: Step)
    requires Inv(s) && Enabled(s, step) && Leaving(PhaseOf(s, step.p)) && !step.Crash?
    ensures Apply(s, step).link == if step.Unlink? then None else s.link
    ensures step.Unlink? ==> s.link == Some(PhaseOf(s, step.p).fd)
    ensures step.Unlink? || step.UnlinkFails? <==> PhaseOf(s, step.p).Releasing?
  {
  }

  function StepOut(ph: Phase, p: Proc): Step
    requires Leaving(ph)
  {
    match ph
    case Body(_) => LeaveBody(p)
    case Releasing(_) => Unlink(p)
    case Unlinked(_) => Unlock(p)
    case _ => Close(p)
  }

  /** Its own steps are always possible, and leave no lock file behind. */
  lemma {:induction false} WayOut(s: System, p: Proc) returns (steps: seq<Step>)
    requires Inv(s) && Leaving(PhaseOf(s, p))
    ensures SmoothlyBy(steps, p) && |steps| == StepsOut(PhaseOf(s, p)) && CanRun(s, steps)
    ensures var t := Run(s, steps);
            && PhaseOf(t, p).Outside? && HoldsNothing(t, p)
            && t.link == if PhaseOf(s, p).Body? || PhaseOf(s, p).Releasing? then None else s.link
    decreases StepsOut(PhaseOf(s, p))
  {
    var step := StepOut(PhaseOf(s, p), p);
    var t := Apply(s, step);
    StepKeepsInv(s, step);
    StepIsOutward(s, step);
    OnlyUnlinkUnlinks(s, step);
    if PhaseOf(t, p).Outside? {
      steps := [step];
      NoDescriptorNoLock(t, p);
      assert Run(t, []) == t && steps[1..] == [];
    } else {
      var rest := WayOut(t, p);
      steps := [step] + rest;
      assert steps[1..] == rest;
    }
  }

  /** Any call may fail, wherever it is made, and any thread die. */
  lemma AnyCallMayFail(s: System, p: Proc)
    ensures var ph := PhaseOf(s, p);
            && Enabled(s, Crash(p))
            && (ph.Opening? ==> Enabled(s, OpenFails(p)))
            && (ph.Waiting? ==> Enabled(s, FlockFails(p)))
            && (ph.Checking? ==> Enabled(s, StatFails(p)))
            && (ph.Stale? ==> Enabled(s, RetryUnlock(p)) && Enabled(s, RetryUnlockFails(p)))
            && (ph.Releasing? ==> Enabled(s, UnlinkFails(p)))
            && (ph.Unlinked? ==> Enabled(s, UnlockFails(p)))
  {
  }

  // ---- Failing calls -----------------------------------------------------------------

  predicate Refused(step: Step) {
    step.OpenFails? || step.FlockFails? || step.RetryUnlockFails?
  }

  lemma {:induction false} ClosingFailsOpen(s: System, p: Proc, steps: seq<Step>)
    requires Inv(s) && CanRun(s, steps) && Survives(OwnSteps(steps, p))
    requires match PhaseOf(s, p)
             case Unguarded => OwnSteps(steps, p) == []
             case Closing(_, FailOpen) => |OwnSteps(steps, p)| == 1
             case _ => false
    ensures PhaseOf(Run(s, steps), p).Unguarded? && HoldsNothing(Run(s, steps), p)
    decreases |steps|
  {
    if steps == [] {
      NoDescriptorNoLock(s, p);
    } else {
      StepKeepsInv(s, steps[0]);
      if steps[0].p == p {
        OwnFirst(steps, p);
      } else {
        OwnLater(steps, p);
        OthersLeavePhase(s, steps[0], p);
      }
      ClosingFailsOpen(Apply(s, steps[0]), p, steps[1..]);
    }
  }

  /** An open, a lock or a retry's unlock that fails leads to the body that is yielded False, at once
      or by the one close of what was opened, whatever other threads do: not to a guarded body, not
      past the body, and without a lock. */
  lemma FailureFailsOpen(s: System, p: Proc, steps: seq<Step>)
    requires Inv(s) && CanRun(s, steps) && steps != [] && steps[0].p == p && Refused(steps[0])
    requires Survives(OwnSteps(steps, p)) && |OwnSteps(steps, p)| == if steps[0].OpenFails? then 1 else 2
    ensures PhaseOf(Run(s, steps), p).Unguarded? && HoldsNothing(Run(s, steps), p)
  {
    OwnFirst(steps, p);
    StepKeepsInv(s, steps[0]);
    ClosingFailsOpen(Apply(s, steps[0]), p, steps[1..]);
  }

  // ---- The calls ---------------------------------------------------------------------

  predicate Opens(step: Step) {
    step.OpenExisting? || step.OpenCreates?
  }

  predicate Misses(step: Step) {
    step.CheckFails? || step.StatFails?
  }

  /** An open, and the lock on it taken. */
  predicate Locks(w: seq<Step>) {
    |w| >= 2 && Opens(w[0]) && w[1].FlockGranted?
  }

  /** The loop's round that found another file: unlocked, closed, and taken again. */
  predicate Retries(w: seq<Step>) {
    |w| >= 5 && Locks(w) && Misses(w[2]) && w[3].RetryUnlock? && w[4].Close?
  }

  /** The body that was yielded True and the release: unlink, unlock, close. */
  predicate Guards(w: seq<Step>) {
    |w| >= 7 && Locks(w) && w[2].CheckPasses? && Ends(w[3..])
  }

  predicate Ends(w: seq<Step>) {
    && |w| >= 4 && w[0].LeaveBody? && (w[1].Unlink? || w[1].UnlinkFails?)
    && (w[2].Unlock? || w[2].UnlockFails?) && w[3].Close?
  }

  /** The three failures, each closing what was opened: what is left is a body yielded False. */
  predicate OpenRefused(w: seq<Step>) {
    |w| >= 2 && w[0].OpenFails? && w[1].LeaveUnguarded?
  }

  predicate LockRefused(w: seq<Step>) {
    |w| >= 4 && Opens(w[0]) && w[1].FlockFails? && w[2].Close? && w[3].LeaveUnguarded?
  }

  predicate UnlockRefused(w: seq<Step>) {
    |w| >= 6 && Locks(w) && Misses(w[2]) && w[3].RetryUnlockFails? && w[4].Close? && w[5].LeaveUnguarded?
  }

  /** The rest of a call from the open on, and whole calls behind it. */
  predicate Rounds(w: seq<Step>)
    decreases |w|, 0
  {
    || (Retries(w) && Rounds(w[5..]))
    || (Guards(w) && Calls(w[7..]))
    || (OpenRefused(w) && Calls(w[2..]))
    || (LockRefused(w) && Calls(w[4..]))
    || (UnlockRefused(w) && Calls(w[6..]))
  }

  predicate Calls(w: seq<Step>)
    decreases |w|, 1
  {
    w == [] || (w[0].Enter? && Rounds(w[1..]))
  }

  // ---- What is left of a call in each phase ------------------------------------------

  predicate LeftGuarded(ph: Phase, w: seq<Step>)
    requires Leaving(ph)
  {
    match ph
    case Body(_) => Ends(w) && Calls(w[4..])
    case Releasing(_) =>
      && |w| >= 3 && (w[0].Unlink? || w[0].UnlinkFails?) && (w[1].Unlock? || w[1].UnlockFails?)
      && w[2].Close? && Calls(w[3..])
    case Unlinked(_) => |w| >= 2 && (w[0].Unlock? || w[0].UnlockFails?) && w[1].Close? && Calls(w[2..])
    case _ => |w| >= 1 && w[0].Close? && Calls(w[1..])
  }

  predicate LeftStale(w: seq<Step>) {
    || (|w| >= 2 && w[0].RetryUnlock? && w[1].Close? && Rounds(w[2..]))
    || (|w| >= 3 && w[0].RetryUnlockFails? && w[1].Close? && w[2].LeaveUnguarded? && Calls(w[3..]))
  }

  predicate LeftChecking(w: seq<Step>) {
    || (|w| >= 5 && w[0].CheckPasses? && Ends(w[1..]) && Calls(w[5..]))
    || (|w| >= 1 && Misses(w[0]) && LeftStale(w[1..]))
  }

  predicate LeftWaiting(w: seq<Step>) {
    || (|w| >= 1 && w[0].FlockGranted? && LeftChecking(w[1..]))
    || (|w| >= 3 && w[0].FlockFails? && w[1].Close? && w[2].LeaveUnguarded? && Calls(w[3..]))
  }

  predicate Left(ph: Phase, w: seq<Step>) {
    match ph
    case Outside => Calls(w)
    case Opening => Rounds(w)
    case Waiting(_) => LeftWaiting(w)
    case Checking(_) => LeftChecking(w)
    case Stale(_) => LeftStale(w)
    case Unguarded => |w| >= 1 && w[0].LeaveUnguarded? && Calls(w[1..])
    case Closing(_, Again) => |w| >= 1 && w[0].Close? && Rounds(w[1..])
    case Closing(_, FailOpen) => |w| >= 2 && w[0].Close? && w[1].LeaveUnguarded? && Calls(w[2..])
    case _ => LeftGuarded(ph, w)
  }

  lemma TailsOf(step: Step, w: seq<Step>)
    ensures forall k: nat :: k <= |w| ==> ([step] + w)[k + 1..] == w[k..]
  {
  }

  lemma GuardedStep(s: System, step: Step, w: seq<Step>)
    requires Enabled(s, step) && !step.Crash? && Leaving(PhaseOf(s, step.p))
    requires Left(PhaseOf(Apply(s, step), step.p), w)
    ensures Left(PhaseOf(s, step.p), [step] + w)
  {
    TailsOf(step, w);
  }

  lemma StaleStep(s: System, step: Step, w: seq<Step>)
    requires Enabled(s, step) && !step.Crash? && PhaseOf(s, step.p).Stale?
    requires Left(PhaseOf(Apply(s, step), step.p), w)
    ensures Left(PhaseOf(s, step.p), [step] + w)
  {
    TailsOf(step, w);
  }

  lemma CheckingStep(s: System, step: Step, w: seq<Step>)
    requires Enabled(s, step) && !step.Crash? && PhaseOf(s, step.p).Checking?
    requires Left(PhaseOf(Apply(s, step), step.p), w)
    ensures Left(PhaseOf(s, step.p), [step] + w)
  {
    TailsOf(step, w);
  }

  lemma WaitingStep(s: System, step: Step, w: seq<Step>)
    requires Enabled(s, step) && !step.Crash? && PhaseOf(s, step.p).Waiting?
    requires Left(PhaseOf(Apply(s, step), step.p), w)
    ensures Left(PhaseOf(s, step.p), [step] + w)
  {
    TailsOf(step, w);
  }

  lemma StaleIsRound(open: Step, grant: Step, miss: Step, w: seq<Step>)
    requires Opens(open) && grant.FlockGranted? && Misses(miss) && LeftStale(w)
    ensures Rounds([open, grant, miss] + w)
  {
    var v := [open, grant, miss] + w;
    if w[0].RetryUnlock? {
      assert v[5..] == w[2..];
      assert Retries(v);
    } else {
      assert v[6..] == w[3..];
      assert UnlockRefused(v);
    }
  }

  lemma CheckingIsRound(open: Step, grant: Step, w: seq<Step>)
    requires Opens(open) && grant.FlockGranted? && LeftChecking(w)
    ensures Rounds([open, grant] + w)
  {
    var v := [open, grant] + w;
    if w[0].CheckPasses? {
      assert v[3..] == w[1..] && v[7..] == w[5..];
      assert Guards(v);
    } else {
      StaleIsRound(open, grant, w[0], w[1..]);
      assert v == [open, grant, w[0]] + w[1..];
    }
  }

  lemma WaitingIsRound(open: Step, w: seq<Step>)
    requires Opens(open) && LeftWaiting(w)
    ensures Rounds([open] + w)
  {
    var v := [open] + w;
    if w[0].FlockGranted? {
      CheckingIsRound(open, w[0], w[1..]);
      assert v == [open, w[0]] + w[1..];
    } else {
      assert v[4..] == w[3..];
      assert LockRefused(v);
    }
  }

  lemma OpeningStep(s: System, step: Step, w: seq<Step>)
    requires Enabled(s, step) && !step.Crash? && PhaseOf(s, step.p).Opening?
    requires Left(PhaseOf(Apply(s, step), step.p), w)
    ensures Left(PhaseOf(s, step.p), [step] + w)
  {
    var v := [step] + w;
    if step.OpenFails? {
      assert v[2..] == w[1..];
      assert OpenRefused(v);
    } else {
      WaitingIsRound(step, w);
    }
  }

  lemma OwnStep(s: System, step: Step, w: seq<Step>)
    requires Enabled(s, step) && !step.Crash?
    requires Left(PhaseOf(Apply(s, step), step.p), w)
    ensures Left(PhaseOf(s, step.p), [step] + w)
  {
    match PhaseOf(s, step.p)
    case Opening => OpeningStep(s, step, w);
    case Waiting(_) => WaitingStep(s, step, w);
    case Checking(_) => CheckingStep(s, step, w);
    case Stale(_) => StaleStep(s, step, w);
    case Outside => TailsOf(step, w);
    case Unguarded => TailsOf(step, w);
    case Closing(_, next) => TailsOf(step, w);
    case _ => GuardedStep(s, step, w);
  }

  lemma {:induction false} RunIsLeft(s: System, p: Proc, steps: seq<Step>)
    requires CanRun(s, steps) && Survives(OwnSteps(steps, p)) && PhaseOf(Run(s, steps), p).Outside?
    ensures Left(PhaseOf(s, p), OwnSteps(steps, p))
    decreases |steps|
  {
    if steps != [] {
      if steps[0].p == p {
        OwnFirst(steps, p);
        RunIsLeft(Apply(s, steps[0]), p, steps[1..]);
        OwnStep(s, steps[0], OwnSteps(steps[1..], p));
      } else {
        OwnLater(steps, p);
        OthersLeavePhase(s, steps[0], p);
        RunIsLeft(Apply(s, steps[0]), p, steps[1..]);
      }
    }
  }

  /** In every run, whatever the interleaving, what a thread does from outside to outside is a sequence
      of whole calls: rounds that found another file, then a guarded body with its release in the
      source's order, or one of the three failures with its unguarded body. */
  lemma RunsAreCalls(s: System, p: Proc, steps: seq<Step>)
    requires CanRun(s, steps) && Survives(OwnSteps(steps, p))
    requires PhaseOf(s, p).Outside? && PhaseOf(Run(s, steps), p).Outside?
    ensures Calls(OwnSteps(steps, p))
  {
    RunIsLeft(s, p, steps);
  }
}
