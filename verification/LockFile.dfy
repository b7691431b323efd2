/** The sibling `.lock` file of `portable.py`: acquisition opens, locks and re-checks the
    inode; release unlinks before it unlocks.  Any number of threads take these steps in any
    order.  A thread is a `Proc`: every open makes its own file description, and `flock`
    belongs to the description.
 */
module LockFile {
  import opened Wrappers

  type Proc = nat
  type Inode = nat

  /** Where a thread stands in `locked_file`; `fd` is the inode its descriptor refers to. */
  datatype Phase =
    | Outside
    | Opening
    | Waiting(fd: Inode)
    | Checking(fd: Inode)
    | Stale(fd: Inode)
    | Body(fd: Inode)
    | Unguarded
    | Releasing(fd: Inode)
    | Unlinked(fd: Inode)
    | Closing(fd: Inode, next: Next)

  /** What follows the close: the loop's next round, the fail-open body, or the caller. */
  datatype Next = Again | FailOpen | Finished

  /** `link` is the inode the lock path names, `holder` the owner of each inode's lock. */
  datatype System = System(link: Option<Inode>, holder: map<Inode, Proc>, phase: map<Proc, Phase>)

  /** The release order: the source's, or the swapped one its comment warns against. */
  datatype Order = UnlinkFirst | UnlockFirst

  datatype Step =
    | Enter(p: Proc)
    | OpenFails(p: Proc)
    | OpenExisting(p: Proc)
    | OpenCreates(p: Proc, inode: Inode)
    | FlockGranted(p: Proc)
    | FlockFails(p: Proc)
    | CheckPasses(p: Proc)
    | CheckFails(p: Proc)
    | StatFails(p: Proc)
    | RetryUnlock(p: Proc)
    | RetryUnlockFails(p: Proc)
    | LeaveBody(p: Proc)
    | LeaveUnguarded(p: Proc)
    | Unlink(p: Proc)
    | UnlinkFails(p: Proc)
    | Unlock(p: Proc)
    | UnlockFails(p: Proc)
    | Close(p: Proc)
    | Crash(p: Proc)

  const EMPTY := System(None, map[], map[])

  function PhaseOf(s: System, p: Proc): Phase {
    if p in s.phase then s.phase[p] else Outside
  }

  predicate HasFd(ph: Phase) {
    !ph.Outside? && !ph.Opening? && !ph.Unguarded?
  }

  /** The kernel may reuse an inode number once no path and no descriptor refers to it. */
  predicate Free(s: System, i: Inode) {
    && s.link != Some(i)
    && forall q :: q in s.phase ==> !(HasFd(s.phase[q]) && s.phase[q].fd == i)
  }

  /** Whether the system can take the step. A failing `stat` reads as a different file. */
  predicate Enabled(s: System, step: Step, order: Order := UnlinkFirst) {
    var ph := PhaseOf(s, step.p);
    match step
    case Enter(_) => ph.Outside?
    case OpenFails(_) => ph.Opening?
    case OpenExisting(_) => ph.Opening? && s.link.Some?
    case OpenCreates(_, i) => ph.Opening? && s.link.None? && Free(s, i)
    case FlockGranted(_) => ph.Waiting? && ph.fd !in s.holder
    case FlockFails(_) => ph.Waiting?
    case CheckPasses(_) => ph.Checking? && s.link == Some(ph.fd)
    case CheckFails(_) => ph.Checking? && s.link != Some(ph.fd)
    case StatFails(_) => ph.Checking?
    case RetryUnlock(_) => ph.Stale?
    case RetryUnlockFails(_) => ph.Stale?
    case LeaveBody(_) => ph.Body?
    case LeaveUnguarded(_) => ph.Unguarded?
    case Unlink(_) => if order.UnlinkFirst? then ph.Releasing? else ph.Unlinked?
    case UnlinkFails(_) => if order.UnlinkFirst? then ph.Releasing? else ph.Unlinked?
    case Unlock(_) => if order.UnlinkFirst? then ph.Unlinked? else ph.Releasing?
    case UnlockFails(_) => if order.UnlinkFirst? then ph.Unlinked? else ph.Releasing?
    case Close(_) => ph.Closing?
    case Crash(_) => true
  }

  function Dropped(s: System, p: Proc): map<Inode, Proc> {
    map i | i in s.holder && s.holder[i] != p :: s.holder[i]
  }

  function Goto(s: System, p: Proc, ph: Phase): System {
    s.(phase := s.phase[p := ph])
  }

  function Apply(s: System, step: Step, order: Order := UnlinkFirst): System
    requires Enabled(s, step, order)
  {
    var p := step.p;
    var ph := PhaseOf(s, p);
    match step
    case Enter(_) => Goto(s, p, Opening)
    case OpenFails(_) => Goto(s, p, Unguarded)
    case OpenExisting(_) => Goto(s, p, Waiting(s.link.value))
    case OpenCreates(_, i) => Goto(s.(link := Some(i)), p, Waiting(i))
    case FlockGranted(_) => Goto(s.(holder := s.holder[ph.fd := p]), p, Checking(ph.fd))
    case FlockFails(_) => Goto(s, p, Closing(ph.fd, FailOpen))
    case CheckPasses(_) => Goto(s, p, Body(ph.fd))
    case CheckFails(_) => Goto(s, p, Stale(ph.fd))
    case StatFails(_) => Goto(s, p, Stale(ph.fd))
    case RetryUnlock(_) => Goto(s.(holder := Dropped(s, p)), p, Closing(ph.fd, Again))
    case RetryUnlockFails(_) => Goto(s, p, Closing(ph.fd, FailOpen))
    case LeaveBody(_) => Goto(s, p, Releasing(ph.fd))
    case LeaveUnguarded(_) => Goto(s, p, Outside)
    case Unlink(_) =>
      Goto(s.(link := None), p, if order.UnlinkFirst? then Unlinked(ph.fd) else Closing(ph.fd, Finished))
    case UnlinkFails(_) =>
      Goto(s, p, if order.UnlinkFirst? then Unlinked(ph.fd) else Closing(ph.fd, Finished))
    case Unlock(_) =>
      Goto(s.(holder := Dropped(s, p)), p,
           if order.UnlinkFirst? then Closing(ph.fd, Finished) else Unlinked(ph.fd))
    case UnlockFails(_) =>
      Goto(s, p, if order.UnlinkFirst? then Closing(ph.fd, Finished) else Unlinked(ph.fd))
    case Close(_) =>
      Goto(s.(holder := Dropped(s, p)), p,
           match ph.next case Again => Opening case FailOpen => Unguarded case Finished => Outside)
    case Crash(_) => Goto(s.(holder := Dropped(s, p)), p, Outside)
  }

  predicate CanRun(s: System, steps: seq<Step>, order: Order := UnlinkFirst)
    decreases |steps|
  {
    steps == [] || (Enabled(s, steps[0], order) && CanRun(Apply(s, steps[0], order), steps[1..], order))
  }

  function Run(s: System, steps: seq<Step>, order: Order := UnlinkFirst): System
    requires CanRun(s, steps, order)
    decreases |steps|
  {
    if steps == [] then s else Run(Apply(s, steps[0], order), steps[1..], order)
  }

  // ---- Mutual exclusion --------------------------------------------------------------

  predicate MustHold(ph: Phase) {
    ph.Checking? || ph.Stale? || ph.Body? || ph.Releasing? || ph.Unlinked?
  }

  /** Past the inode check and before the unlink: the path still names the thread's inode. */
  predicate OwnsPath(ph: Phase) {
    ph.Body? || ph.Releasing?
  }

  /** The inductive invariant: locks belong to open descriptors, the phases between the lock
      and the unlock hold theirs, and the owner of the path holds the inode the path names. */
  ghost predicate Inv(s: System) {
    && (forall i :: i in s.holder ==>
          var ph := PhaseOf(s, s.holder[i]); HasFd(ph) && ph.fd == i)
    && (forall p :: MustHold(PhaseOf(s, p)) ==>
          PhaseOf(s, p).fd in s.holder && s.holder[PhaseOf(s, p).fd] == p)
    && (forall p :: OwnsPath(PhaseOf(s, p)) ==> s.link == Some(PhaseOf(s, p).fd))
  }

  lemma StepKeepsInv(s: System, step: Step)
    requires Inv(s) && Enabled(s, step)
    ensures Inv(Apply(s, step))
  {
    var t := Apply(s, step);
    var p := step.p;
    forall q ensures q != p ==> PhaseOf(t, q) == PhaseOf(s, q) {}
    forall i | i in t.holder
      ensures HasFd(PhaseOf(t, t.holder[i])) && PhaseOf(t, t.holder[i]).fd == i
    {
      if t.holder[i] != p {
        assert i in s.holder && s.holder[i] == t.holder[i];
      }
    }
    forall q | MustHold(PhaseOf(t, q))
      ensures PhaseOf(t, q).fd in t.holder && t.holder[PhaseOf(t, q).fd] == q
    {
      if q != p {
        assert MustHold(PhaseOf(s, q));
      }
    }
    forall q | OwnsPath(PhaseOf(t, q))
      ensures t.link == Some(PhaseOf(t, q).fd)
    {
      if q != p && t.link != s.link {
        assert OwnsPath(PhaseOf(s, q));
      }
    }
  }

  lemma {:induction false} RunKeepsInv(s: System, steps: seq<Step>)
    requires Inv(s) && CanRun(s, steps)
    ensures Inv(Run(s, steps))
    decreases |steps|
  {
    if steps != [] {
      StepKeepsInv(s, steps[0]);
      RunKeepsInv(Apply(s, steps[0]), steps[1..]);
    }
  }

  lemma OneBody(s: System, p: Proc, q: Proc)
    requires Inv(s) && PhaseOf(s, p).Body? && PhaseOf(s, q).Body?
    ensures p == q
  {
    assert s.link == Some(PhaseOf(s, p).fd) == Some(PhaseOf(s, q).fd);
  }

  /** In every run, whatever the interleaving, crashes, failed calls and reused inodes, two
      threads never stand in a body that was yielded True. */
  lemma MutualExclusion(steps: seq<Step>, p: Proc, q: Proc)
    requires CanRun(EMPTY, steps)
    requires PhaseOf(Run(EMPTY, steps), p).Body? && PhaseOf(Run(EMPTY, steps), q).Body?
    ensures p == q
  {
    RunKeepsInv(EMPTY, steps);
    OneBody(Run(EMPTY, steps), p, q);
  }

  /** One more step at the end of a run. */
  lemma {:induction false} RunThen(s: System, steps: seq<Step>, step: Step, order: Order := UnlinkFirst)
    returns (longer: seq<Step>)
    requires CanRun(s, steps, order) && Enabled(Run(s, steps, order), step, order)
    ensures longer == steps + [step] && CanRun(s, longer, order)
    ensures Run(s, longer, order) == Apply(Run(s, steps, order), step, order)
    decreases |steps|
  {
    longer := steps + [step];
    if steps != [] {
      var rest := RunThen(Apply(s, steps[0], order), steps[1..], step, order);
      assert longer[0] == steps[0] && longer[1..] == rest;
    }
  }

  /** A set of states that holds the first one and whatever a step leads to. */
  ghost predicate Closed(states: System -> bool, order: Order) {
    states(EMPTY) && forall s, step :: states(s) && Enabled(s, step, order) ==> states(Apply(s, step, order))
  }

  lemma ClosedUnder(states: System -> bool, order: Order, s: System, step: Step, t: System)
    requires Closed(states, order) && states(s) && Enabled(s, step, order) && t == Apply(s, step, order)
    ensures states(t)
  {
  }

  lemma NewFileIn(states: System -> bool, order: Order, s: System, p: Proc, i: Inode, t: System)
    requires Closed(states, order) && states(s)
    requires PhaseOf(s, p).Outside? && s.link.None? && Free(s, i) && i !in s.holder
    requires t == System(Some(i), s.holder[i := p], s.phase[p := Body(i)])
    ensures states(t)
  {
    var opening := s.(phase := s.phase[p := Opening]);
    ClosedUnder(states, order, s, Enter(p), opening);
    var waiting := System(Some(i), s.holder, opening.phase[p := Waiting(i)]);
    assert Free(opening, i);
    ClosedUnder(states, order, opening, OpenCreates(p, i), waiting);
    var locked := System(Some(i), s.holder[i := p], waiting.phase[p := Checking(i)]);
    ClosedUnder(states, order, waiting, FlockGranted(p), locked);
    var body := locked.(phase := locked.phase[p := Body(i)]);
    ClosedUnder(states, order, locked, CheckPasses(p), body);
    assert body.phase == t.phase;
  }

  /** The swapped order reaches a state with threads 1 and 2 both in the body: the waiter wins
      the inode the path still names, the late unlink orphans it, and a third thread locks a
      new file beside it. */
  lemma TwoBodiesIn(states: System -> bool) returns (s: System)
    requires Closed(states, UnlockFirst)
    ensures states(s) && PhaseOf(s, 1).Body? && PhaseOf(s, 2).Body?
  {
    var held := System(Some(7), map[7 := 0], map[0 := Body(7)]);
    NewFileIn(states, UnlockFirst, EMPTY, 0, 7, held);
    var entered := held.(phase := map[0 := Body(7), 1 := Opening]);
    ClosedUnder(states, UnlockFirst, held, Enter(1), entered);
    var waiting := held.(phase := map[0 := Body(7), 1 := Waiting(7)]);
    ClosedUnder(states, UnlockFirst, entered, OpenExisting(1), waiting);
    s := WaiterWinsOrphan(states, waiting);
  }

  lemma WaiterWinsOrphan(states: System -> bool, waiting: System) returns (s: System)
    requires Closed(states, UnlockFirst) && states(waiting)
    requires waiting == System(Some(7), map[7 := 0], map[0 := Body(7), 1 := Waiting(7)])
    ensures states(s) && PhaseOf(s, 1).Body? && PhaseOf(s, 2).Body?
  {
    var leaving := waiting.(phase := map[0 := Releasing(7), 1 := Waiting(7)]);
    ClosedUnder(states, UnlockFirst, waiting, LeaveBody(0), leaving);
    var unlocked := System(Some(7), map[], map[0 := Unlinked(7), 1 := Waiting(7)]);
    ClosedUnder(states, UnlockFirst, leaving, Unlock(0), unlocked);
    var granted := System(Some(7), map[7 := 1], map[0 := Unlinked(7), 1 := Checking(7)]);
    ClosedUnder(states, UnlockFirst, unlocked, FlockGranted(1), granted);
    var passed := granted.(phase := map[0 := Unlinked(7), 1 := Body(7)]);
    ClosedUnder(states, UnlockFirst, granted, CheckPasses(1), passed);
    s := LateUnlinkOrphans(states, passed);
  }

  lemma LateUnlinkOrphans(states: System -> bool, passed: System) returns (s: System)
    requires Closed(states, UnlockFirst) && states(passed)
    requires passed == System(Some(7), map[7 := 1], map[0 := Unlinked(7), 1 := Body(7)])
    ensures states(s) && PhaseOf(s, 1).Body? && PhaseOf(s, 2).Body?
  {
    var orphaned := System(None, map[7 := 1], map[0 := Closing(7, Finished), 1 := Body(7)]);
    ClosedUnder(states, UnlockFirst, passed, Unlink(0), orphaned);
    s := System(Some(8), map[7 := 1, 8 := 2], orphaned.phase[2 := Body(8)]);
    NewFileIn(states, UnlockFirst, orphaned, 2, 8, s);
  }

  ghost predicate Reachable(s: System, order: Order) {
    exists steps :: CanRun(EMPTY, steps, order) && Run(EMPTY, steps, order) == s
  }

  /** The order matters: with unlock before unlink, exclusion fails. */
  lemma UnlockFirstBreaksExclusion() returns (s: System)
    ensures Reachable(s, UnlockFirst) && PhaseOf(s, 1).Body? && PhaseOf(s, 2).Body?
  {
    var states := (s: System) => Reachable(s, UnlockFirst);
    assert CanRun(EMPTY, [], UnlockFirst) && Run(EMPTY, [], UnlockFirst) == EMPTY;
    forall t, step | Reachable(t, UnlockFirst) && Enabled(t, step, UnlockFirst)
      ensures Reachable(Apply(t, step, UnlockFirst), UnlockFirst)
    {
      var steps :| CanRun(EMPTY, steps, UnlockFirst) && Run(EMPTY, steps, UnlockFirst) == t;
      var longer := RunThen(EMPTY, steps, step, UnlockFirst);
    }
    s := TwoBodiesIn(states);
  }

  // ---- Progress ----------------------------------------------------------------------

  /** A step that is no failing call and no crash. */
  predicate Smooth(step: Step) {
    && !step.OpenFails? && !step.FlockFails? && !step.StatFails? && !step.RetryUnlockFails?
    && !step.UnlinkFails? && !step.UnlockFails? && !step.Crash?
  }

  ghost predicate SmoothlyBy(steps: seq<Step>, p: Proc) {
    forall step :: step in steps ==> step.p == p && Smooth(step)
  }

  /** The thread arrives, waits or retries, and holds what locks there are. */
  predicate OnItsWay(s: System, p: Proc) {
    match PhaseOf(s, p)
    case Checking(fd) => s.holder == map[fd := p]
    case Stale(fd) => s.holder == map[fd := p]
    case Closing(_, next) => next.Again? && s.holder == map[]
    case Body(_) => true
    case Outside => s.holder == map[]
    case Opening => s.holder == map[]
    case Waiting(_) => s.holder == map[]
    case _ => false
  }

  /** The steps left: an inode that the path no longer names costs a retry. */
  function StepsLeft(s: System, p: Proc): nat {
    match PhaseOf(s, p)
    case Checking(fd) => if s.link == Some(fd) then 1 else 6
    case Waiting(fd) => if s.link == Some(fd) then 2 else 7
    case Opening => 3
    case Outside => 4
    case Closing(_, _) => 4
    case Stale(_) => 5
    case _ => 0
  }

  lemma StepIsCloser(s: System, p: Proc, step: Step)
    requires OnItsWay(s, p) && !PhaseOf(s, p).Body?
    requires step.p == p && Smooth(step) && Enabled(s, step)
    ensures OnItsWay(Apply(s, step), p) && StepsLeft(Apply(s, step), p) + 1 == StepsLeft(s, p)
  {
    if PhaseOf(s, p).Stale? || PhaseOf(s, p).Closing? {
      assert Dropped(s, p) == map[];
    }
  }

  lemma {:induction false} AboveAll(used: set<Inode>) returns (i: Inode)
    ensures forall j :: j in used ==> j < i
    decreases |used|
  {
    i := 0;
    if used != {} {
      var m :| m in used;
      var k := AboveAll(used - {m});
      i := if m < k then k else m + 1;
      forall j | j in used
        ensures j < i
      {
        assert j != m ==> j in used - {m};
      }
    }
  }

  /** There are always inode numbers that nothing refers to. */
  lemma SomeInodeIsFree(s: System) returns (i: Inode)
    ensures Free(s, i)
  {
    var used := (set q | q in s.phase && HasFd(s.phase[q]) :: s.phase[q].fd)
                + if s.link.Some? then {s.link.value} else {};
    i := AboveAll(used);
    forall q | q in s.phase
      ensures !(HasFd(s.phase[q]) && s.phase[q].fd == i)
    {
      assert HasFd(s.phase[q]) ==> s.phase[q].fd in used;
    }
  }

  lemma NeverStuck(s: System, p: Proc) returns (step: Step)
    requires OnItsWay(s, p) && !PhaseOf(s, p).Body?
    ensures step.p == p && Smooth(step) && Enabled(s, step)
  {
    var spare := SomeInodeIsFree(s);
    step := match PhaseOf(s, p)
      case Outside => Enter(p)
      case Opening => if s.link.Some? then OpenExisting(p) else OpenCreates(p, spare)
      case Waiting(_) => FlockGranted(p)
      case Checking(fd) => if s.link == Some(fd) then CheckPasses(p) else CheckFails(p)
      case Stale(_) => RetryUnlock(p)
      case _ => Close(p);
  }

  /** However the thread goes on, so long as no call fails, it stands in a body yielded True after
      exactly the steps that were left. */
  lemma {:induction false} EveryWayAcquires(s: System, p: Proc, steps: seq<Step>)
    requires OnItsWay(s, p) && CanRun(s, steps) && SmoothlyBy(steps, p) && |steps| == StepsLeft(s, p)
    ensures PhaseOf(Run(s, steps), p).Body?
    decreases |steps|
  {
    if steps != [] {
      StepIsCloser(s, p, steps[0]);
      EveryWayAcquires(Apply(s, steps[0]), p, steps[1..]);
    }
  }

  /** The lock never wedges: once no one else holds it, whatever lock file a crash left behind, a
      thread that arrives, waits or retries, its inode still linked or unlinked under it, reaches a
      body yielded True by its own steps, none of them a failing call. */
  lemma {:induction false} LoneThreadAcquires(s: System, p: Proc) returns (steps: seq<Step>)
    requires OnItsWay(s, p)
    ensures SmoothlyBy(steps, p) && |steps| == StepsLeft(s, p) <= 7
    ensures CanRun(s, steps) && PhaseOf(Run(s, steps), p).Body?
    decreases StepsLeft(s, p)
  {
    if PhaseOf(s, p).Body? {
      return [];
    }
    var step := NeverStuck(s, p);
    StepIsCloser(s, p, step);
    var rest := LoneThreadAcquires(Apply(s, step), p);
    steps := [step] + rest;
    assert steps[1..] == rest;
  }
}
