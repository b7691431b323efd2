/** Read-modify-write cycles inside `locked_file`, published by `atomic_write`: the interleaved
    protocol over the lock of `LockFile`, then `atomic_write` and the per-thread `held` map as
    the code that runs them.
 */
module Publish {
  import opened Wrappers
  import opened LockFile

  // ---- The protocol ------------------------------------------------------------------

  /** A cycle's progress. A temp file grows beside the target until it holds the goal. */
  datatype Work<U> =
    | Have(seen: Bytes)
    | Writing(update: U, goal: Bytes, temp: Bytes)

  /** `log` lists the published updates in the order of their renames. */
  datatype World<U> = World(sys: System, target: Bytes, work: map<Proc, Work<U>>, log: seq<U>)

  datatype Act<U> =
    | LockStep(step: Step)
    | ReadTarget(p: Proc)
    | StartTemp(p: Proc, update: U)
    | WriteTemp(p: Proc, count: nat)
    | Rename(p: Proc)
    | Abandon(p: Proc)

  predicate CanAct<U>(w: World<U>, a: Act<U>) {
    match a
    case LockStep(step) => Enabled(w.sys, step)
    case ReadTarget(p) => PhaseOf(w.sys, p).Body? && p !in w.work
    case StartTemp(p, _) => p in w.work && w.work[p].Have?
    case WriteTemp(p, n) => p in w.work && w.work[p].Writing? && |w.work[p].temp| + n <= |w.work[p].goal|
    case Rename(p) => p in w.work && w.work[p].Writing? && w.work[p].temp == w.work[p].goal
    case Abandon(p) => p in w.work
  }

  /** Leaving the body and crashing both end the thread's cycle wherever it stands. */
  predicate EndsCycle(step: Step) {
    step.LeaveBody? || step.Crash?
  }

  function Act1<U>(w: World<U>, a: Act<U>, apply: (U, Bytes) -> Bytes): World<U>
    requires CanAct(w, a)
  {
    match a
    case LockStep(step) =>
      w.(sys := Apply(w.sys, step), work := if EndsCycle(step) then w.work - {step.p} else w.work)
    case ReadTarget(p) => w.(work := w.work[p := Have(w.target)])
    case StartTemp(p, u) => w.(work := w.work[p := Writing(u, apply(u, w.work[p].seen), [])])
    case WriteTemp(p, n) =>
      var job := w.work[p];
      w.(work := w.work[p := job.(temp := job.goal[..|job.temp| + n])])
    case Rename(p) =>
      w.(target := w.work[p].temp, log := w.log + [w.work[p].update], work := w.work - {p})
    case Abandon(p) => w.(work := w.work - {p})
  }

  predicate CanActs<U>(w: World<U>, acts: seq<Act<U>>, apply: (U, Bytes) -> Bytes)
    decreases |acts|
  {
    acts == [] || (CanAct(w, acts[0]) && CanActs(Act1(w, acts[0], apply), acts[1..], apply))
  }

  function Acts<U>(w: World<U>, acts: seq<Act<U>>, apply: (U, Bytes) -> Bytes): World<U>
    requires CanActs(w, acts, apply)
    decreases |acts|
  {
    if acts == [] then w else Acts(Act1(w, acts[0], apply), acts[1..], apply)
  }

  /** The updates applied one after another, alone. */
  function Fold<U>(apply: (U, Bytes) -> Bytes, start: Bytes, log: seq<U>): Bytes {
    if log == [] then start else apply(log[|log| - 1], Fold(apply, start, log[..|log| - 1]))
  }

  /** Every running cycle stands in a held body, saw the target as it still is, and has
      written only a prefix of its goal to its temp file. */
  ghost predicate Serial<U>(w: World<U>, start: Bytes, apply: (U, Bytes) -> Bytes) {
    && Inv(w.sys)
    && w.target == Fold(apply, start, w.log)
    && forall p :: p in w.work ==>
         && PhaseOf(w.sys, p).Body?
         && match w.work[p]
            case Have(seen) => seen == w.target
            case Writing(u, goal, temp) => goal == apply(u, w.target) && temp <= goal
  }

  lemma LockStepKeepsSerial<U>(w: World<U>, step: Step, start: Bytes, apply: (U, Bytes) -> Bytes)
    requires Serial(w, start, apply) && Enabled(w.sys, step)
    ensures Serial(Act1(w, LockStep(step), apply), start, apply)
  {
    var t := Act1(w, LockStep(step), apply);
    StepKeepsInv(w.sys, step);
    forall q | q in t.work
      ensures PhaseOf(t.sys, q).Body?
    {
      assert PhaseOf(w.sys, q).Body?;
    }
  }

  lemma RenameKeepsSerial<U>(w: World<U>, p: Proc, start: Bytes, apply: (U, Bytes) -> Bytes)
    requires Serial(w, start, apply) && CanAct(w, Act.Rename(p))
    ensures Serial(Act1(w, Act.Rename(p), apply), start, apply)
  {
    var t := Act1(w, Act.Rename(p), apply);
    assert t.log[..|t.log| - 1] == w.log;
    forall q | q in w.work
      ensures q == p
    {
      OneBody(w.sys, p, q);
    }
  }

  /** Every act keeps the invariant, and only a rename changes what readers see: to the update
      applied to the target as it stands, however long ago the cycle read it. */
  lemma ActKeepsSerial<U>(w: World<U>, a: Act<U>, start: Bytes, apply: (U, Bytes) -> Bytes)
    requires Serial(w, start, apply) && CanAct(w, a)
    ensures Serial(Act1(w, a, apply), start, apply)
    ensures a.Rename? ==> Act1(w, a, apply).target == apply(w.work[a.p].update, w.target)
    ensures !a.Rename? ==> Act1(w, a, apply).target == w.target
  {
    if a.LockStep? {
      LockStepKeepsSerial(w, a.step, start, apply);
    } else if a.Rename? {
      RenameKeepsSerial(w, a.p, start, apply);
    }
  }

  lemma {:induction false} ActsKeepSerial<U>(w: World<U>, acts: seq<Act<U>>, start: Bytes, apply: (U, Bytes) -> Bytes)
    requires Serial(w, start, apply) && CanActs(w, acts, apply)
    ensures Serial(Acts(w, acts, apply), start, apply)
    decreases |acts|
  {
    if acts != [] {
      ActKeepsSerial(w, acts[0], start, apply);
      ActsKeepSerial(Act1(w, acts[0], apply), acts[1..], start, apply);
    }
  }

  /** In every run, with crashes and failed calls anywhere, the target holds the fold of the
      published updates in lock order: no update is lost or torn. A reader sees the target at
      some point of a run, so it sees a whole result. */
  lemma UpdatesAreSerialised<U>(acts: seq<Act<U>>, start: Bytes, apply: (U, Bytes) -> Bytes)
    requires CanActs(World(EMPTY, start, map[], []), acts, apply)
    ensures var w := Acts(World(EMPTY, start, map[], []), acts, apply);
            w.target == Fold(apply, start, w.log)
  {
    ActsKeepSerial(World(EMPTY, start, map[], []), acts, start, apply);
  }

  lemma OneMoreAct<U>(w: World<U>, a: Act<U>, t: World<U>, rest: seq<Act<U>>, apply: (U, Bytes) -> Bytes)
    requires CanAct(w, a) && Act1(w, a, apply) == t && CanActs(t, rest, apply)
    ensures CanActs(w, [a] + rest, apply) && Acts(w, [a] + rest, apply) == Acts(t, rest, apply)
  {
    assert ([a] + rest)[1..] == rest;
  }

  /** And whoever stands in the body can publish any update, in four acts of its own. */
  lemma BodyCanPublish<U>(w: World<U>, p: Proc, u: U, apply: (U, Bytes) -> Bytes) returns (acts: seq<Act<U>>)
    requires PhaseOf(w.sys, p).Body? && p !in w.work
    ensures CanActs(w, acts, apply)
    ensures Acts(w, acts, apply) == w.(target := apply(u, w.target), log := w.log + [u])
  {
    var goal := apply(u, w.target);
    var had := w.(work := w.work[p := Have(w.target)]);
    var started := w.(work := w.work[p := Writing(u, goal, [])]);
    var written := w.(work := w.work[p := Writing(u, goal, goal)]);
    var done := w.(target := goal, log := w.log + [u]);
    assert had.work[p := Writing(u, goal, [])] == started.work;
    assert goal[..0 + |goal|] == goal && started.work[p := Writing(u, goal, goal)] == written.work;
    assert written.work - {p} == w.work;
    acts := [];
    OneMoreAct(written, Act.Rename(p), done, acts, apply);
    acts := [Act.Rename(p)] + acts;
    OneMoreAct(started, WriteTemp(p, |goal|), written, acts, apply);
    acts := [WriteTemp(p, |goal|)] + acts;
    OneMoreAct(had, StartTemp(p, u), started, acts, apply);
    acts := [StartTemp(p, u)] + acts;
    OneMoreAct(w, ReadTarget(p), had, acts, apply);
    acts := [ReadTarget(p)] + acts;
  }

  /** A cycle may stop at any byte of its temp file, or be given up, and the target is as it was. */
  lemma CyclesMayStop<U>(w: World<U>, p: Proc, n: nat, apply: (U, Bytes) -> Bytes)
    requires p in w.work
    ensures CanAct(w, Abandon(p)) && Act1(w, Abandon(p), apply) == w.(work := w.work - {p})
    ensures w.work[p].Writing? && |w.work[p].temp| + n <= |w.work[p].goal| ==>
              CanAct(w, WriteTemp(p, n)) && Act1(w, WriteTemp(p, n), apply).target == w.target
  {
  }

  // ---- atomic_write ------------------------------------------------------------------

  datatype File = File(data: Bytes, mode: nat)

  const OWNER_ONLY: nat := 0x180 // 0600

  /** How one call of `atomic_write` ends: an exception or a power cut after `written` bytes
      of the temp file, either of them after the rename, or a return. */
  datatype Fate =
    | Returns
    | RaisesBeforeRename(written: nat)
    | RaisesAfterRename
    | DiesBeforeRename(written: nat)
    | DiesAfterRename

  predicate Lands(fate: Fate) {
    fate.Returns? || fate.RaisesAfterRename? || fate.DiesAfterRename?
  }

  /** One directory's entries. */
  class Directory {
    var entries: map<string, File>

    constructor (start: map<string, File>)
      ensures entries == start
    {
      entries := start;
    }

    /** The mode the rename lands with. */
    function Wanted(path: string, mode: Option<nat>): nat
      reads this
    {
      match mode
      case Some(m) => m
      case None => if path in entries then entries[path].mode else OWNER_ONLY
    }

    /** A call publishes all of the data or nothing: an error before the rename leaves no
        trace, and a death before it leaves the old target whole beside a stray temp file. */
    method AtomicWrite(path: string, temp: string, data: Bytes, mode: Option<nat>, fate: Fate)
      returns (raised: bool)
      requires temp !in entries && temp != path // mkstemp picks an unused name
      modifies this
      ensures raised == (fate.RaisesBeforeRename? || fate.RaisesAfterRename?)
      ensures Lands(fate) ==> path in entries && entries == old(entries)[path := File(data, entries[path].mode)]
      ensures Lands(fate) && mode.Some? ==> entries[path].mode == mode.value
      ensures Lands(fate) && mode.None? && path in old(entries) ==> entries[path].mode == old(entries)[path].mode
      ensures Lands(fate) && mode.None? && path !in old(entries) ==> entries[path].mode == OWNER_ONLY
      ensures fate.RaisesBeforeRename? ==> entries == old(entries)
      ensures fate.DiesBeforeRename? ==> entries - {temp} == old(entries)
    {
      raised := false;
      var wanted := Wanted(path, mode);
      entries := entries[temp := File([], OWNER_ONLY)];
      entries := entries[temp := entries[temp].(mode := wanted)];
      var limit := if fate.RaisesBeforeRename? || fate.DiesBeforeRename? then fate.written else |data|;
      var i := 0;
      while i < |data| && i < limit
        invariant 0 <= i <= |data|
        invariant limit == |data| || i <= limit
        invariant entries == old(entries)[temp := File(data[..i], wanted)]
      {
        entries := entries[temp := entries[temp].(data := entries[temp].data + [data[i]])];
        assert data[..i + 1] == data[..i] + [data[i]];
        i := i + 1;
      }
      if fate.DiesBeforeRename? {
        return;
      }
      if fate.RaisesBeforeRename? {
        entries := entries - {temp};
        return true;
      }
      assert data[..i] == data;
      var written := entries[temp];
      entries := (entries - {temp})[path := written];
      assert entries == old(entries)[path := written];
      raised := fate.RaisesAfterRename?;
    }
  }

  // ---- Same-thread reentrancy --------------------------------------------------------

  /** The `with locked_file(...)` blocks one thread runs, one after another and nested;
      `granted` tells whether a block's lock can be taken, should the block try. */
  datatype Blocks = Done | With(key: string, granted: bool, body: Blocks, rest: Blocks)

  /** What a thread does to the lock files, and what each block was yielded. */
  datatype Op = Acquire(key: string, ok: bool) | Yield(key: string, held: bool) | Release(key: string)

  function Ops(b: Blocks, held: map<string, bool>): seq<Op>
    decreases b, 1
  {
    match b
    case Done => []
    case With(key, granted, body, rest) =>
      BlockOps(key, granted, body, held) + Ops(rest, held)
  }

  /** One block: a nested one is answered from the map. */
  function BlockOps(key: string, granted: bool, body: Blocks, held: map<string, bool>): seq<Op>
    decreases body, 3
  {
    if key in held then [Yield(key, held[key])] + Ops(body, held)
    else OuterOps(key, granted, body, held)
  }

  /** A block that takes the lock itself. */
  function OuterOps(key: string, granted: bool, body: Blocks, held: map<string, bool>): seq<Op>
    decreases body, 2
  {
    [Acquire(key, granted), Yield(key, granted)] + Ops(body, held[key := granted]) + Leave(key, granted)
  }

  function Leave(key: string, granted: bool): seq<Op> {
    if granted then [Release(key)] else []
  }

  /** The thread-local `held` map, and the operations the thread has performed. */
  class Thread {
    var held: map<string, bool>
    var ops: seq<Op>

    constructor ()
      ensures held == map[] && ops == []
    {
      held, ops := map[], [];
    }

    method Run(b: Blocks)
      modifies this
      ensures held == old(held)
      ensures ops == old(ops) + Ops(b, old(held))
      decreases b, 1
    {
      if b.Done? {
        return;
      }
      RunBlock(b.key, b.granted, b.body);
      ghost var first := BlockOps(b.key, b.granted, b.body, held);
      Run(b.rest);
      assert ops == old(ops) + first + Ops(b.rest, held);
    }

    method RunBlock(key: string, granted: bool, body: Blocks)
      modifies this
      ensures held == old(held)
      ensures ops == old(ops) + BlockOps(key, granted, body, old(held))
      decreases body, 3
    {
      if key in held {
        RunNested(key, body);
      } else {
        RunOuter(key, granted, body);
      }
    }

    method RunNested(key: string, body: Blocks)
      requires key in held
      modifies this
      ensures held == old(held)
      ensures ops == old(ops) + ([Yield(key, held[key])] + Ops(body, held))
      decreases body, 2
    {
      ops := ops + [Yield(key, held[key])];
      Run(body);
    }

    method RunOuter(key: string, granted: bool, body: Blocks)
      requires key !in held
      modifies this
      ensures held == old(held)
      ensures ops == old(ops) + OuterOps(key, granted, body, old(held))
      decreases body, 2
    {
      ops := ops + [Acquire(key, granted)];
      held := held[key := granted];
      ops := ops + [Yield(key, granted)];
      Run(body);
      held := held - {key};
      assert held == old(held);
      if granted {
        ops := ops + [Release(key)];
      }
    }
  }

  /** Which keys the operations leave the thread owning; None when a key is acquired twice or
      released unowned, the self-deadlock and the early release. */
  function Owned(own: set<string>, ops: seq<Op>): Option<set<string>>
    decreases |ops|
  {
    if ops == [] then Some(own) else
    match ops[0]
    case Acquire(k, ok) => if k in own then None else Owned(if ok then own + {k} else own, ops[1..])
    case Release(k) => if k in own then Owned(own - {k}, ops[1..]) else None
    case Yield(_, _) => Owned(own, ops[1..])
  }

  function Keys(held: map<string, bool>): set<string> {
    set k | k in held && held[k]
  }

  lemma {:induction false} OwnedAppend(own: set<string>, a: seq<Op>, b: seq<Op>)
    ensures Owned(own, a + b) ==
            match Owned(own, a) case Some(mid) => Owned(mid, b) case None => None
    decreases |a|
  {
    if a == [] {
      assert a + b == b;
    } else {
      assert (a + b)[0] == a[0] && (a + b)[1..] == a[1..] + b;
      match a[0]
      case Acquire(k, ok) => OwnedAppend(if ok then own + {k} else own, a[1..], b);
      case Release(k) => OwnedAppend(own - {k}, a[1..], b);
      case Yield(_, _) => OwnedAppend(own, a[1..], b);
    }
  }

  /** For a key some outer block entered, nothing but yields of the outer block's answer. */
  predicate LeavesAlone(ops: seq<Op>, held: map<string, bool>) {
    forall op :: op in ops && op.key in held ==> op == Yield(op.key, held[op.key])
  }

  /** Whatever a thread nests inside its blocks, the keys it entered are neither acquired again
      nor released before their own block ends, and it ends owning what it began with. */
  lemma {:induction false} NestedNeverReleases(b: Blocks, held: map<string, bool>)
    ensures LeavesAlone(Ops(b, held), held)
    ensures Owned(Keys(held), Ops(b, held)) == Some(Keys(held))
    decreases b, 1
  {
    if b.With? {
      if b.key in held {
        NestedNeverReleases(b.body, held);
        OwnedAppend(Keys(held), [Yield(b.key, held[b.key])], Ops(b.body, held));
      } else {
        OuterBalances(b.key, b.granted, b.body, held);
      }
      NestedNeverReleases(b.rest, held);
      OwnedAppend(Keys(held), BlockOps(b.key, b.granted, b.body, held), Ops(b.rest, held));
    }
  }

  lemma OuterBalances(key: string, granted: bool, body: Blocks, held: map<string, bool>)
    requires key !in held
    ensures LeavesAlone(OuterOps(key, granted, body, held), held)
    ensures Owned(Keys(held), OuterOps(key, granted, body, held)) == Some(Keys(held))
    decreases body, 2
  {
    var own := Keys(held);
    var inner := held[key := granted];
    NestedNeverReleases(body, inner);
    var enter := [Acquire(key, granted), Yield(key, granted)];
    assert Keys(inner) == if granted then own + {key} else own;
    assert enter == [Acquire(key, granted)] + [Yield(key, granted)];
    OwnedAppend(own, [Acquire(key, granted)], [Yield(key, granted)]);
    OwnedAppend(own, enter, Ops(body, inner));
    OwnedAppend(own, enter + Ops(body, inner), Leave(key, granted));
    assert Keys(inner) - {key} == own;
    forall op | op in OuterOps(key, granted, body, held) && op.key in held
      ensures op == Yield(op.key, held[op.key])
    {
      assert op in Ops(body, inner);
    }
  }

  // ---- What each block is told -------------------------------------------------------

  /** A block as it begins: what it is yielded, and the locks its thread owns then. */
  datatype Entry = Entry(key: string, told: bool, owned: set<string>)

  /** The entries of a run of operations. */
  function Entered(own: set<string>, ops: seq<Op>): seq<Entry>
    decreases |ops|
  {
    if ops == [] then [] else
    match ops[0]
    case Acquire(k, ok) => Entered(if ok then own + {k} else own, ops[1..])
    case Release(k) => Entered(own - {k}, ops[1..])
    case Yield(k, told) => [Entry(k, told, own)] + Entered(own, ops[1..])
  }

  /** The blocks around some point, outermost first: each key and whether its lock could be taken. */
  type Around = seq<(string, bool)>

  /** What the outermost of them with the key got. */
  function Outermost(around: Around, key: string): Option<bool> {
    if around == [] then None
    else if around[0].0 == key then Some(around[0].1)
    else Outermost(around[1..], key)
  }

  function LockedAround(around: Around): set<string> {
    set block | block in around && Outermost(around, block.0) == Some(true) :: block.0
  }

  /** Every block of the tree once, in program order: its answer is the outermost one's, and it runs
      under just the locks that the blocks around it and itself were granted. */
  function Expected(b: Blocks, around: Around): seq<Entry>
    decreases b
  {
    match b
    case Done => []
    case With(key, granted, body, rest) =>
      var inside := around + [(key, granted)];
      [Entry(key, Outermost(inside, key) == Some(true), LockedAround(inside))]
      + Expected(body, inside) + Expected(rest, around)
  }

  lemma {:induction false} EnteredAppend(own: set<string>, a: seq<Op>, b: seq<Op>)
    requires Owned(own, a).Some?
    ensures Entered(own, a + b) == Entered(own, a) + Entered(Owned(own, a).value, b)
    decreases |a|
  {
    if a == [] {
      assert a + b == b;
    } else {
      assert (a + b)[0] == a[0] && (a + b)[1..] == a[1..] + b;
      match a[0]
      case Acquire(k, ok) => EnteredAppend(if ok then own + {k} else own, a[1..], b);
      case Release(k) => EnteredAppend(own - {k}, a[1..], b);
      case Yield(_, _) => EnteredAppend(own, a[1..], b);
    }
  }

  lemma {:induction false} OutermostInside(around: Around, key: string, granted: bool, k: string)
    ensures Outermost(around + [(key, granted)], k) ==
            if Outermost(around, k).Some? then Outermost(around, k)
            else if k == key then Some(granted) else None
    decreases |around|
  {
    var inside := around + [(key, granted)];
    if around == [] {
      assert inside[1..] == [];
    } else {
      assert inside[1..] == around[1..] + [(key, granted)];
      OutermostInside(around[1..], key, granted, k);
    }
  }

  lemma {:induction false} OutermostIsAround(around: Around, k: string)
    requires Outermost(around, k).Some?
    ensures exists block :: block in around && block.0 == k
    decreases |around|
  {
    if around[0].0 == k {
      assert around[0] in around;
    } else {
      OutermostIsAround(around[1..], k);
    }
  }

  /** The map remembers the blocks around. */
  ghost predicate Remembers(held: map<string, bool>, around: Around) {
    forall k :: Outermost(around, k) == if k in held then Some(held[k]) else None
  }

  lemma KeysAreLocked(held: map<string, bool>, around: Around)
    requires Remembers(held, around)
    ensures Keys(held) == LockedAround(around)
  {
    forall k | k in Keys(held)
      ensures k in LockedAround(around)
    {
      assert Outermost(around, k) == Some(true);
      OutermostIsAround(around, k);
    }
    forall k | k in LockedAround(around)
      ensures k in Keys(held)
    {
      assert Outermost(around, k) == Some(true);
    }
  }

  lemma InsideRemembers(held: map<string, bool>, around: Around, key: string, granted: bool)
    requires Remembers(held, around)
    ensures Remembers(if key in held then held else held[key := granted], around + [(key, granted)])
  {
    forall k
      ensures Outermost(around + [(key, granted)], k) ==
              if k in held then Some(held[k]) else if k == key then Some(granted) else None
    {
      OutermostInside(around, key, granted, k);
      assert Outermost(around, k) == if k in held then Some(held[k]) else None;
    }
  }

  lemma {:induction false} EntriesAreExpected(b: Blocks, held: map<string, bool>, around: Around)
    requires Remembers(held, around)
    ensures Entered(Keys(held), Ops(b, held)) == Expected(b, around)
    decreases b, 1
  {
    if b.With? {
      var first := BlockOps(b.key, b.granted, b.body, held);
      BlockIsExpected(b.key, b.granted, b.body, held, around);
      EntriesAreExpected(b.rest, held, around);
      EnteredAppend(Keys(held), first, Ops(b.rest, held));
    }
  }

  lemma BlockIsExpected(key: string, granted: bool, body: Blocks, held: map<string, bool>, around: Around)
    requires Remembers(held, around)
    ensures var inside := around + [(key, granted)];
            Entered(Keys(held), BlockOps(key, granted, body, held)) ==
            [Entry(key, Outermost(inside, key) == Some(true), LockedAround(inside))] + Expected(body, inside)
    ensures Owned(Keys(held), BlockOps(key, granted, body, held)) == Some(Keys(held))
    decreases body, 3
  {
    var inside := around + [(key, granted)];
    InsideRemembers(held, around, key, granted);
    if key in held {
      NestedNeverReleases(body, held);
      KeysAreLocked(held, inside);
      EntriesAreExpected(body, held, inside);
      OwnedAppend(Keys(held), [Yield(key, held[key])], Ops(body, held));
      EnteredAppend(Keys(held), [Yield(key, held[key])], Ops(body, held));
    } else {
      OuterBalances(key, granted, body, held);
      OuterIsExpected(key, granted, body, held, inside);
    }
  }

  lemma OuterIsExpected(key: string, granted: bool, body: Blocks, held: map<string, bool>, inside: Around)
    requires key !in held && Remembers(held[key := granted], inside)
    ensures Entered(Keys(held), OuterOps(key, granted, body, held)) ==
            [Entry(key, Outermost(inside, key) == Some(true), LockedAround(inside))] + Expected(body, inside)
    decreases body, 2
  {
    var own, inner := Keys(held), held[key := granted];
    var enter := [Acquire(key, granted), Yield(key, granted)];
    NestedNeverReleases(body, inner);
    KeysAreLocked(inner, inside);
    EntriesAreExpected(body, inner, inside);
    EnterOuter(own, key, granted);
    assert Keys(inner) == if granted then own + {key} else own;
    OwnedAppend(own, enter, Ops(body, inner));
    EnteredAppend(own, enter, Ops(body, inner));
    EnteredAppend(own, enter + Ops(body, inner), Leave(key, granted));
    assert Entered(Keys(inner), Leave(key, granted)) == [];
  }

  lemma EnterOuter(own: set<string>, key: string, granted: bool)
    requires key !in own
    ensures var enter, mine := [Acquire(key, granted), Yield(key, granted)], if granted then own + {key} else own;
            Owned(own, enter) == Some(mine) && Entered(own, enter) == [Entry(key, granted, mine)]
  {
    var enter := [Acquire(key, granted), Yield(key, granted)];
    var mine, told := if granted then own + {key} else own, [Yield(key, granted)];
    assert enter[1..] == told && told[1..] == [];
    assert Owned(mine, []) == Some(mine) && Entered(mine, []) == [];
    assert Owned(mine, told) == Some(mine) && Entered(mine, told) == [Entry(key, granted, mine)];
  }

  /** Whatever blocks a thread runs, each is entered once and in program order, is told what the
      outermost block with its key got, its own included, and runs under exactly the locks that were
      so granted around it. */
  lemma EveryBlockIsToldItsLock(b: Blocks)
    ensures Entered({}, Ops(b, map[])) == Expected(b, [])
  {
    var none: map<string, bool> := map[];
    assert Keys(none) == {};
    EntriesAreExpected(b, none, []);
  }
}
