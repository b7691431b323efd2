/** `unpack` of `pack.py` on the disk: the preflight, the moves file by file, the base write and
    the removal of the pack, any of which a crash may be the last to finish.
 */
module Importing {
  import opened Wrappers
  import opened Transfer

  /** The workspace's pack and the home.  `removed` once the pack directory is gone. */
  datatype Disk = Disk(pack: map<Name, Packed>, home: Home, removed: bool)

  /** A filesystem operation that happens whole or not at all. */
  datatype Op =
    | Rename(name: Name)
    | CopyOver(name: Name)
    | Unlink(name: Name)
    | WriteBase(base: map<Name, Digest>)
    | RemovePack

  function Do(d: Disk, op: Op): Disk {
    match op
    case Rename(n) =>
      if n in d.pack then
        d.(home := d.home.(files := d.home.files[n := d.pack[n].content]), pack := d.pack - {n})
      else d
    case CopyOver(n) =>
      if n in d.pack then d.(home := d.home.(files := d.home.files[n := d.pack[n].content])) else d
    case Unlink(n) => d.(pack := d.pack - {n})
    case WriteBase(base) => d.(home := d.home.(base := base))
    case RemovePack => Disk(map[], d.home, true)
  }

  /** The operations in order, cut short by a crash after `left` of them. */
  function DoAll(d: Disk, ops: seq<Op>, left: nat): Disk
    decreases |ops|
  {
    if ops == [] || left == 0 then d else DoAll(Do(d, ops[0]), ops[1..], left - 1)
  }

  function Less(left: nat, used: nat): nat {
    if left < used then 0 else left - used
  }

  lemma {:induction false} DoAllAppend(d: Disk, a: seq<Op>, b: seq<Op>, left: nat)
    ensures DoAll(d, a + b, left) == DoAll(DoAll(d, a, left), b, Less(left, |a|))
    decreases |a|
  {
    if a == [] {
      assert a + b == b;
    } else if left > 0 {
      assert (a + b)[0] == a[0] && (a + b)[1..] == a[1..] + b;
      DoAllAppend(Do(d, a[0]), a[1..], b, left - 1);
    }
  }

  /** A file moves by one rename, or by a copy and an unlink across filesystems and for the
      secrets. */
  function MoveOps(n: Name, copies: set<Name>): seq<Op> {
    if n in copies then [CopyOver(n), Unlink(n)] else [Rename(n)]
  }

  function Moves(names: seq<Name>, moving: set<Name>, copies: set<Name>): seq<Op>
    decreases |names|
  {
    if names == [] then []
    else Moves(names[..|names| - 1], moving, copies)
         + (var n := names[|names| - 1]; if n in moving then MoveOps(n, copies) else [])
  }

  function Moving(sha: Version -> Digest, pack: map<Name, Packed>, home: Home): set<Name> {
    set n | n in pack && Decide(sha, pack[n], Get(home.files, n)).Move?
  }

  function Plan(sha: Version -> Digest, d: Disk, names: seq<Name>, copies: set<Name>): seq<Op> {
    Moves(names, Moving(sha, d.pack, d.home), copies) + [WriteBase(Hashes(sha, d.pack)), RemovePack]
  }

  /** The present files, each once; the source walks them sorted. */
  ghost predicate Lists(names: seq<Name>, pack: map<Name, Packed>) {
    && (forall n :: n in pack <==> n in names)
    && (forall i, j :: 0 <= i < j < |names| ==> names[i] != names[j])
  }

  // ---- The code ----------------------------------------------------------------------

  datatype Fact = Fact(name: Name, digest: Digest, outcome: Outcome)

  /** What `pack-base.json` records. */
  function BaseOf(facts: seq<Fact>): map<Name, Digest> {
    if facts == [] then map[]
    else BaseOf(facts[..|facts| - 1])[facts[|facts| - 1].name := facts[|facts| - 1].digest]
  }

  lemma {:induction false} BaseOfNames(sha: Version -> Digest, pack: map<Name, Packed>, names: seq<Name>, facts: seq<Fact>)
    requires |facts| == |names| && forall n :: n in names ==> n in pack
    requires forall i :: 0 <= i < |names| ==>
               facts[i].name == names[i] && facts[i].digest == sha(pack[names[i]].content)
    ensures BaseOf(facts) == map n | n in names :: sha(pack[n].content)
    decreases |facts|
  {
    if facts != [] {
      var last := |facts| - 1;
      BaseOfNames(sha, pack, names[..last], facts[..last]);
      assert names == names[..last] + [names[last]];
    }
  }

  lemma BaseOfIsHashes(sha: Version -> Digest, pack: map<Name, Packed>, names: seq<Name>, facts: seq<Fact>)
    requires Lists(names, pack) && |facts| == |names|
    requires forall i :: 0 <= i < |names| ==>
               facts[i].name == names[i] && facts[i].digest == sha(pack[names[i]].content)
    ensures BaseOf(facts) == Hashes(sha, pack)
  {
    BaseOfNames(sha, pack, names, facts);
  }

  class Workspace {
    var disk: Disk
    /** How many operations the process still lives for. */
    var left: nat

    constructor (disk: Disk, left: nat)
      ensures this.disk == disk && this.left == left
    {
      this.disk, this.left := disk, left;
    }

    /** An operation of a dead process does not happen. */
    method Perform(op: Op)
      modifies this
      ensures disk == DoAll(old(disk), [op], old(left)) && left == Less(old(left), 1)
    {
      if left > 0 {
        disk := Do(disk, op);
        left := left - 1;
      }
      assert [op][1..] == [];
    }

    /** Every decision is made before any file moves; one conflict refuses the import. */
    method Preflight(sha: Version -> Digest, names: seq<Name>) returns (facts: Result<seq<Fact>, Refusal>)
      requires Lists(names, disk.pack)
      ensures facts.Err? <==> HasConflict(sha, disk.pack, disk.home)
      ensures facts.Ok? ==>
                && |facts.value| == |names|
                && forall i :: 0 <= i < |names| ==>
                     facts.value[i] == Fact(names[i], sha(disk.pack[names[i]].content),
                                            Decide(sha, disk.pack[names[i]], Get(disk.home.files, names[i])))
    {
      var planned: seq<Fact> := [];
      var conflict := false;
      for i := 0 to |names|
        invariant |planned| == i
        invariant forall k :: 0 <= k < i ==>
                    planned[k] == Fact(names[k], sha(disk.pack[names[k]].content),
                                       Decide(sha, disk.pack[names[k]], Get(disk.home.files, names[k])))
        invariant conflict <==> exists k :: 0 <= k < i && planned[k].outcome.Conflict?
      {
        var packed := disk.pack[names[i]];
        var outcome := Decide(sha, packed, Get(disk.home.files, names[i]));
        planned := planned + [Fact(names[i], sha(packed.content), outcome)];
        conflict := conflict || outcome.Conflict?;
      }
      if conflict {
        return Err(PackError);
      }
      return Ok(planned);
    }

    method MoveFile(n: Name, copies: set<Name>)
      modifies this
      ensures disk == DoAll(old(disk), MoveOps(n, copies), old(left))
      ensures left == Less(old(left), |MoveOps(n, copies)|)
    {
      if n in copies {
        Perform(CopyOver(n));
        Perform(Unlink(n));
        DoAllAppend(old(disk), [CopyOver(n)], [Unlink(n)], old(left));
        assert [CopyOver(n)] + [Unlink(n)] == MoveOps(n, copies);
      } else {
        Perform(Rename(n));
      }
    }

    method MoveAll(facts: seq<Fact>, copies: set<Name>, ghost names: seq<Name>, ghost moving: set<Name>)
      requires |facts| == |names|
      requires forall i :: 0 <= i < |names| ==>
                 facts[i].name == names[i] && (facts[i].outcome.Move? <==> names[i] in moving)
      modifies this
      ensures disk == DoAll(old(disk), Moves(names, moving, copies), old(left))
      ensures left == Less(old(left), |Moves(names, moving, copies)|)
    {
      for i := 0 to |facts|
        invariant disk == DoAll(old(disk), Moves(names[..i], moving, copies), old(left))
        invariant left == Less(old(left), |Moves(names[..i], moving, copies)|)
      {
        ghost var soFar := Moves(names[..i], moving, copies);
        assert names[..i + 1][..i] == names[..i];
        assert Moves(names[..i + 1], moving, copies) ==
               soFar + (if names[i] in moving then MoveOps(names[i], copies) else []);
        assert soFar + [] == soFar;
        if facts[i].outcome.Move? {
          DoAllAppend(old(disk), soFar, MoveOps(names[i], copies), old(left));
          MoveFile(facts[i].name, copies);
        }
      }
      assert names[..|names|] == names;
    }

    /** A conflict moves nothing; otherwise the disk is what the plan's first operations leave,
        as many as the process lived for. */
    method Unpack(sha: Version -> Digest, names: seq<Name>, copies: set<Name>) returns (result: Result<(), Refusal>)
      requires Lists(names, disk.pack)
      modifies this
      ensures result.Err? <==> HasConflict(sha, old(disk).pack, old(disk).home)
      ensures result.Err? ==> disk == old(disk)
      ensures result.Ok? ==> disk == DoAll(old(disk), Plan(sha, old(disk), names, copies), old(left))
    {
      var facts := Preflight(sha, names);
      if facts.Err? {
        return Err(PackError);
      }
      ghost var moves := Moves(names, Moving(sha, disk.pack, disk.home), copies);
      var base := BaseOf(facts.value);
      BaseOfIsHashes(sha, disk.pack, names, facts.value);
      MoveAll(facts.value, copies, names, Moving(sha, disk.pack, disk.home));
      Finish(base);
      DoAllAppend(old(disk), moves, [WriteBase(base), RemovePack], old(left));
      return Ok(());
    }

    method Finish(base: map<Name, Digest>)
      modifies this
      ensures disk == DoAll(old(disk), [WriteBase(base), RemovePack], old(left))
    {
      Perform(WriteBase(base));
      Perform(RemovePack);
      DoAllAppend(old(disk), [WriteBase(base)], [RemovePack], old(left));
      assert [WriteBase(base)] + [RemovePack] == [WriteBase(base), RemovePack];
    }
  }

  // ---- Crashes -----------------------------------------------------------------------

  /** An interrupted import is on its way: no conflict has appeared, what is left of the pack
      is as it was, and finishing it leads to the same files. */
  ghost predicate Underway(sha: Version -> Digest, d: Disk, t: Disk) {
    && !HasConflict(sha, t.pack, t.home)
    && Settled(sha, t.pack, t.home) == Settled(sha, d.pack, d.home)
    && (forall n :: n in t.pack ==> n in d.pack && t.pack[n] == d.pack[n])
    && t.removed == d.removed
  }

  predicate Untouched(d: Disk, t: Disk, n: Name) {
    Get(t.pack, n) == Get(d.pack, n) && Get(t.home.files, n) == Get(d.home.files, n)
  }

  /** An operation the plan may take in this state. */
  predicate Safe(sha: Version -> Digest, d: Disk, op: Op) {
    match op
    case Rename(n) => n in d.pack && Decide(sha, d.pack[n], Get(d.home.files, n)).Move?
    case CopyOver(n) => n in d.pack && Decide(sha, d.pack[n], Get(d.home.files, n)).Move?
    case Unlink(n) => n in d.pack && Get(d.home.files, n) == Some(d.pack[n].content)
    case WriteBase(_) => true
    case RemovePack => false
  }

  lemma SafeOpIsUnderway(sha: Version -> Digest, d: Disk, op: Op)
    requires !HasConflict(sha, d.pack, d.home) && Safe(sha, d, op)
    ensures Underway(sha, d, Do(d, op))
  {
    var t := Do(d, op);
    if !op.WriteBase? {
      forall m | m != op.name
        ensures Untouched(d, t, m)
      {
      }
      forall m | m in t.pack
        ensures m in d.pack && t.pack[m] == d.pack[m]
        ensures !Decide(sha, t.pack[m], Get(t.home.files, m)).Conflict?
      {
        assert m != op.name ==> Untouched(d, t, m);
      }
      SameSettled(sha, d, t, op.name);
    }
  }

  lemma SameSettled(sha: Version -> Digest, d: Disk, t: Disk, n: Name)
    requires n in d.pack && forall m :: m != n ==> Untouched(d, t, m)
    requires n in t.home.files && (n in t.pack ==> t.pack[n] == d.pack[n])
    requires Decide(sha, d.pack[n], Get(d.home.files, n)).Move? || Get(d.home.files, n) == Some(d.pack[n].content)
    requires t.home.files[n] == d.pack[n].content
    ensures Settled(sha, t.pack, t.home) == Settled(sha, d.pack, d.home)
  {
    var a, b := Settled(sha, t.pack, t.home), Settled(sha, d.pack, d.home);
    forall m
      ensures Get(a, m) == Get(b, m)
    {
      if m != n {
        assert Untouched(d, t, m);
      }
    }
    assert forall m :: m in a <==> Get(a, m).Some?;
    assert forall m :: m in b <==> Get(b, m).Some?;
    assert a.Keys == b.Keys;
    assert forall m :: m in a ==> Get(a, m) == Some(a[m]) == Get(b, m);
  }

  lemma UnderwayTransitive(sha: Version -> Digest, a: Disk, b: Disk, c: Disk)
    requires Underway(sha, a, b) && Underway(sha, b, c)
    ensures Underway(sha, a, c)
  {
  }

  /** What a file's move, or the part of it a crash let through, leads to. */
  ghost predicate FileMoved(sha: Version -> Digest, d: Disk, t: Disk, n: Name, whole: bool) {
    && Underway(sha, d, t) && t.home.base == d.home.base
    && (forall m :: m != n ==> Untouched(d, t, m))
    && (whole ==> n !in t.pack)
  }

  lemma RenameMoves(sha: Version -> Digest, d: Disk, n: Name)
    requires !HasConflict(sha, d.pack, d.home) && Safe(sha, d, Rename(n))
    ensures FileMoved(sha, d, Do(d, Rename(n)), n, true)
  {
    SafeOpIsUnderway(sha, d, Rename(n));
  }

  lemma TwoMoves(sha: Version -> Digest, a: Disk, b: Disk, c: Disk, n: Name)
    requires FileMoved(sha, a, b, n, false) && FileMoved(sha, b, c, n, true)
    ensures FileMoved(sha, a, c, n, true)
  {
    UnderwayTransitive(sha, a, b, c);
    forall m | m != n
      ensures Untouched(a, c, m)
    {
      assert Untouched(a, b, m) && Untouched(b, c, m);
    }
  }

  lemma CopyMoves(sha: Version -> Digest, d: Disk, n: Name)
    requires !HasConflict(sha, d.pack, d.home) && Safe(sha, d, CopyOver(n))
    ensures FileMoved(sha, d, Do(d, CopyOver(n)), n, false)
    ensures FileMoved(sha, d, Do(Do(d, CopyOver(n)), Unlink(n)), n, true)
  {
    var copied := Do(d, CopyOver(n));
    SafeOpIsUnderway(sha, d, CopyOver(n));
    assert FileMoved(sha, d, copied, n, false);
    SafeOpIsUnderway(sha, copied, Unlink(n));
    assert FileMoved(sha, copied, Do(copied, Unlink(n)), n, true);
    TwoMoves(sha, d, copied, Do(copied, Unlink(n)), n);
  }

  lemma OneFileUnderway(sha: Version -> Digest, d: Disk, n: Name, copies: set<Name>, left: nat)
    requires !HasConflict(sha, d.pack, d.home)
    requires n in d.pack && Decide(sha, d.pack[n], Get(d.home.files, n)).Move?
    ensures FileMoved(sha, d, DoAll(d, MoveOps(n, copies), left), n, left >= |MoveOps(n, copies)|)
  {
    if left == 0 {
    } else if n in copies {
      CopyMoves(sha, d, n);
      var copied := Do(d, CopyOver(n));
      assert MoveOps(n, copies)[1..] == [Unlink(n)];
      assert DoAll(d, MoveOps(n, copies), left) == DoAll(copied, [Unlink(n)], left - 1);
      assert left > 1 ==> DoAll(copied, [Unlink(n)], left - 1) == DoAll(Do(copied, Unlink(n)), [], left - 2);
    } else {
      RenameMoves(sha, d, n);
      assert DoAll(d, MoveOps(n, copies), left) == DoAll(Do(d, Rename(n)), [], left - 1);
    }
  }

  lemma {:induction false} MovesUnderway(
      sha: Version -> Digest, d: Disk, names: seq<Name>, moving: set<Name>, copies: set<Name>, left: nat)
    requires !HasConflict(sha, d.pack, d.home)
    requires forall i, j :: 0 <= i < j < |names| ==> names[i] != names[j]
    requires forall n :: n in names && n in moving ==>
               n in d.pack && Decide(sha, d.pack[n], Get(d.home.files, n)).Move?
    ensures var t := DoAll(d, Moves(names, moving, copies), left);
            && Underway(sha, d, t) && t.home.base == d.home.base
            && (forall m :: m !in names || m !in moving ==> Untouched(d, t, m))
            && (left >= |Moves(names, moving, copies)| ==> forall n :: n in names && n in moving ==> n !in t.pack)
    decreases |names|
  {
    if names != [] {
      var init, n := names[..|names| - 1], names[|names| - 1];
      var before := Moves(init, moving, copies);
      MovesUnderway(sha, d, init, moving, copies, left);
      var mid := DoAll(d, before, left);
      assert names == init + [n] && n !in init;
      assert Untouched(d, mid, n);
      if n in moving {
        OneFileUnderway(sha, mid, n, copies, Less(left, |before|));
        DoAllAppend(d, before, MoveOps(n, copies), left);
        UnderwayTransitive(sha, d, mid, DoAll(mid, MoveOps(n, copies), Less(left, |before|)));
        FileMovedLast(sha, d, mid, DoAll(mid, MoveOps(n, copies), Less(left, |before|)), n, names, moving);
      } else {
        assert Moves(names, moving, copies) == before + [] == before;
      }
    }
  }

  lemma FileMovedLast(sha: Version -> Digest, a: Disk, b: Disk, c: Disk, n: Name, names: seq<Name>, moving: set<Name>)
    requires n in names && n in moving
    requires forall m :: m !in names || m !in moving ==> Untouched(a, b, m)
    requires forall m :: m != n ==> Untouched(b, c, m)
    ensures forall m :: m !in names || m !in moving ==> Untouched(a, c, m)
    ensures forall m :: m != n && m !in b.pack ==> m !in c.pack
  {
    forall m | m !in names || m !in moving
      ensures Untouched(a, c, m)
    {
      assert Untouched(a, b, m) && Untouched(b, c, m);
    }
    forall m | m != n && m !in b.pack
      ensures m !in c.pack
    {
      assert Untouched(b, c, m);
    }
  }

  /** One run of the program, from a disk it lists, living for `left` operations. */
  datatype Attempt = Attempt(names: seq<Name>, copies: set<Name>, left: nat)

  function Run(sha: Version -> Digest, d: Disk, a: Attempt): Disk {
    if HasConflict(sha, d.pack, d.home) then d else DoAll(d, Plan(sha, d, a.names, a.copies), a.left)
  }

  /** The process died before it removed the pack. */
  ghost predicate Interrupted(sha: Version -> Digest, d: Disk, a: Attempt) {
    Lists(a.names, d.pack) && a.left < |Plan(sha, d, a.names, a.copies)|
  }

  ghost predicate Complete(sha: Version -> Digest, d: Disk, a: Attempt) {
    Lists(a.names, d.pack) && a.left >= |Plan(sha, d, a.names, a.copies)|
  }

  lemma InterruptedIsUnderway(sha: Version -> Digest, d: Disk, a: Attempt)
    requires !HasConflict(sha, d.pack, d.home) && Interrupted(sha, d, a)
    ensures Underway(sha, d, Run(sha, d, a))
  {
    var moves := Moves(a.names, Moving(sha, d.pack, d.home), a.copies);
    var base := Hashes(sha, d.pack);
    MovesUnderway(sha, d, a.names, Moving(sha, d.pack, d.home), a.copies, a.left);
    DoAllAppend(d, moves, [WriteBase(base), RemovePack], a.left);
    var mid := DoAll(d, moves, a.left);
    if a.left > |moves| {
      SafeOpIsUnderway(sha, mid, WriteBase(base));
      assert [WriteBase(base), RemovePack][1..] == [RemovePack];
    }
  }

  lemma FinishEnds(d: Disk, base: map<Name, Digest>, left: nat)
    ensures left >= 2 ==>
              DoAll(d, [WriteBase(base), RemovePack], left) == Disk(map[], d.home.(base := base), true)
  {
    if left >= 2 {
      var written := Do(d, WriteBase(base));
      assert DoAll(d, [WriteBase(base), RemovePack], left) == DoAll(written, [RemovePack], left - 1);
      assert DoAll(written, [RemovePack], left - 1) == DoAll(Do(written, RemovePack), [], left - 2);
    }
  }

  /** A run that finishes does what `Unpack` of the protocol says. */
  lemma CompleteRunIsUnpack(sha: Version -> Digest, d: Disk, a: Attempt)
    requires !HasConflict(sha, d.pack, d.home) && Complete(sha, d, a)
    ensures Unpack(sha, d.pack, d.home) == Ok(Run(sha, d, a).home)
    ensures Run(sha, d, a).pack == map[] && Run(sha, d, a).removed
  {
    var moving := Moving(sha, d.pack, d.home);
    var moves := Moves(a.names, moving, a.copies);
    var base := Hashes(sha, d.pack);
    MovesUnderway(sha, d, a.names, moving, a.copies, a.left);
    DoAllAppend(d, moves, [WriteBase(base), RemovePack], a.left);
    var mid := DoAll(d, moves, a.left);
    NothingLeftToMove(sha, d, mid, a.names);
    FinishEnds(mid, base, Less(a.left, |moves|));
  }

  lemma NothingLeftToMove(sha: Version -> Digest, d: Disk, t: Disk, names: seq<Name>)
    requires Lists(names, d.pack) && Underway(sha, d, t)
    requires forall n :: n in names && n in Moving(sha, d.pack, d.home) ==> n !in t.pack
    requires forall n :: n !in names || n !in Moving(sha, d.pack, d.home) ==> Untouched(d, t, n)
    ensures t.home.files == Settled(sha, d.pack, d.home)
  {
    forall n | n in t.pack
      ensures !Decide(sha, t.pack[n], Get(t.home.files, n)).Move?
    {
      assert n in names && n !in Moving(sha, d.pack, d.home);
      assert Untouched(d, t, n);
    }
    assert Settled(sha, t.pack, t.home) == t.home.files;
  }

  /** What the attempts, each after the crash of the one before, leave on the disk. */
  function RunAll(sha: Version -> Digest, d: Disk, attempts: seq<Attempt>): Disk
    decreases |attempts|
  {
    if attempts == [] then d else RunAll(sha, Run(sha, d, attempts[0]), attempts[1..])
  }

  ghost predicate AllInterrupted(sha: Version -> Digest, d: Disk, attempts: seq<Attempt>)
    decreases |attempts|
  {
    attempts == []
    || (Interrupted(sha, d, attempts[0]) && AllInterrupted(sha, Run(sha, d, attempts[0]), attempts[1..]))
  }

  lemma {:induction false} CrashesAreUnderway(sha: Version -> Digest, d: Disk, attempts: seq<Attempt>)
    requires !HasConflict(sha, d.pack, d.home) && AllInterrupted(sha, d, attempts)
    ensures Underway(sha, d, RunAll(sha, d, attempts))
    decreases |attempts|
  {
    if attempts != [] {
      var next := Run(sha, d, attempts[0]);
      InterruptedIsUnderway(sha, d, attempts[0]);
      CrashesAreUnderway(sha, next, attempts[1..]);
      UnderwayTransitive(sha, d, next, RunAll(sha, d, attempts));
    }
  }

  /** A conflict-free import interrupted any number of times, between files or between a copy
      and its unlink or before the pack is removed, and then rerun to its end, leaves the files
      of an uninterrupted one; its record may only have forgotten some files. */
  lemma RerunCompletesImport(sha: Version -> Digest, d: Disk, attempts: seq<Attempt>, last: Attempt)
    returns (forgotten: set<Name>)
    requires !HasConflict(sha, d.pack, d.home) && AllInterrupted(sha, d, attempts)
    requires Complete(sha, RunAll(sha, d, attempts), last)
    ensures var end := Run(sha, RunAll(sha, d, attempts), last);
            var whole := Unpack(sha, d.pack, d.home).value;
            && end.pack == map[] && end.removed
            && end.home == whole.(base := whole.base - forgotten)
  {
    var t := RunAll(sha, d, attempts);
    CrashesAreUnderway(sha, d, attempts);
    CompleteRunIsUnpack(sha, t, last);
    forgotten := ForgottenHashes(sha, d.pack, t.pack);
  }

  lemma ForgottenHashes(sha: Version -> Digest, pack: map<Name, Packed>, left: map<Name, Packed>)
    returns (forgotten: set<Name>)
    requires forall n :: n in left ==> n in pack && left[n] == pack[n]
    ensures Hashes(sha, left) == Hashes(sha, pack) - forgotten
  {
    forgotten := pack.Keys - left.Keys;
  }
}
