/** The pack and unpack protocol of `pack.py` between two homes: snapshots travel, possibly
    stale, each home remembers the hashes of its last import, and the three-way rule decides.

    A version of a file is the history of edits that made it, so an older version of the same
    file is a prefix.  `sha` hashes versions and may give any two of them one hash, as the hash of
    their contents does when an edit restores an earlier content.
 */
module Transfer {
  import opened Wrappers

  type Name = string
  type Version = seq<nat>
  type Digest = string

  datatype Outcome = Move | Keep | Conflict

  /** The three-way rule, on hashes alone. */
  function ChooseFile(packed: Digest, base: Option<Digest>, home: Option<Digest>): Outcome {
    if home.None? then Move
    else if home.value == packed then Keep
    else if base.Some? && home.value == base.value then Move
    else if base.Some? && packed == base.value then Keep
    else Conflict
  }

  /** A home's files, and `pack-base.json`: the hashes recorded by its last import. */
  datatype Home = Home(files: map<Name, Version>, base: map<Name, Digest>)

  datatype Packed = Packed(content: Version, base: Option<Digest>)

  datatype Side = Left | Right

  datatype Pack = Pack(origin: Side, files: map<Name, Packed>)

  function Get<V>(m: map<Name, V>, n: Name): Option<V> {
    if n in m then Some(m[n]) else None
  }

  function Snapshot(home: Home): map<Name, Packed> {
    map n | n in home.files :: Packed(home.files[n], Get(home.base, n))
  }

  function Decide(sha: Version -> Digest, p: Packed, home: Option<Version>): Outcome {
    ChooseFile(sha(p.content), p.base, if home.Some? then Some(sha(home.value)) else None)
  }

  predicate HasConflict(sha: Version -> Digest, pack: map<Name, Packed>, home: Home) {
    exists n :: n in pack && Decide(sha, pack[n], Get(home.files, n)).Conflict?
  }

  /** The home's files once every file the rule moves has moved. */
  function Settled(sha: Version -> Digest, pack: map<Name, Packed>, home: Home): map<Name, Version> {
    home.files
    + map n | n in pack && Decide(sha, pack[n], Get(home.files, n)).Move? :: pack[n].content
  }

  function Hashes(sha: Version -> Digest, pack: map<Name, Packed>): map<Name, Digest> {
    map n | n in pack :: sha(pack[n].content)
  }

  datatype Refusal = PackError

  /** An import: all or nothing. */
  function Unpack(sha: Version -> Digest, pack: map<Name, Packed>, home: Home): Result<Home, Refusal> {
    if HasConflict(sha, pack, home) then Err(PackError)
    else Ok(Home(Settled(sha, pack, home), Hashes(sha, pack)))
  }

  // ---- Runs --------------------------------------------------------------------------

  /** `packs` are all snapshots ever taken and not yet thrown away everywhere, so an unpack of
      a stale one is always possible. */
  datatype World = World(left: Home, right: Home, packs: set<Pack>)

  /** `forgotten`: an interrupted import that was rerun records fewer hashes.  `CutShort` is one
      that was not rerun: some files moved, and no base was written. */
  datatype Event =
    | Edit(side: Side, name: Name, edit: nat)
    | Delete(side: Side, name: Name)
    | TakePack(side: Side)
    | DropFromPack(pack: Pack, name: Name)
    | Import(side: Side, pack: Pack, forgotten: set<Name>)
    | CutShort(side: Side, pack: Pack, moved: set<Name>)

  function HomeOf(w: World, side: Side): Home {
    if side.Left? then w.left else w.right
  }

  function WithHome(w: World, side: Side, home: Home): World {
    if side.Left? then w.(left := home) else w.(right := home)
  }

  predicate Possible(w: World, e: Event) {
    match e
    case DropFromPack(pack, _) => pack in w.packs
    case Import(side, pack, _) => pack in w.packs && pack.origin != side
    case CutShort(side, pack, _) => pack in w.packs && pack.origin != side
    case _ => true
  }

  function EditFile(home: Home, name: Name, edit: nat): Home {
    home.(files := home.files[name := (if name in home.files then home.files[name] else []) + [edit]])
  }

  /** The home's files once some of those the rule moves have moved. */
  function PartlySettled(sha: Version -> Digest, pack: map<Name, Packed>, home: Home, moved: set<Name>): map<Name, Version> {
    home.files
    + map n | n in pack && n in moved && Decide(sha, pack[n], Get(home.files, n)).Move? :: pack[n].content
  }

  function CutOff(sha: Version -> Digest, pack: map<Name, Packed>, home: Home, moved: set<Name>): Home {
    if HasConflict(sha, pack, home) then home
    else home.(files := PartlySettled(sha, pack, home, moved))
  }

  function Imported(sha: Version -> Digest, pack: map<Name, Packed>, home: Home, forgotten: set<Name>): Home {
    match Unpack(sha, pack, home)
    case Ok(after) => after.(base := after.base - forgotten)
    case Err(_) => home
  }

  function Happen(sha: Version -> Digest, w: World, e: Event): World
    requires Possible(w, e)
  {
    match e
    case Edit(side, name, edit) => WithHome(w, side, EditFile(HomeOf(w, side), name, edit))
    case Delete(side, name) =>
      WithHome(w, side, HomeOf(w, side).(files := HomeOf(w, side).files - {name}))
    case TakePack(side) => w.(packs := w.packs + {Pack(side, Snapshot(HomeOf(w, side)))})
    case DropFromPack(pack, name) => w.(packs := w.packs + {pack.(files := pack.files - {name})})
    case Import(side, pack, forgotten) =>
      WithHome(w, side, Imported(sha, pack.files, HomeOf(w, side), forgotten))
    case CutShort(side, pack, moved) =>
      WithHome(w, side, CutOff(sha, pack.files, HomeOf(w, side), moved))
  }

  /** An import cut short leaves each file as the whole import would or as it was, whichever of them the
      process had got to, and no base; one that was rerun lacks only some hashes. */
  lemma InterruptedImports(sha: Version -> Digest, pack: map<Name, Packed>, home: Home, some: set<Name>, n: Name)
    requires !HasConflict(sha, pack, home)
    ensures var cut, all := CutOff(sha, pack, home, some), Imported(sha, pack, home, {});
            && cut.base == home.base
            && Get(cut.files, n) == if n in some then Get(all.files, n) else Get(home.files, n)
    ensures var rerun, all := Imported(sha, pack, home, some), Imported(sha, pack, home, {});
            && rerun.files == all.files
            && Get(rerun.base, n) == if n in some then None else Get(all.base, n)
  {
  }

  /** A pack that lost a file travels beside the whole one. */
  lemma PacksMayLoseFiles(sha: Version -> Digest, w: World, pack: Pack, n: Name)
    requires pack in w.packs
    ensures var t := Happen(sha, w, DropFromPack(pack, n));
            w.packs <= t.packs && Pack(pack.origin, pack.files - {n}) in t.packs
  {
  }

  predicate CanHappen(sha: Version -> Digest, w: World, events: seq<Event>)
    decreases |events|
  {
    events == [] || (Possible(w, events[0]) && CanHappen(sha, Happen(sha, w, events[0]), events[1..]))
  }

  function After(sha: Version -> Digest, w: World, events: seq<Event>): World
    requires CanHappen(sha, w, events)
    decreases |events|
  {
    if events == [] then w else After(sha, Happen(sha, w, events[0]), events[1..])
  }

  // ---- No lost edit ------------------------------------------------------------------

  ghost predicate Injective(sha: Version -> Digest) {
    forall a, b :: sha(a) == sha(b) ==> a == b
  }

  type Versions = iset<Version>

  ghost const ALL: Versions := iset v: Version | true

  /** Hashes of these versions tell enough: what descends from a version, and hashes otherwise,
      descends from every version with its hash. */
  ghost predicate Harmless(sha: Version -> Digest, versions: Versions) {
    forall a, b, p {:trigger sha(a), sha(b), sha(p)} ::
      a in versions && b in versions && p in versions && sha(a) == sha(b) && a <= p && sha(p) != sha(a) ==> b <= p
  }

  ghost predicate HashApart(sha: Version -> Digest, versions: Versions) {
    forall a, b :: a in versions && b in versions && sha(a) == sha(b) ==> a == b
  }

  lemma ApartIsHarmless(sha: Version -> Digest, versions: Versions)
    requires HashApart(sha, versions)
    ensures Harmless(sha, versions)
  {
  }

  /** Some version the file went through on its way to `v` has this hash. */
  ghost predicate WentThrough(sha: Version -> Digest, versions: Versions, d: Digest, v: Version) {
    exists u :: u in versions && u <= v && sha(u) == d
  }

  /** Both homes' copies went through a version with this hash. */
  ghost predicate Common(sha: Version -> Digest, versions: Versions, w: World, n: Name, d: Digest) {
    && n in w.left.files && WentThrough(sha, versions, d, w.left.files[n])
    && n in w.right.files && WentThrough(sha, versions, d, w.right.files[n])
  }

  /** The homes' copies of the file are among the versions. */
  ghost predicate Within(w: World, n: Name, versions: Versions) {
    (n in w.left.files ==> w.left.files[n] in versions) && (n in w.right.files ==> w.right.files[n] in versions)
  }

  /** For one file: every recorded or travelling base is the hash of an ancestor of each home's copy,
      and a packed version is an ancestor of its origin's copy. */
  ghost predicate Consistent(sha: Version -> Digest, versions: Versions, w: World, n: Name) {
    && BaseFits(sha, versions, w, w.left.base, n)
    && BaseFits(sha, versions, w, w.right.base, n)
    && forall pack :: pack in w.packs && n in pack.files ==> PackedFits(sha, versions, w, pack, n)
  }

  ghost predicate BaseFits(sha: Version -> Digest, versions: Versions, w: World, base: map<Name, Digest>, n: Name) {
    n in base ==> Common(sha, versions, w, n, base[n])
  }

  ghost predicate PackedFits(sha: Version -> Digest, versions: Versions, w: World, pack: Pack, n: Name)
    requires n in pack.files
  {
    var p := pack.files[n];
    && n in HomeOf(w, pack.origin).files
    && p.content in versions && p.content <= HomeOf(w, pack.origin).files[n]
    && (p.base.Some? ==> WentThrough(sha, versions, p.base.value, p.content) && Common(sha, versions, w, n, p.base.value))
  }

  /** The new copy has every edit of the home's, and went through what hashes like the packed one. */
  ghost predicate Lossless(sha: Version -> Digest, versions: Versions, pack: map<Name, Packed>,
                           before: map<Name, Version>, after: map<Name, Version>, n: Name)
  {
    && (n in before ==> n in after && before[n] <= after[n])
    && (n in pack ==> n in after && WentThrough(sha, versions, sha(pack[n].content), after[n]))
  }

  lemma WentThroughGrows(sha: Version -> Digest, versions: Versions, d: Digest, v: Version, longer: Version)
    requires WentThrough(sha, versions, d, v) && v <= longer
    ensures WentThrough(sha, versions, d, longer)
  {
    var u :| u in versions && u <= v && sha(u) == d;
    assert u <= longer;
  }

  /** The rule is sound on hashes: given an honest base, a move replaces an ancestor, and a keep drops
      what the home's copy went through. */
  lemma DecisionIsLossless(sha: Version -> Digest, versions: Versions, p: Packed, home: Version)
    requires Harmless(sha, versions) && p.content in versions && home in versions
    requires p.base.Some? ==>
               WentThrough(sha, versions, p.base.value, p.content) && WentThrough(sha, versions, p.base.value, home)
    ensures Decide(sha, p, Some(home)).Move? ==> home <= p.content
    ensures Decide(sha, p, Some(home)).Keep? ==> WentThrough(sha, versions, sha(p.content), home)
  {
    if Decide(sha, p, Some(home)).Move? {
      var a :| a in versions && a <= p.content && sha(a) == p.base.value;
      assert sha(a) == sha(home) && sha(p.content) != sha(a);
    }
  }

  lemma ImportIsLossless(sha: Version -> Digest, versions: Versions, w: World, side: Side, pack: Pack, n: Name)
    requires Harmless(sha, versions) && Consistent(sha, versions, w, n) && Within(w, n, versions)
    requires pack in w.packs && pack.origin != side
    requires !HasConflict(sha, pack.files, HomeOf(w, side))
    ensures var home := HomeOf(w, side);
            Lossless(sha, versions, pack.files, home.files, Settled(sha, pack.files, home), n)
  {
    var home := HomeOf(w, side);
    if n in pack.files {
      assert PackedFits(sha, versions, w, pack, n);
      if n in home.files {
        DecisionIsLossless(sha, versions, pack.files[n], home.files[n]);
      }
    }
  }

  /** Both homes' copies of the file only gained edits. */
  predicate Grows(w: World, t: World, n: Name) {
    && (n in w.left.files ==> n in t.left.files && w.left.files[n] <= t.left.files[n])
    && (n in w.right.files ==> n in t.right.files && w.right.files[n] <= t.right.files[n])
  }

  lemma CommonGrows(sha: Version -> Digest, versions: Versions, w: World, t: World, n: Name, d: Digest)
    requires Common(sha, versions, w, n, d) && Grows(w, t, n)
    ensures Common(sha, versions, t, n, d)
  {
    WentThroughGrows(sha, versions, d, w.left.files[n], t.left.files[n]);
    WentThroughGrows(sha, versions, d, w.right.files[n], t.right.files[n]);
  }

  lemma OldPacksStillFit(sha: Version -> Digest, versions: Versions, w: World, t: World, n: Name)
    requires Consistent(sha, versions, w, n) && Grows(w, t, n)
    ensures forall pack :: pack in w.packs && n in pack.files ==> PackedFits(sha, versions, t, pack, n)
    ensures BaseFits(sha, versions, t, w.left.base, n) && BaseFits(sha, versions, t, w.right.base, n)
  {
    forall pack | pack in w.packs && n in pack.files
      ensures PackedFits(sha, versions, t, pack, n)
    {
      assert PackedFits(sha, versions, w, pack, n);
      if pack.files[n].base.Some? {
        CommonGrows(sha, versions, w, t, n, pack.files[n].base.value);
      }
    }
    if n in w.left.base {
      CommonGrows(sha, versions, w, t, n, w.left.base[n]);
    }
    if n in w.right.base {
      CommonGrows(sha, versions, w, t, n, w.right.base[n]);
    }
  }

  lemma SnapshotFits(sha: Version -> Digest, versions: Versions, w: World, side: Side, n: Name)
    requires Consistent(sha, versions, w, n) && Within(w, n, versions)
    ensures Consistent(sha, versions, Happen(sha, w, TakePack(side)), n)
  {
    var home := HomeOf(w, side);
    var t := Happen(sha, w, TakePack(side));
    OldPacksStillFit(sha, versions, w, t, n);
    if n in home.files {
      assert n in home.base ==> Common(sha, versions, w, n, home.base[n]);
      assert PackedFits(sha, versions, t, Pack(side, Snapshot(home)), n);
    }
  }

  lemma ImportedHashesFit(sha: Version -> Digest, versions: Versions, w: World, t: World, side: Side, pack: Pack, n: Name)
    requires Consistent(sha, versions, w, n) && pack in w.packs && pack.origin != side && Grows(w, t, n)
    requires Lossless(sha, versions, pack.files, HomeOf(w, side).files, HomeOf(t, side).files, n)
    ensures BaseFits(sha, versions, t, Hashes(sha, pack.files), n)
  {
    if n in pack.files {
      assert PackedFits(sha, versions, w, pack, n);
      var v := pack.files[n].content;
      assert v <= HomeOf(t, pack.origin).files[n];
      assert WentThrough(sha, versions, sha(v), HomeOf(t, pack.origin).files[n]);
    }
  }

  lemma ImportKeepsConsistent(sha: Version -> Digest, versions: Versions, w: World, e: Event, n: Name)
    requires Harmless(sha, versions) && Consistent(sha, versions, w, n) && Within(w, n, versions)
    requires Possible(w, e) && e.Import?
    ensures var t := Happen(sha, w, e); Consistent(sha, versions, t, n) && Grows(w, t, n)
  {
    if !HasConflict(sha, e.pack.files, HomeOf(w, e.side)) {
      var t := Happen(sha, w, e);
      ImportIsLossless(sha, versions, w, e.side, e.pack, n);
      OldPacksStillFit(sha, versions, w, t, n);
      ImportedHashesFit(sha, versions, w, t, e.side, e.pack, n);
    }
  }

  lemma PartlyIsEither(sha: Version -> Digest, pack: map<Name, Packed>, home: Home, moved: set<Name>, n: Name)
    requires n in home.files
    ensures var partly, settled := PartlySettled(sha, pack, home, moved), Settled(sha, pack, home);
            n in partly && n in settled && (partly[n] == home.files[n] || partly[n] == settled[n])
  {
  }

  lemma CutGrows(sha: Version -> Digest, versions: Versions, w: World, e: Event, n: Name)
    requires Harmless(sha, versions) && Consistent(sha, versions, w, n) && Within(w, n, versions)
    requires Possible(w, e) && e.CutShort?
    ensures Grows(w, Happen(sha, w, e), n)
  {
    var home := HomeOf(w, e.side);
    if !HasConflict(sha, e.pack.files, home) && n in home.files {
      ImportIsLossless(sha, versions, w, e.side, e.pack, n);
      PartlyIsEither(sha, e.pack.files, home, e.moved, n);
    }
  }

  /** An import cut short writes no base, and what it moved it moved losslessly. */
  lemma CutKeepsConsistent(sha: Version -> Digest, versions: Versions, w: World, e: Event, n: Name)
    requires Harmless(sha, versions) && Consistent(sha, versions, w, n) && Within(w, n, versions)
    requires Possible(w, e) && e.CutShort?
    ensures var t := Happen(sha, w, e); Consistent(sha, versions, t, n) && Grows(w, t, n)
  {
    CutGrows(sha, versions, w, e, n);
    OldPacksStillFit(sha, versions, w, Happen(sha, w, e), n);
  }

  predicate Deletes(e: Event, n: Name) {
    e.Delete? && e.name == n
  }

  /** What happens to other files, deletions among it, does not touch this one's bases. */
  lemma EventKeepsConsistent(sha: Version -> Digest, versions: Versions, w: World, e: Event, n: Name)
    requires Harmless(sha, versions) && Consistent(sha, versions, w, n) && Within(w, n, versions)
    requires Possible(w, e) && !Deletes(e, n)
    ensures Consistent(sha, versions, Happen(sha, w, e), n) && Grows(w, Happen(sha, w, e), n)
  {
    var t := Happen(sha, w, e);
    match e
    case Edit(side, name, edit) => OldPacksStillFit(sha, versions, w, t, n);
    case Delete(side, name) => OldPacksStillFit(sha, versions, w, t, n);
    case TakePack(side) => SnapshotFits(sha, versions, w, side, n);
    case DropFromPack(pack, name) =>
      OldPacksStillFit(sha, versions, w, t, n);
      if n in pack.files && n != name {
        assert PackedFits(sha, versions, t, pack, n);
        assert PackedFits(sha, versions, t, pack.(files := pack.files - {name}), n);
      }
    case Import(_, _, _) => ImportKeepsConsistent(sha, versions, w, e, n);
    case CutShort(_, _, _) => CutKeepsConsistent(sha, versions, w, e, n);
  }

  /** The versions of the file that either home holds at some point of the run. */
  ghost predicate Occur(sha: Version -> Digest, versions: Versions, w: World, events: seq<Event>, n: Name)
    requires CanHappen(sha, w, events)
    decreases |events|
  {
    Within(w, n, versions) && (events != [] ==> Occur(sha, versions, Happen(sha, w, events[0]), events[1..], n))
  }

  lemma {:induction false} EverythingOccurs(sha: Version -> Digest, w: World, events: seq<Event>, n: Name)
    requires CanHappen(sha, w, events)
    ensures Occur(sha, ALL, w, events, n)
    decreases |events|
  {
    if events != [] {
      EverythingOccurs(sha, Happen(sha, w, events[0]), events[1..], n);
    }
  }

  lemma {:induction false} RunKeepsConsistent(sha: Version -> Digest, versions: Versions, w: World, events: seq<Event>, n: Name)
    requires Harmless(sha, versions) && Consistent(sha, versions, w, n)
    requires CanHappen(sha, w, events) && Occur(sha, versions, w, events, n)
    requires forall e :: e in events ==> !Deletes(e, n)
    ensures var t := After(sha, w, events);
            Consistent(sha, versions, t, n) && Within(t, n, versions) && Grows(w, t, n)
    decreases |events|
  {
    if events != [] {
      EventKeepsConsistent(sha, versions, w, events[0], n);
      RunKeepsConsistent(sha, versions, Happen(sha, w, events[0]), events[1..], n);
    }
  }

  /** Homes that never exchanged anything. */
  predicate Strangers(w: World) {
    w.packs == {} && w.left.base == map[] && w.right.base == map[]
  }

  /** No lost edit: in every run that never deletes this file, whatever else it edits, deletes,
      packs and imports, stale packs and imports cut short included, whose versions of the file hash
      harmlessly, an import that is not refused replaces a copy only by one with all its edits, and
      over the whole run no copy ever loses an edit. */
  lemma NoLostEdit(sha: Version -> Digest, versions: Versions, w: World, events: seq<Event>, n: Name, side: Side, pack: Pack)
    requires Harmless(sha, versions) && Strangers(w)
    requires CanHappen(sha, w, events) && Occur(sha, versions, w, events, n)
    requires forall e :: e in events ==> !Deletes(e, n)
    ensures Grows(w, After(sha, w, events), n)
    ensures var t := After(sha, w, events);
            pack in t.packs && pack.origin != side ==>
              var before, result := HomeOf(t, side), Unpack(sha, pack.files, HomeOf(t, side));
              result.Ok? ==> Lossless(sha, versions, pack.files, before.files, result.value.files, n)
  {
    RunKeepsConsistent(sha, versions, w, events, n);
    var t := After(sha, w, events);
    if pack in t.packs && pack.origin != side && !HasConflict(sha, pack.files, HomeOf(t, side)) {
      ImportIsLossless(sha, versions, t, side, pack, n);
    }
  }

  /** The new copy has every edit of the home's and every edit of the packed one. */
  predicate KeepsBoth(pack: map<Name, Packed>, before: map<Name, Version>, after: map<Name, Version>, n: Name) {
    && (n in before ==> n in after && before[n] <= after[n])
    && (n in pack ==> n in after && pack[n].content <= after[n])
  }

  /** Where the versions that occur hash apart, which a caller can check, the new copy holds the
      edits of both sides. */
  lemma NothingIsLost(sha: Version -> Digest, versions: Versions, w: World, events: seq<Event>, n: Name, side: Side, pack: Pack)
    requires HashApart(sha, versions) && Strangers(w)
    requires CanHappen(sha, w, events) && Occur(sha, versions, w, events, n)
    requires forall e :: e in events ==> !Deletes(e, n)
    requires pack in After(sha, w, events).packs && pack.origin != side
    ensures var before := HomeOf(After(sha, w, events), side);
            var result := Unpack(sha, pack.files, before);
            result.Ok? ==> KeepsBoth(pack.files, before.files, result.value.files, n)
  {
    ApartIsHarmless(sha, versions);
    NoLostEdit(sha, versions, w, events, n, side, pack);
    RunKeepsConsistent(sha, versions, w, events, n);
    if n in pack.files {
      assert PackedFits(sha, versions, After(sha, w, events), pack, n);
    }
  }

  // ---- Deletions ---------------------------------------------------------------------

  lemma {:induction false} AfterThen(sha: Version -> Digest, w: World, events: seq<Event>, e: Event)
    returns (longer: seq<Event>)
    requires CanHappen(sha, w, events) && Possible(After(sha, w, events), e)
    ensures longer == events + [e] && CanHappen(sha, w, longer)
    ensures After(sha, w, longer) == Happen(sha, After(sha, w, events), e)
    decreases |events|
  {
    longer := events + [e];
    if events != [] {
      var rest := AfterThen(sha, Happen(sha, w, events[0]), events[1..], e);
      assert longer[0] == events[0] && longer[1..] == rest;
    }
  }

  type Deletions = iset<(Side, Name)>

  predicate Allowed(e: Event, deleted: Deletions) {
    e.Delete? ==> (e.side, e.name) in deleted
  }

  /** Some run with no deletions but these leads from one world to the other. */
  ghost predicate Leads(sha: Version -> Digest, deleted: Deletions, from: World, to: World) {
    exists events :: CanHappen(sha, from, events) && After(sha, from, events) == to
                     && forall e :: e in events ==> Allowed(e, deleted)
  }

  /** A set of worlds that no such event leaves. */
  ghost predicate Closed(sha: Version -> Digest, deleted: Deletions, worlds: World -> bool) {
    forall w, e :: worlds(w) && Possible(w, e) && Allowed(e, deleted) ==> worlds(Happen(sha, w, e))
  }

  lemma LeadsClosed(sha: Version -> Digest, deleted: Deletions, from: World)
    ensures Leads(sha, deleted, from, from)
    ensures Closed(sha, deleted, to => Leads(sha, deleted, from, to))
  {
    assert CanHappen(sha, from, []) && After(sha, from, []) == from;
    forall w, e | Leads(sha, deleted, from, w) && Possible(w, e) && Allowed(e, deleted)
      ensures Leads(sha, deleted, from, Happen(sha, w, e))
    {
      var events :| CanHappen(sha, from, events) && After(sha, from, events) == w
                    && forall e :: e in events ==> Allowed(e, deleted);
      var longer := AfterThen(sha, from, events, e);
    }
  }

  /** A home with one file. */
  function Holding(n: Name, v: Version, base: Digest): Home {
    Home(map[n := v], map[n := base])
  }

  function Carrying(n: Name, origin: Side, v: Version, base: Option<Digest>): Pack {
    Pack(origin, map[n := Packed(v, base)])
  }

  function Other(side: Side): Side {
    if side.Left? then Right else Left
  }

  /** The world in which `side` has the first home. */
  function Seen(side: Side, own: Home, other: Home, packs: set<Pack>): World {
    if side.Left? then World(own, other, packs) else World(other, own, packs)
  }

  const NOTHING := Home(map[], map[])

  lemma TakeOne(sha: Version -> Digest, deleted: Deletions, worlds: World -> bool, w: World, side: Side,
                n: Name, v: Version, base: Digest)
    requires Closed(sha, deleted, worlds) && worlds(w) && HomeOf(w, side) == Holding(n, v, base)
    ensures worlds(w.(packs := w.packs + {Carrying(n, side, v, Some(base))}))
  {
    assert Snapshot(Holding(n, v, base)) == map[n := Packed(v, Some(base))];
    assert Allowed(TakePack(side), deleted);
    var t := Happen(sha, w, TakePack(side));
  }

  lemma EditOne(sha: Version -> Digest, deleted: Deletions, worlds: World -> bool, w: World, side: Side,
                n: Name, v: Version, base: Digest, edit: nat)
    requires Closed(sha, deleted, worlds) && worlds(w) && HomeOf(w, side) == Holding(n, v, base)
    ensures worlds(WithHome(w, side, Holding(n, v + [edit], base)))
  {
    assert EditFile(Holding(n, v, base), n, edit).files == map[n := v + [edit]];
    assert Allowed(Edit(side, n, edit), deleted);
    var t := Happen(sha, w, Edit(side, n, edit));
  }

  lemma ImportedOne(sha: Version -> Digest, n: Name, p: Packed, home: Home)
    requires home.files.Keys <= {n} && Decide(sha, p, Get(home.files, n)) != Conflict
    ensures var v := if Decide(sha, p, Get(home.files, n)).Move? then p.content else home.files[n];
            Imported(sha, map[n := p], home, {}) == Holding(n, v, sha(p.content))
  {
    var v := if Decide(sha, p, Get(home.files, n)).Move? then p.content else home.files[n];
    assert Settled(sha, map[n := p], home) == map[n := v];
    assert Hashes(sha, map[n := p]) - {} == map[n := sha(p.content)];
  }

  lemma ImportOne(sha: Version -> Digest, deleted: Deletions, worlds: World -> bool, w: World, side: Side,
                  n: Name, p: Packed, home: Option<Version>)
    requires Closed(sha, deleted, worlds) && worlds(w)
    requires Get(HomeOf(w, side).files, n) == home && HomeOf(w, side).files.Keys <= {n}
    requires Decide(sha, p, home) != Conflict
    requires Pack(Other(side), map[n := p]) in w.packs
    ensures var v := if Decide(sha, p, home).Move? then p.content else home.value;
            worlds(WithHome(w, side, Holding(n, v, sha(p.content))))
  {
    var e := Import(side, Pack(Other(side), map[n := p]), {});
    ImportedOne(sha, n, p, HomeOf(w, side));
    assert Allowed(e, deleted);
    var t := Happen(sha, w, e);
  }

  lemma {:induction false} EditMany(sha: Version -> Digest, deleted: Deletions, worlds: World -> bool, w: World, side: Side,
                                    n: Name, v: Version, base: Digest, longer: Version)
    requires Closed(sha, deleted, worlds) && worlds(w) && HomeOf(w, side) == Holding(n, v, base) && v <= longer
    ensures worlds(WithHome(w, side, Holding(n, longer, base)))
    decreases |longer| - |v|
  {
    if |v| == |longer| {
      assert v == longer && WithHome(w, side, HomeOf(w, side)) == w;
    } else {
      var next := longer[|v|];
      EditOne(sha, deleted, worlds, w, side, n, v, base, next);
      EditMany(sha, deleted, worlds, WithHome(w, side, Holding(n, v + [next], base)), side, n, v + [next], base, longer);
      assert WithHome(WithHome(w, side, Holding(n, v + [next], base)), side, Holding(n, longer, base))
          == WithHome(w, side, Holding(n, longer, base));
    }
  }

  /** A home that has the file from the start. */
  function Unshared(n: Name, v: Version): Home {
    Home(map[n := v], map[])
  }

  lemma TakeFirst(sha: Version -> Digest, deleted: Deletions, worlds: World -> bool, w: World, side: Side, n: Name, v: Version)
    requires Closed(sha, deleted, worlds) && worlds(w) && HomeOf(w, side) == Unshared(n, v)
    ensures worlds(w.(packs := w.packs + {Carrying(n, side, v, None)}))
  {
    assert Snapshot(Unshared(n, v)) == map[n := Packed(v, None)];
    assert Allowed(TakePack(side), deleted);
    var t := Happen(sha, w, TakePack(side));
  }

  /** The other home has the file, and `side` does not. */
  function Start(n: Name, side: Side, v: Version): World {
    Seen(side, NOTHING, Unshared(n, v), {})
  }

  /** The packs that travel before anything is deleted. */
  function Sent(sha: Version -> Digest, n: Name, side: Side, v: Version, x: nat): set<Pack> {
    {Carrying(n, Other(side), v, None), Carrying(n, side, v + [x], Some(sha(v)))}
  }

  /** Both homes hold the edit. */
  function Shared(sha: Version -> Digest, n: Name, side: Side, v: Version, x: nat): World {
    Seen(side, Holding(n, v + [x], sha(v)), Holding(n, v + [x], sha(v + [x])), Sent(sha, n, side, v, x))
  }

  /** The file is packed, imported by the home that lacks it and edited there, and comes back. */
  lemma SharedEdit(sha: Version -> Digest, deleted: Deletions, worlds: World -> bool, n: Name, side: Side, v: Version, x: nat)
    requires sha(v) != sha(v + [x])
    requires Closed(sha, deleted, worlds) && worlds(Start(n, side, v))
    ensures worlds(Shared(sha, n, side, v, x))
  {
    var a, other, u := sha(v), Other(side), v + [x];
    TakeFirst(sha, deleted, worlds, Start(n, side, v), other, n, v);
    var first := {Carrying(n, other, v, None)};
    var maker := Unshared(n, v);
    assert Start(n, side, v).(packs := {} + first) == Seen(side, NOTHING, maker, first);
    ImportOne(sha, deleted, worlds, Seen(side, NOTHING, maker, first), side, n, Packed(v, None), None);
    EditOne(sha, deleted, worlds, Seen(side, Holding(n, v, a), maker, first), side, n, v, a, x);
    TakeOne(sha, deleted, worlds, Seen(side, Holding(n, u, a), maker, first), side, n, u, a);
    assert first + {Carrying(n, side, u, Some(a))} == Sent(sha, n, side, v, x);
    ImportOne(sha, deleted, worlds, Seen(side, Holding(n, u, a), maker, Sent(sha, n, side, v, x)), other, n,
              Packed(u, Some(a)), Some(v));
  }

  /** `side` holds the older copy under the newer hash, and has packed it so. */
  function Aged(sha: Version -> Digest, n: Name, side: Side, v: Version, x: nat): World {
    var u := v + [x];
    Seen(side, Holding(n, v, sha(u)), Holding(n, u, sha(u)),
         Sent(sha, n, side, v, x) + {Carrying(n, Other(side), u, Some(sha(u)))} + {Carrying(n, side, v, Some(sha(u)))})
  }

  /** The home deletes its copy, a stale pack brings the older one back, a second pack leaves it
      there but records the newer hash, and what it packs then carries the older one under it. */
  lemma DeletedComesBackOld(sha: Version -> Digest, deleted: Deletions, worlds: World -> bool, n: Name, side: Side,
                            v: Version, x: nat)
    requires sha(v) != sha(v + [x]) && (side, n) in deleted && Closed(sha, deleted, worlds)
    requires worlds(Shared(sha, n, side, v, x))
    ensures worlds(Aged(sha, n, side, v, x))
  {
    var other, u, sent := Other(side), v + [x], Sent(sha, n, side, v, x);
    var a, b := sha(v), sha(u);
    var kept := Holding(n, u, b);
    TakeOne(sha, deleted, worlds, Seen(side, Holding(n, u, a), kept, sent), other, n, u, b);
    var packs := sent + {Carrying(n, other, u, Some(b))};
    var t := Seen(side, Holding(n, u, a), kept, packs);
    var gone := Seen(side, Home(map[], map[n := a]), kept, packs);
    assert Holding(n, u, a).files - {n} == map[];
    assert Allowed(Delete(side, n), deleted) && Happen(sha, t, Delete(side, n)) == gone;
    ImportOne(sha, deleted, worlds, gone, side, n, Packed(v, None), None);
    ImportOne(sha, deleted, worlds, Seen(side, Holding(n, v, a), kept, packs), side, n, Packed(u, Some(b)), Some(v));
    TakeOne(sha, deleted, worlds, Seen(side, Holding(n, v, b), kept, packs), side, n, v, b);
  }

  /** With a deletion the promise fails, for every file, whichever home deletes it and whatever edit
      gives it another hash: both homes hold that edit, and a run with no other deletion leads to
      both holding the copy without it. */
  lemma DeletionLosesAnEdit(sha: Version -> Digest, n: Name, side: Side, v: Version, x: nat) returns (shared: World, lost: World)
    requires sha(v) != sha(v + [x])
    ensures var deleted := iset{(side, n)};
            Leads(sha, deleted, Start(n, side, v), shared) && Leads(sha, deleted, shared, lost)
    ensures shared.left.files == shared.right.files == map[n := v + [x]]
    ensures lost.left.files == lost.right.files == map[n := v]
  {
    var deleted, u := iset{(side, n)}, v + [x];
    LeadsClosed(sha, deleted, Start(n, side, v));
    SharedEdit(sha, deleted, to => Leads(sha, deleted, Start(n, side, v), to), n, side, v, x);
    shared := Shared(sha, n, side, v, x);
    LeadsClosed(sha, deleted, shared);
    var worlds := to => Leads(sha, deleted, shared, to);
    DeletedComesBackOld(sha, deleted, worlds, n, side, v, x);
    ImportOne(sha, deleted, worlds, Aged(sha, n, side, v, x), Other(side), n, Packed(v, Some(sha(u))), Some(u));
    lost := WithHome(Aged(sha, n, side, v, x), Other(side), Holding(n, v, sha(v)));
  }

  // ---- Exactly when edits are kept -----------------------------------------------------

  /** No import that could happen now replaces a home's copy by one without its edits. */
  ghost predicate ImportsKeep(sha: Version -> Digest, w: World, n: Name) {
    forall side, pack :: pack in w.packs && pack.origin != side ==> ImportKeeps(sha, pack.files, HomeOf(w, side), n)
  }

  predicate ImportKeeps(sha: Version -> Digest, pack: map<Name, Packed>, home: Home, n: Name) {
    match Unpack(sha, pack, home)
    case Ok(after) => n in home.files ==> n in after.files && home.files[n] <= after.files[n]
    case Err(_) => true
  }

  /** In every run that deletes no more than this, every import keeps the edits of the file. */
  ghost predicate KeepsEdits(sha: Version -> Digest, n: Name, deleted: Deletions) {
    forall w, t :: Strangers(w) && Leads(sha, deleted, w, t) ==> ImportsKeep(sha, t, n)
  }

  /** Neither home deletes the file. */
  predicate Spared(n: Name, deleted: Deletions) {
    (Left, n) !in deleted && (Right, n) !in deleted
  }

  /** No edit changes the hash of any version. */
  ghost predicate Constant(sha: Version -> Digest) {
    forall a, b :: sha(a) == sha(b)
  }

  lemma SparedIsNotDeleted(n: Name, deleted: Deletions, events: seq<Event>)
    requires Spared(n, deleted) && forall e :: e in events ==> Allowed(e, deleted)
    ensures forall e :: e in events ==> !Deletes(e, n)
  {
    forall e | e in events
      ensures !Deletes(e, n)
    {
      assert Allowed(e, deleted) && (e.Delete? ==> e.side == Left || e.side == Right);
    }
  }

  lemma SparedKeepsEdits(sha: Version -> Digest, n: Name, deleted: Deletions)
    requires Harmless(sha, ALL) && Spared(n, deleted)
    ensures KeepsEdits(sha, n, deleted)
  {
    forall w, t | Strangers(w) && Leads(sha, deleted, w, t)
      ensures ImportsKeep(sha, t, n)
    {
      var events :| CanHappen(sha, w, events) && After(sha, w, events) == t
                    && forall e :: e in events ==> Allowed(e, deleted);
      SparedIsNotDeleted(n, deleted, events);
      EverythingOccurs(sha, w, events, n);
      forall side, pack | pack in t.packs && pack.origin != side
        ensures ImportKeeps(sha, pack.files, HomeOf(t, side), n)
      {
        NoLostEdit(sha, ALL, w, events, n, side, pack);
      }
    }
  }

  /** An import that replaces the copy by one without its edits, at the end of such a run. */
  lemma ImportLoses(sha: Version -> Digest, n: Name, deleted: Deletions, w: World, t: World, side: Side, v: Version, p: Version)
    requires Strangers(w) && Leads(sha, deleted, w, t)
    requires HomeOf(t, side).files == map[n := v] && Carrying(n, Other(side), p, Some(sha(v))) in t.packs
    requires sha(p) != sha(v) && !(v <= p)
    ensures !KeepsEdits(sha, n, deleted)
  {
    var pack, home := Carrying(n, Other(side), p, Some(sha(v))), HomeOf(t, side);
    assert Decide(sha, pack.files[n], Some(v)) == Move;
    assert Settled(sha, pack.files, home)[n] == p;
    assert !ImportKeeps(sha, pack.files, home, n);
    assert !ImportsKeep(sha, t, n);
  }

  /** Two versions with one hash pass for each other: each home starts with one of them, the second
      home leaves its own in place but records the hash, and what it edits its copy to then moves
      over the first home's. */
  lemma HarmLeads(sha: Version -> Digest, deleted: Deletions, worlds: World -> bool, n: Name, a: Version, b: Version, p: Version)
    requires sha(a) == sha(b) && a <= p && Closed(sha, deleted, worlds)
    requires worlds(World(Unshared(n, b), Unshared(n, a), {}))
    ensures worlds(World(Unshared(n, b), Holding(n, p, sha(b)),
                         {Carrying(n, Left, b, None)} + {Carrying(n, Right, p, Some(sha(b)))}))
  {
    var packs := {Carrying(n, Left, b, None)};
    TakeFirst(sha, deleted, worlds, World(Unshared(n, b), Unshared(n, a), {}), Left, n, b);
    assert {} + packs == packs;
    ImportOne(sha, deleted, worlds, World(Unshared(n, b), Unshared(n, a), packs), Right, n, Packed(b, None), Some(a));
    EditMany(sha, deleted, worlds, World(Unshared(n, b), Holding(n, a, sha(b)), packs), Right, n, a, sha(b), p);
    TakeOne(sha, deleted, worlds, World(Unshared(n, b), Holding(n, p, sha(b)), packs), Right, n, p, sha(b));
  }

  lemma HarmLoses(sha: Version -> Digest, n: Name, deleted: Deletions, a: Version, b: Version, p: Version)
    requires sha(a) == sha(b) && a <= p && sha(p) != sha(a) && !(b <= p)
    ensures !KeepsEdits(sha, n, deleted)
  {
    var start := World(Unshared(n, b), Unshared(n, a), {});
    LeadsClosed(sha, deleted, start);
    HarmLeads(sha, deleted, to => Leads(sha, deleted, start, to), n, a, b, p);
    var t := World(Unshared(n, b), Holding(n, p, sha(b)), {Carrying(n, Left, b, None)} + {Carrying(n, Right, p, Some(sha(b)))});
    ImportLoses(sha, n, deleted, start, t, Left, b, p);
  }

  lemma DeletionBreaks(sha: Version -> Digest, n: Name, side: Side, deleted: Deletions, v: Version, x: nat)
    requires sha(v) != sha(v + [x]) && (side, n) in deleted
    ensures !KeepsEdits(sha, n, deleted)
  {
    var start := Start(n, side, v);
    var worlds := to => Leads(sha, deleted, start, to);
    LeadsClosed(sha, deleted, start);
    SharedEdit(sha, deleted, worlds, n, side, v, x);
    DeletedComesBackOld(sha, deleted, worlds, n, side, v, x);
    ImportLoses(sha, n, deleted, start, Aged(sha, n, side, v, x), Other(side), v + [x], v);
  }

  lemma {:induction false} SameAsNothing(sha: Version -> Digest, v: Version)
    requires forall u, x: nat :: sha(u + [x]) == sha(u)
    ensures sha(v) == sha([])
  {
    if v != [] {
      var most, last := v[..|v| - 1], v[|v| - 1];
      assert v == most + [last];
      SameAsNothing(sha, most);
    }
  }

  /** A hash that is not constant is changed by some edit. */
  lemma SomeEditShows(sha: Version -> Digest) returns (v: Version, x: nat)
    requires !Constant(sha)
    ensures sha(v) != sha(v + [x])
  {
    if forall u, y: nat :: sha(u + [y]) == sha(u) {
      forall a, b
        ensures sha(a) == sha(b)
      {
        SameAsNothing(sha, a);
        SameAsNothing(sha, b);
      }
    }
    v, x :| sha(v + [x]) != sha(v);
  }

  lemma ConstantKeepsEdits(sha: Version -> Digest, n: Name, deleted: Deletions)
    requires Constant(sha)
    ensures KeepsEdits(sha, n, deleted)
  {
    forall w, t | Strangers(w) && Leads(sha, deleted, w, t)
      ensures ImportsKeep(sha, t, n)
    {
    }
  }

  /** Exactly when edits are safe, for every hash and every set of deletions: where neither home
      deletes the file, exactly when no two versions with one hash can pass for each other; where
      one does, only under a hash that tells no two versions apart. */
  lemma KeepsEditsExactly(sha: Version -> Digest, n: Name, deleted: Deletions)
    ensures KeepsEdits(sha, n, deleted) <==> if Spared(n, deleted) then Harmless(sha, ALL) else Constant(sha)
  {
    if Spared(n, deleted) {
      if Harmless(sha, ALL) {
        SparedKeepsEdits(sha, n, deleted);
      } else {
        var a, b, p :| sha(a) == sha(b) && a <= p && sha(p) != sha(a) && !(b <= p);
        HarmLoses(sha, n, deleted, a, b, p);
      }
    } else if Constant(sha) {
      ConstantKeepsEdits(sha, n, deleted);
    } else {
      var v, x := SomeEditShows(sha);
      DeletionBreaks(sha, n, if (Left, n) in deleted then Left else Right, deleted, v, x);
    }
  }

  /** Whose deletions matter: under a harmless hash that changes at all, a file's edits are safe
      exactly when neither home deletes that file, whatever they delete besides. */
  lemma SafeExactlyUndeleted(sha: Version -> Digest, n: Name, deleted: Deletions)
    requires Harmless(sha, ALL) && !Constant(sha)
    ensures KeepsEdits(sha, n, deleted) <==> Spared(n, deleted)
  {
    KeepsEditsExactly(sha, n, deleted);
  }

  /** An edit that restores an earlier content has its hash, and then no deletion is needed: for
      every version that is left and come back to, edits can be lost. */
  lemma RestoredContentIsOverwritten(sha: Version -> Digest, n: Name, deleted: Deletions,
                                     earlier: Version, changed: Version, restored: Version)
    requires earlier <= changed <= restored && sha(restored) == sha(earlier) != sha(changed)
    ensures !KeepsEdits(sha, n, deleted)
  {
    assert restored <= changed ==> restored == changed;
    HarmLoses(sha, n, deleted, earlier, restored, changed);
  }

  // ---- When the rule refuses ---------------------------------------------------------

  /** What the holder must know for its next pack to be welcome: for every file of the other
      home, the hash of the other's copy. */
  predicate Synced(sha: Version -> Digest, holder: Home, other: Home) {
    forall n :: n in other.files ==>
      n in holder.files && n in holder.base && holder.base[n] == sha(other.files[n])
  }

  function EditAll(home: Home, edits: seq<(Name, nat)>): Home
    decreases |edits|
  {
    if edits == [] then home else EditAll(EditFile(home, edits[0].0, edits[0].1), edits[1..])
  }

  /** The workspace is handed back and forth: the holder edits, packs, and the other home
      imports and becomes the holder. */
  function HandOver(sha: Version -> Digest, holder: Home, other: Home, rounds: seq<seq<(Name, nat)>>):
      Result<(Home, Home), Refusal>
    decreases |rounds|
  {
    if rounds == [] then Ok((holder, other))
    else
      var edited := EditAll(holder, rounds[0]);
      match Unpack(sha, Snapshot(edited), other)
      case Ok(imported) => HandOver(sha, imported, edited, rounds[1..])
      case Err(e) => Err(e)
  }

  lemma {:induction false} EditsKeepSynced(sha: Version -> Digest, holder: Home, other: Home, edits: seq<(Name, nat)>)
    requires Synced(sha, holder, other)
    ensures Synced(sha, EditAll(holder, edits), other)
    decreases |edits|
  {
    if edits != [] {
      EditsKeepSynced(sha, EditFile(holder, edits[0].0, edits[0].1), other, edits[1..]);
    }
  }

  /** The same names, and under each what hashes alike. */
  predicate Alike(sha: Version -> Digest, one: map<Name, Version>, other: map<Name, Version>) {
    one.Keys == other.Keys && forall n :: n in one ==> sha(one[n]) == sha(other[n])
  }

  lemma SyncedDecision(sha: Version -> Digest, holder: Home, other: Home, n: Name)
    requires Synced(sha, holder, other) && n in holder.files
    ensures var d := Decide(sha, Snapshot(holder)[n], Get(other.files, n));
            d.Move? || (d.Keep? && n in other.files && sha(other.files[n]) == sha(holder.files[n]))
  {
  }

  lemma SyncedImports(sha: Version -> Digest, holder: Home, other: Home)
    requires Synced(sha, holder, other)
    ensures Unpack(sha, Snapshot(holder), other).Ok?
    ensures var imported := Unpack(sha, Snapshot(holder), other).value;
            Alike(sha, imported.files, holder.files) && Synced(sha, imported, holder)
  {
    var pack := Snapshot(holder);
    var settled := Settled(sha, pack, other);
    forall n | n in pack
      ensures !Decide(sha, pack[n], Get(other.files, n)).Conflict?
      ensures n in settled && sha(settled[n]) == sha(holder.files[n])
    {
      SyncedDecision(sha, holder, other, n);
    }
    assert settled.Keys == holder.files.Keys;
  }

  /** Handing over never conflicts, under any hash, however often and whatever is edited between:
      each side's import leaves it with the holder's names, and the holder's hash under each. */
  lemma {:induction false} HandOverNeverConflicts(sha: Version -> Digest, holder: Home, other: Home,
                                                  rounds: seq<seq<(Name, nat)>>)
    requires Synced(sha, holder, other)
    ensures HandOver(sha, holder, other, rounds).Ok?
    ensures rounds != [] ==>
              var end := HandOver(sha, holder, other, rounds).value; Alike(sha, end.0.files, end.1.files)
    decreases |rounds|
  {
    if rounds != [] {
      var edited := EditAll(holder, rounds[0]);
      EditsKeepSynced(sha, holder, other, rounds[0]);
      SyncedImports(sha, edited, other);
      HandOverNeverConflicts(sha, Unpack(sha, Snapshot(edited), other).value, edited, rounds[1..]);
    }
  }

  /** Where the hash tells all versions apart, both homes end with the same files. */
  lemma HandOverCopies(sha: Version -> Digest, holder: Home, other: Home, rounds: seq<seq<(Name, nat)>>)
    requires Injective(sha) && Synced(sha, holder, other) && rounds != []
    ensures HandOver(sha, holder, other, rounds).Ok?
    ensures var end := HandOver(sha, holder, other, rounds).value; end.0.files == end.1.files
  {
    HandOverNeverConflicts(sha, holder, other, rounds);
  }

  /** A file the exporter left alone between two packs is never in the way of the second. */
  lemma UnchangedFileIsWelcome(sha: Version -> Digest, from: Home, to: Home, n: Name)
    requires n in from.files && Unpack(sha, Snapshot(from), to).Ok?
    ensures !Decide(sha, Snapshot(from)[n], Get(Unpack(sha, Snapshot(from), to).value.files, n)).Conflict?
  {
    assert !Decide(sha, Snapshot(from)[n], Get(to.files, n)).Conflict?;
  }

  /** Nor is any other file, whatever happens to one of them. */
  lemma OthersAreWelcome(sha: Version -> Digest, from: Home, to: Home, n: Name, edit: nat)
    requires n in from.files && Unpack(sha, Snapshot(from), to).Ok?
    ensures var imported := Unpack(sha, Snapshot(from), to).value;
            var pack := Snapshot(EditFile(from, n, edit));
            && n in imported.files && n in pack
            && (HasConflict(sha, pack, imported) <==> Decide(sha, pack[n], Get(imported.files, n)).Conflict?)
  {
    var imported := Unpack(sha, Snapshot(from), to).value;
    var pack := Snapshot(EditFile(from, n, edit));
    forall m | m in pack && m != n
      ensures !Decide(sha, pack[m], Get(imported.files, m)).Conflict?
    {
      assert pack[m] == Snapshot(from)[m];
      UnchangedFileIsWelcome(sha, from, to, m);
    }
    UnchangedFileIsWelcome(sha, from, to, n);
    assert !Decide(sha, Snapshot(from)[n], Get(to.files, n)).Conflict?;
  }

  /** A version past the one the base is from does not hash like the base. */
  lemma NotItsOwnBase(sha: Version -> Digest, d: Digest, v: Version, edit: nat)
    requires Injective(sha) && WentThrough(sha, ALL, d, v)
    ensures sha(v + [edit]) != d
  {
    var u :| u in ALL && u <= v && sha(u) == d;
    assert |v + [edit]| == |v| + 1;
  }

  /** A second pack the same way, with one more edit, is refused exactly when the copies hash
      differently and the exporter's record is the hash of neither: the exporter does not learn what
      the importer holds. */
  lemma SecondPushConflicts(sha: Version -> Digest, from: Home, to: Home, n: Name, edit: nat)
    requires n in from.files && Unpack(sha, Snapshot(from), to).Ok?
    ensures var imported := Unpack(sha, Snapshot(from), to).value;
            var again := EditFile(from, n, edit);
            && n in imported.files
            && (Unpack(sha, Snapshot(again), imported).Err? <==>
                  && sha(imported.files[n]) != sha(again.files[n])
                  && Get(from.base, n) != Some(sha(imported.files[n]))
                  && Get(from.base, n) != Some(sha(again.files[n])))
  {
    OthersAreWelcome(sha, from, to, n, edit);
  }

  /** After a first pack that was taken over, and a record that is honest, that is unless the exporter
      had not changed the file since its own last import. */
  lemma SecondPushAfterMove(sha: Version -> Digest, from: Home, to: Home, n: Name, edit: nat)
    requires Injective(sha) && n in from.files && Unpack(sha, Snapshot(from), to).Ok?
    requires Settled(sha, Snapshot(from), to)[n] == from.files[n]
    requires n in from.base ==> WentThrough(sha, ALL, from.base[n], from.files[n])
    ensures var imported := Unpack(sha, Snapshot(from), to).value;
            Unpack(sha, Snapshot(EditFile(from, n, edit)), imported).Err? <==> Get(from.base, n) != Some(sha(from.files[n]))
  {
    SecondPushConflicts(sha, from, to, n, edit);
    if n in from.base {
      NotItsOwnBase(sha, from.base[n], from.files[n], edit);
    }
    assert |from.files[n] + [edit]| == |from.files[n]| + 1;
  }
}
