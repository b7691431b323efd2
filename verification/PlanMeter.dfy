/** What one plan window's readings add up to: `_note_plan_usage` of `budget.py`, seen from a
    single (provider entry, window) key.  Percents and times are exact reals.
 */
module PlanMeter {
  import opened Wrappers

  /** A reset time that moves later by more than this is a new window. */
  const RESET_SLACK_S: real := 60.0

  datatype Window = Window(name: string, usedPercent: real, windowMinutes: int, resetsAt: real)

  /** The high-water reading, and the points this run consumed. */
  datatype Meter = Meter(last: Option<Window>, consumed: real)

  const UNREAD := Meter(None, 0.0)

  predicate Left(last: Window, w: Window) {
    last.resetsAt - w.resetsAt > RESET_SLACK_S
  }

  function Note(m: Meter, w: Window): Meter {
    if m.last.None? then Meter(Some(w), m.consumed)
    else
      var last := m.last.value;
      if Left(last, w) then m
      else if Left(w, last) then Meter(Some(w), m.consumed + w.usedPercent)
      else if w.usedPercent >= last.usedPercent then
        Meter(Some(w), m.consumed + (w.usedPercent - last.usedPercent))
      else m
  }

  function NoteAll(m: Meter, readings: seq<Window>): Meter {
    if readings == [] then m
    else Note(NoteAll(m, readings[..|readings| - 1]), readings[|readings| - 1])
  }

  lemma {:induction false} NoteAllAppend(m: Meter, a: seq<Window>, b: seq<Window>)
    ensures NoteAll(m, a + b) == NoteAll(NoteAll(m, a), b)
    decreases |b|
  {
    if b == [] {
      assert a + b == a;
    } else {
      assert (a + b)[..|a + b| - 1] == a + b[..|b| - 1];
      NoteAllAppend(m, a, b[..|b| - 1]);
    }
  }

  lemma NoteAllThen(m: Meter, readings: seq<Window>, w: Window)
    ensures NoteAll(m, readings + [w]) == Note(NoteAll(m, readings), w)
  {
    assert (readings + [w])[..|readings|] == readings;
  }

  /** One more reading between two stretches of others. */
  lemma NoteAllWith(readings: seq<Window>, i: nat, w: Window)
    requires i <= |readings|
    ensures NoteAll(UNREAD, readings[..i] + [w] + readings[i..]) ==
            NoteAll(Note(NoteAll(UNREAD, readings[..i]), w), readings[i..])
    ensures NoteAll(UNREAD, readings) == NoteAll(NoteAll(UNREAD, readings[..i]), readings[i..])
  {
    NoteAllThen(UNREAD, readings[..i], w);
    NoteAllAppend(UNREAD, readings[..i] + [w], readings[i..]);
    NoteAllAppend(UNREAD, readings[..i], readings[i..]);
    assert readings == readings[..i] + readings[i..];
  }

  /** What a second reading adds: its whole percent in a window that resets over a minute later; what
      it is higher within a minute; and nothing a minute and more before. */
  lemma SecondReadingCounts(a: Window, b: Window)
    ensures NoteAll(UNREAD, [a, b]).consumed ==
            if b.resetsAt > a.resetsAt + 60.0 then b.usedPercent
            else if b.resetsAt >= a.resetsAt - 60.0 && b.usedPercent > a.usedPercent then b.usedPercent - a.usedPercent
            else 0.0
  {
    NoteAllThen(UNREAD, [a], b);
    assert [a] + [b] == [a, b] && [a][..0] == [];
    assert NoteAll(UNREAD, [a]) == Note(NoteAll(UNREAD, []), a);
  }

  // ---- The meaning of the count ------------------------------------------------------

  /** Not from a window left before, and in the same window not lower. */
  predicate Ahead(last: Window, w: Window) {
    !Left(last, w) && (Left(w, last) || last.usedPercent <= w.usedPercent)
  }

  function Latest(accepted: seq<Window>): Window
    requires accepted != []
  {
    accepted[|accepted| - 1]
  }

  /** The readings in order, without those that are not ahead of the last one kept. */
  function Accepted(readings: seq<Window>): seq<Window> {
    if readings == [] then []
    else
      var before := Accepted(readings[..|readings| - 1]);
      var w := readings[|readings| - 1];
      if before == [] || Ahead(Latest(before), w) then before + [w] else before
  }

  /** The sum of the readings at which an epoch ends: the last one, and each one that the next
      reading's reset leaves behind. */
  function PeakSum(accepted: seq<Window>): real {
    if accepted == [] then 0.0
    else
      (if |accepted| == 1 || Left(accepted[1], accepted[0]) then accepted[0].usedPercent else 0.0)
      + PeakSum(accepted[1..])
  }

  /** In each epoch the percents rise, and no accepted reading is from a window already left. */
  predicate Rises(accepted: seq<Window>) {
    forall i :: 0 < i < |accepted| ==> Ahead(accepted[i - 1], accepted[i])
  }

  /** One more reading ends its epoch in place of the one before it, or opens an epoch of its own. */
  lemma {:induction false} PeakSumOneMore(accepted: seq<Window>, w: Window)
    requires accepted != []
    ensures PeakSum(accepted + [w]) == PeakSum(accepted) + w.usedPercent
              - (if Left(w, Latest(accepted)) then 0.0 else Latest(accepted).usedPercent)
    decreases |accepted|
  {
    var longer := accepted + [w];
    assert longer[1..] == accepted[1..] + [w];
    if |accepted| == 1 {
      assert accepted[1..] == [] && [w][1..] == [];
      assert PeakSum([w]) == w.usedPercent;
    } else {
      PeakSumOneMore(accepted[1..], w);
    }
  }

  /** The first reading is the baseline; beyond it the run consumed the sum over the reset epochs
      of each epoch's last accepted percent. */
  lemma {:induction false} ConsumedIsEpochPeaks(readings: seq<Window>)
    requires readings != []
    ensures var accepted := Accepted(readings);
            && accepted != [] && accepted[0] == readings[0] && Rises(accepted)
            && NoteAll(UNREAD, readings).last == Some(Latest(accepted))
            && NoteAll(UNREAD, readings).consumed + readings[0].usedPercent == PeakSum(accepted)
    decreases |readings|
  {
    var before := readings[..|readings| - 1];
    var w := readings[|readings| - 1];
    if before == [] {
      assert NoteAll(UNREAD, before) == UNREAD;
      assert Accepted(readings) == [w] && [w][1..] == [];
      assert PeakSum([w]) == w.usedPercent;
    } else {
      ConsumedIsEpochPeaks(before);
      AcceptOne(NoteAll(UNREAD, before), Accepted(before), w);
    }
  }

  lemma AcceptOne(m: Meter, accepted: seq<Window>, w: Window)
    requires accepted != [] && Rises(accepted) && m.last == Some(Latest(accepted))
    requires m.consumed + accepted[0].usedPercent == PeakSum(accepted)
    ensures var t := Note(m, w);
            var extended := if Ahead(Latest(accepted), w) then accepted + [w] else accepted;
            && Rises(extended) && t.last == Some(Latest(extended))
            && t.consumed + accepted[0].usedPercent == PeakSum(extended)
  {
    PeakSumOneMore(accepted, w);
  }

  lemma ConsumptionNeverFalls(m: Meter, w: Window)
    requires w.usedPercent >= 0.0
    ensures Note(m, w).consumed >= m.consumed
  {
  }

  // ---- Stale and repeated readings ---------------------------------------------------

  /** A reading from a window already left, a lower one of the same window, or the high-water
      reading again. */
  predicate OutOfOrder(last: Window, w: Window) {
    Left(last, w) || (!Left(w, last) && (w.usedPercent < last.usedPercent || w == last))
  }

  lemma OutOfOrderIsExact(m: Meter, w: Window)
    ensures Note(m, w) == m <==> m.last.Some? && OutOfOrder(m.last.value, w)
  {
  }

  /** Such a reading, behind the last one accepted before it, counts nothing wherever it is
      delivered. */
  lemma StaleReadingCountsNothing(readings: seq<Window>, i: nat, w: Window)
    requires i <= |readings|
    requires var accepted := Accepted(readings[..i]); accepted != [] && OutOfOrder(Latest(accepted), w)
    ensures NoteAll(UNREAD, readings[..i] + [w] + readings[i..]) == NoteAll(UNREAD, readings)
  {
    ConsumedIsEpochPeaks(readings[..i]);
    OutOfOrderIsExact(NoteAll(UNREAD, readings[..i]), w);
    NoteAllWith(readings, i, w);
  }

  // ---- Late readings and the clock ---------------------------------------------------

  /** Reset times within the slack of each other: one window's, up to jitter. */
  predicate Close(x: real, y: real) {
    x - y <= RESET_SLACK_S && y - x <= RESET_SLACK_S
  }

  predicate Near(v: Window, w: Window) {
    Close(v.resetsAt, w.resetsAt)
  }

  /** The times fall into windows: jitter within the slack, windows further apart. */
  ghost predicate Clean(times: iset<real>) {
    forall x, y, z {:trigger Close(x, y), Close(y, z)} ::
      x in times && y in times && z in times && Close(x, y) && Close(y, z) ==> Close(x, z)
  }

  ghost predicate Over(readings: seq<Window>, times: iset<real>) {
    forall w :: w in readings ==> w.resetsAt in times
  }

  /** What another seat read before `v` was reported: a window `v` has left, or no more of its
      window. */
  predicate Behind(v: Window, w: Window) {
    Left(v, w) || (Near(v, w) && w.usedPercent <= v.usedPercent)
  }

  /** Two times of one window stand on the same side of any third. */
  lemma ClustersAgree(times: iset<real>, x: real, y: real, z: real)
    requires Clean(times) && x in times && y in times && z in times && Close(x, y)
    ensures x - z > RESET_SLACK_S <==> y - z > RESET_SLACK_S
    ensures z - x > RESET_SLACK_S <==> z - y > RESET_SLACK_S
  {
    assert Close(y, x);
    assert Close(x, z) ==> Close(y, z);
    assert Close(y, z) ==> Close(x, z);
  }

  lemma BehindIsTransitive(times: iset<real>, u: Window, v: Window, w: Window)
    requires Clean(times) && u.resetsAt in times && v.resetsAt in times && w.resetsAt in times
    requires Behind(u, v) && Behind(v, w)
    ensures Behind(u, w)
  {
    if Near(u, v) {
      ClustersAgree(times, u.resetsAt, v.resetsAt, w.resetsAt);
    } else if Near(v, w) {
      ClustersAgree(times, v.resetsAt, w.resetsAt, u.resetsAt);
    }
  }

  /** On a clean clock the meter stands at a reading that every other one is behind. */
  ghost predicate HighWater(m: Meter, seen: seq<Window>) {
    if seen == [] then m == UNREAD
    else m.last.Some? && m.last.value in seen && forall v :: v in seen ==> Behind(m.last.value, v)
  }

  lemma NoteKeepsHighWater(times: iset<real>, m: Meter, seen: seq<Window>, w: Window)
    requires Clean(times) && Over(seen + [w], times) && HighWater(m, seen)
    ensures HighWater(Note(m, w), seen + [w])
  {
    assert w in seen + [w];
    if seen != [] {
      var last, next := m.last.value, Note(m, w).last.value;
      assert last in seen + [w];
      forall v | v in seen + [w]
        ensures Behind(next, v)
      {
        if v in seen && next != last {
          BehindIsTransitive(times, next, last, v);
        }
      }
    }
  }

  lemma {:induction false} MeterIsAtHighWater(times: iset<real>, readings: seq<Window>)
    requires Clean(times) && Over(readings, times)
    ensures HighWater(NoteAll(UNREAD, readings), readings)
    decreases |readings|
  {
    if readings != [] {
      var before, w := readings[..|readings| - 1], readings[|readings| - 1];
      assert before + [w] == readings;
      MeterIsAtHighWater(times, before);
      NoteKeepsHighWater(times, NoteAll(UNREAD, before), before, w);
    }
  }

  /** Meters that differ at most in the jitter of their high-water reading. */
  predicate Similar(a: Meter, b: Meter) {
    && a.last.Some? && b.last.Some? && a.consumed == b.consumed
    && a.last.value.usedPercent == b.last.value.usedPercent && Near(a.last.value, b.last.value)
  }

  ghost predicate StandsIn(m: Meter, times: iset<real>) {
    m.last.Some? ==> m.last.value.resetsAt in times
  }

  lemma NoteKeepsSimilar(times: iset<real>, a: Meter, b: Meter, w: Window)
    requires Clean(times) && StandsIn(a, times) && StandsIn(b, times) && w.resetsAt in times && Similar(a, b)
    ensures Similar(Note(a, w), Note(b, w)) && StandsIn(Note(a, w), times) && StandsIn(Note(b, w), times)
  {
    ClustersAgree(times, a.last.value.resetsAt, b.last.value.resetsAt, w.resetsAt);
  }

  lemma {:induction false} NotesKeepSimilar(times: iset<real>, a: Meter, b: Meter, readings: seq<Window>)
    requires Clean(times) && StandsIn(a, times) && StandsIn(b, times) && Over(readings, times) && Similar(a, b)
    ensures var c, d := NoteAll(a, readings), NoteAll(b, readings);
            Similar(c, d) && StandsIn(c, times) && StandsIn(d, times)
    decreases |readings|
  {
    if readings != [] {
      var before := readings[..|readings| - 1];
      NotesKeepSimilar(times, a, b, before);
      NoteKeepsSimilar(times, NoteAll(a, before), NoteAll(b, before), readings[|readings| - 1]);
    }
  }

  /** On a clean clock a reading that comes late, behind some earlier one, counts nothing at any
      point of any run. */
  lemma LateReadingCountsNothing(times: iset<real>, readings: seq<Window>, j: nat, i: nat, w: Window)
    requires Clean(times) && Over(readings, times) && w.resetsAt in times
    requires j < i <= |readings| && Behind(readings[j], w)
    ensures NoteAll(UNREAD, readings[..i] + [w] + readings[i..]).consumed == NoteAll(UNREAD, readings).consumed
  {
    var seen, m := readings[..i], NoteAll(UNREAD, readings[..i]);
    assert seen[j] == readings[j] && readings[j] in seen;
    assert Over(seen, times) && Over(readings[i..], times);
    MeterIsAtHighWater(times, seen);
    BehindIsTransitive(times, m.last.value, readings[j], w);
    assert Similar(Note(m, w), m);
    NotesKeepSimilar(times, Note(m, w), m, readings[i..]);
    NoteAllWith(readings, i, w);
  }

  /** In particular any earlier reading may be delivered again. */
  lemma RedeliveryCountsNothing(times: iset<real>, readings: seq<Window>, j: nat, i: nat)
    requires Clean(times) && Over(readings, times) && j < i <= |readings|
    ensures NoteAll(UNREAD, readings[..i] + [readings[j]] + readings[i..]).consumed ==
            NoteAll(UNREAD, readings).consumed
  {
    LateReadingCountsNothing(times, readings, j, i, readings[j]);
  }

  /** Three readings of one window whose reset times jitter from `a` over `b` to `c`. */
  function Jittered(a: real, b: real, c: real): seq<Window> {
    [Window("primary", 5.0, 300, a), Window("primary", 5.0, 300, b), Window("primary", 1.0, 300, c)]
  }

  /** With jitter wider than the slack the first of them, delivered again before the last, moves
      the reset time back, so that the last reads as a reset and counts whole. */
  lemma JitterCountsTwice(a: real, b: real, c: real)
    requires a <= b <= c && Close(a, b) && Close(b, c) && !Close(a, c)
    ensures var r := Jittered(a, b, c);
            && NoteAll(UNREAD, r).consumed == 0.0
            && NoteAll(UNREAD, r[..2] + [r[0]] + r[2..]).consumed == 1.0
  {
    var r, none := Jittered(a, b, c), Jittered(a, b, c)[..0];
    assert r[..1] == none + [r[0]] && r[..2] == r[..1] + [r[1]];
    assert r[2..] == [r[2]];
    NoteAllThen(UNREAD, none, r[0]);
    NoteAllThen(UNREAD, r[..1], r[1]);
    NoteAllWith(r, 2, r[0]);
    NoteAllThen(NoteAll(UNREAD, r[..2]), none, r[2]);
    NoteAllThen(Note(NoteAll(UNREAD, r[..2]), r[0]), none, r[2]);
    assert none + [r[2]] == r[2..];
  }

  /** Delivering any earlier reading again changes no count, whatever is read at these times. */
  ghost predicate RedeliveryIsFree(times: iset<real>) {
    forall readings, j: nat, i: nat {:trigger readings[j], readings[..i]} ::
      Over(readings, times) && j < i <= |readings| ==>
      NoteAll(UNREAD, readings[..i] + [readings[j]] + readings[i..]).consumed == NoteAll(UNREAD, readings).consumed
  }

  /** No late reading changes a count, whatever is read at these times. */
  ghost predicate LatenessIsFree(times: iset<real>) {
    forall readings, j: nat, i: nat, w: Window {:trigger Behind(readings[j], w), readings[..i]} ::
      Over(readings, times) && w.resetsAt in times && j < i <= |readings| && Behind(readings[j], w) ==>
      NoteAll(UNREAD, readings[..i] + [w] + readings[i..]).consumed == NoteAll(UNREAD, readings).consumed
  }

  /** Where the times do not fall into windows, some redelivery counts. */
  lemma UncleanClockCounts(times: iset<real>, x: real, y: real, z: real)
    requires x in times && y in times && z in times && Close(x, y) && Close(y, z) && !Close(x, z)
    ensures !RedeliveryIsFree(times)
  {
    var a, c := if x < z then x else z, if x < z then z else x;
    var r := Jittered(a, y, c);
    JitterCountsTwice(a, y, c);
    assert Over(r, times);
    assert r[..2] + [r[0]] + r[2..] == r[..2] + [r[0]] + r[2..];
  }

  /** The promise, late readings as a whole or redelivered ones alone, is kept exactly by the
      clocks whose times fall into windows. */
  lemma CleanClocksAreExact(times: iset<real>)
    ensures LatenessIsFree(times) <==> Clean(times)
    ensures RedeliveryIsFree(times) <==> Clean(times)
  {
    if Clean(times) {
      forall readings, j: nat, i: nat, w: Window |
        Over(readings, times) && w.resetsAt in times && j < i <= |readings| && Behind(readings[j], w)
        ensures NoteAll(UNREAD, readings[..i] + [w] + readings[i..]).consumed == NoteAll(UNREAD, readings).consumed
      {
        LateReadingCountsNothing(times, readings, j, i, w);
      }
    }
    LatenessCoversRedelivery(times);
    if !Clean(times) {
      var x, y, z :| x in times && y in times && z in times && Close(x, y) && Close(y, z) && !Close(x, z);
      UncleanClockCounts(times, x, y, z);
    }
  }

  lemma LatenessCoversRedelivery(times: iset<real>)
    ensures LatenessIsFree(times) ==> RedeliveryIsFree(times)
  {
    if LatenessIsFree(times) {
      forall readings, j: nat, i: nat | Over(readings, times) && j < i <= |readings|
        ensures NoteAll(UNREAD, readings[..i] + [readings[j]] + readings[i..]).consumed == NoteAll(UNREAD, readings).consumed
      {
        assert Behind(readings[j], readings[j]);
      }
    }
  }

  // ---- One window, any order ---------------------------------------------------------

  function Peak(readings: seq<Window>): (peak: real)
    requires readings != []
    ensures forall w :: w in readings ==> w.usedPercent <= peak
    ensures exists w :: w in readings && w.usedPercent == peak
  {
    var last := readings[|readings| - 1].usedPercent;
    if |readings| == 1 then last
    else
      var rest := Peak(readings[..|readings| - 1]);
      assert readings == readings[..|readings| - 1] + [readings[|readings| - 1]];
      if rest > last then rest else last
  }

  /** Within one window, whatever the order, the run consumed the peak beyond the baseline. */
  lemma {:induction false} OneWindowIsPeak(readings: seq<Window>)
    requires readings != []
    requires forall v, w :: v in readings && w in readings ==> Near(v, w)
    ensures var m := NoteAll(UNREAD, readings);
            && m.last.Some? && m.last.value in readings
            && m.last.value.usedPercent == Peak(readings)
            && m.consumed == Peak(readings) - readings[0].usedPercent
    decreases |readings|
  {
    var before := readings[..|readings| - 1];
    if before == [] {
      assert NoteAll(UNREAD, before) == UNREAD;
    } else {
      assert forall v :: v in before ==> v in readings;
      OneWindowIsPeak(before);
      var m := NoteAll(UNREAD, before);
      assert Near(m.last.value, readings[|readings| - 1]);
    }
  }

  lemma OneWindowAnyOrder(baseline: Window, later: seq<Window>, other: seq<Window>)
    requires multiset(later) == multiset(other)
    requires forall v, w :: v in [baseline] + later && w in [baseline] + later ==> Near(v, w)
    ensures NoteAll(UNREAD, [baseline] + later).consumed == NoteAll(UNREAD, [baseline] + other).consumed
  {
    assert forall w :: w in later <==> w in multiset(later);
    assert forall w :: w in other <==> w in multiset(other);
    assert forall w :: w in [baseline] + later <==> w in [baseline] + other;
    OneWindowIsPeak([baseline] + later);
    OneWindowIsPeak([baseline] + other);
  }
}
