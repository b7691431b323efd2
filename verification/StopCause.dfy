/** What stops a run, in terms of its calls and readings: a stop has a cause in the history, and a
    cause a stop.  Also what a price table's rates mean.
 */
module StopCause {
  import opened Wrappers
  import opened PlanMeter
  import opened Budget

  // ---- Prices ------------------------------------------------------------------------

  /** A million tokens of a kind cost that kind's rate; unlisted cache writes a quarter more than
      input, unlisted cache reads a tenth of it.  With `TableCostAdds` this is the whole table. */
  lemma MillionCostsRate(p: Price)
    ensures TableCost(p, Tokens(1_000_000, 0, 0, 0)) == p.input
    ensures TableCost(p, Tokens(0, 1_000_000, 0, 0)) == p.output
    ensures TableCost(p, Tokens(0, 0, 1_000_000, 0)) ==
            match p.cacheRead case Some(rate) => rate case None => p.input / 10.0
    ensures TableCost(p, Tokens(0, 0, 0, 1_000_000)) ==
            match p.cacheWrite case Some(rate) => rate case None => p.input + p.input / 4.0
  {
  }

  // ---- Causes ------------------------------------------------------------------------

  /** The reading shows a window used up, on a plan that would go on with credits that can run out. */
  ghost predicate Spends(plan: PlanUsage) {
    && plan.hasCredits && !plan.creditsUnlimited
    && (plan.limitReached || exists w :: w in plan.Windows() && w.usedPercent >= 100.0)
  }

  /** The call's cost is known: its own or by its route's price. */
  predicate Priced(cfg: Config, c: Call) {
    c.plan.None? && (c.cost.Some? || c.route in cfg.prices)
  }

  predicate Unpriced(cfg: Config, c: Call) {
    c.plan.None? && c.cost.None? && c.route !in cfg.prices
  }

  ghost function Consumption(events: seq<Event>, k: Key): real {
    NoteAll(UNREAD, ReadingsFor(events, k)).consumed
  }

  /** The last event of the history is a cause to stop for this reason. */
  ghost predicate Causes(cfg: Config, events: seq<Event>, reason: Stop)
    requires events != []
  {
    var e := events[|events| - 1];
    var r := ReadingOf(e);
    match reason
    case UsdSpent => cfg.maxUsd > 0.0 && CreditDrops(events) + CallCosts(cfg, events) >= cfg.maxUsd
    case FallbackSpent => cfg.maxTokensFallback > 0 && UnmeteredTokens(cfg, events) >= cfg.maxTokensFallback
    case PlanSpent => cfg.maxPlanPoints > 0.0 && exists k :: Consumption(events, k) >= cfg.maxPlanPoints
    case UsdRefused =>
      cfg.maxUsd == 0.0 && ((e.Recorded? && Priced(cfg, e.call)) || (r.Some? && Spends(r.value.1)))
    case FallbackRefused => cfg.maxTokensFallback == 0 && e.Recorded? && Unpriced(cfg, e.call)
    case PlanRefused => cfg.maxPlanPoints == 0.0 && r.Some?
    case CreditsRefused => !cfg.allowPlanOverage && r.Some? && Spends(r.value.1)
  }

  ghost predicate Caused(cfg: Config, events: seq<Event>, reason: Stop) {
    exists n: nat :: 0 < n <= |events| && Causes(cfg, events[..n], reason)
  }

  lemma SpendsIsWouldSpend(plan: PlanUsage)
    ensures Spends(plan) <==> plan.WouldSpendCredits()
  {
    var most := plan.Binding();
  }

  lemma ReachedIsConsumption(cfg: Config, events: seq<Event>)
    requires cfg.maxPlanPoints > 0.0
    ensures PlanReached(Replay(cfg, events).consumed, cfg.maxPlanPoints)
            <==> exists k :: Consumption(events, k) >= cfg.maxPlanPoints
  {
    var l := Replay(cfg, events);
    forall k
      ensures Consumption(events, k) == MeterOf(l.last, l.consumed, k).consumed
    {
      MeterIsFold(cfg, events, k);
    }
    if k :| k in l.consumed && l.consumed[k] >= cfg.maxPlanPoints {
      assert Consumption(events, k) >= cfg.maxPlanPoints;
    }
    if k :| Consumption(events, k) >= cfg.maxPlanPoints {
      assert k in l.consumed && l.consumed[k] >= cfg.maxPlanPoints;
    }
  }

  /** The ledger after an event but for its stop, which is still the one before. */
  ghost function Unchecked(cfg: Config, l: Ledger, e: Event): Ledger {
    match e
    case Recorded(c) => Count(cfg, l, c)
    case Reading(p, plan) => NotePlanUsage(l, p, plan)
  }

  lemma UncheckedKeepsStop(cfg: Config, l: Ledger, e: Event)
    ensures Unchecked(cfg, l, e).stop == l.stop
    ensures Happen(cfg, l, e) == Unchecked(cfg, l, e).(stop := Happen(cfg, l, e).stop)
  {
    match e
    case Recorded(c) => CountKeepsStop(cfg, l, c);
    case Reading(p, plan) => NoteWindowsFrame(l, p, plan.Windows());
  }

  /** The ledgers after the event are the history's. */
  lemma UncheckedIsHistory(cfg: Config, before: seq<Event>, e: Event)
    ensures var t, events := Unchecked(cfg, Replay(cfg, before), e), before + [e];
            && Estimate(cfg, t) == CreditDrops(events) + CallCosts(cfg, events)
            && t.unmetered == UnmeteredTokens(cfg, events)
            && t.consumed == Replay(cfg, events).consumed
  {
    var events := before + [e];
    assert events[..|events| - 1] == before && events[|events| - 1] == e;
    var l := Replay(cfg, before);
    UncheckedKeepsStop(cfg, l, e);
    LedgerIsHistory(cfg, events);
    assert Replay(cfg, events) == Happen(cfg, l, e);
    assert Estimate(cfg, Unchecked(cfg, l, e)) == Estimate(cfg, Happen(cfg, l, e));
  }

  /** The plan reading of the event, as the checks get it. */
  function PlanOf(e: Event): Option<PlanUsage> {
    match e
    case Recorded(c) => c.plan
    case Reading(_, plan) => Some(plan)
  }

  /** What the ceilings see after the event, in the history's terms. */
  lemma CeilingFacts(cfg: Config, before: seq<Event>, e: Event, l: Ledger)
    requires l == Unchecked(cfg, Replay(cfg, before), e).(stop := l.stop)
    ensures var events := before + [e];
            && events[|events| - 1] == e
            && Estimate(cfg, l) == CreditDrops(events) + CallCosts(cfg, events)
            && (cfg.maxPlanPoints > 0.0 ==>
                  (PlanReached(l.consumed, cfg.maxPlanPoints)
                   <==> exists k :: Consumption(events, k) >= cfg.maxPlanPoints))
  {
    UncheckedIsHistory(cfg, before, e);
    assert Estimate(cfg, l) == Estimate(cfg, Unchecked(cfg, Replay(cfg, before), e));
    if cfg.maxPlanPoints > 0.0 {
      ReachedIsConsumption(cfg, before + [e]);
    }
  }

  lemma PlanIsReading(e: Event)
    ensures PlanOf(e).Some? <==> ReadingOf(e).Some?
    ensures PlanOf(e).Some? ==> PlanOf(e).value == ReadingOf(e).value.1
    ensures PlanOf(e).Some? ==> (Spends(PlanOf(e).value) <==> PlanOf(e).value.WouldSpendCredits())
  {
    if PlanOf(e).Some? {
      SpendsIsWouldSpend(PlanOf(e).value);
    }
  }

  /** What the ceilings' chain answers, by reason. */
  ghost predicate Chosen(cfg: Config, l: Ledger, plan: Option<PlanUsage>, reason: Stop) {
    match reason
    case UsdSpent => cfg.maxUsd > 0.0 && Estimate(cfg, l) >= cfg.maxUsd
    case PlanSpent => cfg.maxPlanPoints > 0.0 && PlanReached(l.consumed, cfg.maxPlanPoints)
    case PlanRefused => cfg.maxPlanPoints == 0.0 && plan.Some?
    case CreditsRefused => !cfg.allowPlanOverage && plan.Some? && plan.value.WouldSpendCredits()
    case UsdRefused => cfg.maxUsd == 0.0 && plan.Some? && plan.value.WouldSpendCredits()
    case _ => false
  }

  lemma CeilingChooses(cfg: Config, l: Ledger, plan: Option<PlanUsage>)
    ensures var stop := CeilingStop(cfg, l, plan);
            stop == l.stop || (stop.Some? && Chosen(cfg, l, plan, stop.value))
    ensures CeilingStop(cfg, l, plan).None? ==> forall reason :: !Chosen(cfg, l, plan, reason)
  {
  }

  predicate AtCeiling(reason: Stop) {
    reason.UsdSpent? || reason.PlanSpent? || reason.PlanRefused? || reason.CreditsRefused?
  }

  lemma ChosenIsCause(cfg: Config, before: seq<Event>, e: Event, l: Ledger, reason: Stop)
    requires l == Unchecked(cfg, Replay(cfg, before), e).(stop := l.stop)
    ensures Chosen(cfg, l, PlanOf(e), reason) ==> Causes(cfg, before + [e], reason)
    ensures Causes(cfg, before + [e], reason) && (AtCeiling(reason) || (reason.UsdRefused? && PlanOf(e).Some?)) ==>
              Chosen(cfg, l, PlanOf(e), reason)
  {
    CeilingFacts(cfg, before, e, l);
    PlanIsReading(e);
  }

  /** The ceilings set no stop without a cause, and clear none. */
  lemma CeilingHasCause(cfg: Config, before: seq<Event>, e: Event, l: Ledger)
    requires l == Unchecked(cfg, Replay(cfg, before), e).(stop := l.stop)
    ensures var stop := CeilingStop(cfg, l, PlanOf(e));
            stop == l.stop || (stop.Some? && Causes(cfg, before + [e], stop.value))
  {
    CeilingChooses(cfg, l, PlanOf(e));
    var stop := CeilingStop(cfg, l, PlanOf(e));
    if stop.Some? {
      ChosenIsCause(cfg, before, e, l, stop.value);
    }
  }

  /** And miss no cause. */
  lemma CauseMeetsCeiling(cfg: Config, before: seq<Event>, e: Event, l: Ledger, reason: Stop)
    requires l == Unchecked(cfg, Replay(cfg, before), e).(stop := l.stop)
    requires Causes(cfg, before + [e], reason)
    requires AtCeiling(reason) || (reason.UsdRefused? && PlanOf(e).Some?)
    ensures CeilingStop(cfg, l, PlanOf(e)).Some?
  {
    CeilingChooses(cfg, l, PlanOf(e));
    ChosenIsCause(cfg, before, e, l, reason);
  }

  /** The same of the checks that only a call runs. */
  lemma FallbackHasCause(cfg: Config, before: seq<Event>, c: Call)
    ensures var l := Unchecked(cfg, Replay(cfg, before), Recorded(c));
            var stop := FallbackStop(cfg, l, c);
            stop == l.stop || (stop.Some? && Causes(cfg, before + [Recorded(c)], stop.value))
  {
    var events := before + [Recorded(c)];
    assert events[|events| - 1] == Recorded(c);
    UncheckedIsHistory(cfg, before, Recorded(c));
  }

  lemma CauseMeetsFallback(cfg: Config, before: seq<Event>, c: Call, reason: Stop)
    requires Causes(cfg, before + [Recorded(c)], reason)
    requires !AtCeiling(reason) && (reason.UsdRefused? ==> c.plan.None?)
    ensures FallbackStop(cfg, Unchecked(cfg, Replay(cfg, before), Recorded(c)), c).Some?
  {
    var events := before + [Recorded(c)];
    assert events[|events| - 1] == Recorded(c);
    UncheckedIsHistory(cfg, before, Recorded(c));
  }

  /** One event sets no stop without a cause. */
  lemma EventHasCause(cfg: Config, before: seq<Event>, e: Event)
    ensures var l, stop := Replay(cfg, before), Happen(cfg, Replay(cfg, before), e).stop;
            stop == l.stop || (stop.Some? && Causes(cfg, before + [e], stop.value))
  {
    var l := Replay(cfg, before);
    var u := Unchecked(cfg, l, e);
    UncheckedKeepsStop(cfg, l, e);
    match e
    case Recorded(c) =>
      FallbackHasCause(cfg, before, c);
      CeilingHasCause(cfg, before, e, u.(stop := FallbackStop(cfg, u, c)));
    case Reading(_, _) =>
      CeilingHasCause(cfg, before, e, u);
  }

  lemma CallCauseStops(cfg: Config, before: seq<Event>, c: Call, reason: Stop)
    requires Causes(cfg, before + [Recorded(c)], reason)
    ensures Happen(cfg, Replay(cfg, before), Recorded(c)).stop.Some?
  {
    var e := Recorded(c);
    var u := Unchecked(cfg, Replay(cfg, before), e);
    var checked := u.(stop := FallbackStop(cfg, u, c));
    if AtCeiling(reason) || (reason.UsdRefused? && c.plan.Some?) {
      CauseMeetsCeiling(cfg, before, e, checked, reason);
    } else {
      CauseMeetsFallback(cfg, before, c, reason);
    }
  }

  lemma CauseOfReading(cfg: Config, before: seq<Event>, provider: string, plan: PlanUsage, reason: Stop)
    requires Causes(cfg, before + [Reading(provider, plan)], reason)
    ensures AtCeiling(reason) || reason.UsdRefused? || reason.FallbackSpent?
  {
    assert (before + [Reading(provider, plan)])[|before|] == Reading(provider, plan);
  }

  /** And a cause stops at once; spent fallback tokens do so at the call that spent them. */
  lemma CauseStops(cfg: Config, before: seq<Event>, e: Event, reason: Stop)
    requires Causes(cfg, before + [e], reason) && (reason.FallbackSpent? ==> e.Recorded?)
    ensures Happen(cfg, Replay(cfg, before), e).stop.Some?
  {
    match e
    case Recorded(c) => CallCauseStops(cfg, before, c, reason);
    case Reading(provider, plan) =>
      CauseOfReading(cfg, before, provider, plan, reason);
      CauseMeetsCeiling(cfg, before, e, Unchecked(cfg, Replay(cfg, before), e), reason);
  }

  lemma CausedEarlier(cfg: Config, before: seq<Event>, e: Event, reason: Stop)
    requires Caused(cfg, before, reason)
    ensures Caused(cfg, before + [e], reason)
  {
    var n: nat :| 0 < n <= |before| && Causes(cfg, before[..n], reason);
    assert before[..n] == (before + [e])[..n];
  }

  lemma CausedNow(cfg: Config, events: seq<Event>, reason: Stop)
    requires events != [] && Causes(cfg, events, reason)
    ensures Caused(cfg, events, reason)
  {
    assert events[..|events|] == events;
  }

  lemma {:induction false} StopHasCause(cfg: Config, events: seq<Event>)
    ensures var stop := Replay(cfg, events).stop; stop.Some? ==> Caused(cfg, events, stop.value)
    decreases |events|
  {
    if events != [] {
      var before, e := events[..|events| - 1], events[|events| - 1];
      StopHasCause(cfg, before);
      EventHasCause(cfg, before, e);
      assert before + [e] == events;
      var stop := Replay(cfg, events).stop;
      if stop.Some? {
        if stop == Replay(cfg, before).stop {
          CausedEarlier(cfg, before, e, stop.value);
        } else {
          CausedNow(cfg, events, stop.value);
        }
      }
    }
  }

  lemma CausedStops(cfg: Config, events: seq<Event>, n: nat, reason: Stop)
    requires 0 < n <= |events| && Causes(cfg, events[..n], reason)
    ensures Replay(cfg, events).stop.Some?
  {
    var early := events[..n];
    var before, e := early[..n - 1], early[n - 1];
    assert before + [e] == early;
    if reason.FallbackSpent? {
      LedgerIsHistory(cfg, early);
      ReachedMeansStopped(cfg, early);
    } else {
      CauseStops(cfg, before, e, reason);
    }
    StopSticks(cfg, events, n);
  }

  /** A run is stopped exactly when something in its history was a cause to: a positive cap reached by
      credits and calls, by unmetered tokens or by some window's consumption; a call or a reading that a
      cap of 0 refuses; or a reading of a plan about to spend credits it may not. The reason given is
      such a cause. */
  lemma StopsExactlyCaused(cfg: Config, events: seq<Event>)
    ensures var stop := Replay(cfg, events).stop;
            && (stop.Some? <==> exists reason :: Caused(cfg, events, reason))
            && (stop.Some? ==> Caused(cfg, events, stop.value))
  {
    StopHasCause(cfg, events);
    if reason :| Caused(cfg, events, reason) {
      var n: nat :| 0 < n <= |events| && Causes(cfg, events[..n], reason);
      CausedStops(cfg, events, n, reason);
    }
  }
}
