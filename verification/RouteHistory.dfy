/** Each route's counters, and each provider's latest plan, as what its own calls and readings told. */
module RouteHistory {
  import opened Wrappers
  import opened PlanMeter
  import opened Budget

  /** The calls of one route. */
  function CallsOn(events: seq<Event>, r: Route): seq<Call> {
    if events == [] then []
    else
      var e := events[|events| - 1];
      CallsOn(events[..|events| - 1], r) + (if e.Recorded? && e.call.route == r then [e.call] else [])
  }

  /** The call came with neither a plan reading nor a cost. */
  predicate Silent(c: Call) {
    c.plan.None? && c.cost.None?
  }

  function TokensOf(calls: seq<Call>): Tokens {
    if calls == [] then NO_TOKENS else Plus(TokensOf(calls[..|calls| - 1]), Counted(calls[|calls| - 1]))
  }

  function Silently(calls: seq<Call>): seq<Call> {
    if calls == [] then []
    else
      var c := calls[|calls| - 1];
      Silently(calls[..|calls| - 1]) + (if Silent(c) then [c] else [])
  }

  function Reported(calls: seq<Call>): real {
    if calls == [] then 0.0
    else
      var c := calls[|calls| - 1];
      Reported(calls[..|calls| - 1]) + (if c.plan.None? && c.cost.Some? && c.cost.value > 0.0 then c.cost.value else 0.0)
  }

  /** The counters say how many calls there were, with how many tokens, how many of them told what they
      cost and what they told, and the tokens of those that did not. */
  ghost predicate Tells(u: Usage, calls: seq<Call>) {
    && u.calls == |calls| && u.tokens == TokensOf(calls)
    && u.reportedCalls == |calls| - |Silently(calls)| && u.unreported == TokensOf(Silently(calls))
    && u.reportedCost == Reported(calls)
    && (u.percentMetered <==> exists i :: 0 <= i < |calls| && calls[i].plan.Some?)
  }

  lemma TokensOneMore(calls: seq<Call>, c: Call)
    ensures TokensOf(calls + [c]) == Plus(TokensOf(calls), Counted(c))
  {
    assert (calls + [c])[..|calls|] == calls;
  }

  lemma SilentlyOneMore(calls: seq<Call>, c: Call)
    ensures Silently(calls + [c]) == Silently(calls) + if Silent(c) then [c] else []
    ensures Reported(calls + [c]) ==
            Reported(calls) + if c.plan.None? && c.cost.Some? && c.cost.value > 0.0 then c.cost.value else 0.0
  {
    assert (calls + [c])[..|calls|] == calls;
  }

  lemma PlanOneMore(calls: seq<Call>, c: Call)
    ensures (exists i :: 0 <= i < |calls + [c]| && (calls + [c])[i].plan.Some?)
            <==> (exists i :: 0 <= i < |calls| && calls[i].plan.Some?) || c.plan.Some?
  {
    var longer := calls + [c];
    assert longer[|calls|] == c;
    forall i | 0 <= i < |calls|
      ensures longer[i] == calls[i]
    {
    }
  }

  lemma CallTells(u: Usage, calls: seq<Call>, c: Call)
    requires Tells(u, calls)
    ensures Tells(AddCall(u, c), calls + [c])
  {
    assert Clamped(c.tokens) == Counted(c);
    TokensOneMore(calls, c);
    SilentlyOneMore(calls, c);
    PlanOneMore(calls, c);
    if Silent(c) {
      TokensOneMore(Silently(calls), c);
    } else {
      assert Silently(calls) + [] == Silently(calls);
    }
  }

  lemma RecordedRoutes(cfg: Config, l: Ledger, c: Call)
    ensures Record(cfg, l, c).perModel ==
            l.perModel[c.route := AddCall(if c.route in l.perModel then l.perModel[c.route] else NO_USAGE, c)]
  {
    if c.plan.Some? {
      var u := if c.route in l.perModel then l.perModel[c.route] else NO_USAGE;
      ReadingMovesCredits(l.(perModel := l.perModel[c.route := AddCall(u, c)]), c.route.provider, c.plan.value);
    }
  }

  /** A route is in the ledger exactly when it had a call, and its counters tell its calls. */
  lemma {:induction false} RoutesAreHistory(cfg: Config, events: seq<Event>, r: Route)
    ensures var l, calls := Replay(cfg, events), CallsOn(events, r);
            && (r in l.perModel <==> calls != [])
            && Tells(if r in l.perModel then l.perModel[r] else NO_USAGE, calls)
    decreases |events|
  {
    if events != [] {
      var before, e := events[..|events| - 1], events[|events| - 1];
      var l, calls := Replay(cfg, before), CallsOn(before, r);
      RoutesAreHistory(cfg, before, r);
      assert calls + [] == calls;
      match e
      case Recorded(c) =>
        RecordedRoutes(cfg, l, c);
        if c.route == r {
          CallTells(if r in l.perModel then l.perModel[r] else NO_USAGE, calls, c);
        }
      case Reading(p, plan) => ReadingMovesCredits(l, p, plan);
    }
  }

  /** The estimate misses something of a route exactly when that has no price and some call that told
      no cost, unless its calls are a plan's and neither cost nor used any tokens apart from it. */
  lemma GapIsHistory(cfg: Config, events: seq<Event>, r: Route)
    requires CallsOn(events, r) != []
    ensures r in Replay(cfg, events).perModel
    ensures var calls, cost := CallsOn(events, r), ModelCostUsd(cfg, r, Replay(cfg, events).perModel[r]);
            (cost.None? || cost.value.partial) <==>
              && r !in cfg.prices && Silently(calls) != []
              && !((exists i :: 0 <= i < |calls| && calls[i].plan.Some?)
                   && Reported(calls) == 0.0 && TokensOf(Silently(calls)) == NO_TOKENS)
  {
    RoutesAreHistory(cfg, events, r);
    SilentlyAreCalls(CallsOn(events, r));
  }

  lemma {:induction false} SilentlyAreCalls(calls: seq<Call>)
    ensures |Silently(calls)| <= |calls|
    ensures |Silently(calls)| == |calls| ==> forall i :: 0 <= i < |calls| ==> Silent(calls[i])
    decreases |calls|
  {
    if calls != [] {
      SilentlyAreCalls(calls[..|calls| - 1]);
    }
  }

  /** The plan each provider showed last. */
  function LatestPlans(events: seq<Event>): map<string, PlanUsage> {
    if events == [] then map[]
    else
      var r := ReadingOf(events[|events| - 1]);
      var before := LatestPlans(events[..|events| - 1]);
      if r.Some? then before[r.value.0 := r.value.1] else before
  }

  lemma ReadingMovesPlans(l: Ledger, provider: string, plan: PlanUsage)
    ensures NotePlanUsage(l, provider, plan).plans == l.plans[provider := plan]
  {
    NoteWindowsFrame(l, provider, plan.Windows());
  }

  lemma {:induction false} PlansAreLatest(cfg: Config, events: seq<Event>)
    ensures Replay(cfg, events).plans == LatestPlans(events)
    decreases |events|
  {
    if events != [] {
      var before := events[..|events| - 1];
      PlansAreLatest(cfg, before);
      match events[|events| - 1]
      case Recorded(c) => CallMovesPlans(cfg, Replay(cfg, before), c);
      case Reading(p, plan) => ReadingMovesPlans(Replay(cfg, before), p, plan);
    }
  }

  lemma CallMovesPlans(cfg: Config, l: Ledger, c: Call)
    ensures Record(cfg, l, c).plans == if c.plan.Some? then l.plans[c.route.provider := c.plan.value] else l.plans
  {
    if c.plan.Some? {
      var u := if c.route in l.perModel then l.perModel[c.route] else NO_USAGE;
      ReadingMovesPlans(l.(perModel := l.perModel[c.route := AddCall(u, c)]), c.route.provider, c.plan.value);
    }
  }
}
