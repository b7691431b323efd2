/** The spend meter of `budget.py`: every provider response is recorded, every call is bounded
    in one currency, and a ledger at its cap stops the next call.  Dollars are exact reals, the
    price table is fixed, and the stop reason is which rule stopped the run, not its wording.
 */
module Budget {
  import opened Wrappers
  import opened PlanMeter

  datatype Route = Route(provider: string, model: string)

  /** One call's tokens; a gateway may report negative ones. */
  datatype Tokens = Tokens(input: int, output: int, cacheRead: int, cacheWrite: int)

  const NO_TOKENS := Tokens(0, 0, 0, 0)

  function Plus(a: Tokens, b: Tokens): Tokens {
    Tokens(a.input + b.input, a.output + b.output, a.cacheRead + b.cacheRead, a.cacheWrite + b.cacheWrite)
  }

  function Max(a: int, b: int): int {
    if a > b then a else b
  }

  function Clamped(t: Tokens): Tokens {
    Tokens(Max(t.input, 0), Max(t.output, 0), Max(t.cacheRead, 0), Max(t.cacheWrite, 0))
  }

  datatype Price = Price(input: real, output: real, cacheRead: Option<real>, cacheWrite: Option<real>)

  /** A plan reading; the primary window always comes. `creditsUsd` is the parsed balance. */
  datatype PlanUsage = PlanUsage(
    primary: Window, others: seq<Window>,
    hasCredits: bool, creditsUnlimited: bool, creditsUsd: Option<real>, limitReached: bool)
  {
    function Windows(): seq<Window> {
      [primary] + others
    }

    /** The window closest to its cap. */
    function Binding(): (w: Window)
      ensures w in Windows()
      ensures forall v :: v in Windows() ==> v.usedPercent <= w.usedPercent
    {
      Highest(Windows())
    }

    predicate WindowExhausted() {
      limitReached || Binding().usedPercent >= 100.0
    }

    predicate WouldSpendCredits() {
      hasCredits && !creditsUnlimited && WindowExhausted()
    }
  }

  function Highest(windows: seq<Window>): (w: Window)
    requires windows != []
    ensures w in windows
    ensures forall v :: v in windows ==> v.usedPercent <= w.usedPercent
  {
    if |windows| == 1 then windows[0]
    else
      var rest := Highest(windows[1..]);
      if rest.usedPercent > windows[0].usedPercent then rest else windows[0]
  }

  /** One provider response. */
  datatype Call = Call(route: Route, tokens: Tokens, cost: Option<real>, plan: Option<PlanUsage>)

  /** One route's totals. */
  datatype Usage = Usage(
    tokens: Tokens, calls: nat, reportedCost: real, reportedCalls: nat, unreported: Tokens, percentMetered: bool)

  const NO_USAGE := Usage(NO_TOKENS, 0, 0.0, 0, NO_TOKENS, false)

  /** Caps are -1 for unlimited, 0 to refuse, positive for the cap. */
  datatype Config = Config(
    maxUsd: real, maxTokensFallback: int, maxPlanPoints: real, allowPlanOverage: bool, prices: map<Route, Price>)

  datatype Stop = UsdRefused | FallbackRefused | FallbackSpent | CreditsRefused | PlanRefused | PlanSpent | UsdSpent

  type Key = (string, string)

  /** The tracker's whole state. */
  datatype Ledger = Ledger(
    perModel: map<Route, Usage>, totals: Tokens, unmetered: int, stop: Option<Stop>,
    last: map<Key, Window>, consumed: map<Key, real>,
    creditsLast: map<string, real>, creditsSpent: real, plans: map<string, PlanUsage>)

  const FRESH := Ledger(map[], NO_TOKENS, 0, None, map[], map[], map[], 0.0, map[])

  // ---- Prices ------------------------------------------------------------------------

  function Amount(tokens: int, rate: real): real {
    tokens as real * rate / 1000000.0
  }

  /** Table price of some tokens; unlisted cache rates are multiples of the input rate. */
  function TableCost(p: Price, t: Tokens): real {
    var write := if p.cacheWrite.Some? then p.cacheWrite.value else p.input * 1.25;
    var read := if p.cacheRead.Some? then p.cacheRead.value else p.input * 0.1;
    Amount(t.input, p.input) + Amount(t.cacheWrite, write) + Amount(t.cacheRead, read) + Amount(t.output, p.output)
  }

  predicate BilledApartFromPlan(u: Usage) {
    u.reportedCost != 0.0 || u.unreported != NO_TOKENS
  }

  /** A route's cost, None when it has no price and reported nothing; `partial` when some of
      its calls were priced by neither. */
  datatype ModelCost = ModelCost(usd: real, partial: bool)

  function ModelCostUsd(cfg: Config, r: Route, u: Usage): Option<ModelCost> {
    if u.percentMetered && !BilledApartFromPlan(u) then Some(ModelCost(0.0, false))
    else if r !in cfg.prices then
      if u.reportedCalls > 0 then Some(ModelCost(u.reportedCost, u.reportedCalls < u.calls)) else None
    else Some(ModelCost(u.reportedCost + TableCost(cfg.prices[r], u.unreported), false))
  }

  function CostOf(cfg: Config, r: Route, u: Usage): real {
    match ModelCostUsd(cfg, r, u) case Some(c) => c.usd case None => 0.0
  }

  ghost function SumCosts(cfg: Config, perModel: map<Route, Usage>): real
    decreases |perModel|
  {
    if perModel == map[] then 0.0
    else
      var r :| r in perModel;
      CostOf(cfg, r, perModel[r]) + SumCosts(cfg, perModel - {r})
  }

  lemma {:induction false} SumCostsWithout(cfg: Config, m: map<Route, Usage>, r: Route)
    requires r in m
    ensures SumCosts(cfg, m) == CostOf(cfg, r, m[r]) + SumCosts(cfg, m - {r})
    decreases |m|
  {
    var q :| q in m && SumCosts(cfg, m) == CostOf(cfg, q, m[q]) + SumCosts(cfg, m - {q});
    if q != r {
      SumCostsWithout(cfg, m - {q}, r);
      SumCostsWithout(cfg, m - {r}, q);
      assert m - {q} - {r} == m - {r} - {q};
    }
  }

  ghost function Estimate(cfg: Config, l: Ledger): real {
    l.creditsSpent + SumCosts(cfg, l.perModel)
  }

  // ---- The updates -------------------------------------------------------------------

  /** The call carries a plan reading or a cost, or its route is priced. */
  predicate Metered(cfg: Config, c: Call) {
    c.plan.Some? || c.cost.Some? || c.route in cfg.prices
  }

  function AddCall(u: Usage, c: Call): Usage {
    var t := Clamped(c.tokens);
    var v := u.(tokens := Plus(u.tokens, t), calls := u.calls + 1);
    if c.plan.Some? then v.(reportedCalls := u.reportedCalls + 1, percentMetered := true)
    else if c.cost.Some? then
      v.(reportedCost := u.reportedCost + (if c.cost.value > 0.0 then c.cost.value else 0.0),
         reportedCalls := u.reportedCalls + 1)
    else v.(unreported := Plus(u.unreported, t))
  }

  function MeterOf(last: map<Key, Window>, consumed: map<Key, real>, k: Key): Meter {
    Meter(if k in last then Some(last[k]) else None, if k in consumed then consumed[k] else 0.0)
  }

  /** One window's reading folded into its meter; the counter appears with the first rise. */
  function NoteWindow(l: Ledger, k: Key, w: Window): Ledger {
    var before := MeterOf(l.last, l.consumed, k);
    var after := Note(before, w);
    if k !in l.last then l.(last := l.last[k := w])
    else if after.last == Some(w) then
      l.(last := l.last[k := w], consumed := l.consumed[k := after.consumed])
    else l
  }

  function NoteWindows(l: Ledger, provider: string, windows: seq<Window>): Ledger {
    if windows == [] then l
    else
      var w := windows[|windows| - 1];
      NoteWindow(NoteWindows(l, provider, windows[..|windows| - 1]), (provider, w.name), w)
  }

  function NoteCredits(l: Ledger, provider: string, balance: Option<real>): Ledger {
    if balance.None? then l
    else
      var fell := provider in l.creditsLast && balance.value < l.creditsLast[provider];
      l.(creditsSpent := l.creditsSpent + (if fell then l.creditsLast[provider] - balance.value else 0.0),
         creditsLast := l.creditsLast[provider := balance.value])
  }

  function NotePlanUsage(l: Ledger, provider: string, plan: PlanUsage): Ledger {
    var noted := NoteCredits(NoteWindows(l, provider, plan.Windows()), provider, plan.creditsUsd);
    noted.(plans := noted.plans[provider := plan])
  }

  /** Some window's consumption reached the points. */
  predicate PlanReached(consumed: map<Key, real>, points: real) {
    exists k :: k in consumed && consumed[k] >= points
  }

  /** The chain of checks after every update: the reason the ledger stands stopped for. */
  ghost function CeilingStop(cfg: Config, l: Ledger, plan: Option<PlanUsage>): Option<Stop> {
    var spendsCredits := plan.Some? && plan.value.WouldSpendCredits();
    if spendsCredits && !cfg.allowPlanOverage then Some(CreditsRefused)
    else if spendsCredits && cfg.maxUsd == 0.0 then Some(UsdRefused)
    else if plan.Some? && cfg.maxPlanPoints == 0.0 then Some(PlanRefused)
    else if cfg.maxPlanPoints > 0.0 && PlanReached(l.consumed, cfg.maxPlanPoints) then Some(PlanSpent)
    else if cfg.maxUsd > 0.0 && Estimate(cfg, l) >= cfg.maxUsd then Some(UsdSpent)
    else l.stop
  }

  /** The totals of a call, before any check. */
  function Count(cfg: Config, l: Ledger, c: Call): Ledger {
    var t := Clamped(c.tokens);
    var u := if c.route in l.perModel then l.perModel[c.route] else NO_USAGE;
    var added := l.(perModel := l.perModel[c.route := AddCall(u, c)]);
    var noted := if c.plan.Some? then NotePlanUsage(added, c.route.provider, c.plan.value) else added;
    noted.(totals := Plus(l.totals, t),
           unmetered := l.unmetered + (if Metered(cfg, c) then 0 else t.input + t.output))
  }

  /** The refusals and the fallback cap, checked before the ceilings. */
  function FallbackStop(cfg: Config, l: Ledger, c: Call): Option<Stop> {
    if !Metered(cfg, c) && cfg.maxTokensFallback == 0 then Some(FallbackRefused)
    else if cfg.maxTokensFallback > 0 && l.unmetered >= cfg.maxTokensFallback then Some(FallbackSpent)
    else if c.plan.None? && Metered(cfg, c) && cfg.maxUsd == 0.0 then Some(UsdRefused)
    else l.stop
  }

  ghost function Record(cfg: Config, l: Ledger, c: Call): Ledger {
    var counted := Count(cfg, l, c);
    var checked := counted.(stop := FallbackStop(cfg, counted, c));
    checked.(stop := CeilingStop(cfg, checked, c.plan))
  }

  /** A reading outside a call: the preflight's, or one of `settle`. */
  ghost function Read(cfg: Config, l: Ledger, provider: string, plan: PlanUsage): Ledger {
    var noted := NotePlanUsage(l, provider, plan);
    noted.(stop := CeilingStop(cfg, noted, Some(plan)))
  }

  /** Anything that ever updates a tracker; threads interleave whole events. */
  datatype Event = Recorded(call: Call) | Reading(provider: string, plan: PlanUsage)

  ghost function Happen(cfg: Config, l: Ledger, e: Event): Ledger {
    match e
    case Recorded(c) => Record(cfg, l, c)
    case Reading(p, plan) => Read(cfg, l, p, plan)
  }

  ghost function Replay(cfg: Config, events: seq<Event>): Ledger {
    if events == [] then FRESH
    else Happen(cfg, Replay(cfg, events[..|events| - 1]), events[|events| - 1])
  }

  // ---- The ledger refines the call history -------------------------------------------

  /** A call's tokens, negative ones as none. */
  function Counted(c: Call): Tokens {
    var t := c.tokens;
    Tokens(if t.input < 0 then 0 else t.input, if t.output < 0 then 0 else t.output,
           if t.cacheRead < 0 then 0 else t.cacheRead, if t.cacheWrite < 0 then 0 else t.cacheWrite)
  }

  /** What one call cost by itself. */
  function CallCost(cfg: Config, c: Call): real {
    if c.plan.Some? then 0.0
    else if c.cost.Some? then if c.cost.value > 0.0 then c.cost.value else 0.0
    else if c.route in cfg.prices then TableCost(cfg.prices[c.route], Counted(c))
    else 0.0
  }

  function CallCosts(cfg: Config, events: seq<Event>): real {
    if events == [] then 0.0
    else
      var e := events[|events| - 1];
      CallCosts(cfg, events[..|events| - 1]) + (if e.Recorded? then CallCost(cfg, e.call) else 0.0)
  }

  function UnmeteredTokens(cfg: Config, events: seq<Event>): int {
    if events == [] then 0
    else
      var e := events[|events| - 1];
      UnmeteredTokens(cfg, events[..|events| - 1])
      + (if e.Recorded? && !Metered(cfg, e.call) then Max(e.call.tokens.input, 0) + Max(e.call.tokens.output, 0)
         else 0)
  }

  /** The plan reading an event carries, with its provider entry. */
  function ReadingOf(e: Event): Option<(string, PlanUsage)> {
    match e
    case Recorded(c) => if c.plan.Some? then Some((c.route.provider, c.plan.value)) else None
    case Reading(p, plan) => Some((p, plan))
  }

  /** The balance each provider last showed. */
  function Balances(events: seq<Event>): map<string, real> {
    if events == [] then map[]
    else
      var r := ReadingOf(events[|events| - 1]);
      var before := Balances(events[..|events| - 1]);
      if r.Some? && r.value.1.creditsUsd.Some? then before[r.value.0 := r.value.1.creditsUsd.value] else before
  }

  /** Every fall of a balance below the one its provider showed before. */
  function CreditDrops(events: seq<Event>): real {
    if events == [] then 0.0
    else
      var before := events[..|events| - 1];
      var r := ReadingOf(events[|events| - 1]);
      CreditDrops(before)
      + (if r.Some? then Drop(Balances(before), r.value.0, r.value.1.creditsUsd) else 0.0)
  }

  function Drop(balances: map<string, real>, provider: string, balance: Option<real>): real {
    if provider in balances && balance.Some? && balance.value < balances[provider] then
      balances[provider] - balance.value
    else 0.0
  }

  lemma AmountAdds(a: int, b: int, rate: real)
    ensures Amount(a + b, rate) == Amount(a, rate) + Amount(b, rate)
  {
    assert (a + b) as real * rate == a as real * rate + b as real * rate;
  }

  lemma TableCostAdds(p: Price, a: Tokens, b: Tokens)
    ensures TableCost(p, Plus(a, b)) == TableCost(p, a) + TableCost(p, b)
    ensures TableCost(p, NO_TOKENS) == 0.0
  {
    var write := if p.cacheWrite.Some? then p.cacheWrite.value else p.input * 1.25;
    var read := if p.cacheRead.Some? then p.cacheRead.value else p.input * 0.1;
    AmountAdds(a.input, b.input, p.input);
    AmountAdds(a.output, b.output, p.output);
    AmountAdds(a.cacheRead, b.cacheRead, read);
    AmountAdds(a.cacheWrite, b.cacheWrite, write);
    NothingCosts(p.input);
    NothingCosts(p.output);
    NothingCosts(read);
    NothingCosts(write);
  }

  lemma NothingCosts(rate: real)
    ensures Amount(0, rate) == 0.0
  {
  }

  predicate WellFormed(u: Usage) {
    u.reportedCalls == 0 ==> u.reportedCost == 0.0
  }

  lemma CostSplits(cfg: Config, r: Route, u: Usage)
    requires WellFormed(u)
    ensures CostOf(cfg, r, u) ==
            u.reportedCost + (if r in cfg.prices then TableCost(cfg.prices[r], u.unreported) else 0.0)
  {
    if r in cfg.prices {
      TableCostAdds(cfg.prices[r], NO_TOKENS, NO_TOKENS);
    }
  }

  /** Whatever mixture of plan, reported and table calls a route holds, one more call adds its
      own cost: none is priced twice or dropped. */
  lemma AddCallAddsItsCost(cfg: Config, u: Usage, c: Call)
    requires WellFormed(u)
    ensures WellFormed(AddCall(u, c))
    ensures CostOf(cfg, c.route, AddCall(u, c)) == CostOf(cfg, c.route, u) + CallCost(cfg, c)
  {
    CostSplits(cfg, c.route, u);
    CostSplits(cfg, c.route, AddCall(u, c));
    if c.route in cfg.prices {
      TableCostAdds(cfg.prices[c.route], u.unreported, Clamped(c.tokens));
    }
  }

  lemma SumCostsUpdate(cfg: Config, m: map<Route, Usage>, r: Route, u: Usage)
    ensures SumCosts(cfg, m[r := u]) ==
            SumCosts(cfg, m) - (if r in m then CostOf(cfg, r, m[r]) else 0.0) + CostOf(cfg, r, u)
  {
    SumCostsWithout(cfg, m[r := u], r);
    if r in m {
      SumCostsWithout(cfg, m, r);
      assert m[r := u] - {r} == m - {r};
    } else {
      assert m[r := u] - {r} == m;
    }
  }

  /** The fields a plan reading's windows leave alone. */
  lemma {:induction false} NoteWindowsFrame(l: Ledger, provider: string, windows: seq<Window>)
    ensures var t := NoteWindows(l, provider, windows);
            t == l.(last := t.last, consumed := t.consumed)
    decreases |windows|
  {
    if windows != [] {
      NoteWindowsFrame(l, provider, windows[..|windows| - 1]);
    }
  }

  /** What the ledger must agree on with the history. */
  ghost predicate Refines(cfg: Config, l: Ledger, events: seq<Event>) {
    && (forall r :: r in l.perModel ==> WellFormed(l.perModel[r]))
    && SumCosts(cfg, l.perModel) == CallCosts(cfg, events)
    && l.unmetered == UnmeteredTokens(cfg, events)
    && l.creditsSpent == CreditDrops(events)
    && l.creditsLast == Balances(events)
  }

  lemma ReadingMovesCredits(l: Ledger, provider: string, plan: PlanUsage)
    ensures var t := NotePlanUsage(l, provider, plan);
            && t.perModel == l.perModel && t.unmetered == l.unmetered
            && t.creditsSpent == l.creditsSpent + Drop(l.creditsLast, provider, plan.creditsUsd)
            && t.creditsLast ==
               if plan.creditsUsd.Some? then l.creditsLast[provider := plan.creditsUsd.value] else l.creditsLast
  {
    NoteWindowsFrame(l, provider, plan.Windows());
  }

  lemma CountRefines(cfg: Config, l: Ledger, c: Call)
    requires forall r :: r in l.perModel ==> WellFormed(l.perModel[r])
    ensures var t := Count(cfg, l, c);
            && (forall r :: r in t.perModel ==> WellFormed(t.perModel[r]))
            && SumCosts(cfg, t.perModel) == SumCosts(cfg, l.perModel) + CallCost(cfg, c)
  {
    var u := if c.route in l.perModel then l.perModel[c.route] else NO_USAGE;
    var added := l.(perModel := l.perModel[c.route := AddCall(u, c)]);
    if c.plan.Some? {
      ReadingMovesCredits(added, c.route.provider, c.plan.value);
    }
    assert Count(cfg, l, c).perModel == added.perModel;
    NoUsageCostsNothing(cfg, c.route);
    AddCallAddsItsCost(cfg, u, c);
    SumCostsUpdate(cfg, l.perModel, c.route, AddCall(u, c));
  }

  lemma NoUsageCostsNothing(cfg: Config, r: Route)
    ensures CostOf(cfg, r, NO_USAGE) == 0.0
  {
    CostSplits(cfg, r, NO_USAGE);
    if r in cfg.prices {
      TableCostAdds(cfg.prices[r], NO_TOKENS, NO_TOKENS);
    }
  }

  lemma CountMovesCredits(cfg: Config, l: Ledger, c: Call)
    ensures var t := Count(cfg, l, c);
            var balance := if c.plan.Some? then c.plan.value.creditsUsd else None;
            && t.creditsSpent == l.creditsSpent + Drop(l.creditsLast, c.route.provider, balance)
            && t.creditsLast == if balance.Some? then l.creditsLast[c.route.provider := balance.value] else l.creditsLast
  {
    if c.plan.Some? {
      var u := if c.route in l.perModel then l.perModel[c.route] else NO_USAGE;
      ReadingMovesCredits(l.(perModel := l.perModel[c.route := AddCall(u, c)]), c.route.provider, c.plan.value);
    }
  }

  lemma CountStepRefines(cfg: Config, l: Ledger, events: seq<Event>, c: Call)
    requires Refines(cfg, l, events)
    ensures Refines(cfg, Count(cfg, l, c), events + [Recorded(c)])
  {
    assert (events + [Recorded(c)])[..|events|] == events;
    CountRefines(cfg, l, c);
    CountMovesCredits(cfg, l, c);
  }

  lemma RecordRefines(cfg: Config, l: Ledger, events: seq<Event>, c: Call)
    requires Refines(cfg, l, events)
    ensures Refines(cfg, Record(cfg, l, c), events + [Recorded(c)])
  {
    CountStepRefines(cfg, l, events, c);
  }

  lemma ReadRefines(cfg: Config, l: Ledger, events: seq<Event>, provider: string, plan: PlanUsage)
    requires Refines(cfg, l, events)
    ensures Refines(cfg, Read(cfg, l, provider, plan), events + [Reading(provider, plan)])
  {
    assert (events + [Reading(provider, plan)])[..|events|] == events;
    ReadingMovesCredits(l, provider, plan);
    assert Refines(cfg, NotePlanUsage(l, provider, plan), events + [Reading(provider, plan)]);
  }

  lemma {:induction false} ReplayRefines(cfg: Config, events: seq<Event>)
    ensures Refines(cfg, Replay(cfg, events), events)
    decreases |events|
  {
    if events != [] {
      var before := events[..|events| - 1];
      ReplayRefines(cfg, before);
      var e := events[|events| - 1];
      assert before + [e] == events;
      match e
      case Recorded(c) => RecordRefines(cfg, Replay(cfg, before), before, c);
      case Reading(p, plan) => ReadRefines(cfg, Replay(cfg, before), before, p, plan);
    }
  }

  /** After any events, the meter shows the credits seen leaving plus each call's own cost, and
      the fallback ledger the tokens of exactly the calls nothing else meters. */
  lemma LedgerIsHistory(cfg: Config, events: seq<Event>)
    ensures Estimate(cfg, Replay(cfg, events)) == CreditDrops(events) + CallCosts(cfg, events)
    ensures Replay(cfg, events).unmetered == UnmeteredTokens(cfg, events)
  {
    ReplayRefines(cfg, events);
  }

  function AllTokens(events: seq<Event>): Tokens {
    if events == [] then NO_TOKENS
    else
      var e := events[|events| - 1];
      Plus(AllTokens(events[..|events| - 1]), if e.Recorded? then Counted(e.call) else NO_TOKENS)
  }

  lemma CallAddsTokens(cfg: Config, l: Ledger, c: Call)
    ensures Record(cfg, l, c).totals == Plus(l.totals, Counted(c))
  {
    assert Clamped(c.tokens) == Counted(c);
  }

  lemma ReadAddsNoTokens(cfg: Config, l: Ledger, provider: string, plan: PlanUsage)
    ensures Read(cfg, l, provider, plan).totals == l.totals == Plus(l.totals, NO_TOKENS)
  {
    NoteWindowsFrame(l, provider, plan.Windows());
  }

  /** And the totals are every call's tokens, kind by kind. */
  lemma {:induction false} TotalsAreHistory(cfg: Config, events: seq<Event>)
    ensures Replay(cfg, events).totals == AllTokens(events)
    decreases |events|
  {
    if events != [] {
      var before := events[..|events| - 1];
      TotalsAreHistory(cfg, before);
      match events[|events| - 1]
      case Recorded(c) => CallAddsTokens(cfg, Replay(cfg, before), c);
      case Reading(p, plan) => ReadAddsNoTokens(cfg, Replay(cfg, before), p, plan);
    }
  }

  // ---- Exhaustion --------------------------------------------------------------------

  /** A positive cap is reached on the USD, fallback or plan ledger. */
  ghost predicate Reached(cfg: Config, l: Ledger) {
    || (cfg.maxUsd > 0.0 && Estimate(cfg, l) >= cfg.maxUsd)
    || (cfg.maxTokensFallback > 0 && l.unmetered >= cfg.maxTokensFallback)
    || (cfg.maxPlanPoints > 0.0 && PlanReached(l.consumed, cfg.maxPlanPoints))
  }

  lemma RecordStopsAtCap(cfg: Config, l: Ledger, c: Call)
    ensures Reached(cfg, Record(cfg, l, c)) ==> Record(cfg, l, c).stop.Some?
    ensures l.stop.Some? ==> Record(cfg, l, c).stop.Some?
  {
    var counted := Count(cfg, l, c);
    var checked := counted.(stop := FallbackStop(cfg, counted, c));
    var t := Record(cfg, l, c);
    assert t == checked.(stop := CeilingStop(cfg, checked, c.plan));
    assert Estimate(cfg, t) == Estimate(cfg, checked);
    CountKeepsStop(cfg, l, c);
  }

  lemma CountKeepsStop(cfg: Config, l: Ledger, c: Call)
    ensures Count(cfg, l, c).stop == l.stop
  {
    if c.plan.Some? {
      var u := if c.route in l.perModel then l.perModel[c.route] else NO_USAGE;
      NoteWindowsFrame(l.(perModel := l.perModel[c.route := AddCall(u, c)]), c.route.provider, c.plan.value.Windows());
    }
  }

  lemma ReadStopsAtCap(cfg: Config, l: Ledger, provider: string, plan: PlanUsage)
    requires Reached(cfg, l) ==> l.stop.Some?
    ensures Reached(cfg, Read(cfg, l, provider, plan)) ==> Read(cfg, l, provider, plan).stop.Some?
    ensures l.stop.Some? ==> Read(cfg, l, provider, plan).stop.Some?
  {
    NoteWindowsFrame(l, provider, plan.Windows());
    var noted := NotePlanUsage(l, provider, plan);
    assert noted.unmetered == l.unmetered && noted.stop == l.stop;
    assert Estimate(cfg, Read(cfg, l, provider, plan)) == Estimate(cfg, noted);
  }

  /** In every reachable state a reached cap means the run is stopped, whichever branch of the
      chain took the update. */
  lemma {:induction false} ReachedMeansStopped(cfg: Config, events: seq<Event>)
    ensures Reached(cfg, Replay(cfg, events)) ==> Replay(cfg, events).stop.Some?
    decreases |events|
  {
    if events == [] {
    } else {
      var before := events[..|events| - 1];
      ReachedMeansStopped(cfg, before);
      match events[|events| - 1]
      case Recorded(c) => RecordStopsAtCap(cfg, Replay(cfg, before), c);
      case Reading(p, plan) => ReadStopsAtCap(cfg, Replay(cfg, before), p, plan);
    }
  }

  /** Once set, the stop never clears. */
  lemma {:induction false} StopSticks(cfg: Config, events: seq<Event>, n: nat)
    requires n <= |events| && Replay(cfg, events[..n]).stop.Some?
    ensures Replay(cfg, events).stop.Some?
    decreases |events|
  {
    if n == |events| {
      assert events[..n] == events;
    } else {
      var before := events[..|events| - 1];
      assert before[..n] == events[..n];
      StopSticks(cfg, before, n);
      ReachedMeansStopped(cfg, before);
      match events[|events| - 1]
      case Recorded(c) => RecordStopsAtCap(cfg, Replay(cfg, before), c);
      case Reading(p, plan) => ReadStopsAtCap(cfg, Replay(cfg, before), p, plan);
    }
  }

  // ---- Calls in flight ---------------------------------------------------------------

  /** What concurrent seats do: a seat checks, sends its request, and what comes back lands in the
      ledger. Plan readings come in between. */
  datatype Action = Checks(seat: nat) | Lands(seat: nat, call: Call) | Reads(provider: string, plan: PlanUsage)

  /** The ledger's share of the actions. */
  function Ledgered(actions: seq<Action>): seq<Event> {
    if actions == [] then []
    else
      var before := Ledgered(actions[..|actions| - 1]);
      match actions[|actions| - 1]
      case Checks(_) => before
      case Lands(_, call) => before + [Recorded(call)]
      case Reads(provider, plan) => before + [Reading(provider, plan)]
  }

  ghost function LedgerAt(cfg: Config, actions: seq<Action>, n: nat): Ledger
    requires n <= |actions|
  {
    Replay(cfg, Ledgered(actions[..n]))
  }

  predicate BySeat(a: Action, seat: nat) {
    !a.Reads? && a.seat == seat
  }

  /** The seat checked at `c`, and by `i` it has neither checked again nor landed. */
  predicate LastChecked(actions: seq<Action>, seat: nat, c: nat, i: nat) {
    && c < i <= |actions| && actions[c] == Checks(seat)
    && forall k :: c < k < i ==> !BySeat(actions[k], seat)
  }

  /** And that check did not raise. */
  ghost predicate Pending(cfg: Config, actions: seq<Action>, seat: nat, c: nat, i: nat) {
    LastChecked(actions, seat, c, i) && LedgerAt(cfg, actions, c).stop.None?
  }

  /** The seat has a request out. */
  ghost predicate InFlight(cfg: Config, actions: seq<Action>, seat: nat, i: nat) {
    exists c: nat :: Pending(cfg, actions, seat, c, i)
  }

  /** Every call that lands was checked, and by a check of its own. */
  ghost predicate Guarded(cfg: Config, actions: seq<Action>) {
    forall i: nat :: i < |actions| && actions[i].Lands? ==> InFlight(cfg, actions, actions[i].seat, i)
  }

  lemma {:induction false} LedgeredGrows(actions: seq<Action>, n: nat, m: nat)
    requires n <= m <= |actions|
    ensures Ledgered(actions[..n]) <= Ledgered(actions[..m])
    decreases m
  {
    if n < m {
      LedgeredGrows(actions, n, m - 1);
      assert actions[..m][..m - 1] == actions[..m - 1];
    }
  }

  /** No check passes after the crossing. */
  lemma NoCheckPasses(cfg: Config, actions: seq<Action>, n: nat, c: nat)
    requires n <= c <= |actions| && Reached(cfg, LedgerAt(cfg, actions, n))
    ensures LedgerAt(cfg, actions, c).stop.Some?
  {
    var early, events := Ledgered(actions[..n]), Ledgered(actions[..c]);
    LedgeredGrows(actions, n, c);
    assert events[..|early|] == early;
    ReachedMeansStopped(cfg, early);
    StopSticks(cfg, events, |early|);
  }

  /** What lands after the crossing was checked before it. */
  lemma CheckedBefore(cfg: Config, actions: seq<Action>, n: nat, i: nat) returns (c: nat)
    requires Guarded(cfg, actions) && n <= i < |actions| && actions[i].Lands?
    requires Reached(cfg, LedgerAt(cfg, actions, n))
    ensures c < n && Pending(cfg, actions, actions[i].seat, c, i)
  {
    c :| Pending(cfg, actions, actions[i].seat, c, i);
    if n <= c {
      NoCheckPasses(cfg, actions, n, c);
    }
  }

  /** Once a cap is reached no call lands but those that were in flight at the crossing. */
  lemma NoCallAfterACap(cfg: Config, actions: seq<Action>, n: nat, i: nat)
    requires Guarded(cfg, actions) && n <= i < |actions| && actions[i].Lands?
    requires Reached(cfg, LedgerAt(cfg, actions, n))
    ensures InFlight(cfg, actions, actions[i].seat, n)
  {
    var c := CheckedBefore(cfg, actions, n, i);
    assert Pending(cfg, actions, actions[i].seat, c, n);
  }

  /** And of those at most one a seat, none by the seat whose call crossed: at most as many calls
      go over a cap as there are seats. */
  lemma OneCallASeatAfterACap(cfg: Config, actions: seq<Action>, n: nat, i: nat, k: nat)
    requires Guarded(cfg, actions) && n <= k < |actions| && actions[k].Lands?
    requires Reached(cfg, LedgerAt(cfg, actions, n))
    requires i < k && n <= i + 1 && actions[i].Lands?
    ensures actions[i].seat != actions[k].seat
  {
    var c := CheckedBefore(cfg, actions, n, k);
    LandsOnce(actions, c, i, k);
  }

  lemma LandsOnce(actions: seq<Action>, c: nat, i: nat, k: nat)
    requires k < |actions| && actions[k].Lands? && LastChecked(actions, actions[k].seat, c, k)
    requires c <= i < k && actions[i].Lands?
    ensures actions[i].seat != actions[k].seat
  {
  }

  /** All seats check, then all their calls land. */
  function Fan(calls: seq<Call>): seq<Action> {
    seq(|calls|, i requires 0 <= i => Checks(i)) + seq(|calls|, i requires 0 <= i < |calls| => Lands(i, calls[i]))
  }

  lemma {:induction false} ChecksChangeNothing(actions: seq<Action>)
    requires forall a :: a in actions ==> a.Checks?
    ensures Ledgered(actions) == []
    decreases |actions|
  {
    if actions != [] {
      ChecksChangeNothing(actions[..|actions| - 1]);
    }
  }

  /** The bound is met: however many seats there are and whatever their calls cost, all of them
      can land, whichever of them crosses a cap. */
  lemma AllInFlightLand(cfg: Config, calls: seq<Call>)
    ensures Guarded(cfg, Fan(calls))
  {
    var actions, n := Fan(calls), |calls|;
    forall i: nat | i < |actions| && actions[i].Lands?
      ensures InFlight(cfg, actions, actions[i].seat, i)
    {
      var seat := actions[i].seat;
      assert i == n + seat;
      ChecksChangeNothing(actions[..seat]);
      assert Pending(cfg, actions, seat, seat, i);
    }
  }

  lemma PendingExtended(cfg: Config, actions: seq<Action>, a: Action, seat: nat, c: nat, i: nat)
    requires i <= |actions|
    ensures Pending(cfg, actions + [a], seat, c, i) <==> Pending(cfg, actions, seat, c, i)
  {
    var longer := actions + [a];
    if c < i {
      assert longer[..c] == actions[..c];
      assert forall k: nat :: k < i ==> BySeat(longer[k], seat) == BySeat(actions[k], seat);
    }
  }

  lemma InFlightExtended(cfg: Config, actions: seq<Action>, a: Action, seat: nat, i: nat)
    requires i <= |actions|
    ensures InFlight(cfg, actions + [a], seat, i) <==> InFlight(cfg, actions, seat, i)
  {
    forall c: nat
      ensures Pending(cfg, actions + [a], seat, c, i) <==> Pending(cfg, actions, seat, c, i)
    {
      PendingExtended(cfg, actions, a, seat, c, i);
    }
  }

  lemma GuardedExtended(cfg: Config, actions: seq<Action>, a: Action)
    ensures Guarded(cfg, actions + [a]) <==>
            Guarded(cfg, actions) && (a.Lands? ==> InFlight(cfg, actions, a.seat, |actions|))
  {
    var longer := actions + [a];
    forall i: nat | i < |longer| && longer[i].Lands?
      ensures InFlight(cfg, longer, longer[i].seat, i) <==> InFlight(cfg, actions, longer[i].seat, i)
    {
      InFlightExtended(cfg, actions, a, longer[i].seat, i);
    }
    if Guarded(cfg, longer) {
      forall i: nat | i < |actions| && actions[i].Lands?
        ensures InFlight(cfg, actions, actions[i].seat, i)
      {
        assert longer[i] == actions[i];
      }
      assert longer[|actions|] == a;
    }
  }

  /** A call can land, caps reached or not, exactly when its seat has a request out; so one still can
      exactly when some seat has. */
  lemma LandsExactlyInFlight(cfg: Config, actions: seq<Action>)
    requires Guarded(cfg, actions)
    ensures forall seat, call :: Guarded(cfg, actions + [Lands(seat, call)]) <==> InFlight(cfg, actions, seat, |actions|)
    ensures (exists seat, call :: Guarded(cfg, actions + [Lands(seat, call)]))
            <==> exists seat :: InFlight(cfg, actions, seat, |actions|)
  {
    forall seat, call
      ensures Guarded(cfg, actions + [Lands(seat, call)]) <==> InFlight(cfg, actions, seat, |actions|)
    {
      GuardedExtended(cfg, actions, Lands(seat, call));
    }
    if seat :| InFlight(cfg, actions, seat, |actions|) {
      var call: Call :| true;
      assert Guarded(cfg, actions + [Lands(seat, call)]);
    }
  }

  lemma PendingLanded(cfg: Config, actions: seq<Action>, seat: nat, call: Call, other: nat, c: nat)
    ensures Pending(cfg, actions + [Lands(seat, call)], other, c, |actions| + 1)
            <==> other != seat && Pending(cfg, actions, other, c, |actions|)
  {
    var longer, n := actions + [Lands(seat, call)], |actions|;
    PendingExtended(cfg, actions, Lands(seat, call), other, c, n);
    assert longer[n] == Lands(seat, call);
    assert c == n ==> !LastChecked(longer, other, c, n + 1);
    assert LastChecked(longer, other, c, n + 1) <==> other != seat && LastChecked(longer, other, c, n);
  }

  /** And a landing takes its own seat's request and no other: the rest can all still land. */
  lemma LandingLeavesOthers(cfg: Config, actions: seq<Action>, seat: nat, call: Call, other: nat)
    ensures InFlight(cfg, actions + [Lands(seat, call)], other, |actions| + 1)
            <==> other != seat && InFlight(cfg, actions, other, |actions|)
  {
    if InFlight(cfg, actions + [Lands(seat, call)], other, |actions| + 1) {
      var c: nat :| Pending(cfg, actions + [Lands(seat, call)], other, c, |actions| + 1);
      PendingLanded(cfg, actions, seat, call, other, c);
    }
    if other != seat && InFlight(cfg, actions, other, |actions|) {
      var c: nat :| Pending(cfg, actions, other, c, |actions|);
      PendingLanded(cfg, actions, seat, call, other, c);
    }
  }

  /** Two seats: the first call crosses the cap, and the second lands after it. */
  lemma TwoSeatsCross(cfg: Config, first: Call, second: Call)
    requires Reached(cfg, Replay(cfg, [Recorded(first)]))
    ensures var run := [Checks(0), Checks(1), Lands(0, first), Lands(1, second)];
            Guarded(cfg, run) && Reached(cfg, LedgerAt(cfg, run, 3))
  {
    var run := [Checks(0), Checks(1), Lands(0, first), Lands(1, second)];
    assert run == Fan([first, second]);
    AllInFlightLand(cfg, [first, second]);
    assert run[..3][..2] == run[..2];
    ChecksChangeNothing(run[..2]);
    assert Ledgered(run[..3]) == [Recorded(first)];
  }

  /** With every cap unlimited and credits allowed nothing stops a run. */
  lemma {:induction false} UnlimitedNeverStops(cfg: Config, events: seq<Event>)
    requires cfg.maxUsd < 0.0 && cfg.maxTokensFallback < 0 && cfg.maxPlanPoints < 0.0 && cfg.allowPlanOverage
    ensures Replay(cfg, events).stop.None?
    decreases |events|
  {
    if events != [] {
      var before := events[..|events| - 1];
      UnlimitedNeverStops(cfg, before);
      match events[|events| - 1]
      case Recorded(c) => CountKeepsStop(cfg, Replay(cfg, before), c);
      case Reading(p, plan) => NoteWindowsFrame(Replay(cfg, before), p, plan.Windows());
    }
  }

  // ---- Plan meters -------------------------------------------------------------------

  /** The readings of one window that a plan reading carries, and those of a whole run. */
  function Named(windows: seq<Window>, name: string): seq<Window> {
    if windows == [] then []
    else
      var w := windows[|windows| - 1];
      Named(windows[..|windows| - 1], name) + (if w.name == name then [w] else [])
  }

  function ReadingsFor(events: seq<Event>, k: Key): seq<Window> {
    if events == [] then []
    else
      var r := ReadingOf(events[|events| - 1]);
      ReadingsFor(events[..|events| - 1], k)
      + (if r.Some? && r.value.0 == k.0 then Named(r.value.1.Windows(), k.1) else [])
  }

  lemma NoteWindowIsNote(l: Ledger, j: Key, w: Window, k: Key)
    ensures var t := NoteWindow(l, j, w);
            MeterOf(t.last, t.consumed, k) ==
            if j == k then Note(MeterOf(l.last, l.consumed, k), w) else MeterOf(l.last, l.consumed, k)
  {
  }

  lemma {:induction false} NoteWindowsIsNoteAll(l: Ledger, provider: string, windows: seq<Window>, k: Key)
    ensures var t := NoteWindows(l, provider, windows);
            MeterOf(t.last, t.consumed, k) ==
            NoteAll(MeterOf(l.last, l.consumed, k), if provider == k.0 then Named(windows, k.1) else [])
    decreases |windows|
  {
    if windows != [] {
      var before, w := windows[..|windows| - 1], windows[|windows| - 1];
      NoteWindowsIsNoteAll(l, provider, before, k);
      NoteWindowIsNote(NoteWindows(l, provider, before), (provider, w.name), w, k);
      NoteAllThen(MeterOf(l.last, l.consumed, k), Named(before, k.1), w);
      assert Named(before, k.1) + [] == Named(before, k.1);
    }
  }

  lemma ReadingMovesMeter(l: Ledger, provider: string, plan: PlanUsage, k: Key, seen: seq<Window>)
    requires MeterOf(l.last, l.consumed, k) == NoteAll(UNREAD, seen)
    ensures var t := NotePlanUsage(l, provider, plan);
            MeterOf(t.last, t.consumed, k) ==
            NoteAll(UNREAD, seen + (if provider == k.0 then Named(plan.Windows(), k.1) else []))
  {
    NoteWindowsIsNoteAll(l, provider, plan.Windows(), k);
    NoteAllAppend(UNREAD, seen, if provider == k.0 then Named(plan.Windows(), k.1) else []);
  }

  lemma EventMovesMeter(cfg: Config, l: Ledger, e: Event, k: Key, seen: seq<Window>)
    requires MeterOf(l.last, l.consumed, k) == NoteAll(UNREAD, seen)
    ensures var t := Happen(cfg, l, e);
            var r := ReadingOf(e);
            MeterOf(t.last, t.consumed, k) ==
            NoteAll(UNREAD, seen + (if r.Some? && r.value.0 == k.0 then Named(r.value.1.Windows(), k.1) else []))
  {
    assert seen + [] == seen;
    match e
    case Recorded(c) =>
      if c.plan.Some? {
        var u := if c.route in l.perModel then l.perModel[c.route] else NO_USAGE;
        var added := l.(perModel := l.perModel[c.route := AddCall(u, c)]);
        ReadingMovesMeter(added, c.route.provider, c.plan.value, k, seen);
      }
    case Reading(p, plan) => ReadingMovesMeter(l, p, plan, k, seen);
  }

  /** Each window's counter is the fold of that window's readings, whatever calls, credits and
      other windows they came with: what `PlanMeter` proves of a fold holds of the tracker. */
  lemma {:induction false} MeterIsFold(cfg: Config, events: seq<Event>, k: Key)
    ensures var l := Replay(cfg, events);
            MeterOf(l.last, l.consumed, k) == NoteAll(UNREAD, ReadingsFor(events, k))
    decreases |events|
  {
    if events != [] {
      var before := events[..|events| - 1];
      MeterIsFold(cfg, before, k);
      EventMovesMeter(cfg, Replay(cfg, before), events[|events| - 1], k, ReadingsFor(before, k));
    }
  }

  /** The providers whose plan was ever read. */
  function ReadProviders(events: seq<Event>): set<string> {
    if events == [] then {}
    else
      var r := ReadingOf(events[|events| - 1]);
      ReadProviders(events[..|events| - 1]) + (if r.Some? then {r.value.0} else {})
  }

  function Providers(last: map<Key, Window>): set<string> {
    set k | k in last :: k.0
  }

  lemma {:induction false} NotedProviders(l: Ledger, provider: string, windows: seq<Window>)
    ensures Providers(NoteWindows(l, provider, windows).last) ==
            Providers(l.last) + if windows == [] then {} else {provider}
    decreases |windows|
  {
    if windows != [] {
      var before, w := windows[..|windows| - 1], windows[|windows| - 1];
      var m := NoteWindows(l, provider, before);
      NotedProviders(l, provider, before);
      NotedProvider(m, provider, w);
    }
  }

  lemma NotedProvider(l: Ledger, provider: string, w: Window)
    ensures Providers(NoteWindow(l, (provider, w.name), w).last) == Providers(l.last) + {provider}
  {
    var k, t := (provider, w.name), NoteWindow(l, (provider, w.name), w);
    assert t.last.Keys == l.last.Keys + {k};
    assert k in t.last && k.0 == provider;
    forall p | p in Providers(l.last)
      ensures p in Providers(t.last)
    {
      var j :| j in l.last && j.0 == p;
      assert j in t.last;
    }
  }

  lemma PlanNotesProvider(l: Ledger, provider: string, plan: PlanUsage)
    ensures Providers(NotePlanUsage(l, provider, plan).last) == Providers(l.last) + {provider}
  {
    NotedProviders(l, provider, plan.Windows());
  }

  /** The providers with a window are those whose plan was read. */
  lemma {:induction false} ProvidersAreHistory(cfg: Config, events: seq<Event>)
    ensures Providers(Replay(cfg, events).last) == ReadProviders(events)
    decreases |events|
  {
    if events != [] {
      var before := events[..|events| - 1];
      ProvidersAreHistory(cfg, before);
      match events[|events| - 1]
      case Recorded(c) => CallNotesProvider(cfg, Replay(cfg, before), c);
      case Reading(p, plan) => PlanNotesProvider(Replay(cfg, before), p, plan);
    }
  }

  lemma CallNotesProvider(cfg: Config, l: Ledger, c: Call)
    ensures Providers(Record(cfg, l, c).last) ==
            Providers(l.last) + if c.plan.Some? then {c.route.provider} else {}
  {
    if c.plan.Some? {
      var u := if c.route in l.perModel then l.perModel[c.route] else NO_USAGE;
      PlanNotesProvider(l.(perModel := l.perModel[c.route := AddCall(u, c)]), c.route.provider, c.plan.value);
    }
  }

  // ---- The tracker -------------------------------------------------------------------

  /** Each public method runs under the source's lock, so a run is a sequence of them. */
  class BudgetTracker {
    const cfg: Config
    var perModel: map<Route, Usage>
    var totals: Tokens
    var unmetered: int
    var stop: Option<Stop>
    var last: map<Key, Window>
    var consumed: map<Key, real>
    var creditsLast: map<string, real>
    var creditsSpent: real
    var plans: map<string, PlanUsage>
    var settled: bool
    ghost var history: seq<Event>

    function State(): Ledger
      reads this
    {
      Ledger(perModel, totals, unmetered, stop, last, consumed, creditsLast, creditsSpent, plans)
    }

    ghost predicate Valid()
      reads this
    {
      State() == Replay(cfg, history)
    }

    constructor (cfg: Config)
      ensures Valid() && this.cfg == cfg && history == [] && !settled
    {
      this.cfg := cfg;
      perModel, totals, unmetered, stop := map[], NO_TOKENS, 0, None;
      last, consumed := map[], map[];
      creditsLast, creditsSpent, plans := map[], 0.0, map[];
      settled, history := false, [];
    }

    /** The USD spend, and whether some call could not be priced. */
    method EstimateUsd() returns (usd: real, unknown: bool)
      ensures usd == Estimate(cfg, State())
      ensures unknown <==> exists r :: r in perModel &&
                             (var c := ModelCostUsd(cfg, r, perModel[r]); c.None? || c.value.partial)
    {
      usd, unknown := creditsSpent, false;
      var rest := perModel;
      while rest != map[]
        invariant forall r :: r in rest ==> r in perModel && rest[r] == perModel[r]
        invariant usd + SumCosts(cfg, rest) == Estimate(cfg, State())
        invariant unknown <==> exists r :: r in perModel && r !in rest &&
                                 (var c := ModelCostUsd(cfg, r, perModel[r]); c.None? || c.value.partial)
        decreases |rest|
      {
        var r :| r in rest;
        var cost := ModelCostUsd(cfg, r, rest[r]);
        SumCostsWithout(cfg, rest, r);
        if cost.None? {
          unknown := true;
        } else {
          unknown := unknown || cost.value.partial;
          usd := usd + cost.value.usd;
        }
        rest := rest - {r};
      }
    }

    /** The consumption on the window that moved most, 0 when none moved. */
    method PlanConsumed() returns (points: real)
      ensures consumed == map[] ==> points == 0.0
      ensures consumed != map[] ==> exists k :: k in consumed && consumed[k] == points
      ensures forall k :: k in consumed ==> consumed[k] <= points
    {
      points := 0.0;
      var rest := consumed;
      while rest != map[]
        invariant forall k :: k in rest ==> k in consumed && rest[k] == consumed[k]
        invariant rest == consumed ==> points == 0.0
        invariant rest != consumed ==> exists k :: k in consumed && consumed[k] == points
        invariant forall k :: k in consumed && k !in rest ==> consumed[k] <= points
        decreases |rest|
      {
        var k :| k in rest;
        if rest == consumed || rest[k] > points {
          points := rest[k];
        }
        rest := rest - {k};
      }
    }

    method CheckCeilings(plan: Option<PlanUsage>)
      modifies `stop
      ensures stop == CeilingStop(cfg, old(State()), plan)
    {
      var spendsCredits := plan.Some? && plan.value.WouldSpendCredits();
      var points := PlanConsumed();
      assert cfg.maxPlanPoints > 0.0 ==> (points >= cfg.maxPlanPoints <==> PlanReached(consumed, cfg.maxPlanPoints));
      if spendsCredits && !cfg.allowPlanOverage {
        stop := Some(CreditsRefused);
      } else if spendsCredits && cfg.maxUsd == 0.0 {
        stop := Some(UsdRefused);
      } else if plan.Some? && cfg.maxPlanPoints == 0.0 {
        stop := Some(PlanRefused);
      } else if cfg.maxPlanPoints > 0.0 && points >= cfg.maxPlanPoints {
        stop := Some(PlanSpent);
      } else if cfg.maxUsd > 0.0 {
        var usd, _ := EstimateUsd();
        if usd >= cfg.maxUsd {
          stop := Some(UsdSpent);
        }
      }
    }

    method NoteOneWindow(provider: string, w: Window)
      modifies `last, `consumed
      ensures State() == NoteWindow(old(State()), (provider, w.name), w)
    {
      var k := (provider, w.name);
      if k !in last {
        last := last[k := w];
      } else if last[k].resetsAt - w.resetsAt > RESET_SLACK_S {
        return;
      } else {
        var delta: real;
        if w.resetsAt - last[k].resetsAt > RESET_SLACK_S {
          delta := w.usedPercent;
        } else if w.usedPercent >= last[k].usedPercent {
          delta := w.usedPercent - last[k].usedPercent;
        } else {
          return;
        }
        consumed := consumed[k := (if k in consumed then consumed[k] else 0.0) + delta];
        last := last[k := w];
      }
    }

    method NoteBalance(provider: string, balance: Option<real>)
      modifies `creditsLast, `creditsSpent
      ensures State() == NoteCredits(old(State()), provider, balance)
    {
      if balance.Some? {
        if provider in creditsLast && balance.value < creditsLast[provider] {
          creditsSpent := creditsSpent + (creditsLast[provider] - balance.value);
        }
        creditsLast := creditsLast[provider := balance.value];
      }
    }

    method NoteUsage(provider: string, plan: PlanUsage)
      modifies `last, `consumed, `creditsLast, `creditsSpent, `plans
      ensures State() == NotePlanUsage(old(State()), provider, plan)
    {
      var windows := plan.Windows();
      for i := 0 to |windows|
        invariant State() == NoteWindows(old(State()), provider, windows[..i])
      {
        assert windows[..i + 1][..i] == windows[..i];
        NoteOneWindow(provider, windows[i]);
      }
      assert windows[..|windows|] == windows;
      NoteBalance(provider, plan.creditsUsd);
      plans := plans[provider := plan];
    }

    /** The totals and counters of `RecordCall`, before its checks. */
    method CountCall(c: Call)
      modifies `perModel, `totals, `unmetered, `last, `consumed, `creditsLast, `creditsSpent, `plans
      ensures State() == Count(cfg, old(State()), c)
    {
      var t := Clamped(c.tokens);
      var u := if c.route in perModel then perModel[c.route] else NO_USAGE;
      perModel := perModel[c.route := AddCall(u, c)];
      if c.plan.Some? {
        NoteUsage(c.route.provider, c.plan.value);
      }
      totals := Plus(totals, t);
      if !Metered(cfg, c) {
        unmetered := unmetered + t.input + t.output;
      }
    }

    /** Add one provider response. */
    method RecordCall(c: Call)
      requires Valid()
      modifies this
      ensures Valid() && history == old(history) + [Recorded(c)] && settled == old(settled)
    {
      CountCall(c);
      stop := FallbackStop(cfg, State(), c);
      CheckCeilings(c.plan);
      history := history + [Recorded(c)];
      assert history[..|history| - 1] == old(history);
    }

    /** A reading taken before the first plan-metered call, or by `Settle`. */
    method RecordPlanPreflight(provider: string, plan: PlanUsage)
      requires Valid()
      modifies this
      ensures Valid() && history == old(history) + [Reading(provider, plan)] && settled == old(settled)
    {
      NoteUsage(provider, plan);
      CheckCeilings(Some(plan));
      assert State() == Read(cfg, old(State()), provider, plan);
      history := history + [Reading(provider, plan)];
      assert history[..|history| - 1] == old(history);
    }

    method Absorb(e: Event)
      requires Valid()
      modifies this
      ensures Valid() && history == old(history) + [e] && settled == old(settled)
    {
      match e
      case Recorded(call) => RecordCall(call);
      case Reading(provider, plan) => RecordPlanPreflight(provider, plan);
    }

    /** What other threads do in the meantime. */
    method Meanwhile(events: seq<Event>)
      requires Valid()
      modifies this
      ensures Valid() && history == old(history) + events && settled == old(settled)
    {
      ghost var early := history;
      for i := 0 to |events|
        invariant Valid() && history == early + events[..i] && settled == old(settled)
      {
        PrefixOneMore(early, events, i);
        Absorb(events[i]);
      }
      assert events[..|events|] == events;
    }

    /** One plan's request, outside the lock, and its reading. */
    method ReadOne(reader: (string, Option<PlanUsage>), others: seq<Event>, metered: set<string>) returns (landed: bool)
      requires Valid()
      modifies this
      ensures Valid() && settled == old(settled)
      ensures history == old(history) + ReadingDuring(reader, others, metered)
      ensures landed <==> Answers(reader, metered)
    {
      landed := false;
      if reader.0 in metered {
        ghost var early := history;
        Meanwhile(others);
        if reader.1.Some? {
          landed := true;
          RecordPlanPreflight(reader.0, reader.1.value);
          Associative(early, others, [Reading(reader.0, reader.1.value)]);
        } else {
          Associative(early, others, []);
          assert early + others + [] == early + others;
        }
      } else {
        assert history + [] == history;
      }
    }

    method ReadAll(readers: seq<(string, Option<PlanUsage>)>, others: seq<seq<Event>>, metered: set<string>)
      returns (landed: bool)
      requires Valid() && |others| == |readers|
      modifies this
      ensures Valid() && settled == old(settled)
      ensures history == old(history) + Settlement(readers, others, metered)
      ensures landed <==> SomeAnswer(readers, metered)
    {
      landed := false;
      ghost var early := history;
      for i := 0 to |readers|
        invariant Valid() && settled == old(settled)
        invariant history == early + Settlement(readers[..i], others[..i], metered)
        invariant landed <==> SomeAnswer(readers[..i], metered)
      {
        SettlementOneMore(early, readers, others, metered, i);
        var answered := ReadOne(readers[i], others[i], metered);
        landed := landed || answered;
      }
      assert readers[..|readers|] == readers && others[..|others|] == others;
    }

    /** Read each metered plan once more; `readers` gives what each registered reader returns. The
        requests run outside the lock: `others` is what other threads do during each. */
    method Settle(readers: seq<(string, Option<PlanUsage>)>, others: seq<seq<Event>>) returns (landed: bool)
      requires Valid() && |others| == |readers|
      modifies this
      ensures Valid() && settled
      ensures history == old(history)
                + (if old(settled) then [] else Settlement(readers, others, ReadProviders(old(history))))
      ensures landed <==> !old(settled) && SomeAnswer(readers, ReadProviders(old(history)))
    {
      if settled {
        return false;
      }
      settled := true;
      ProvidersAreHistory(cfg, history);
      landed := ReadAll(readers, others, Providers(last));
    }

    /** Raises when a ledger is over its cap. */
    method Check() returns (r: Result<(), Stop>)
      requires Valid()
      ensures r.Err? <==> stop.Some?
      ensures Reached(cfg, State()) ==> r.Err?
    {
      ReachedMeansStopped(cfg, history);
      return if stop.Some? then Err(stop.value) else Ok(());
    }

    /** The fraction left under the nearest ceiling: 0 exactly when a call would be refused. */
    method FractionRemaining() returns (f: real)
      requires Valid()
      ensures 0.0 <= f <= 1.0
      ensures f == 0.0 <==> stop.Some?
      ensures stop.None? && cfg.maxUsd > 0.0 ==> f <= 1.0 - Estimate(cfg, State()) / cfg.maxUsd
      ensures stop.None? && cfg.maxTokensFallback > 0 ==>
                f <= 1.0 - unmetered as real / cfg.maxTokensFallback as real
      ensures stop.None? && cfg.maxPlanPoints > 0.0 ==>
                forall k :: k in consumed ==> f <= 1.0 - consumed[k] / cfg.maxPlanPoints
      ensures stop.None? ==>
                || f == 1.0
                || (cfg.maxUsd > 0.0 && f == 1.0 - Estimate(cfg, State()) / cfg.maxUsd)
                || (cfg.maxTokensFallback > 0 && f == 1.0 - unmetered as real / cfg.maxTokensFallback as real)
                || (cfg.maxPlanPoints > 0.0 && exists k :: k in consumed && f == 1.0 - consumed[k] / cfg.maxPlanPoints)
    {
      if stop.Some? {
        return 0.0;
      }
      NoCapIsReached();
      var used := 0.0;
      if cfg.maxUsd > 0.0 {
        var usd, _ := EstimateUsd();
        RatioBelowOne(usd, cfg.maxUsd);
        used := Larger(used, usd / cfg.maxUsd);
      }
      if cfg.maxTokensFallback > 0 {
        RatioBelowOne(unmetered as real, cfg.maxTokensFallback as real);
        used := Larger(used, unmetered as real / cfg.maxTokensFallback as real);
      }
      if cfg.maxPlanPoints > 0.0 {
        var share := PlanShare();
        used := Larger(used, share);
      }
      f := Larger(0.0, 1.0 - used);
    }

    lemma NoCapIsReached()
      requires Valid() && stop.None?
      ensures !Reached(cfg, State())
    {
      ReachedMeansStopped(cfg, history);
    }

    /** The largest share of its cap any window used, 0 when none moved. */
    method PlanShare() returns (share: real)
      requires cfg.maxPlanPoints > 0.0
      ensures forall k :: k in consumed ==> consumed[k] / cfg.maxPlanPoints <= share
      ensures share == 0.0 || exists k :: k in consumed && share == consumed[k] / cfg.maxPlanPoints
      ensures !PlanReached(consumed, cfg.maxPlanPoints) ==> share < 1.0
    {
      var points := PlanConsumed();
      RatioBelowOne(points, cfg.maxPlanPoints);
      forall k | k in consumed
        ensures consumed[k] / cfg.maxPlanPoints <= points / cfg.maxPlanPoints
      {
        RatioMonotone(consumed[k], points, cfg.maxPlanPoints);
      }
      share := points / cfg.maxPlanPoints;
    }
  }

  function Larger(x: real, y: real): real {
    if y > x then y else x
  }

  lemma PrefixOneMore<T>(early: seq<T>, s: seq<T>, i: nat)
    requires i < |s|
    ensures early + s[..i] + [s[i]] == early + s[..i + 1]
  {
  }

  /** One plan's request, what others did meanwhile, and then its reading; a plan without a metered
      call is not read. */
  function ReadingDuring(reader: (string, Option<PlanUsage>), others: seq<Event>, metered: set<string>): seq<Event> {
    if reader.0 !in metered then []
    else others + if reader.1.Some? then [Reading(reader.0, reader.1.value)] else []
  }

  /** The plan is read, and the reading lands. */
  predicate Answers(reader: (string, Option<PlanUsage>), metered: set<string>) {
    reader.0 in metered && reader.1.Some?
  }

  predicate SomeAnswer(readers: seq<(string, Option<PlanUsage>)>, metered: set<string>) {
    exists i :: 0 <= i < |readers| && Answers(readers[i], metered)
  }

  /** The readings `settle` adds, among what other threads do. */
  function Settlement(readers: seq<(string, Option<PlanUsage>)>, others: seq<seq<Event>>, metered: set<string>): seq<Event>
    requires |others| == |readers|
  {
    if readers == [] then []
    else
      Settlement(readers[..|readers| - 1], others[..|others| - 1], metered)
      + ReadingDuring(readers[|readers| - 1], others[|others| - 1], metered)
  }

  /** The event is this reader's answer. */
  predicate AnswerOf(reader: (string, Option<PlanUsage>), metered: set<string>, e: Event) {
    reader.0 in metered && reader.1.Some? && e == Reading(reader.0, reader.1.value)
  }

  lemma ReadingIsAnswer(reader: (string, Option<PlanUsage>), metered: set<string>, e: Event)
    ensures e in ReadingDuring(reader, [], metered) <==> AnswerOf(reader, metered, e)
  {
  }

  lemma LastAnswer(readers: seq<(string, Option<PlanUsage>)>, metered: set<string>, e: Event)
    requires readers != []
    ensures var last := |readers| - 1;
            (exists i :: 0 <= i < |readers| && AnswerOf(readers[i], metered, e))
            <==> (exists i :: 0 <= i < last && AnswerOf(readers[..last][i], metered, e)) || AnswerOf(readers[last], metered, e)
  {
    var last := |readers| - 1;
    if i :| 0 <= i < last && AnswerOf(readers[i], metered, e) {
      assert readers[..last][i] == readers[i];
    }
  }

  /** Settling reads the plans that metered a call, and no other; what it adds are the answers. */
  lemma {:induction false} SettlementIsAnswers(readers: seq<(string, Option<PlanUsage>)>, others: seq<seq<Event>>,
                                               metered: set<string>, e: Event)
    requires |others| == |readers| && forall i :: 0 <= i < |others| ==> others[i] == []
    ensures e in Settlement(readers, others, metered) <==>
              exists i :: 0 <= i < |readers| && AnswerOf(readers[i], metered, e)
    decreases |readers|
  {
    if readers != [] {
      var last := |readers| - 1;
      SettlementIsAnswers(readers[..last], others[..last], metered, e);
      ReadingIsAnswer(readers[last], metered, e);
      LastAnswer(readers, metered, e);
    }
  }

  lemma SettlementOneMore(early: seq<Event>, readers: seq<(string, Option<PlanUsage>)>, others: seq<seq<Event>>,
                          metered: set<string>, i: nat)
    requires i < |readers| == |others|
    ensures early + Settlement(readers[..i + 1], others[..i + 1], metered)
         == early + Settlement(readers[..i], others[..i], metered) + ReadingDuring(readers[i], others[i], metered)
    ensures SomeAnswer(readers[..i + 1], metered) <==> SomeAnswer(readers[..i], metered) || Answers(readers[i], metered)
  {
    if j :| 0 <= j < i && Answers(readers[j], metered) {
      assert Answers(readers[..i][j], metered) && Answers(readers[..i + 1][j], metered);
    }
    assert readers[..i + 1][i] == readers[i];
    assert readers[..i + 1][..i] == readers[..i] && others[..i + 1][..i] == others[..i];
  }

  lemma RatioBelowOne(a: real, b: real)
    requires b > 0.0
    ensures a < b <==> a / b < 1.0
  {
  }

  lemma RatioMonotone(a: real, b: real, c: real)
    requires a <= b && c > 0.0
    ensures a / c <= b / c
  {
  }
}
