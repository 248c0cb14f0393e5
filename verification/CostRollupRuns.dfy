/**
 Every interleaving of the snapshot writers and the prune loop, with crashes.

 A write is two statements: insert the raw row, then upsert it into `cost_daily`; a crash
 in between leaves it torn.  A turn of the prune loop is four: roll up the totals, roll up
 the per-model rows, then delete from each raw table; a failed turn goes back to the start.
 */
module CostRollupRuns {
  import opened CostRollup
  import Sums

  /** Where the prune loop is, and when its rollup statements of this turn ran. */
  datatype Loop = Idle | TotalsRolled(at1: int) | Rolled(at1: int, at2: int) | EventsPruned(at2: int)

  datatype State = State(
    events: seq<Snapshot>,        // cost_events
    models: seq<Snapshot>,        // cost_model_events
    daily: Daily,
    clock: int,
    pending: multiset<Snapshot>,  // inserted, not yet upserted
    torn: set<Snapshot>,          // inserted, never upserted, not rolled up since
    loop: Loop,
    history: seq<Snapshot>)       // every snapshot ever inserted

  const INIT := State([], [], map[], 0, multiset{}, {}, Idle, [])

  datatype Step =
    | Tick(now: int)
    | InsertRaw(x: Snapshot)
    | FinishWrite(x: Snapshot)
    | CrashWrite(x: Snapshot)
    | RollTotals
    | RollModels
    | PruneEvents
    | PruneModels
    | LoopFails

  /** `lag`: longest time from stamping a snapshot to inserting it.  `gap`: longest time from a
      rollup statement to the delete of the same turn.  `retention`: what the deletes keep. */
  datatype Timing = Timing(lag: nat, gap: nat, retention: int)

  ghost predicate Enabled(p: Timing, s: State, step: Step) {
    match step
    case Tick(now) => s.clock <= now
    case InsertRaw(x) => s.clock - p.lag <= x.ts <= s.clock
    case FinishWrite(x) => x in s.pending
    case CrashWrite(x) => x in s.pending
    case RollTotals => s.loop.Idle?
    case RollModels => s.loop.TotalsRolled?
    case PruneEvents => s.loop.Rolled? && s.clock - s.loop.at1 <= p.gap
    case PruneModels => s.loop.EventsPruned? && s.clock - s.loop.at2 <= p.gap
    case LoopFails => true
  }

  function IsTotal(x: Snapshot): bool {
    x.model == AGENT_TOTAL
  }

  function Do(p: Timing, s: State, step: Step): State {
    match step
    case Tick(now) => s.(clock := now)
    case InsertRaw(x) =>
      var t := s.(history := s.history + [x], pending := s.pending + multiset{x});
      if IsTotal(x) then t.(events := s.events + [x]) else t.(models := s.models + [x])
    case FinishWrite(x) => s.(daily := Upsert(s.daily, KeyOf(x), x.usd), pending := s.pending - multiset{x})
    case CrashWrite(x) => s.(pending := s.pending - multiset{x}, torn := s.torn + {x})
    case RollTotals =>
      s.(daily := Rollup(s.daily, s.events), torn := (set x | x in s.torn && !IsTotal(x)), loop := TotalsRolled(s.clock))
    case RollModels =>
      s.(daily := Rollup(s.daily, s.models), torn := (set x | x in s.torn && IsTotal(x)),
         loop := Rolled(if s.loop.TotalsRolled? then s.loop.at1 else 0, s.clock))
    case PruneEvents =>
      s.(events := Prune(s.events, s.clock - p.retention), loop := EventsPruned(if s.loop.Rolled? then s.loop.at2 else 0))
    case PruneModels => s.(models := Prune(s.models, s.clock - p.retention), loop := Idle)
    case LoopFails => s.(loop := Idle)
  }

  function Exec(p: Timing, s: State, steps: seq<Step>): State {
    if steps == [] then s else Do(p, Exec(p, s, steps[..|steps| - 1]), steps[|steps| - 1])
  }

  ghost predicate Allowed(p: Timing, s: State, steps: seq<Step>) {
    steps == [] ||
    (Allowed(p, s, steps[..|steps| - 1]) && Enabled(p, Exec(p, s, steps[..|steps| - 1]), steps[|steps| - 1]))
  }

  ghost predicate Stored(s: State, x: Snapshot) {
    x in (if IsTotal(x) then s.events else s.models)
  }

  /** No spend is lost: every snapshot is in its raw table or bounded by its `cost_daily` row. */
  ghost predicate NothingLost(s: State) {
    forall x :: x in s.history ==> Stored(s, x) || Covered(s.daily, x)
  }

  /** Every snapshot stamped before `t` is in the index. */
  ghost predicate RolledUpTo(s: State, total: bool, t: int) {
    forall x :: x in s.history && IsTotal(x) == total ==> x.ts >= t || Covered(s.daily, x)
  }

  ghost predicate Inv(p: Timing, s: State) {
    && (forall x :: x in s.events ==> x in s.history && IsTotal(x))
    && (forall x :: x in s.models ==> x in s.history && !IsTotal(x))
    && NothingLost(s)
    && (forall k :: k in s.daily ==> exists x :: x in s.history && KeyOf(x) == k && x.usd == s.daily[k])
    && (forall x :: x in s.history ==> Covered(s.daily, x) || x in s.pending || x in s.torn)
    && (match s.loop
        case Idle => true
        case TotalsRolled(t1) => t1 <= s.clock && RolledUpTo(s, true, t1 - p.lag)
        case Rolled(t1, t2) => t1 <= s.clock && t2 <= s.clock && RolledUpTo(s, true, t1 - p.lag) && RolledUpTo(s, false, t2 - p.lag)
        case EventsPruned(t2) => t2 <= s.clock && RolledUpTo(s, false, t2 - p.lag))
  }

  /** What no step ever undoes: history only grows and index rows never fall. */
  ghost predicate Grows(s: State, t: State) {
    && (forall x :: x in s.history ==> x in t.history)
    && (forall k :: k in s.daily ==> k in t.daily && t.daily[k] >= s.daily[k])
  }

  lemma StepGrows(p: Timing, s: State, step: Step)
    ensures Grows(s, Do(p, s, step))
    ensures forall x :: Covered(s.daily, x) ==> Covered(Do(p, s, step).daily, x)
  {
    RollupCovers(s.daily, s.events);
    RollupCovers(s.daily, s.models);
  }

  lemma InsertKeepsInv(p: Timing, s: State, x: Snapshot)
    requires Inv(p, s) && Enabled(p, s, InsertRaw(x))
    ensures Inv(p, Do(p, s, InsertRaw(x)))
  {
    var t := Do(p, s, InsertRaw(x));
    assert x in t.history && x in t.pending && Stored(t, x);
    assert forall y :: y in t.history <==> y in s.history || y == x;
    assert forall y :: y in s.history && Stored(s, y) ==> Stored(t, y);
  }

  lemma WriteKeepsInv(p: Timing, s: State, step: Step)
    requires Inv(p, s) && Enabled(p, s, step) && (step.FinishWrite? || step.CrashWrite?)
    requires step.FinishWrite? ==> step.x in s.history
    ensures Inv(p, Do(p, s, step))
  {
    StepGrows(p, s, step);
    var t := Do(p, s, step);
    assert step.FinishWrite? ==> Covered(t.daily, step.x);
    assert forall y :: y in s.pending ==> y in t.pending || y == step.x;
  }

  lemma RollKeepsInv(p: Timing, s: State, step: Step)
    requires Inv(p, s) && Enabled(p, s, step) && (step.RollTotals? || step.RollModels?)
    ensures Inv(p, Do(p, s, step))
    ensures forall x :: x in s.history && IsTotal(x) == step.RollTotals? ==> Covered(Do(p, s, step).daily, x)
  {
    StepGrows(p, s, step);
    RollupCovers(s.daily, if step.RollTotals? then s.events else s.models);
  }

  lemma PruneKeepsInv(p: Timing, s: State, step: Step)
    requires p.lag + p.gap <= p.retention
    requires Inv(p, s) && Enabled(p, s, step) && (step.PruneEvents? || step.PruneModels?)
    ensures Inv(p, Do(p, s, step))
  {
    PruneKeeps(if step.PruneEvents? then s.events else s.models, s.clock - p.retention);
  }

  lemma {:induction false} RunKeepsInv(p: Timing, steps: seq<Step>)
    requires p.lag + p.gap <= p.retention && Allowed(p, INIT, steps)
    ensures Inv(p, Exec(p, INIT, steps))
    ensures forall x :: x in Exec(p, INIT, steps).pending ==> x in Exec(p, INIT, steps).history
  {
    if steps != [] {
      var init, step := steps[..|steps| - 1], steps[|steps| - 1];
      RunKeepsInv(p, init);
      var s := Exec(p, INIT, init);
      match step
      case InsertRaw(x) => InsertKeepsInv(p, s, x);
      case FinishWrite(_) => WriteKeepsInv(p, s, step);
      case CrashWrite(_) => WriteKeepsInv(p, s, step);
      case RollTotals => RollKeepsInv(p, s, step);
      case RollModels => RollKeepsInv(p, s, step);
      case PruneEvents => PruneKeepsInv(p, s, step);
      case PruneModels => PruneKeepsInv(p, s, step);
      case Tick(_) =>
      case LoopFails =>
    }
  }

  /** A run that loses spend when pruning may come too late: a write stamped `lag` ago is torn just
      after the rollup and deleted `gap` later. */
  function LosingRun(p: Timing): seq<Step> {
    var x := LostSnapshot(p);
    [RollTotals, RollModels, InsertRaw(x), CrashWrite(x), Tick(p.gap), PruneEvents]
  }

  function LostSnapshot(p: Timing): Snapshot {
    Snapshot("agent", AGENT_TOTAL, 0 - p.lag, 1.0)
  }

  lemma OneMore(p: Timing, steps: seq<Step>, step: Step)
    ensures Exec(p, INIT, steps + [step]) == Do(p, Exec(p, INIT, steps), step)
    ensures Allowed(p, INIT, steps + [step]) == (Allowed(p, INIT, steps) && Enabled(p, Exec(p, INIT, steps), step))
  {
    assert (steps + [step])[..|steps|] == steps;
  }

  lemma RolledWhileEmpty(p: Timing)
    ensures Allowed(p, INIT, [RollTotals, RollModels])
    ensures Exec(p, INIT, [RollTotals, RollModels]) == INIT.(loop := Rolled(0, 0))
  {
    OneMore(p, [], RollTotals);
    OneMore(p, [RollTotals], RollModels);
    assert [] + [RollTotals] == [RollTotals] && [RollTotals] + [RollModels] == [RollTotals, RollModels];
    assert Rollup(map[], []) == map[];
    assert (set x | x in INIT.torn && !IsTotal(x)) == {} == (set x | x in INIT.torn && IsTotal(x));
  }

  lemma TornAfterRollup(p: Timing)
    ensures var x := LostSnapshot(p);
      var run := [RollTotals, RollModels] + [InsertRaw(x)] + [CrashWrite(x)];
      Allowed(p, INIT, run) && Exec(p, INIT, run) == State([x], [], map[], 0, multiset{}, {x}, Rolled(0, 0), [x])
  {
    var x := LostSnapshot(p);
    RolledWhileEmpty(p);
    OneMore(p, [RollTotals, RollModels], InsertRaw(x));
    OneMore(p, [RollTotals, RollModels] + [InsertRaw(x)], CrashWrite(x));
  }

  lemma LosingRunLoses(p: Timing)
    requires p.lag + p.gap > p.retention
    ensures Allowed(p, INIT, LosingRun(p))
    ensures !NothingLost(Exec(p, INIT, LosingRun(p)))
  {
    hide Exec, Allowed;
    var x := LostSnapshot(p);
    TornAfterRollup(p);
    var run := [RollTotals, RollModels] + [InsertRaw(x)] + [CrashWrite(x)];
    OneMore(p, run, Tick(p.gap));
    OneMore(p, run + [Tick(p.gap)], PruneEvents);
    LateDeleteLoses(p, Exec(p, INIT, run));
    assert LosingRun(p) == run + [Tick(p.gap)] + [PruneEvents];
  }

  lemma LateDeleteLoses(p: Timing, s: State)
    requires p.lag + p.gap > p.retention
    requires s == State([LostSnapshot(p)], [], map[], 0, multiset{}, {LostSnapshot(p)}, Rolled(0, 0), [LostSnapshot(p)])
    ensures Enabled(p, s, Tick(p.gap)) && Enabled(p, Do(p, s, Tick(p.gap)), PruneEvents)
    ensures !NothingLost(Do(p, Do(p, s, Tick(p.gap)), PruneEvents))
  {
    var t := Do(p, Do(p, s, Tick(p.gap)), PruneEvents);
    PruneKeeps(s.events, p.gap - p.retention);
    assert LostSnapshot(p) in t.history && !Stored(t, LostSnapshot(p)) && !Covered(t.daily, LostSnapshot(p));
  }

  /** No interleaving and no crash ever loses spend, exactly when a stamp's lag plus the delay from
      a rollup to its deletes fit in the retention span. */
  lemma NoSpendLostExactly(p: Timing)
    ensures (forall steps :: Allowed(p, INIT, steps) ==> NothingLost(Exec(p, INIT, steps))) <==> p.lag + p.gap <= p.retention
  {
    if p.lag + p.gap <= p.retention {
      forall steps | Allowed(p, INIT, steps)
        ensures NothingLost(Exec(p, INIT, steps))
      {
        RunKeepsInv(p, steps);
      }
    } else {
      LosingRunLoses(p);
    }
  }

  lemma AgreesWhenCovered(daily: Daily, history: seq<Snapshot>, k: Key)
    requires forall x :: x in history && KeyOf(x) == k ==> Covered(daily, x)
    requires k in daily ==> exists x :: x in history && KeyOf(x) == k && x.usd == daily[k]
    ensures SameAt(daily, DailyOf(history), k)
  {
    if k in Groups(history) {
      var x :| x in history && KeyOf(x) == k;
      GroupMaxIsGreatest(history, k);
    }
  }

  /** Once no write is half done, the index is the maximum over all snapshots ever recorded,
      whatever the order of writes, rollups, prunes and crashes. */
  lemma IndexAgrees(p: Timing, steps: seq<Step>)
    requires p.lag + p.gap <= p.retention && Allowed(p, INIT, steps)
    requires var s := Exec(p, INIT, steps); s.pending == multiset{} && s.torn == {}
    ensures var s := Exec(p, INIT, steps);
      && s.daily == DailyOf(s.history)
      && (forall k :: k in s.daily <==> Recorded(s.history, k))
      && (forall k :: k in s.daily ==> Greatest(s.history, k, s.daily[k]))
  {
    hide Exec, Allowed, DailyOf, Recorded, Greatest;
    var s := Exec(p, INIT, steps);
    RunKeepsInv(p, steps);
    AgreesEverywhere(s.daily, s.history);
    DailyIsGreatest(s.history);
  }

  /** `usd` is the greatest snapshot ever taken by this agent for this model on this day. */
  ghost predicate Greatest(history: seq<Snapshot>, k: Key, usd: real) {
    && (exists x :: x in history && TakenOn(x, k) && x.usd == usd)
    && (forall x :: x in history && TakenOn(x, k) ==> x.usd <= usd)
  }

  ghost predicate Recorded(history: seq<Snapshot>, k: Key) {
    exists x :: x in history && TakenOn(x, k)
  }

  lemma DailyIsGreatest(history: seq<Snapshot>)
    ensures forall k :: k in DailyOf(history) <==> Recorded(history, k)
    ensures forall k :: k in DailyOf(history) ==> Greatest(history, k, DailyOf(history)[k])
  {
    forall k: Key
      ensures k in DailyOf(history) <==> Recorded(history, k)
      ensures k in DailyOf(history) ==> Greatest(history, k, DailyOf(history)[k])
    {
      KeysAreDays(k);
      hide KeyOf, TakenOn;
      if k in DailyOf(history) {
        GroupMaxIsGreatest(history, k);
      }
    }
  }

  lemma KeysAreDays(k: Key)
    ensures forall x :: KeyOf(x) == k <==> TakenOn(x, k)
  {
    forall x: Snapshot
      ensures KeyOf(x) == k <==> TakenOn(x, k)
    {
      KeyIsDay(x, k);
    }
  }

  lemma AgreesEverywhere(daily: Daily, history: seq<Snapshot>)
    requires forall x :: x in history ==> Covered(daily, x)
    requires forall k :: k in daily ==> exists x :: x in history && KeyOf(x) == k && x.usd == daily[k]
    ensures daily == DailyOf(history)
  {
    forall k: Key
      ensures SameAt(daily, DailyOf(history), k)
    {
      AgreesWhenCovered(daily, history, k);
    }
    var simple := DailyOf(history);
    assert forall k :: k in daily <==> k in simple by {
      forall k: Key
        ensures k in daily <==> k in simple
      {
        assert SameAt(daily, simple, k);
      }
    }
    forall k | k in daily
      ensures daily[k] == simple[k]
    {
      assert SameAt(daily, simple, k);
    }
  }

  /** A rollup statement makes the index right for its table again, even with writes in flight or torn. */
  lemma RollupRepairs(p: Timing, steps: seq<Step>, step: Step, k: Key)
    requires p.lag + p.gap <= p.retention && Allowed(p, INIT, steps + [step]) && (step.RollTotals? || step.RollModels?)
    requires (k.model == AGENT_TOTAL) == step.RollTotals?
    ensures var s := Exec(p, INIT, steps + [step]); SameAt(s.daily, DailyOf(s.history), k)
  {
    assert (steps + [step])[..|steps|] == steps;
    RunKeepsInv(p, steps);
    var s := Exec(p, INIT, steps);
    RollKeepsInv(p, s, step);
    var t := Do(p, s, step);
    AgreesWhenCovered(t.daily, t.history, k);
  }

  // ---------- the read queries ----------

  /** cost_series: the agent-total rows after `cutoff`. */
  function CostSeries(daily: Daily, cutoff: int): map<Key, real> {
    map k | k in daily && k.model == AGENT_TOTAL && k.day > cutoff :: daily[k]
  }

  /** One window of cost_windows: an agent's total spend on the days after `cutoff`. */
  ghost function CostWindow(daily: Daily, agent: string, cutoff: int): real {
    Sums.Total(map k | k in CostSeries(daily, cutoff) && k.agent == agent :: daily[k])
  }

  /** cost_model_daily: spend of one model on one day, summed over agents. */
  ghost function CostModelDaily(daily: Daily, model: string, day: int): real {
    Sums.Total(map k | k in daily && k.model == model && k.day == day :: daily[k])
  }

  /** What the series of a right index shows: a row for each agent and day after the cutoff with an agent total,
      holding the greatest one. */
  ghost predicate SeriesOfHistory(series: map<Key, real>, history: seq<Snapshot>, cutoff: int) {
    && (forall k :: k in series <==> k.model == "" && k.day > cutoff && Recorded(history, k))
    && (forall k :: k in series ==> Greatest(history, k, series[k]))
  }

  lemma SeriesIsHistory(history: seq<Snapshot>, cutoff: int)
    ensures SeriesOfHistory(CostSeries(DailyOf(history), cutoff), history, cutoff)
  {
    DailyIsGreatest(history);
    hide DailyOf, Recorded, Greatest;
  }

  /** With no write half done, the series is the never-pruned history's. */
  lemma SeriesMatchesHistory(p: Timing, steps: seq<Step>, cutoff: int)
    requires p.lag + p.gap <= p.retention && Allowed(p, INIT, steps)
    requires var s := Exec(p, INIT, steps); s.pending == multiset{} && s.torn == {}
    ensures var s := Exec(p, INIT, steps); SeriesOfHistory(CostSeries(s.daily, cutoff), s.history, cutoff)
  {
    hide Exec, Allowed, CostSeries, SeriesOfHistory;
    IndexAgrees(p, steps);
    SeriesIsHistory(Exec(p, INIT, steps).history, cutoff);
  }

  lemma WindowPerDay(daily: Daily, agent: string, cutoff: int) returns (perDay: map<int, real>)
    ensures CostWindow(daily, agent, cutoff) == Sums.Total(perDay)
    ensures forall day :: day in perDay <==> day > cutoff && Key(agent, AGENT_TOTAL, day) in daily
    ensures forall day :: day in perDay ==> perDay[day] == daily[Key(agent, AGENT_TOTAL, day)]
  {
    hide Sums.Total;
    var rows := map k | k in CostSeries(daily, cutoff) && k.agent == agent :: daily[k];
    perDay := map k | k in rows :: k.day := rows[k];
    Sums.TotalRenamed(rows, (k: Key) => k.day, perDay);
  }

  lemma ModelPerAgent(daily: Daily, model: string, day: int) returns (perAgent: map<string, real>)
    ensures CostModelDaily(daily, model, day) == Sums.Total(perAgent)
    ensures forall agent :: agent in perAgent <==> Key(agent, model, day) in daily
    ensures forall agent :: agent in perAgent ==> perAgent[agent] == daily[Key(agent, model, day)]
  {
    hide Sums.Total;
    var rows := map k | k in daily && k.model == model && k.day == day :: daily[k];
    perAgent := map k | k in rows :: k.agent := rows[k];
    Sums.TotalRenamed(rows, (k: Key) => k.agent, perAgent);
  }

  /** With no write half done, a window is the sum, over the days after the cutoff on which the agent has a
      snapshot, pruned or not, of that day's greatest one. */
  lemma WindowsMatchHistory(p: Timing, steps: seq<Step>, agent: string, cutoff: int) returns (perDay: map<int, real>)
    requires p.lag + p.gap <= p.retention && Allowed(p, INIT, steps)
    requires var s := Exec(p, INIT, steps); s.pending == multiset{} && s.torn == {}
    ensures var s := Exec(p, INIT, steps);
      && CostWindow(s.daily, agent, cutoff) == Sums.Total(perDay)
      && (forall day :: day in perDay <==> day > cutoff && Recorded(s.history, Key(agent, "", day)))
      && (forall day :: day in perDay ==> Greatest(s.history, Key(agent, "", day), perDay[day]))
  {
    hide Exec, Allowed, CostWindow, Greatest, Recorded;
    IndexAgrees(p, steps);
    var history := Exec(p, INIT, steps).history;
    DailyIsGreatest(history);
    perDay := WindowPerDay(DailyOf(history), agent, cutoff);
  }

  /** With no write half done, the spend of a model on a day is the sum, over the agents that have a snapshot of it,
      pruned or not, of each agent's greatest one. */
  lemma ModelReadsMatchHistory(p: Timing, steps: seq<Step>, model: string, day: int) returns (perAgent: map<string, real>)
    requires p.lag + p.gap <= p.retention && Allowed(p, INIT, steps)
    requires var s := Exec(p, INIT, steps); s.pending == multiset{} && s.torn == {}
    ensures var s := Exec(p, INIT, steps);
      && CostModelDaily(s.daily, model, day) == Sums.Total(perAgent)
      && (forall agent :: agent in perAgent <==> Recorded(s.history, Key(agent, model, day)))
      && (forall agent :: agent in perAgent ==> Greatest(s.history, Key(agent, model, day), perAgent[agent]))
  {
    hide Exec, Allowed, CostModelDaily, Greatest, Recorded;
    IndexAgrees(p, steps);
    var history := Exec(p, INIT, steps).history;
    DailyIsGreatest(history);
    perAgent := ModelPerAgent(DailyOf(history), model, day);
  }

  /** The raw tables hold their own kind of row only. */
  ghost predicate RightTables(s: State) {
    (forall x :: x in s.events ==> IsTotal(x)) && (forall x :: x in s.models ==> !IsTotal(x))
  }

  lemma StepKeepsTables(p: Timing, s: State, step: Step)
    requires RightTables(s)
    ensures RightTables(Do(p, s, step))
  {
    hide Rollup, Upsert, Prune;
    PruneKeeps(s.events, s.clock - p.retention);
    PruneKeeps(s.models, s.clock - p.retention);
  }

  /** Whatever the timing. */
  lemma {:induction false} TablesHoldTheirOwn(p: Timing, steps: seq<Step>)
    ensures RightTables(Exec(p, INIT, steps))
  {
    hide Do;
    if steps != [] {
      TablesHoldTheirOwn(p, steps[..|steps| - 1]);
      StepKeepsTables(p, Exec(p, INIT, steps[..|steps| - 1]), steps[|steps| - 1]);
    }
  }

  /** A per-model write or rollup never touches an agent-total row, and the other way round. */
  lemma TablesDoNotMix(p: Timing, steps: seq<Step>, step: Step, k: Key)
    requires match step
      case FinishWrite(x) => IsTotal(x) != (k.model == AGENT_TOTAL)
      case RollTotals => k.model != AGENT_TOTAL
      case RollModels => k.model == AGENT_TOTAL
      case _ => true
    ensures SameAt(Exec(p, INIT, steps).daily, Exec(p, INIT, steps + [step]).daily, k)
  {
    assert (steps + [step])[..|steps|] == steps;
    TablesHoldTheirOwn(p, steps);
    var s := Exec(p, INIT, steps);
    RollupCovers(s.daily, s.events);
    RollupCovers(s.daily, s.models);
  }
}
