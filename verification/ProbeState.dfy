/**
 Cross-sweep probe memory: failure streaks of agent endpoints and restart counts of
 containers, kept in one table row per target, and the signals built from them.
 */
module ProbeState {
  import opened Wrappers

  datatype Row = Row(failStreak: nat, lastRestart: Option<int>, updatedAt: real)

  type Table = map<string, Row>

  datatype Event =
    | Endpoint(target: string, ok: bool, at: real)
    | Restart(target: string, count: int, at: real)
    | Prune(at: real, days: int)

  // ---------- one statement ----------

  predicate TooOld(seen: real, at: real, days: int) {
    days > 0 && seen < at - days as real * 86400.0
  }

  predicate Expired(row: Row, at: real, days: int) {
    TooOld(row.updatedAt, at, days)
  }

  function Apply(rows: Table, e: Event): Table {
    match e
    case Endpoint(t, ok, at) =>
      if t in rows then rows[t := rows[t].(failStreak := if ok then 0 else rows[t].failStreak + 1, updatedAt := at)]
      else rows[t := Row(if ok then 0 else 1, None, at)]
    case Restart(t, count, at) =>
      if t in rows then rows[t := rows[t].(lastRestart := Some(count), updatedAt := at)]
      else rows[t := Row(0, Some(count), at)]
    case Prune(at, days) => map t | t in rows && !Expired(rows[t], at, days) :: rows[t]
  }

  function StreakIn(rows: Table, t: string): nat {
    if t in rows then rows[t].failStreak else 0
  }

  function RestartIn(rows: Table, t: string): Option<int> {
    if t in rows then rows[t].lastRestart else None
  }

  // ---------- signals ----------

  datatype EndpointResult = EndpointResult(healthzOk: bool, ready: Option<bool>, failedChecks: seq<string>, latency: Option<real>)

  datatype ContainerState = ContainerState(status: string, oomKilled: bool, restartCount: int, health: Option<string>)

  /** What a sweep finds out about a watched container: not running under its name, not readable, or its state. */
  datatype Inspection = Missing | Failed | Found(state: ContainerState)

  /** A container that is missing or cannot be inspected gets a placeholder state with restart count 0. */
  function StateOf(what: Inspection): ContainerState {
    match what
    case Missing => ContainerState("missing", false, 0, None)
    case Failed => ContainerState("unknown", false, 0, None)
    case Found(state) => state
  }

  datatype Signal =
    | AgentDown(streak: nat)
    | AgentNotReady(check: string)
    | AgentSlow
    | ContainerOom
    | CrashLoop(delta: int)
    | ContainerDown
    | ContainerUnhealthy

  /** A failed health check is reported only once the streak is long enough, and alone; an unready
      agent gets one signal per failed check; only a healthy, ready agent can be slow. */
  method EndpointToSignals(r: EndpointResult, slowThreshold: real, failStreak: nat, failStreakToAlert: int)
    returns (signals: seq<Signal>)
    ensures signals ==
      if !r.healthzOk then (if failStreak >= failStreakToAlert then [AgentDown(failStreak)] else [])
      else if r.ready == Some(false) then NotReady(if r.failedChecks == [] then ["unknown"] else r.failedChecks)
      else if r.latency.Some? && r.latency.value > slowThreshold then [AgentSlow]
      else []
  {
    signals := [];
    if !r.healthzOk {
      if failStreak >= failStreakToAlert {
        signals := signals + [AgentDown(failStreak)];
      }
      return;
    }
    if r.ready == Some(false) {
      var checks := if r.failedChecks == [] then ["unknown"] else r.failedChecks;
      var i := 0;
      while i < |checks|
        invariant 0 <= i <= |checks| && signals == NotReady(checks[..i])
      {
        assert checks[..i + 1] == checks[..i] + [checks[i]];
        signals := signals + [AgentNotReady(checks[i])];
        i := i + 1;
      }
      assert checks[..i] == checks;
      return;
    }
    if r.latency.Some? && r.latency.value > slowThreshold {
      signals := signals + [AgentSlow];
    }
  }

  /** One signal for each failed check, in order. */
  function NotReady(checks: seq<string>): (s: seq<Signal>)
    ensures |s| == |checks| && forall i :: 0 <= i < |s| ==> s[i] == AgentNotReady(checks[i])
  {
    seq(|checks|, i requires 0 <= i < |checks| => AgentNotReady(checks[i]))
  }

  function Crashes(prev: Option<int>, count: int, threshold: int): bool {
    prev.Some? && count - prev.value >= threshold
  }

  method ContainerToSignals(prev: Option<int>, cur: ContainerState, restartLoopThreshold: int) returns (signals: seq<Signal>)
    ensures ContainerOom in signals <==> cur.oomKilled
    ensures forall d :: CrashLoop(d) in signals <==>
      Crashes(prev, cur.restartCount, restartLoopThreshold) && d == cur.restartCount - prev.value
    ensures ContainerDown in signals <==> cur.status in {"exited", "dead", "missing"}
    ensures ContainerUnhealthy in signals <==> ContainerDown !in signals && cur.health == Some("unhealthy")
    ensures |signals| <= 3
  {
    signals := [];
    if cur.oomKilled {
      signals := signals + [ContainerOom];
    }
    if prev.Some? {
      var delta := cur.restartCount - prev.value;
      if delta >= restartLoopThreshold {
        signals := signals + [CrashLoop(delta)];
      }
    }
    if cur.status in {"exited", "dead", "missing"} {
      signals := signals + [ContainerDown];
    } else if cur.health == Some("unhealthy") {
      signals := signals + [ContainerUnhealthy];
    }
  }

  /** A prune deletes exactly the rows not updated for more than so many days; with no days it deletes none. */
  lemma PruneIs(rows: Table, at: real, days: int)
    ensures forall t :: t in Apply(rows, Prune(at, days)) <==>
      t in rows && !(days > 0 && at - rows[t].updatedAt > days as real * 86400.0)
    ensures forall t :: t in Apply(rows, Prune(at, days)) ==> Apply(rows, Prune(at, days))[t] == rows[t]
  {
  }

  // ---------- the store and the sweep ----------

  class ProbeStateStore {
    var rows: Table
    ghost var events: seq<Event>

    ghost predicate Valid()
      reads this
    {
      rows == Rows(events)
    }

    constructor ()
      ensures Valid() && events == []
    {
      rows, events := map[], [];
    }

    method RecordEndpoint(target: string, ok: bool, now: real) returns (streak: nat)
      requires Valid()
      modifies this
      ensures Valid() && events == old(events) + [Endpoint(target, ok, now)]
      ensures streak == TrailingFailures(Results(events, target))
    {
      ghost var e := Endpoint(target, ok, now);
      OneMore(events, e);
      if target in rows {
        rows := rows[target := rows[target].(failStreak := if ok then 0 else rows[target].failStreak + 1, updatedAt := now)];
      } else {
        rows := rows[target := Row(if ok then 0 else 1, None, now)];
      }
      events := events + [e];
      StreakIsHistory(events, target);
      streak := rows[target].failStreak;
    }

    method RecordRestart(target: string, restartCount: int, now: real) returns (prev: Option<int>)
      requires Valid()
      modifies this
      ensures Valid() && events == old(events) + [Restart(target, restartCount, now)]
      ensures prev == var live := LiveCounts(old(events), target); if live == [] then None else Some(live[|live| - 1])
    {
      RestartIsLatest(events, target);
      ghost var e := Restart(target, restartCount, now);
      OneMore(events, e);
      prev := if target in rows then rows[target].lastRestart else None;
      if target in rows {
        rows := rows[target := rows[target].(lastRestart := Some(restartCount), updatedAt := now)];
      } else {
        rows := rows[target := Row(0, Some(restartCount), now)];
      }
      events := events + [e];
    }

    method PruneStale(retentionDays: int, now: real)
      requires Valid()
      modifies this
      ensures Valid() && events == old(events) + [Prune(now, retentionDays)]
      ensures forall t :: t in rows <==>
        t in old(rows) && !(retentionDays > 0 && now - old(rows)[t].updatedAt > retentionDays as real * 86400.0)
      ensures forall t :: t in rows ==> rows[t] == old(rows)[t]
    {
      hide Rows;
      ghost var e := Prune(now, retentionDays);
      OneMore(events, e);
      PruneIs(rows, now, retentionDays);
      if retentionDays > 0 {
        rows := map t | t in rows && !(rows[t].updatedAt < now - retentionDays as real * 86400.0) :: rows[t];
      }
      assert rows == Apply(old(rows), e);
      events := events + [e];
    }

    /** Record, then signal: the agent is reported down exactly when its last `failStreakToAlert`
        probes, this one included, all failed. */
    method SweepEndpoint(agent: string, r: EndpointResult, slowThreshold: real, failStreakToAlert: int, now: real)
      returns (signals: seq<Signal>)
      requires Valid()
      modifies this
      ensures Valid() && events == old(events) + [Endpoint("endpoint:" + agent, r.healthzOk, now)]
      ensures (exists s :: s in signals && s.AgentDown?) <==>
        LastFailed(Results(events, "endpoint:" + agent), if failStreakToAlert > 1 then failStreakToAlert else 1)
    {
      var streak := RecordEndpoint("endpoint:" + agent, r.healthzOk, now);
      signals := EndpointToSignals(r, slowThreshold, streak, failStreakToAlert);
      ghost var results := Results(events, "endpoint:" + agent);
      ghost var need: nat := if failStreakToAlert > 1 then failStreakToAlert else 1;
      StreakMeansLastFailed(results, need);
      LatestResult(old(events), Endpoint("endpoint:" + agent, r.healthzOk, now));
      if !r.healthzOk && streak >= failStreakToAlert {
        assert signals[0].AgentDown? && signals[0] in signals;
      }
    }

    method SweepContainer(name: string, what: Inspection, restartLoopThreshold: int, now: real) returns (signals: seq<Signal>)
      requires Valid()
      modifies this
      ensures Valid() && events == old(events) + [Restart("container:" + name, StateOf(what).restartCount, now)]
      ensures (exists s :: s in signals && s.CrashLoop?) <==>
        var live := LiveCounts(old(events), "container:" + name);
        live != [] && StateOf(what).restartCount - live[|live| - 1] >= restartLoopThreshold
      // a missing container is down; one that could not be inspected is neither down nor unhealthy nor out of memory
      ensures ContainerDown in signals <==> what == Missing || (what.Found? && what.state.status in {"exited", "dead", "missing"})
      ensures ContainerUnhealthy in signals <==>
        what.Found? && what.state.status !in {"exited", "dead", "missing"} && what.state.health == Some("unhealthy")
      ensures ContainerOom in signals <==> what.Found? && what.state.oomKilled
    {
      var st := StateOf(what);
      var prev := RecordRestart("container:" + name, st.restartCount, now);
      signals := ContainerToSignals(prev, st, restartLoopThreshold);
      if Crashes(prev, st.restartCount, restartLoopThreshold) {
        assert CrashLoop(st.restartCount - prev.value) in signals;
      }
    }
  }

  // ---------- histories ----------

  function Rows(events: seq<Event>): Table {
    if events == [] then map[] else Apply(Rows(events[..|events| - 1]), events[|events| - 1])
  }

  lemma OneMore(events: seq<Event>, e: Event)
    ensures Rows(events + [e]) == Apply(Rows(events), e)
  {
    assert (events + [e])[..|events|] == events;
  }

  /** When the target was last recorded, if its row has not been pruned since. */
  function Touched(events: seq<Event>, t: string): Option<real> {
    if events == [] then None else
      var past, e := Touched(events[..|events| - 1], t), events[|events| - 1];
      if e.Prune? then (if past.Some? && TooOld(past.value, e.at, e.days) then None else past)
      else if e.target == t then Some(e.at)
      else past
  }

  /** Results of the endpoint probes of `t`, oldest first, since its row was last pruned. */
  function Results(events: seq<Event>, t: string): seq<bool> {
    if events == [] then [] else
      var past, e := Results(events[..|events| - 1], t), events[|events| - 1];
      match e
      case Prune(_, _) => if Touched(events, t).None? then [] else past
      case Endpoint(u, ok, _) => if u == t then past + [ok] else past
      case Restart(_, _, _) => past
  }

  /** Length of the trailing run of failures. */
  function TrailingFailures(results: seq<bool>): nat {
    if results == [] || results[|results| - 1] then 0 else TrailingFailures(results[..|results| - 1]) + 1
  }

  ghost predicate LastFailed(results: seq<bool>, n: nat) {
    |results| >= n && forall i :: |results| - n <= i < |results| ==> !results[i]
  }

  /** The stored streak is the length of the trailing run of failed probes. */
  lemma {:induction false} StreakIsHistory(events: seq<Event>, t: string)
    ensures StreakIn(Rows(events), t) == TrailingFailures(Results(events, t))
    ensures Touched(events, t) == if t in Rows(events) then Some(Rows(events)[t].updatedAt) else None
    ensures t !in Rows(events) ==> Results(events, t) == []
  {
    if events != [] {
      hide TooOld;
      var init, e := events[..|events| - 1], events[|events| - 1];
      StreakIsHistory(init, t);
      match e
      case Endpoint(u, ok, _) =>
        assert (Results(init, t) + [ok])[..|Results(init, t)|] == Results(init, t);
      case Restart(_, _, _) =>
      case Prune(_, _) =>
    }
  }

  lemma {:induction false} StreakMeansLastFailed(results: seq<bool>, n: nat)
    ensures TrailingFailures(results) >= n <==> LastFailed(results, n)
  {
    if results != [] && !results[|results| - 1] && n > 0 {
      var init := results[..|results| - 1];
      StreakMeansLastFailed(init, n - 1);
      if LastFailed(init, n - 1) {
        assert forall i :: |results| - n <= i < |init| ==> results[i] == init[i];
      }
      if LastFailed(results, n) {
        assert forall i :: |init| - (n - 1) <= i < |init| ==> results[i] == init[i];
      }
    }
  }

  lemma LatestResult(events: seq<Event>, e: Event)
    requires e.Endpoint?
    ensures Results(events + [e], e.target) == Results(events, e.target) + [e.ok]
  {
    assert (events + [e])[..|events|] == events;
  }

  /** Every restart count recorded for `t`, oldest first, pruned or not. */
  function Counts(events: seq<Event>, t: string): seq<int> {
    if events == [] then [] else
      var past, e := Counts(events[..|events| - 1], t), events[|events| - 1];
      if e.Restart? && e.target == t then past + [e.count] else past
  }

  /** Crash-loop signals raised for `t`. */
  function CrashSignals(events: seq<Event>, t: string, threshold: int): nat {
    if events == [] then 0 else
      var init, e := events[..|events| - 1], events[|events| - 1];
      CrashSignals(init, t, threshold)
      + if e.Restart? && e.target == t && Crashes(RestartIn(Rows(init), t), e.count, threshold) then 1 else 0
  }

  /** How much the counts ever fell, in all. */
  function Drops(counts: seq<int>): nat {
    if |counts| < 2 then 0 else
      var a, b := counts[|counts| - 2], counts[|counts| - 1];
      Drops(counts[..|counts| - 1]) + if a > b then a - b else 0
  }

  /** The restart counts of `t` recorded since its row was last pruned. */
  function LiveCounts(events: seq<Event>, t: string): seq<int> {
    if events == [] then [] else
      var past, e := LiveCounts(events[..|events| - 1], t), events[|events| - 1];
      match e
      case Prune(_, _) => if Touched(events, t).None? then [] else past
      case Restart(u, count, _) => if u == t then past + [count] else past
      case Endpoint(_, _, _) => past
  }

  /** The stored count is the latest one recorded since the row was last pruned, if any. */
  lemma {:induction false} RestartIsLatest(events: seq<Event>, t: string)
    ensures var live, all := LiveCounts(events, t), Counts(events, t);
      && RestartIn(Rows(events), t) == (if live == [] then None else Some(live[|live| - 1]))
      && (live != [] ==> all != [] && all[|all| - 1] == live[|live| - 1])
  {
    if events != [] {
      hide TooOld;
      var init, e := events[..|events| - 1], events[|events| - 1];
      RestartIsLatest(init, t);
      StreakIsHistory(events, t);
      match e
      case Endpoint(_, _, _) =>
      case Restart(_, _, _) =>
      case Prune(_, _) =>
    }
  }

  /** `k` times the threshold. */
  function Times(k: nat, threshold: int): int {
    if k == 0 then 0 else Times(k - 1, threshold) + threshold
  }

  lemma {:induction false} TimesIsProduct(k: nat, threshold: int)
    ensures Times(k, threshold) == k * threshold
  {
    if k > 0 {
      TimesIsProduct(k - 1, threshold);
    }
  }

  lemma {:induction false} CrashLoopTimes(events: seq<Event>, t: string, threshold: int)
    ensures var c, k := Counts(events, t), CrashSignals(events, t, threshold);
      if c == [] then k == 0 else Times(k, threshold) <= c[|c| - 1] - c[0] + Drops(c)
  {
    if events != [] {
      var init, e := events[..|events| - 1], events[|events| - 1];
      CrashLoopTimes(init, t, threshold);
      RestartIsLatest(init, t);
      var c := Counts(init, t);
      if e.Restart? && e.target == t {
        assert (c + [e.count])[..|c|] == c;
      }
    }
  }

  /** Crash-loop signals times the threshold are at most last count - first count plus every drop. */
  lemma CrashLoopBound(events: seq<Event>, t: string, threshold: int)
    ensures var c := Counts(events, t);
      if c == [] then CrashSignals(events, t, threshold) == 0
      else CrashSignals(events, t, threshold) * threshold <= c[|c| - 1] - c[0] + Drops(c)
  {
    CrashLoopTimes(events, t, threshold);
    TimesIsProduct(CrashSignals(events, t, threshold), threshold);
  }

  lemma {:induction false} NoDrops(counts: seq<int>)
    requires forall i :: 0 < i < |counts| ==> counts[i - 1] <= counts[i]
    ensures Drops(counts) == 0
  {
    if |counts| >= 2 {
      NoDrops(counts[..|counts| - 1]);
    }
  }

  /** When the counts never fall, crash-loop signals times the threshold are at most last - first. */
  lemma SteadyCrashLoopBound(events: seq<Event>, t: string, threshold: int)
    requires var c := Counts(events, t); c != [] && forall i :: 0 < i < |c| ==> c[i - 1] <= c[i]
    ensures var c := Counts(events, t); CrashSignals(events, t, threshold) * threshold <= c[|c| - 1] - c[0]
  {
    CrashLoopBound(events, t, threshold);
    NoDrops(Counts(events, t));
  }

  // ---------- sweeps that could not inspect a container ----------

  /** One thing that happens to the table, with what an inspection really found. */
  datatype Turn =
    | Inspected(target: string, what: Inspection, at: real)
    | Probed(target: string, ok: bool, at: real)
    | Cleaned(at: real, days: int)

  function EventOf(turn: Turn): Event {
    match turn
    case Inspected(t, what, at) => Restart(t, StateOf(what).restartCount, at)
    case Probed(t, ok, at) => Endpoint(t, ok, at)
    case Cleaned(at, days) => Prune(at, days)
  }

  function EventsOf(turns: seq<Turn>): seq<Event> {
    if turns == [] then [] else EventsOf(turns[..|turns| - 1]) + [EventOf(turns[|turns| - 1])]
  }

  /** The inspections of `t` since its row was last pruned. */
  function LiveInspections(turns: seq<Turn>, t: string): seq<Inspection> {
    if turns == [] then [] else
      var past, turn := LiveInspections(turns[..|turns| - 1], t), turns[|turns| - 1];
      match turn
      case Inspected(u, what, _) => if u == t then past + [what] else past
      case Probed(_, _, _) => past
      case Cleaned(_, _) => if Touched(EventsOf(turns), t).None? then [] else past
  }

  /** The restart count of the latest inspection of `t` that succeeded, pruned or not. */
  function LastGood(turns: seq<Turn>, t: string): Option<int> {
    if turns == [] then None else
      var turn := turns[|turns| - 1];
      if turn.Inspected? && turn.target == t && turn.what.Found? then Some(turn.what.state.restartCount)
      else LastGood(turns[..|turns| - 1], t)
  }

  /** The next sweep, finding `what`, reports a crash loop. */
  ghost predicate Alarmed(turns: seq<Turn>, t: string, what: Inspection, now: real, threshold: int) {
    CrashSignals(EventsOf(turns + [Inspected(t, what, now)]), t, threshold) == CrashSignals(EventsOf(turns), t, threshold) + 1
  }

  lemma OneMoreTurn(turns: seq<Turn>, turn: Turn)
    ensures EventsOf(turns + [turn]) == EventsOf(turns) + [EventOf(turn)]
    ensures EventsOf(turns + [turn])[..|EventsOf(turns)|] == EventsOf(turns)
  {
    assert (turns + [turn])[..|turns|] == turns;
  }

  lemma OneMoreSignal(events: seq<Event>, t: string, count: int, at: real, threshold: int)
    ensures CrashSignals(events + [Restart(t, count, at)], t, threshold)
         == CrashSignals(events, t, threshold) + if Crashes(RestartIn(Rows(events), t), count, threshold) then 1 else 0
  {
    assert (events + [Restart(t, count, at)])[..|events|] == events;
  }

  lemma {:induction false} LastLiveInspection(turns: seq<Turn>, t: string)
    ensures var live, counts := LiveInspections(turns, t), LiveCounts(EventsOf(turns), t);
      && (live == [] <==> counts == [])
      && (live != [] ==> counts[|counts| - 1] == StateOf(live[|live| - 1]).restartCount)
      && (live != [] && live[|live| - 1].Found? ==> LastGood(turns, t) == Some(counts[|counts| - 1]))
  {
    if turns != [] {
      hide Touched, EventsOf;
      var init := turns[..|turns| - 1];
      LastLiveInspection(init, t);
      OneMoreTurn(init, turns[|turns| - 1]);
      assert init + [turns[|turns| - 1]] == turns;
    }
  }

  /** When the next sweep reports a crash loop: the restart count is compared with the latest live record, and a
      sweep that could not inspect the container left the record 0. */
  lemma AlarmedExactly(turns: seq<Turn>, t: string, what: Inspection, now: real, threshold: int)
    ensures Alarmed(turns, t, what, now, threshold) <==>
      var live := LiveInspections(turns, t);
      live != [] && StateOf(what).restartCount - StateOf(live[|live| - 1]).restartCount >= threshold
  {
    hide CrashSignals, Rows, RestartIn, EventsOf, LiveCounts, LiveInspections, Counts;
    var events := EventsOf(turns);
    OneMoreTurn(turns, Inspected(t, what, now));
    OneMoreSignal(events, t, StateOf(what).restartCount, now, threshold);
    RestartIsLatest(events, t);
    LastLiveInspection(turns, t);
  }

  /** The crash-loop alarm is false, the count having risen by less than the threshold since the container was last
      inspected, exactly when the latest live record was left by a sweep that could not inspect it and
      the count has reached the threshold without having risen by it. */
  lemma FalseAlarmExactly(turns: seq<Turn>, t: string, state: ContainerState, now: real, threshold: int)
    requires LastGood(turns, t).Some?
    ensures var live, last, count := LiveInspections(turns, t), LastGood(turns, t).value, state.restartCount;
      Alarmed(turns, t, Found(state), now, threshold) && count - last < threshold <==>
      live != [] && !live[|live| - 1].Found? && last + threshold > count >= threshold
  {
    hide Alarmed;
    AlarmedExactly(turns, t, Found(state), now, threshold);
    LastLiveInspection(turns, t);
  }

  /** A real rise since the last good inspection goes unreported exactly when no live record is left to compare it
      with (or, with counts below zero, when the latest one is a placeholder the count has not risen above). */
  lemma MissedAlarmExactly(turns: seq<Turn>, t: string, state: ContainerState, now: real, threshold: int)
    requires LastGood(turns, t).Some? && state.restartCount - LastGood(turns, t).value >= threshold
    ensures var live := LiveInspections(turns, t);
      !Alarmed(turns, t, Found(state), now, threshold) <==>
      live == [] || (!live[|live| - 1].Found? && state.restartCount < threshold)
    ensures LastGood(turns, t).value >= 0 ==>
      (!Alarmed(turns, t, Found(state), now, threshold) <==> LiveInspections(turns, t) == [])
  {
    hide Alarmed;
    AlarmedExactly(turns, t, Found(state), now, threshold);
    LastLiveInspection(turns, t);
  }

  /** It does happen: a container seen with its threshold of restarts, then missed once, then seen unchanged. */
  lemma FalseAlarmHappens(t: string, state: ContainerState, at: real, now: real, threshold: int)
    requires state.restartCount >= threshold > 0
    ensures var turns := [Inspected(t, Found(state), at), Inspected(t, Failed, at)];
      LastGood(turns, t) == Some(state.restartCount) && Alarmed(turns, t, Found(state), now, threshold)
  {
    var first, second := Inspected(t, Found(state), at), Inspected(t, Failed, at);
    assert [first, second][..1] == [first] && [first][..0] == [];
    assert LastGood([first], t) == Some(state.restartCount);
    assert LiveInspections([first, second], t) == LiveInspections([first], t) + [Failed];
    FalseAlarmExactly([first, second], t, state, now, threshold);
  }
}
