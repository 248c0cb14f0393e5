/**
 The daily cost rollup: raw spend snapshots, the `cost_daily` index over them, and the
 loops that write and prune.

 Every SQL statement commits on its own, so a statement is one atomic step and a crash may
 fall between any two.  Times are seconds; a snapshot's `usd` is that day's spend so far.
 The two raw tables are told apart by the model of a row: "" is the agent total.
 */
module CostRollup {
  import opened Wrappers
  import Text

  /** A row of a raw table; `model` is "" in cost_events. */
  datatype Snapshot = Snapshot(agent: string, model: string, ts: int, usd: real)

  datatype Key = Key(agent: string, model: string, day: int)

  type Daily = map<Key, real>

  const AGENT_TOTAL := ""
  const UNKNOWN_MODEL := "unknown"
  const SECONDS_PER_DAY := 86400

  function Max(x: real, y: real): real {
    if x >= y then x else y
  }

  function DayOf(ts: int): int {
    ts / SECONDS_PER_DAY
  }

  function KeyOf(x: Snapshot): Key {
    Key(x.agent, x.model, DayOf(x.ts))
  }

  /** The snapshot was taken by this agent for this model in the 86400 seconds of this day. */
  predicate TakenOn(x: Snapshot, k: Key) {
    x.agent == k.agent && x.model == k.model && k.day * 86400 <= x.ts < (k.day + 1) * 86400
  }

  /** Every snapshot has one key, that of its agent, its model and the day it was taken on. */
  lemma KeyIsDay(x: Snapshot, k: Key)
    ensures KeyOf(x) == k <==> TakenOn(x, k)
  {
  }

  // ---------- the statements ----------

  /** INSERT ... ON CONFLICT DO UPDATE SET usd = GREATEST(...) */
  function Upsert(daily: Daily, k: Key, usd: real): Daily {
    daily[k := if k in daily then Max(daily[k], usd) else usd]
  }

  /** max(usd_today) over the rows with this key. */
  function GroupMax(rows: seq<Snapshot>, k: Key): real
    requires exists x :: x in rows && KeyOf(x) == k
  {
    var x, rest := rows[|rows| - 1], rows[..|rows| - 1];
    assert forall y :: y in rows ==> y == x || y in rest;
    if KeyOf(x) != k then GroupMax(rest, k)
    else if exists y :: y in rest && KeyOf(y) == k then Max(GroupMax(rest, k), x.usd)
    else x.usd
  }

  function Groups(rows: seq<Snapshot>): set<Key> {
    set x | x in rows :: KeyOf(x)
  }

  /** INSERT ... SELECT max(usd_today) ... GROUP BY ... ON CONFLICT ... GREATEST */
  function Rollup(daily: Daily, rows: seq<Snapshot>): Daily {
    map k | k in daily.Keys + Groups(rows) ::
      if k !in Groups(rows) then daily[k]
      else if k in daily then Max(daily[k], GroupMax(rows, k))
      else GroupMax(rows, k)
  }

  /** DELETE ... WHERE ts < cutoff */
  function Prune(rows: seq<Snapshot>, cutoff: int): seq<Snapshot> {
    if rows == [] then [] else
      Prune(rows[..|rows| - 1], cutoff) + if rows[|rows| - 1].ts < cutoff then [] else [rows[|rows| - 1]]
  }

  /** The simple thing the index must agree with: the greatest snapshot of each key. */
  function DailyOf(history: seq<Snapshot>): Daily {
    map k | k in Groups(history) :: GroupMax(history, k)
  }

  lemma {:induction false} GroupMaxIsGreatest(rows: seq<Snapshot>, k: Key)
    requires exists x :: x in rows && KeyOf(x) == k
    ensures forall x :: x in rows && KeyOf(x) == k ==> x.usd <= GroupMax(rows, k)
    ensures exists x :: x in rows && KeyOf(x) == k && x.usd == GroupMax(rows, k)
  {
    var x, rest := rows[|rows| - 1], rows[..|rows| - 1];
    assert forall y :: y in rows ==> y == x || y in rest;
    assert x in rows && forall y :: y in rest ==> y in rows;
    if exists y :: y in rest && KeyOf(y) == k {
      GroupMaxIsGreatest(rest, k);
    }
  }

  /** `after` has the rows of `before` that are not older than the cutoff, as often as they were there, and no others. */
  ghost predicate KeptSince(before: seq<Snapshot>, after: seq<Snapshot>, cutoff: int) {
    forall x :: multiset(after)[x] == if x.ts >= cutoff then multiset(before)[x] else 0
  }

  lemma {:induction false} PruneKeeps(rows: seq<Snapshot>, cutoff: int)
    ensures forall x :: x in Prune(rows, cutoff) <==> x in rows && x.ts >= cutoff
    ensures KeptSince(rows, Prune(rows, cutoff), cutoff)
  {
    if rows != [] {
      var init, last := rows[..|rows| - 1], rows[|rows| - 1];
      PruneKeeps(init, cutoff);
      assert rows == init + [last];
      assert forall x :: x in rows <==> x in init || x == last;
    }
  }

  // ---------- labels ----------

  /** str(model).strip() or "unknown": the upstream key without the space around it, unless there is nothing else. */
  function Label(model: string): (name: string)
    ensures name != ""
    ensures if forall i :: 0 <= i < |model| ==> Text.IsSpace(model[i]) then name == "unknown"
            else exists a: nat, b: nat :: a < b && Text.IsTrimOf(name, model, a, b)
  {
    LabelIs(model);
    var name := Text.Strip(model);
    if name != "" then name else UNKNOWN_MODEL
  }

  lemma LabelIs(model: string)
    ensures if forall i :: 0 <= i < |model| ==> Text.IsSpace(model[i]) then Text.Strip(model) == ""
            else exists a: nat, b: nat :: a < b && Text.IsTrimOf(Text.Strip(model), model, a, b)
  {
    hide Text.IsSpace;
    var a, b := Text.StripIsTrim(model);
    if a == b {
      assert forall i :: 0 <= i < |model| ==> Text.IsSpace(model[i]);
    }
  }

  // ---------- the store ----------

  class CostStore {
    var costEvents: seq<Snapshot>
    var costModelEvents: seq<Snapshot>
    var daily: Daily

    constructor ()
      ensures costEvents == [] && costModelEvents == [] && daily == map[]
    {
      costEvents, costModelEvents, daily := [], [], map[];
    }

    method RecordCost(agent: string, usdToday: Option<real>, ts: int)
      modifies this
      ensures var x := Snapshot(agent, AGENT_TOTAL, ts, if usdToday.Some? then usdToday.value else 0.0);
        costEvents == old(costEvents) + [x] && daily == Upsert(old(daily), KeyOf(x), x.usd)
      ensures costModelEvents == old(costModelEvents)
      // the row of the day gets the greater of the two amounts, and no other row changes
      ensures forall k: Key ::
        if k.agent == agent && k.model == "" && k.day * 86400 <= ts < (k.day + 1) * 86400 then
          k in daily && daily[k] == if k in old(daily) && old(daily)[k] > usdToday.GetOr(0.0) then old(daily)[k] else usdToday.GetOr(0.0)
        else SameAt(old(daily), daily, k)
    {
      var usd := if usdToday.Some? then usdToday.value else 0.0;
      costEvents := costEvents + [Snapshot(agent, AGENT_TOTAL, ts, usd)];
      daily := Upsert(daily, Key(agent, AGENT_TOTAL, DayOf(ts)), usd);
    }

    /** Per-model writes: one row and one upsert per model, and no agent-total row touched
        whatever the upstream keys are. */
    method RecordCostByModel(agent: string, byModel: seq<(string, Option<real>)>, ts: int)
      modifies this
      ensures costEvents == old(costEvents)
      ensures costModelEvents == old(costModelEvents) + ModelRows(agent, byModel, ts)
      ensures daily == UpsertAll(old(daily), ModelRows(agent, byModel, ts))
      ensures forall x :: x in ModelRows(agent, byModel, ts) ==> Covered(daily, x)
      ensures forall k: Key :: k.model == "" ==> SameAt(old(daily), daily, k)
    {
      UpsertAllCovers(daily, ModelRows(agent, byModel, ts));
      hide ModelRows, UpsertAll, Text.Strip, Text.IsSpace;
      var i := 0;
      assert ModelRows(agent, byModel[..0], ts) == [] && UpsertAll(daily, []) == daily by {
        NoRows(daily, agent, ts);
      }
      while i < |byModel|
        invariant 0 <= i <= |byModel|
        invariant costEvents == old(costEvents)
        invariant costModelEvents == old(costModelEvents) + ModelRows(agent, byModel[..i], ts)
        invariant daily == UpsertAll(old(daily), ModelRows(agent, byModel[..i], ts))
        invariant forall k: Key :: k.model == "" ==> SameAt(old(daily), daily, k)
      {
        var name := Label(byModel[i].0);
        var usd := if byModel[i].1.Some? then byModel[i].1.value else 0.0;
        OneMoreRow(old(daily), agent, byModel, i, ts);
        costModelEvents := costModelEvents + [Snapshot(agent, name, ts, usd)];
        daily := Upsert(daily, Key(agent, name, DayOf(ts)), usd);
        i := i + 1;
      }
      assert byModel[..i] == byModel;
    }

    /** Afterwards every raw row is accounted for; no index row fell, each shows its old value or that of a raw row
        of its key, and rows with nothing to roll up are as they were. */
    method RollupCostDaily()
      modifies this`daily
      ensures daily == Rollup(Rollup(old(daily), costEvents), costModelEvents)
      ensures forall x :: x in costEvents + costModelEvents ==> Covered(daily, x)
      ensures forall k :: k in old(daily) ==> k in daily && daily[k] >= old(daily)[k]
      ensures forall k :: k in daily ==> (k in old(daily) && daily[k] == old(daily)[k]) || ShownIn(costEvents + costModelEvents, k, daily[k])
      ensures forall k :: k !in Groups(costEvents + costModelEvents) ==> SameAt(old(daily), daily, k)
    {
      RollupTwice(daily, costEvents, costModelEvents);
      daily := Rollup(daily, costEvents);
      daily := Rollup(daily, costModelEvents);
    }

    /** The raw rows not older than the horizon stay, as often as they were there, and all others go. */
    method PruneOldData(days: int, now: int)
      modifies this`costEvents, this`costModelEvents
      ensures costEvents == Prune(old(costEvents), now - days * SECONDS_PER_DAY)
      ensures costModelEvents == Prune(old(costModelEvents), now - days * SECONDS_PER_DAY)
      ensures KeptSince(old(costEvents), costEvents, now - days * 86400)
      ensures KeptSince(old(costModelEvents), costModelEvents, now - days * 86400)
    {
      hide KeptSince, Prune;
      PruneKeeps(costEvents, now - days * SECONDS_PER_DAY);
      PruneKeeps(costModelEvents, now - days * SECONDS_PER_DAY);
      costEvents := Prune(costEvents, now - days * SECONDS_PER_DAY);
      costModelEvents := Prune(costModelEvents, now - days * SECONDS_PER_DAY);
    }

    /** One uninterrupted turn of the prune loop: whatever is deleted is in the index. */
    method PruneTurn(days: int, now: int)
      modifies this
      ensures daily == Rollup(Rollup(old(daily), old(costEvents)), old(costModelEvents))
      ensures costEvents == Prune(old(costEvents), now - days * SECONDS_PER_DAY)
      ensures costModelEvents == Prune(old(costModelEvents), now - days * SECONDS_PER_DAY)
      ensures forall x :: x in old(costEvents) || x in old(costModelEvents) ==> Covered(daily, x)
    {
      hide Rollup, Prune, Covered;
      RollupCostDaily();
      PruneOldData(days, now);
    }
  }

  /** Some row shows this value for this key. */
  ghost predicate ShownIn(rows: seq<Snapshot>, k: Key, usd: real) {
    exists x :: x in rows && KeyOf(x) == k && x.usd == usd
  }

  ghost predicate SameAt(a: Daily, b: Daily, k: Key) {
    (k in a <==> k in b) && (k in a ==> a[k] == b[k])
  }

  function ModelRows(agent: string, byModel: seq<(string, Option<real>)>, ts: int): (rows: seq<Snapshot>)
    ensures |rows| == |byModel|
  {
    if byModel == [] then [] else
      var (model, usd) := byModel[|byModel| - 1];
      ModelRows(agent, byModel[..|byModel| - 1], ts)
      + [Snapshot(agent, Label(model), ts, if usd.Some? then usd.value else 0.0)]
  }

  lemma NoRows(daily: Daily, agent: string, ts: int)
    ensures ModelRows(agent, [], ts) == [] && UpsertAll(daily, []) == daily
  {
  }

  lemma OneMoreRow(daily: Daily, agent: string, byModel: seq<(string, Option<real>)>, i: nat, ts: int)
    requires i < |byModel|
    ensures var usd := if byModel[i].1.Some? then byModel[i].1.value else 0.0;
      var x := Snapshot(agent, Label(byModel[i].0), ts, usd);
      && ModelRows(agent, byModel[..i + 1], ts) == ModelRows(agent, byModel[..i], ts) + [x]
      && UpsertAll(daily, ModelRows(agent, byModel[..i + 1], ts))
         == Upsert(UpsertAll(daily, ModelRows(agent, byModel[..i], ts)), KeyOf(x), x.usd)
  {
    assert byModel[..i + 1][..i] == byModel[..i];
    var rows := ModelRows(agent, byModel[..i + 1], ts);
    assert rows[..i] == ModelRows(agent, byModel[..i], ts);
  }

  function UpsertAll(daily: Daily, rows: seq<Snapshot>): Daily {
    if rows == [] then daily else
      var x := rows[|rows| - 1];
      Upsert(UpsertAll(daily, rows[..|rows| - 1]), KeyOf(x), x.usd)
  }

  /** The index already accounts for this snapshot. */
  ghost predicate Covered(daily: Daily, x: Snapshot) {
    KeyOf(x) in daily && daily[KeyOf(x)] >= x.usd
  }

  /** That is, the row of its agent, model and day shows at least as much. */
  lemma CoveredMeans(daily: Daily, x: Snapshot)
    ensures Covered(daily, x) <==> exists k :: k in daily && TakenOn(x, k) && daily[k] >= x.usd
  {
    KeyIsDay(x, KeyOf(x));
    forall k | TakenOn(x, k)
      ensures k == KeyOf(x)
    {
      KeyIsDay(x, k);
    }
  }

  /** What a per-model write inserts: a row for each entry, under its label, a null amount counting 0. */
  lemma {:induction false} ModelRowsAre(agent: string, byModel: seq<(string, Option<real>)>, ts: int, i: nat)
    requires i < |byModel|
    ensures ModelRows(agent, byModel, ts)[i] == Snapshot(agent, Label(byModel[i].0), ts, byModel[i].1.GetOr(0.0))
  {
    if i < |byModel| - 1 {
      ModelRowsAre(agent, byModel[..|byModel| - 1], ts, i);
    }
  }

  /** The upserts cover every row, lower nothing, invent nothing and touch no other key. */
  lemma {:induction false} UpsertAllCovers(daily: Daily, rows: seq<Snapshot>)
    ensures var d := UpsertAll(daily, rows);
      && (forall x :: x in rows ==> Covered(d, x))
      && (forall k :: k in daily ==> k in d && d[k] >= daily[k])
      && (forall k :: k in d ==> (k in daily && d[k] == daily[k]) || ShownIn(rows, k, d[k]))
  {
    if rows != [] {
      var init, last := rows[..|rows| - 1], rows[|rows| - 1];
      UpsertAllCovers(daily, init);
      assert rows == init + [last];
      var d := UpsertAll(daily, rows);
      forall k | k in d
        ensures (k in daily && d[k] == daily[k]) || ShownIn(rows, k, d[k])
      {
        if ShownIn(init, k, d[k]) {
          var x :| x in init && KeyOf(x) == k && x.usd == d[k];
          assert x in rows;
        } else {
          assert last in rows;
        }
      }
    }
  }

  lemma RollupCovers(daily: Daily, rows: seq<Snapshot>)
    ensures forall x :: x in rows ==> Covered(Rollup(daily, rows), x)
    ensures forall k :: k in daily ==> k in Rollup(daily, rows) && Rollup(daily, rows)[k] >= daily[k]
    ensures forall k :: k in Rollup(daily, rows) ==>
      || (k in daily && Rollup(daily, rows)[k] == daily[k])
      || ShownIn(rows, k, Rollup(daily, rows)[k])
    ensures forall k :: k !in Groups(rows) ==> SameAt(daily, Rollup(daily, rows), k)
  {
    forall k | k in Groups(rows)
      ensures exists x :: x in rows && KeyOf(x) == k
      ensures forall x :: x in rows && KeyOf(x) == k ==> x.usd <= GroupMax(rows, k)
      ensures ShownIn(rows, k, GroupMax(rows, k))
    {
      var x :| x in rows && KeyOf(x) == k;
      GroupMaxIsGreatest(rows, k);
    }
    forall x | x in rows
      ensures KeyOf(x) in Groups(rows)
    {
    }
  }

  /** Two rollup statements together do for both tables what one does for its own. */
  lemma RollupTwice(daily: Daily, rows: seq<Snapshot>, more: seq<Snapshot>)
    ensures var d := Rollup(Rollup(daily, rows), more);
      && (forall x :: x in rows + more ==> Covered(d, x))
      && (forall k :: k in daily ==> k in d && d[k] >= daily[k])
      && (forall k :: k in d ==> (k in daily && d[k] == daily[k]) || ShownIn(rows + more, k, d[k]))
      && (forall k :: k !in Groups(rows + more) ==> SameAt(daily, d, k))
  {
    hide Rollup, GroupMax;
    var mid := Rollup(daily, rows);
    var d := Rollup(mid, more);
    RollupCovers(daily, rows);
    RollupCovers(mid, more);
    assert forall x :: x in rows + more <==> x in rows || x in more;
    forall k | k in d
      ensures (k in daily && d[k] == daily[k]) || ShownIn(rows + more, k, d[k])
    {
      if ShownIn(more, k, d[k]) {
        var x :| x in more && KeyOf(x) == k && x.usd == d[k];
        assert x in rows + more;
      } else if ShownIn(rows, k, mid[k]) {
        var x :| x in rows && KeyOf(x) == k && x.usd == mid[k];
        assert x in rows + more;
      }
    }
    forall k | k !in Groups(rows + more)
      ensures SameAt(daily, d, k)
    {
      assert k !in Groups(rows) && k !in Groups(more);
    }
  }
}
