/**
 The stacked cost chart: (day, series, spend) rows pivoted into one bar per day with a
 segment per series, and a legend by total spend.  Amounts are exact; the rounding for
 display is not modelled.
 */
module CostChart {
  import opened Wrappers
  import Sums

  // ---------- rows ----------

  /** A calendar day, by its position in the calendar. */
  datatype Date = Date(ordinal: int)

  /** A row as the queries return it; `None` is a missing field or a null amount. */
  datatype Row = Row(day: Date, model: Option<string>, agent: Option<string>, usd: Option<real>)

  datatype Cell = Cell(day: Date, series: string, usd: real)

  datatype Dim = Model | Agent

  function Amount(usd: Option<real>): real {
    if usd.Some? then usd.value else 0.0
  }

  /** str(r.get(dim, r.get("model"))) */
  function SeriesIn(r: Row, dim: Dim): string {
    if dim.Agent? && r.agent.Some? then r.agent.value
    else if r.model.Some? then r.model.value
    else "None"
  }

  /** The rows as the builder with `dim` sees them. */
  function GraphCells(rows: seq<Row>, dim: Dim): seq<Cell> {
    if rows == [] then [] else
      var r := rows[|rows| - 1];
      GraphCells(rows[..|rows| - 1], dim) + [Cell(r.day, SeriesIn(r, dim), Amount(r.usd))]
  }

  /** The rows as the builder that insists on a model sees them; None is a KeyError. */
  function ViewCells(rows: seq<Row>): Option<seq<Cell>> {
    if rows == [] then Some([]) else
      var r, init := rows[|rows| - 1], ViewCells(rows[..|rows| - 1]);
      if init.None? || r.model.None? then None
      else Some(init.value + [Cell(r.day, r.model.value, Amount(r.usd))])
  }

  /** A row is charted on its day under the field asked for, else its model, else "None", a null amount counting 0. */
  lemma {:induction false} CellsAre(rows: seq<Row>, dim: Dim, i: nat)
    requires i < |rows|
    ensures |GraphCells(rows, dim)| == |rows|
    ensures var r, c := rows[i], GraphCells(rows, dim)[i];
      && c.day == r.day && (r.usd == None ==> c.usd == 0.0) && (r.usd != None ==> Some(c.usd) == r.usd)
      && (dim == Agent && r.agent != None ==> Some(c.series) == r.agent)
      && ((dim == Model || r.agent == None) && r.model != None ==> Some(c.series) == r.model)
      && ((dim == Model || r.agent == None) && r.model == None ==> c.series == "None")
  {
    if |rows| > 1 {
      CellsAre(rows[..|rows| - 1], dim, if i < |rows| - 1 then i else 0);
    } else {
      assert rows[..0] == [];
    }
  }

  /** The two builders see the same cells exactly when the stricter one accepts the rows, that is when
      every row has a model; and a per-agent chart may be drawn from the legacy mirror of the agent. */
  lemma {:induction false} BuildersAgree(rows: seq<Row>)
    ensures ViewCells(rows).Some? <==> forall i :: 0 <= i < |rows| ==> rows[i].model.Some?
    ensures ViewCells(rows).Some? ==> ViewCells(rows).value == GraphCells(rows, Model)
    ensures (forall i :: 0 <= i < |rows| ==> rows[i].agent.Some? && rows[i].model == rows[i].agent) ==>
      GraphCells(rows, Agent) == GraphCells(rows, Model) && ViewCells(rows) == Some(GraphCells(rows, Agent))
  {
    if rows != [] {
      BuildersAgree(rows[..|rows| - 1]);
    }
  }

  // ---------- sums over cells ----------

  /** Which cells: those of a day, of a series, of both, or all. */
  datatype Sel = Sel(day: Option<Date>, series: Option<string>)

  const ALL := Sel(None, None)

  predicate Picks(s: Sel, c: Cell) {
    (s.day.None? || s.day.value == c.day) && (s.series.None? || s.series.value == c.series)
  }

  function SumOf(cells: seq<Cell>, s: Sel): real {
    if cells == [] then 0.0 else
      var c := cells[|cells| - 1];
      SumOf(cells[..|cells| - 1], s) + if Picks(s, c) then c.usd else 0.0
  }

  /** Sums over cells: one cell counts when its day and series are those selected, and sums add up. */
  lemma {:induction false} SumsAddUp(a: seq<Cell>, b: seq<Cell>, s: Sel, c: Cell)
    ensures SumOf([c], s) == if (s.day == None || s.day == Some(c.day)) && (s.series == None || s.series == Some(c.series)) then c.usd else 0.0
    ensures SumOf(a + b, s) == SumOf(a, s) + SumOf(b, s)
  {
    assert [c][..0] == [];
    if b == [] {
      assert a + b == a;
    } else {
      SumsAddUp(a, b[..|b| - 1], s, c);
      assert (a + b)[..|a + b| - 1] == a + b[..|b| - 1];
    }
  }

  function SeriesOf(cells: seq<Cell>, day: Option<Date>): set<string> {
    set c | c in cells && Picks(Sel(day, None), c) :: c.series
  }

  function DaysOf(cells: seq<Cell>): set<Date> {
    set c | c in cells :: c.day
  }

  /** Spend of each series, on one day or overall. */
  function BySeries(cells: seq<Cell>, day: Option<Date>): map<string, real> {
    map s | s in SeriesOf(cells, day) :: SumOf(cells, Sel(day, Some(s)))
  }

  /** Spend of each day. */
  function ByDay(cells: seq<Cell>): map<Date, real> {
    map d | d in DaysOf(cells) :: SumOf(cells, Sel(Some(d), None))
  }

  lemma {:induction false} AbsentIsZero(cells: seq<Cell>, s: Sel)
    requires forall c :: c in cells ==> !Picks(s, c)
    ensures SumOf(cells, s) == 0.0
  {
    if cells != [] {
      AbsentIsZero(cells[..|cells| - 1], s);
    }
  }

  lemma LastCell(cells: seq<Cell>)
    requires cells != []
    ensures forall c :: c in cells <==> c in cells[..|cells| - 1] || c == cells[|cells| - 1]
  {
    assert cells == cells[..|cells| - 1] + [cells[|cells| - 1]];
  }

  lemma BySeriesStep(cells: seq<Cell>, day: Option<Date>)
    requires cells != []
    ensures var init, c := cells[..|cells| - 1], cells[|cells| - 1];
      var m := BySeries(init, day);
      BySeries(cells, day) == if Picks(Sel(day, None), c) then m[c.series := Sums.Value(m, c.series) + c.usd] else m
  {
    var init, c := cells[..|cells| - 1], cells[|cells| - 1];
    var m, n := BySeries(init, day), BySeries(cells, day);
    LastCell(cells);
    if c.series !in m {
      AbsentIsZero(init, Sel(day, Some(c.series)));
    }
    var picked := Picks(Sel(day, None), c);
    forall s: string
      ensures s in n <==> s in m || (picked && s == c.series)
    {
      SeriesGrows(cells, day, s);
    }
    forall s | s in n
      ensures n[s] == if picked && s == c.series then Sums.Value(m, s) + c.usd else Sums.Value(m, s)
    {
      assert picked && s == c.series <==> Picks(Sel(day, Some(s)), c);
    }
    Sums.SameMap(n, if picked then m[c.series := Sums.Value(m, c.series) + c.usd] else m);
  }

  lemma SeriesGrows(cells: seq<Cell>, day: Option<Date>, s: string)
    requires cells != []
    ensures var init, c := cells[..|cells| - 1], cells[|cells| - 1];
      s in SeriesOf(cells, day) <==> s in SeriesOf(init, day) || (Picks(Sel(day, None), c) && s == c.series)
  {
    LastCell(cells);
  }

  lemma ByDayStep(cells: seq<Cell>)
    requires cells != []
    ensures var init, c := cells[..|cells| - 1], cells[|cells| - 1];
      var m := ByDay(init);
      ByDay(cells) == m[c.day := Sums.Value(m, c.day) + c.usd]
  {
    var init, c := cells[..|cells| - 1], cells[|cells| - 1];
    var m, n := ByDay(init), ByDay(cells);
    LastCell(cells);
    if c.day !in m {
      AbsentIsZero(init, Sel(Some(c.day), None));
    }
    assert forall d :: d in n <==> d in m || d == c.day;
  }

  lemma NoCells(day: Option<Date>)
    ensures BySeries([], day) == map[] && ByDay([]) == map[]
  {
    assert forall s :: s !in BySeries([], day);
    assert forall d :: d !in ByDay([]);
  }

  /** The segments of a day add up to its rows, and the legend to all rows. */
  lemma {:induction false} SeriesAddUp(cells: seq<Cell>, day: Option<Date>)
    ensures Sums.Total(BySeries(cells, day)) == SumOf(cells, Sel(day, None))
  {
    hide BySeries, ByDay, SeriesOf, Sums.Value;
    if cells == [] {
      NoCells(day);
    } else {
      var init, c := cells[..|cells| - 1], cells[|cells| - 1];
      SeriesAddUp(init, day);
      BySeriesStep(cells, day);
      Sums.TotalUpdate(BySeries(init, day), c.series, Sums.Value(BySeries(init, day), c.series) + c.usd);
      ValueIs(BySeries(init, day), c.series);
    }
  }

  lemma ValueIs<K>(m: map<K, real>, k: K)
    ensures Sums.Value(m, k) == if k in m then m[k] else 0.0
  {
  }

  /** The days add up to all rows. */
  lemma {:induction false} DaysAddUp(cells: seq<Cell>)
    ensures Sums.Total(ByDay(cells)) == SumOf(cells, ALL)
  {
    hide ByDay, BySeries, DaysOf, Sums.Value;
    if cells == [] {
      NoCells(None);
    } else {
      var init, c := cells[..|cells| - 1], cells[|cells| - 1];
      DaysAddUp(init);
      ByDayStep(cells);
      Sums.TotalUpdate(ByDay(init), c.day, Sums.Value(ByDay(init), c.day) + c.usd);
      ValueIs(ByDay(init), c.day);
    }
  }

  // ---------- orders ----------

  /** Python's string order. */
  predicate LexLe(a: string, b: string) {
    a == "" || (b != "" && (a[0] < b[0] || (a[0] == b[0] && LexLe(a[1..], b[1..]))))
  }

  lemma {:induction false} LexOrder(a: string, b: string, c: string)
    ensures LexLe(a, a) && (LexLe(a, b) || LexLe(b, a))
    ensures LexLe(a, b) && LexLe(b, a) ==> a == b
    ensures LexLe(a, b) && LexLe(b, c) ==> LexLe(a, c)
  {
    if a != "" {
      LexOrder(a[1..], if b == "" then b else b[1..], if c == "" then c else c[1..]);
      if b != "" && a[0] == b[0] && a[1..] == b[1..] {
        assert a == [a[0]] + a[1..] && b == [b[0]] + b[1..];
      }
    }
  }

  /** key=lambda m: (-total[m], m) */
  /** Names are compared at the first character where they differ; a prefix comes first. */
  lemma {:induction false} LexExactly(a: string, b: string)
    ensures LexLe(a, b) <==> a <= b || exists i :: 0 <= i < |a| && i < |b| && a[..i] == b[..i] && a[i] < b[i]
  {
    if a != "" && b != "" {
      var c, d := a[1..], b[1..];
      forall i | 0 < i < |a| && i < |b| && a[..i] == b[..i]
        ensures a[0] == b[0] && c[..i - 1] == d[..i - 1]
      {
        assert a[..i][0] == a[0] && b[..i][0] == b[0];
        assert c[..i - 1] == a[..i][1..] && d[..i - 1] == b[..i][1..];
      }
      if a[0] < b[0] {
        assert a[..0] == b[..0];
      } else if a[0] == b[0] {
        LexExactly(c, d);
        if i :| 0 <= i < |c| && i < |d| && c[..i] == d[..i] && c[i] < d[i] {
          assert a[..i + 1] == [a[0]] + c[..i] && b[..i + 1] == [b[0]] + d[..i];
        }
        if i :| 0 <= i < |a| && i < |b| && a[..i] == b[..i] && a[i] < b[i] {
          assert c[i - 1] == a[i] && d[i - 1] == b[i];
        }
      }
    }
  }

  predicate Precedes(total: map<string, real>, a: string, b: string) {
    var x, y := Sums.Value(total, a), Sums.Value(total, b);
    x > y || (x == y && LexLe(a, b))
  }

  predicate IsFirst(total: map<string, real>, s: set<string>, k: string) {
    k in s && forall j :: j in s ==> Precedes(total, k, j)
  }

  lemma {:induction false} FirstExists(total: map<string, real>, s: set<string>)
    requires s != {}
    ensures exists k :: IsFirst(total, s, k)
    decreases |s|
  {
    var k :| k in s;
    if s - {k} == {} {
      assert s == {k};
      LexOrder(k, k, k);
      assert IsFirst(total, s, k);
    } else {
      FirstExists(total, s - {k});
      var j :| IsFirst(total, s - {k}, j);
      LexOrder(j, k, j);
      LexOrder(k, k, k);
      if Precedes(total, k, j) {
        forall i | i in s
          ensures Precedes(total, k, i)
        {
          assert i != k ==> i in s - {k} && Precedes(total, j, i);
          LexOrder(k, j, i);
        }
        assert IsFirst(total, s, k);
      } else {
        assert IsFirst(total, s, j);
      }
    }
  }

  lemma OneFirst(total: map<string, real>, s: set<string>, j: string, k: string)
    requires IsFirst(total, s, j) && IsFirst(total, s, k)
    ensures j == k
  {
    assert Precedes(total, j, k) && Precedes(total, k, j);
    LexOrder(j, k, j);
  }

  /** sorted(s, key=lambda m: (-total[m], m)) */
  ghost function ArrangeSeries(total: map<string, real>, s: set<string>): (keys: seq<string>)
    ensures |keys| == |s|
    decreases |s|
  {
    if s == {} then [] else
      FirstExists(total, s);
      var k :| IsFirst(total, s, k);
      [k] + ArrangeSeries(total, s - {k})
  }

  lemma {:induction false} EarliestExists(s: set<Date>)
    requires s != {}
    ensures exists d :: IsEarliest(s, d)
    decreases |s|
  {
    var d :| d in s;
    if s - {d} == {} {
      assert s == {d} && IsEarliest(s, d);
    } else {
      EarliestExists(s - {d});
      var e :| IsEarliest(s - {d}, e);
      assert forall i :: i in s ==> i == d || i in s - {d};
      if d.ordinal <= e.ordinal {
        assert IsEarliest(s, d);
      } else {
        assert IsEarliest(s, e);
      }
    }
  }

  predicate IsEarliest(s: set<Date>, d: Date) {
    d in s && forall e :: e in s ==> d.ordinal <= e.ordinal
  }

  /** sorted(s) */
  ghost function ArrangeDays(s: set<Date>): (days: seq<Date>)
    ensures |days| == |s|
    decreases |s|
  {
    if s == {} then [] else
      EarliestExists(s);
      var d :| IsEarliest(s, d);
      [d] + ArrangeDays(s - {d})
  }

  /** `keys` is in the order of the sort key, without repeats. */
  ghost predicate Ranked(total: map<string, real>, keys: seq<string>) {
    forall i, j :: 0 <= i < j < |keys| ==> keys[i] != keys[j] && Precedes(total, keys[i], keys[j])
  }

  lemma UnfoldSeries(total: map<string, real>, s: set<string>) returns (k: string)
    requires s != {}
    ensures IsFirst(total, s, k) && ArrangeSeries(total, s) == [k] + ArrangeSeries(total, s - {k})
  {
    k := ArrangeSeries(total, s)[0];
  }

  lemma UnfoldDays(s: set<Date>) returns (d: Date)
    requires s != {}
    ensures IsEarliest(s, d) && ArrangeDays(s) == [d] + ArrangeDays(s - {d})
  {
    d := ArrangeDays(s)[0];
  }

  lemma {:induction false} Arranged(total: map<string, real>, s: set<string>)
    ensures Ranked(total, ArrangeSeries(total, s))
    ensures forall k :: k in ArrangeSeries(total, s) <==> k in s
    decreases |s|
  {
    hide Precedes;
    if s != {} {
      var k := UnfoldSeries(total, s);
      hide ArrangeSeries, Ranked;
      Arranged(total, s - {k});
      RankedCons(total, k, ArrangeSeries(total, s - {k}));
    }
  }

  lemma RankedCons(total: map<string, real>, k: string, rest: seq<string>)
    requires Ranked(total, rest) && forall j :: j in rest ==> j != k && Precedes(total, k, j)
    ensures Ranked(total, [k] + rest)
  {
    hide Precedes;
    var all := [k] + rest;
    assert forall j :: 1 <= j < |all| ==> all[j] == rest[j - 1] && all[j] in rest;
  }

  lemma {:induction false} ArrangedDays(s: set<Date>)
    ensures Ascending(ArrangeDays(s))
    ensures forall d :: d in ArrangeDays(s) <==> d in s
    decreases |s|
  {
    if s != {} {
      var d := UnfoldDays(s);
      hide ArrangeDays, Ascending;
      ArrangedDays(s - {d});
      assert forall e :: e in s - {d} ==> d.ordinal < e.ordinal;
      AscendingCons(d, ArrangeDays(s - {d}));
    }
  }

  ghost predicate Ascending(days: seq<Date>) {
    forall i, j :: 0 <= i < j < |days| ==> days[i].ordinal < days[j].ordinal
  }

  lemma AscendingCons(d: Date, rest: seq<Date>)
    requires Ascending(rest) && forall e :: e in rest ==> d.ordinal < e.ordinal
    ensures Ascending([d] + rest)
  {
    var all := [d] + rest;
    assert forall j :: 1 <= j < |all| ==> all[j] == rest[j - 1] && all[j] in rest;
  }

  // ---------- the chart ----------

  const CHART_COLORS := 6

  datatype Segment = Segment(series: string, usd: real, color: nat, pct: real)

  datatype Day = Day(day: Date, total: real, heightPct: real, segments: seq<Segment>)

  datatype Legend = Legend(series: string, color: nat, total: real)

  datatype Chart = Chart(days: seq<Day>, legend: seq<Legend>, total: real)

  function Percent(part: real, whole: real): real {
    if whole != 0.0 then part / whole * 100.0 else 0.0
  }

  function PositionOf(keys: seq<string>, k: string): (i: nat)
    ensures k in keys ==> i < |keys| && keys[i] == k
    ensures forall j :: 0 <= j < i && j < |keys| ==> keys[j] != k
  {
    if keys == [] || keys[0] == k then 0 else PositionOf(keys[1..], k) + 1
  }

  function Color(order: seq<string>, k: string): nat {
    PositionOf(order, k) % CHART_COLORS
  }

  /** max(..., default=0.0) */
  function Tallest(days: seq<Date>, byDay: map<Date, real>): real {
    if days == [] then 0.0
    else if |days| == 1 then Sums.Value(byDay, days[0])
    else
      var rest := Tallest(days[..|days| - 1], byDay);
      var x := Sums.Value(byDay, days[|days| - 1]);
      if x > rest then x else rest
  }

  /** What the chart of these cells is, in terms of sums over the cells. */
  ghost function ChartOf(cells: seq<Cell>): Chart {
    var order := ArrangeSeries(BySeries(cells, None), SeriesOf(cells, None));
    var days := ArrangeDays(DaysOf(cells));
    var max := Tallest(days, ByDay(cells));
    Chart(
      seq(|days|, i requires 0 <= i < |days| => DayOf(cells, days[i], order, max)),
      seq(|order|, i requires 0 <= i < |order| => LegendOf(cells, order, i)),
      SumOf(cells, ALL))
  }

  ghost function LegendOf(cells: seq<Cell>, order: seq<string>, i: nat): Legend
    requires i < |order|
  {
    Legend(order[i], Color(order, order[i]), SumOf(cells, Sel(None, Some(order[i]))))
  }

  ghost function DayOf(cells: seq<Cell>, day: Date, order: seq<string>, max: real): Day {
    var total := SumOf(cells, Sel(Some(day), None));
    var keys := ArrangeSeries(BySeries(cells, Some(day)), SeriesOf(cells, Some(day)));
    Day(day, total, Percent(total, max), Segments(cells, day, order, total, keys))
  }

  ghost function Segments(cells: seq<Cell>, day: Date, order: seq<string>, total: real, keys: seq<string>): seq<Segment> {
    seq(|keys|, i requires 0 <= i < |keys| => SegmentOf(cells, day, order, total, keys[i]))
  }

  ghost function SegmentOf(cells: seq<Cell>, day: Date, order: seq<string>, total: real, series: string): Segment {
    var usd := SumOf(cells, Sel(Some(day), Some(series)));
    Segment(series, usd, Color(order, series), Percent(usd, total))
  }

  // ---------- the code ----------

  method SortSeries(total: map<string, real>) returns (keys: seq<string>)
    ensures keys == ArrangeSeries(total, total.Keys)
  {
    keys := [];
    var left := total.Keys;
    while left != {}
      invariant ArrangeSeries(total, total.Keys) == keys + ArrangeSeries(total, left)
      decreases |left|
    {
      FirstExists(total, left);
      var k :| k in left && forall j :: j in left ==> Precedes(total, k, j);
      assert IsFirst(total, left, k);
      ghost var first := UnfoldSeries(total, left);
      OneFirst(total, left, k, first);
      keys, left := keys + [k], left - {k};
    }
  }

  method SortDays(s: set<Date>) returns (days: seq<Date>)
    ensures days == ArrangeDays(s)
  {
    days := [];
    var left := s;
    while left != {}
      invariant ArrangeDays(s) == days + ArrangeDays(left)
      decreases |left|
    {
      EarliestExists(left);
      var d :| d in left && forall e :: e in left ==> d.ordinal <= e.ordinal;
      ghost var first := UnfoldDays(left);
      assert first == d;
      days, left := days + [d], left - {d};
    }
  }

  /** sum(m.values()) */
  method SumValues<K(==)>(m: map<K, real>) returns (x: real)
    ensures x == Sums.Total(m)
  {
    x := 0.0;
    var left := m;
    while left != map[]
      invariant x + Sums.Total(left) == Sums.Total(m)
      decreases |left|
    {
      var k :| k in left;
      Sums.TotalRemove(left, k);
      x, left := x + left[k], left - {k};
    }
  }

  /** The two dictionaries hold the sums of these cells. */
  ghost predicate Pivoted(cells: seq<Cell>, daysMap: map<Date, map<string, real>>, seriesTotal: map<string, real>) {
    && seriesTotal == BySeries(cells, None)
    && (forall d :: d in daysMap <==> d in DaysOf(cells))
    && (forall d :: d in daysMap ==> daysMap[d] == BySeries(cells, Some(d)))
  }

  /** The accumulation loop. */
  method Pivot(cells: seq<Cell>) returns (daysMap: map<Date, map<string, real>>, seriesTotal: map<string, real>)
    ensures Pivoted(cells, daysMap, seriesTotal)
  {
    hide Pivoted, BySeries, DaysOf, SumOf;
    daysMap, seriesTotal := map[], map[];
    NothingPivoted();
    assert cells[..0] == [];
    var i := 0;
    while i < |cells|
      invariant 0 <= i <= |cells| && Pivoted(cells[..i], daysMap, seriesTotal)
    {
      var c := cells[i];
      PivotRound(cells, i, daysMap, seriesTotal);
      var segs := if c.day in daysMap then daysMap[c.day] else map[];
      daysMap := daysMap[c.day := segs[c.series := Sums.Value(segs, c.series) + c.usd]];
      seriesTotal := seriesTotal[c.series := Sums.Value(seriesTotal, c.series) + c.usd];
      i := i + 1;
    }
    assert cells[..i] == cells;
  }

  lemma NothingPivoted()
    ensures Pivoted([], map[], map[])
  {
    assert forall s :: s !in BySeries([], None);
    assert forall d :: d !in DaysOf([]);
  }

  lemma PivotRound(cells: seq<Cell>, i: nat, daysMap: map<Date, map<string, real>>, seriesTotal: map<string, real>)
    requires i < |cells| && Pivoted(cells[..i], daysMap, seriesTotal)
    ensures var c := cells[i];
      var segs := if c.day in daysMap then daysMap[c.day] else map[];
      Pivoted(cells[..i + 1],
              daysMap[c.day := segs[c.series := Sums.Value(segs, c.series) + c.usd]],
              seriesTotal[c.series := Sums.Value(seriesTotal, c.series) + c.usd])
  {
    hide BySeries, DaysOf, Sums.Value;
    PivotStep(cells, i);
  }

  lemma PivotStep(cells: seq<Cell>, i: nat)
    requires i < |cells|
    ensures var init, all, c := cells[..i], cells[..i + 1], cells[i];
      && DaysOf(all) == DaysOf(init) + {c.day}
      && (forall day: Option<Date> :: BySeries(all, day) ==
            if day.None? || day.value == c.day
            then BySeries(init, day)[c.series := Sums.Value(BySeries(init, day), c.series) + c.usd]
            else BySeries(init, day))
      && (c.day !in DaysOf(init) ==> BySeries(init, Some(c.day)) == map[])
  {
    var all := cells[..i + 1];
    assert all[..i] == cells[..i];
    DaysGrow(all);
    NoSuchDay(cells[..i], cells[i].day);
    hide BySeries, DaysOf, Sums.Value;
    forall day: Option<Date>
      ensures BySeries(all, day) ==
            if day.None? || day.value == cells[i].day
            then BySeries(cells[..i], day)[cells[i].series := Sums.Value(BySeries(cells[..i], day), cells[i].series) + cells[i].usd]
            else BySeries(cells[..i], day)
    {
      BySeriesStep(all, day);
    }
  }

  lemma DaysGrow(cells: seq<Cell>)
    requires cells != []
    ensures DaysOf(cells) == DaysOf(cells[..|cells| - 1]) + {cells[|cells| - 1].day}
  {
    LastCell(cells);
  }

  lemma NoSuchDay(cells: seq<Cell>, day: Date)
    ensures day !in DaysOf(cells) ==> BySeries(cells, Some(day)) == map[]
  {
    if day !in DaysOf(cells) {
      forall c | c in cells
        ensures c.day != day
      {
        assert c.day in DaysOf(cells);
      }
      assert BySeries(cells, Some(day)).Keys == {};
    }
  }

  /** The days of the chart, one by one; `max` is the tallest day's total. */
  method BuildDays(cells: seq<Cell>, daysMap: map<Date, map<string, real>>, totals: map<Date, real>, dayOrder: seq<Date>,
                   order: seq<string>, max: real)
    returns (days: seq<Day>)
    requires forall d :: d in dayOrder ==> d in daysMap && d in totals && daysMap[d] == BySeries(cells, Some(d))
    requires forall d :: d in dayOrder ==> totals[d] == SumOf(cells, Sel(Some(d), None))
    ensures |days| == |dayOrder| && forall i :: 0 <= i < |days| ==> days[i] == DayOf(cells, dayOrder[i], order, max)
  {
    hide ArrangeSeries, SumOf, Segments, Percent;
    days := [];
    var i := 0;
    while i < |dayOrder|
      invariant 0 <= i == |days| <= |dayOrder|
      invariant forall j :: 0 <= j < i ==> days[j] == DayOf(cells, dayOrder[j], order, max)
    {
      var d := dayOrder[i];
      assert d in dayOrder;
      var segments := BuildSegments(cells, d, daysMap[d], totals[d], order);
      assert daysMap[d].Keys == SeriesOf(cells, Some(d));
      days := days + [Day(d, totals[d], Percent(totals[d], max), segments)];
      i := i + 1;
    }
  }

  method BuildSegments(cells: seq<Cell>, day: Date, segs: map<string, real>, total: real, order: seq<string>)
    returns (segments: seq<Segment>)
    requires segs == BySeries(cells, Some(day)) && total == SumOf(cells, Sel(Some(day), None))
    ensures segments == Segments(cells, day, order, total, ArrangeSeries(segs, segs.Keys))
  {
    assert forall k :: k in segs ==> segs[k] == SumOf(cells, Sel(Some(day), Some(k)));
    hide ArrangeSeries, BySeries, SumOf, SeriesOf, Percent, Color, Ranked, Segments;
    var keys := SortSeries(segs);
    Arranged(segs, segs.Keys);
    segments := [];
    var i := 0;
    while i < |keys|
      invariant 0 <= i == |segments| <= |keys|
      invariant forall j :: 0 <= j < i ==> segments[j] == SegmentOf(cells, day, order, total, keys[j])
    {
      assert keys[i] in keys;
      segments := segments + [Segment(keys[i], segs[keys[i]], Color(order, keys[i]), Percent(segs[keys[i]], total))];
      i := i + 1;
    }
    SegmentsAre(cells, day, order, total, keys, segments);
  }

  lemma SegmentsAre(cells: seq<Cell>, day: Date, order: seq<string>, total: real, keys: seq<string>, segments: seq<Segment>)
    requires |segments| == |keys| && forall j :: 0 <= j < |keys| ==> segments[j] == SegmentOf(cells, day, order, total, keys[j])
    ensures segments == Segments(cells, day, order, total, keys)
  {
    hide SegmentOf;
  }

  /** Day totals as the code computes them: the sum of each day's segments. */
  method DayTotals(cells: seq<Cell>, daysMap: map<Date, map<string, real>>, dayOrder: seq<Date>) returns (totals: map<Date, real>)
    requires forall d :: d in dayOrder <==> d in daysMap
    requires forall d :: d in daysMap ==> daysMap[d] == BySeries(cells, Some(d))
    ensures forall d :: d in totals <==> d in daysMap
    ensures forall d :: d in totals ==> totals[d] == SumOf(cells, Sel(Some(d), None))
  {
    totals := map[];
    var i := 0;
    while i < |dayOrder|
      invariant 0 <= i <= |dayOrder|
      invariant forall d :: d in totals <==> d in dayOrder[..i]
      invariant forall d :: d in totals ==> totals[d] == SumOf(cells, Sel(Some(d), None))
    {
      var d := dayOrder[i];
      assert d in dayOrder;
      SeriesAddUp(cells, Some(d));
      var total := SumValues(daysMap[d]);
      assert dayOrder[..i + 1] == dayOrder[..i] + [d];
      totals := totals[d := total];
      i := i + 1;
    }
    assert dayOrder[..i] == dayOrder;
  }

  method BuildLegend(cells: seq<Cell>, seriesTotal: map<string, real>, order: seq<string>) returns (legend: seq<Legend>)
    requires seriesTotal == BySeries(cells, None) && forall s :: s in order <==> s in seriesTotal
    ensures IsLegend(cells, order, legend)
  {
    legend := [];
    var i := 0;
    while i < |order|
      invariant 0 <= i == |legend| <= |order|
      invariant forall j :: 0 <= j < i ==> legend[j] == LegendOf(cells, order, j)
    {
      assert order[i] in order;
      legend := legend + [Legend(order[i], Color(order, order[i]), seriesTotal[order[i]])];
      i := i + 1;
    }
  }

  ghost predicate IsLegend(cells: seq<Cell>, order: seq<string>, legend: seq<Legend>) {
    |legend| == |order| && forall j :: 0 <= j < |order| ==> legend[j] == LegendOf(cells, order, j)
  }

  lemma Assembled(cells: seq<Cell>, seriesTotal: map<string, real>, totals: map<Date, real>, days: seq<Day>, legend: seq<Legend>)
    requires seriesTotal == BySeries(cells, None) && totals == ByDay(cells)
    requires var order, dayOrder := ArrangeSeries(seriesTotal, seriesTotal.Keys), ArrangeDays(DaysOf(cells));
      && IsLegend(cells, order, legend)
      && |days| == |dayOrder| && forall i :: 0 <= i < |days| ==> days[i] == DayOf(cells, dayOrder[i], order, Tallest(dayOrder, totals))
    ensures Chart(days, legend, SumOf(cells, ALL)) == ChartOf(cells)
  {
    hide DayOf, SumOf, Tallest;
    assert seriesTotal.Keys == SeriesOf(cells, None);
    assert days == ChartOf(cells).days && legend == ChartOf(cells).legend;
  }

  method BuildCostChart(cells: seq<Cell>) returns (chart: Chart)
    ensures chart == ChartOf(cells)
  {
    var daysMap, seriesTotal := Pivot(cells);
    SeriesAddUp(cells, None);
    assert daysMap.Keys == DaysOf(cells);
    hide BySeries, ByDay, ChartOf, DayOf, SumOf, Sums.Total, DaysOf, IsLegend, Tallest, ArrangeSeries, ArrangeDays;
    var order := SortSeries(seriesTotal);
    Arranged(seriesTotal, seriesTotal.Keys);
    var dayOrder := SortDays(daysMap.Keys);
    ArrangedDays(daysMap.Keys);
    var totals := DayTotals(cells, daysMap, dayOrder);
    TotalsAreByDay(cells, totals);
    var max := Tallest(dayOrder, totals);
    var days := BuildDays(cells, daysMap, totals, dayOrder, order, max);
    var legend := BuildLegend(cells, seriesTotal, order);
    var total := SumValues(seriesTotal);
    Assembled(cells, seriesTotal, totals, days, legend);
    chart := Chart(days, legend, total);
  }

  lemma TotalsAreByDay(cells: seq<Cell>, totals: map<Date, real>)
    requires forall d :: d in totals <==> d in DaysOf(cells)
    requires forall d :: d in totals ==> totals[d] == SumOf(cells, Sel(Some(d), None))
    ensures totals == ByDay(cells)
  {
    var m := ByDay(cells);
    assert forall d :: d in m <==> d in totals;
    assert forall d :: d in m ==> m[d] == totals[d];
  }
}
