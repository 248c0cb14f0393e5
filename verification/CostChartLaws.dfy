/** What holds of every chart the builder makes. */
module CostChartLaws {
  import opened Wrappers
  import opened CostChart
  import Sums

  function SumKeys<K>(keys: seq<K>, m: map<K, real>): real {
    if keys == [] then 0.0 else Sums.Value(m, keys[0]) + SumKeys(keys[1..], m)
  }

  ghost predicate Distinct<K>(keys: seq<K>) {
    forall i, j :: 0 <= i < j < |keys| ==> keys[i] != keys[j]
  }

  lemma {:induction false} SumKeysIgnores<K>(keys: seq<K>, m: map<K, real>, k: K)
    requires k !in keys
    ensures SumKeys(keys, m - {k}) == SumKeys(keys, m)
  {
    if keys != [] {
      SumKeysIgnores(keys[1..], m, k);
    }
  }

  /** Listing every key of a dictionary once adds up its values. */
  lemma {:induction false} KeysAddUp<K>(keys: seq<K>, m: map<K, real>)
    requires Distinct(keys) && forall k :: k in keys <==> k in m
    ensures SumKeys(keys, m) == Sums.Total(m)
    decreases |keys|
  {
    if keys == [] {
      assert m == map[];
    } else {
      var k, rest := keys[0], keys[1..];
      assert k in keys && k !in rest;
      assert forall j :: j in keys <==> j == k || j in rest;
      Sums.TotalRemove(m, k);
      KeysAddUp(rest, m - {k});
      SumKeysIgnores(rest, m, k);
    }
  }

  function SumSegments(segments: seq<Segment>): real {
    if segments == [] then 0.0 else segments[0].usd + SumSegments(segments[1..])
  }

  function SumDays(days: seq<Day>): real {
    if days == [] then 0.0 else days[0].total + SumDays(days[1..])
  }

  function SumLegend(legend: seq<Legend>): real {
    if legend == [] then 0.0 else legend[0].total + SumLegend(legend[1..])
  }

  lemma {:induction false} SegmentsAsKeys(segments: seq<Segment>, keys: seq<string>, m: map<string, real>)
    requires |segments| == |keys| && forall i :: 0 <= i < |keys| ==> segments[i].usd == Sums.Value(m, keys[i])
    ensures SumSegments(segments) == SumKeys(keys, m)
  {
    if segments != [] {
      SegmentsAsKeys(segments[1..], keys[1..], m);
    }
  }

  lemma {:induction false} LegendAsKeys(legend: seq<Legend>, keys: seq<string>, m: map<string, real>)
    requires |legend| == |keys| && forall i :: 0 <= i < |keys| ==> legend[i].total == Sums.Value(m, keys[i])
    ensures SumLegend(legend) == SumKeys(keys, m)
  {
    if legend != [] {
      LegendAsKeys(legend[1..], keys[1..], m);
    }
  }

  lemma {:induction false} DaysAsKeys(days: seq<Day>, keys: seq<Date>, m: map<Date, real>)
    requires |days| == |keys| && forall i :: 0 <= i < |keys| ==> days[i].total == Sums.Value(m, keys[i])
    ensures SumDays(days) == SumKeys(keys, m)
  {
    if days != [] {
      DaysAsKeys(days[1..], keys[1..], m);
    }
  }

  /** The keys of a day's (or the legend's) series, arranged, add up to the cells picked. */
  lemma ArrangedAddsUp(cells: seq<Cell>, day: Option<Date>)
    ensures var m := BySeries(cells, day);
      var keys := ArrangeSeries(m, SeriesOf(cells, day));
      && SumKeys(keys, m) == SumOf(cells, Sel(day, None))
      && forall i :: 0 <= i < |keys| ==> Sums.Value(m, keys[i]) == SumOf(cells, Sel(day, Some(keys[i])))
  {
    var m := BySeries(cells, day);
    var keys := ArrangeSeries(m, SeriesOf(cells, day));
    Arranged(m, SeriesOf(cells, day));
    SeriesAddUp(cells, day);
    SeriesValues(cells, day);
    hide ArrangeSeries, BySeries, SeriesOf, SumOf, Sums.Total, Sums.Value, Precedes;
    KeysAddUp(keys, m);
    forall i | 0 <= i < |keys|
      ensures Sums.Value(m, keys[i]) == SumOf(cells, Sel(day, Some(keys[i])))
    {
      assert keys[i] in keys;
    }
  }

  lemma SeriesValues(cells: seq<Cell>, day: Option<Date>)
    ensures forall k :: k in SeriesOf(cells, day) <==> k in BySeries(cells, day)
    ensures forall k :: k in SeriesOf(cells, day) ==> Sums.Value(BySeries(cells, day), k) == SumOf(cells, Sel(day, Some(k)))
  {
  }

  /** The bar at position `i`. */
  lemma DayAt(cells: seq<Cell>, i: nat)
    requires i < |ChartOf(cells).days|
    ensures var dates, x := ArrangeDays(DaysOf(cells)), ChartOf(cells).days[i];
      && |dates| == |ChartOf(cells).days| && x.day == dates[i] && dates[i] in ByDay(cells)
      && x.total == SumOf(cells, Sel(Some(dates[i]), None)) == Sums.Value(ByDay(cells), dates[i])
      && x.heightPct == Percent(x.total, Tallest(dates, ByDay(cells)))
  {
    ArrangedDays(DaysOf(cells));
    hide ArrangeDays, SumOf, Tallest, Percent, ArrangeSeries;
    assert ArrangeDays(DaysOf(cells))[i] in ArrangeDays(DaysOf(cells));
  }

  /** The segment at position `j` of the bar at position `i`. */
  lemma SegmentAt(cells: seq<Cell>, i: nat, j: nat)
    requires i < |ChartOf(cells).days| && j < |ChartOf(cells).days[i].segments|
    ensures var x := ChartOf(cells).days[i];
      var keys := ArrangeSeries(BySeries(cells, Some(x.day)), SeriesOf(cells, Some(x.day)));
      && |keys| == |x.segments| && x.segments[j].series == keys[j] && keys[j] in SeriesOf(cells, Some(x.day))
      && x.segments[j].usd == SumOf(cells, Sel(Some(x.day), Some(keys[j])))
      && x.segments[j].color == Color(ArrangeSeries(BySeries(cells, None), SeriesOf(cells, None)), keys[j])
  {
    var x := ChartOf(cells).days[i];
    Arranged(BySeries(cells, Some(x.day)), SeriesOf(cells, Some(x.day)));
    hide ArrangeDays, SumOf, Tallest, Percent, ArrangeSeries, Ranked, BySeries, SeriesOf, Color;
    var keys := ArrangeSeries(BySeries(cells, Some(x.day)), SeriesOf(cells, Some(x.day)));
    assert keys[j] in keys;
  }

  lemma DaySegmentsAddUp(cells: seq<Cell>, i: nat)
    requires i < |ChartOf(cells).days|
    ensures SumSegments(ChartOf(cells).days[i].segments) == ChartOf(cells).days[i].total
  {
    hide ArrangeDays, ArrangeSeries, BySeries, SeriesOf, SumOf, Tallest, Percent, Color, Sums.Value, SumKeys, SumSegments;
    var x := ChartOf(cells).days[i];
    DayAt(cells, i);
    ArrangedAddsUp(cells, Some(x.day));
    var keys := ArrangeSeries(BySeries(cells, Some(x.day)), SeriesOf(cells, Some(x.day)));
    assert |keys| == |x.segments|;
    forall j | 0 <= j < |x.segments|
      ensures x.segments[j].usd == Sums.Value(BySeries(cells, Some(x.day)), keys[j])
    {
      SegmentAt(cells, i, j);
    }
    SegmentsAsKeys(x.segments, keys, BySeries(cells, Some(x.day)));
  }

  lemma DayTotalsAddUp(cells: seq<Cell>)
    ensures SumDays(ChartOf(cells).days) == SumOf(cells, ALL)
  {
    var dates := ArrangeDays(DaysOf(cells));
    ArrangedDays(DaysOf(cells));
    DaysAddUp(cells);
    assert forall d :: d in dates <==> d in ByDay(cells);
    hide ArrangeDays, SumOf, Tallest, Percent, ArrangeSeries, Sums.Total, Sums.Value, SumKeys, SumDays, DaysOf, ByDay;
    KeysAddUp(dates, ByDay(cells));
    forall i | 0 <= i < |dates|
      ensures ChartOf(cells).days[i].total == Sums.Value(ByDay(cells), dates[i])
    {
      DayAt(cells, i);
    }
    DaysAsKeys(ChartOf(cells).days, dates, ByDay(cells));
  }

  lemma LegendAddsUp(cells: seq<Cell>)
    ensures SumLegend(ChartOf(cells).legend) == SumOf(cells, ALL)
  {
    hide ArrangeSeries, BySeries, SeriesOf, SumOf, Color, Sums.Value, SumKeys, SumLegend;
    ArrangedAddsUp(cells, None);
    LegendAsKeys(ChartOf(cells).legend, ArrangeSeries(BySeries(cells, None), SeriesOf(cells, None)), BySeries(cells, None));
  }

  /** Spend is conserved: the segments of each day add up to the day, and the days, the legend and the
      grand total are all the sum of the rows. */
  lemma SpendIsConserved(cells: seq<Cell>)
    ensures var c := ChartOf(cells);
      && c.total == SumDays(c.days) == SumLegend(c.legend) == SumOf(cells, ALL)
      && forall i :: 0 <= i < |c.days| ==> SumSegments(c.days[i].segments) == c.days[i].total
  {
    hide ArrangeSeries, ArrangeDays, SumOf, SumDays, SumLegend, SumSegments;
    LegendAddsUp(cells);
    DayTotalsAddUp(cells);
    forall i | 0 <= i < |ChartOf(cells).days|
      ensures SumSegments(ChartOf(cells).days[i].segments) == ChartOf(cells).days[i].total
    {
      DaySegmentsAddUp(cells, i);
    }
  }

  ghost predicate HasSegment(x: Day, series: string, usd: real) {
    exists j :: 0 <= j < |x.segments| && x.segments[j].series == series && x.segments[j].usd == usd
  }

  /** Every row is in the chart: its day has a bar, and in that bar its series has the segment that is
      the sum of the matching rows. */
  lemma EveryRowIsCharted(cells: seq<Cell>, x: Cell)
    requires x in cells
    ensures var days := ChartOf(cells).days;
      exists i :: 0 <= i < |days| && days[i].day == x.day && HasSegment(days[i], x.series, SumOf(cells, Sel(Some(x.day), Some(x.series))))
  {
    var i := BarOf(cells, x);
    var j := SegmentOfRow(cells, x, i);
    hide ChartOf, SumOf;
    assert HasSegment(ChartOf(cells).days[i], x.series, SumOf(cells, Sel(Some(x.day), Some(x.series))));
  }

  lemma BarOf(cells: seq<Cell>, x: Cell) returns (i: nat)
    requires x in cells
    ensures i < |ChartOf(cells).days| && ChartOf(cells).days[i].day == x.day
  {
    var dates := ArrangeDays(DaysOf(cells));
    ArrangedDays(DaysOf(cells));
    assert x.day in dates;
    hide ArrangeDays, DaysOf, DayOf, ArrangeSeries;
    i :| 0 <= i < |dates| && dates[i] == x.day;
    assert |ChartOf(cells).days| == |dates|;
    DayAt(cells, i);
  }

  lemma SegmentOfRow(cells: seq<Cell>, x: Cell, i: nat) returns (j: nat)
    requires x in cells && i < |ChartOf(cells).days| && ChartOf(cells).days[i].day == x.day
    ensures var segments := ChartOf(cells).days[i].segments;
      j < |segments| && segments[j].series == x.series && segments[j].usd == SumOf(cells, Sel(Some(x.day), Some(x.series)))
  {
    var keys := ArrangeSeries(BySeries(cells, Some(x.day)), SeriesOf(cells, Some(x.day)));
    RowHasSeries(cells, x);
    hide ArrangeDays, ArrangeSeries, BySeries, SeriesOf, DaysOf, SumOf, Tallest, Percent, Color;
    j :| 0 <= j < |keys| && keys[j] == x.series;
    assert |ChartOf(cells).days[i].segments| == |keys|;
    SegmentAt(cells, i, j);
  }

  lemma RowHasSeries(cells: seq<Cell>, x: Cell)
    requires x in cells
    ensures x.series in ArrangeSeries(BySeries(cells, Some(x.day)), SeriesOf(cells, Some(x.day)))
  {
    assert Picks(Sel(Some(x.day), None), x);
    assert x.series in SeriesOf(cells, Some(x.day));
    Arranged(BySeries(cells, Some(x.day)), SeriesOf(cells, Some(x.day)));
  }

  lemma {:induction false} TallestIs(days: seq<Date>, m: map<Date, real>)
    ensures forall d :: d in days ==> Sums.Value(m, d) <= Tallest(days, m)
    ensures days != [] ==> exists i :: 0 <= i < |days| && Sums.Value(m, days[i]) == Tallest(days, m)
  {
    if |days| == 1 {
      assert Sums.Value(m, days[0]) == Tallest(days, m);
    } else if |days| > 1 {
      var init := days[..|days| - 1];
      TallestIs(init, m);
      assert forall d :: d in days ==> d in init || d == days[|days| - 1];
      var i :| 0 <= i < |init| && Sums.Value(m, init[i]) == Tallest(init, m);
      assert days[i] == init[i];
    }
  }

  lemma PercentBound(x: real, max: real)
    requires max > 0.0
    ensures x <= max ==> Percent(x, max) <= 100.0
    ensures x == max ==> Percent(x, max) == 100.0
  {
    var share := x / max;
    assert x == share * max;
    assert share > 1.0 ==> share * max > max;
  }

  /** If some day's total is positive, the tallest day has height 100 and no day is higher. */
  lemma TallestDayIsFull(cells: seq<Cell>, k: nat)
    requires k < |ChartOf(cells).days| && ChartOf(cells).days[k].total > 0.0
    ensures var days := ChartOf(cells).days;
      && (forall i :: 0 <= i < |days| ==> days[i].heightPct <= 100.0)
      && (exists i :: 0 <= i < |days| && days[i].heightPct == 100.0
            && forall j :: 0 <= j < |days| ==> days[j].total <= days[i].total)
  {
    hide ArrangeDays, ArrangeSeries, BySeries, SeriesOf, DaysOf, ByDay, SumOf, Tallest, Percent, Color;
    var days, dates, m := ChartOf(cells).days, ArrangeDays(DaysOf(cells)), ByDay(cells);
    TallestIs(dates, m);
    var max := Tallest(dates, m);
    forall i | 0 <= i < |days|
      ensures days[i].total == Sums.Value(m, dates[i]) <= max && days[i].heightPct == Percent(days[i].total, max)
    {
      DayAt(cells, i);
      assert dates[i] in dates;
    }
    forall i | 0 <= i < |days|
      ensures days[i].heightPct <= 100.0 && (days[i].total == max ==> days[i].heightPct == 100.0)
    {
      PercentBound(days[i].total, max);
    }
    var t :| 0 <= t < |dates| && Sums.Value(m, dates[t]) == max;
    assert days[t].heightPct == 100.0;
  }

  lemma PercentIs(part: real, whole: real)
    ensures whole != 0.0 ==> Percent(part, whole) * whole == 100.0 * part
    ensures whole == 0.0 ==> Percent(part, whole) == 0.0
  {
    if whole != 0.0 {
      var share := part / whole;
      assert share * whole == part;
      assert share * 100.0 * whole == 100.0 * (share * whole);
    }
  }

  /** Bars are as high as their share of the tallest day, in percent; when that is 0 they are flat. */
  lemma HeightsAreShares(cells: seq<Cell>, i: nat) returns (t: nat)
    requires i < |ChartOf(cells).days|
    ensures var days := ChartOf(cells).days;
      && t < |days| && (forall j :: 0 <= j < |days| ==> days[j].total <= days[t].total)
      && (if days[t].total != 0.0 then days[i].heightPct * days[t].total == 100.0 * days[i].total else days[i].heightPct == 0.0)
  {
    hide ArrangeDays, ArrangeSeries, BySeries, SeriesOf, DaysOf, ByDay, SumOf, Tallest, Percent, Color;
    var days, dates, m := ChartOf(cells).days, ArrangeDays(DaysOf(cells)), ByDay(cells);
    TallestIs(dates, m);
    forall j | 0 <= j < |days|
      ensures days[j].total == Sums.Value(m, dates[j]) && days[j].heightPct == Percent(days[j].total, Tallest(dates, m))
    {
      DayAt(cells, j);
    }
    assert forall j :: 0 <= j < |dates| ==> dates[j] in dates;
    t :| 0 <= t < |dates| && Sums.Value(m, dates[t]) == Tallest(dates, m);
    PercentIs(days[i].total, Tallest(dates, m));
  }

  lemma PctAt(cells: seq<Cell>, i: nat, j: nat)
    requires i < |ChartOf(cells).days| && j < |ChartOf(cells).days[i].segments|
    ensures var x := ChartOf(cells).days[i]; x.segments[j].pct == Percent(x.segments[j].usd, x.total)
  {
    hide ArrangeDays, SumOf, Tallest, Percent, ArrangeSeries, Ranked, BySeries, SeriesOf, Color;
  }

  /** A segment is its share of its day, in percent; on a day that adds up to 0 it is 0. */
  lemma SegmentsAreShares(cells: seq<Cell>, i: nat, j: nat)
    requires i < |ChartOf(cells).days| && j < |ChartOf(cells).days[i].segments|
    ensures var x := ChartOf(cells).days[i];
      if x.total != 0.0 then x.segments[j].pct * x.total == 100.0 * x.segments[j].usd else x.segments[j].pct == 0.0
  {
    hide ChartOf, Percent;
    PctAt(cells, i, j);
    var x := ChartOf(cells).days[i];
    PercentIs(x.segments[j].usd, x.total);
  }

  /** Legend entry `l` has colour l mod 6, and every segment of its series has the same colour. */
  lemma ColoursAgree(cells: seq<Cell>, i: nat, j: nat)
    requires i < |ChartOf(cells).days| && j < |ChartOf(cells).days[i].segments|
    ensures var c := ChartOf(cells);
      exists l :: 0 <= l < |c.legend| && c.legend[l].series == c.days[i].segments[j].series
        && c.legend[l].color == c.days[i].segments[j].color == l % 6
  {
    hide ChartOf;
    SegmentAt(cells, i, j);
    var series := ChartOf(cells).days[i].segments[j].series;
    SeriesInLegend(cells, ChartOf(cells).days[i].day, series);
    hide ArrangeSeries, BySeries, SeriesOf;
    var l := PositionOf(ArrangeSeries(BySeries(cells, None), SeriesOf(cells, None)), series);
    LegendAt(cells, l);
  }

  lemma SeriesInLegend(cells: seq<Cell>, day: Date, series: string)
    requires series in SeriesOf(cells, Some(day))
    ensures series in ArrangeSeries(BySeries(cells, None), SeriesOf(cells, None))
  {
    assert series in SeriesOf(cells, None);
    Arranged(BySeries(cells, None), SeriesOf(cells, None));
  }

  lemma LegendAt(cells: seq<Cell>, l: nat)
    requires l < |ArrangeSeries(BySeries(cells, None), SeriesOf(cells, None))|
    ensures var order := ArrangeSeries(BySeries(cells, None), SeriesOf(cells, None));
      && |ChartOf(cells).legend| == |order|
      && ChartOf(cells).legend[l].series == order[l] && ChartOf(cells).legend[l].color == Color(order, order[l])
  {
    hide ArrangeSeries, ArrangeDays, BySeries, SeriesOf, DaysOf, SumOf, DayOf, Color;
  }

  /** Bars come in calendar order; legend entries by falling total, ties by name. */
  lemma ChartIsOrdered(cells: seq<Cell>, i: nat, j: nat)
    requires i < j
    ensures j < |ChartOf(cells).days| ==> ChartOf(cells).days[i].day.ordinal < ChartOf(cells).days[j].day.ordinal
    ensures j < |ChartOf(cells).legend| ==>
      var a, b := ChartOf(cells).legend[i], ChartOf(cells).legend[j];
      a.total > b.total || (a.total == b.total && LexLe(a.series, b.series) && a.series != b.series)
  {
    var order := ArrangeSeries(BySeries(cells, None), SeriesOf(cells, None));
    Arranged(BySeries(cells, None), SeriesOf(cells, None));
    ArrangedDays(DaysOf(cells));
    ArrangedAddsUp(cells, None);
    hide ArrangeSeries, ArrangeDays, BySeries, SeriesOf, DaysOf, SumOf, DayOf, Color, Sums.Value;
    if j < |ChartOf(cells).days| {
      DayAt(cells, i);
      DayAt(cells, j);
    }
    if j < |ChartOf(cells).legend| {
      assert Precedes(BySeries(cells, None), order[i], order[j]);
    }
  }

  // ---------- the order of rows does not matter ----------

  lemma {:induction false} SameSums(a: seq<Cell>, b: seq<Cell>, s: Sel)
    requires multiset(a) == multiset(b)
    ensures SumOf(a, s) == SumOf(b, s)
    decreases |a|
  {
    if a == [] {
      assert |multiset(b)| == 0;
      assert b == [];
    } else {
      var init, x := a[..|a| - 1], a[|a| - 1];
      assert a == init + [x];
      assert x in multiset(b);
      var j :| 0 <= j < |b| && b[j] == x;
      TakeOut(b, j, s);
      SameSums(init, b[..j] + b[j + 1..], s);
    }
  }

  lemma TakeOut(b: seq<Cell>, j: nat, s: Sel)
    requires j < |b|
    ensures multiset(b[..j] + b[j + 1..]) == multiset(b) - multiset{b[j]}
    ensures SumOf(b, s) == SumOf(b[..j] + b[j + 1..], s) + if Picks(s, b[j]) then b[j].usd else 0.0
  {
    var x := b[j];
    assert b == b[..j] + [x] + b[j + 1..];
    SumsAddUp(b[..j] + [x], b[j + 1..], s, x);
    SumsAddUp(b[..j], [x], s, x);
    SumsAddUp(b[..j], b[j + 1..], s, x);
    assert [x][..0] == [];
  }

  lemma SameCells(a: seq<Cell>, b: seq<Cell>, day: Option<Date>)
    requires multiset(a) == multiset(b)
    ensures SeriesOf(a, day) == SeriesOf(b, day) && DaysOf(a) == DaysOf(b)
  {
    assert forall c :: c in a <==> c in multiset(a);
    assert forall c :: c in b <==> c in multiset(b);
  }

  lemma SameMaps(a: seq<Cell>, b: seq<Cell>, day: Option<Date>)
    requires multiset(a) == multiset(b)
    ensures SeriesOf(a, day) == SeriesOf(b, day) && DaysOf(a) == DaysOf(b)
    ensures BySeries(a, day) == BySeries(b, day) && ByDay(a) == ByDay(b)
  {
    SameCells(a, b, day);
    hide SeriesOf, DaysOf, SumOf;
    forall s: Sel
      ensures SumOf(a, s) == SumOf(b, s)
    {
      SameSums(a, b, s);
    }
    Sums.SameMap(BySeries(a, day), BySeries(b, day));
    Sums.SameMap(ByDay(a), ByDay(b));
  }

  /** The chart depends only on which rows there are, not on their order. */
  lemma OrderDoesNotMatter(a: seq<Cell>, b: seq<Cell>)
    requires multiset(a) == multiset(b)
    ensures ChartOf(a) == ChartOf(b)
  {
    var p, q := ChartOf(a), ChartOf(b);
    SameMaps(a, b, None);
    SameSums(a, b, ALL);
    var order := ArrangeSeries(BySeries(a, None), SeriesOf(a, None));
    var days := ArrangeDays(DaysOf(a));
    var max := Tallest(days, ByDay(a));
    hide ArrangeSeries, ArrangeDays, BySeries, SeriesOf, DaysOf, ByDay, SumOf, Tallest;
    forall i | 0 <= i < |days|
      ensures p.days[i] == q.days[i]
    {
      SameDay(a, b, days[i], order, max);
    }
    forall i | 0 <= i < |order|
      ensures p.legend[i] == q.legend[i]
    {
      SameSums(a, b, Sel(None, Some(order[i])));
    }
    assert p.days == q.days && p.legend == q.legend;
  }

  lemma SameDay(a: seq<Cell>, b: seq<Cell>, day: Date, order: seq<string>, max: real)
    requires multiset(a) == multiset(b)
    ensures DayOf(a, day, order, max) == DayOf(b, day, order, max)
  {
    SameMaps(a, b, Some(day));
    SameSums(a, b, Sel(Some(day), None));
    var p, q := DayOf(a, day, order, max).segments, DayOf(b, day, order, max).segments;
    hide ArrangeSeries, BySeries, SeriesOf, SumOf;
    forall i | 0 <= i < |p|
      ensures p[i] == q[i]
    {
      SameSums(a, b, Sel(Some(day), Some(p[i].series)));
    }
    assert p == q;
  }
}
