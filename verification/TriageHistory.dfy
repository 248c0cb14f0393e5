/**
 What paging means over a whole history of runs, operator resolves and prunes.

 `TriedAt` and `Owed` speak of what the runs did on the incidents table; `ShouldPage` and
 `Unpaid` say when they page and what they owe from the events alone, and `PagingIsHistory`
 shows that the two agree.
 */
module TriageHistory {
  import opened Wrappers
  import opened Triage

  /** The incidents table after a history. */
  function Rows(cfg: Config, events: seq<Event>): Table {
    if events == [] then map[] else Apply(cfg, Rows(cfg, events[..|events| - 1]), events[|events| - 1])
  }

  /** Run `i` is an occurrence of the problem with this source and fingerprint. */
  predicate OccursAt(events: seq<Event>, k: Key, i: int) {
    && 0 <= i < |events| && events[i].Occur?
    && events[i].sig.source == k.source && events[i].sig.fingerprint == k.fingerprint
  }

  /** Run `i` tried to page. */
  predicate TriedAt(cfg: Config, events: seq<Event>, i: int) {
    0 <= i < |events| && Pages(cfg, Rows(cfg, events[..i]), events[i])
  }

  predicate ResolvedAt(events: seq<Event>, k: Key, i: int) {
    0 <= i < |events| && events[i] == Resolve(k)
  }

  /** Index of the latest occurrence of `k`, or -1. */
  function Latest(events: seq<Event>, k: Key): (i: int)
    ensures -1 <= i < |events|
    ensures i >= 0 ==> OccursAt(events, k, i)
    ensures forall j :: i < j < |events| ==> !OccursAt(events, k, j)
  {
    if events == [] then -1
    else if OccursAt(events, k, |events| - 1) then |events| - 1
    else
      var init := events[..|events| - 1];
      assert forall j :: 0 <= j < |init| ==> (OccursAt(events, k, j) <==> OccursAt(init, k, j));
      Latest(init, k)
  }

  /** Resolved by an operator after occurrence `i`, and then pruned when `i` was old enough. */
  ghost predicate Gone(events: seq<Event>, k: Key, i: int)
    requires 0 <= i < |events| && events[i].Occur?
  {
    exists r, p :: i < r < p < |events| && ResolvedAt(events, k, r) && PrunesAt(events, p, events[i].at)
  }

  predicate PrunesAt(events: seq<Event>, p: int, seen: real) {
    0 <= p < |events| && events[p].Prune? && events[p].days > 0 && seen < events[p].at - events[p].days as real * 86400.0
  }

  /** The latest run that tried to page for `k` used up every attempt, and no operator resolved `k` since. */
  ghost predicate Owed(cfg: Config, events: seq<Event>, k: Key) {
    exists a :: OwedSince(cfg, events, k, a)
  }

  ghost predicate OwedSince(cfg: Config, events: seq<Event>, k: Key, a: int) {
    && OccursAt(events, k, a) && TriedAt(cfg, events, a) && !Delivered(cfg, events[a].outcomes)
    && forall b :: a < b < |events| ==> !ResolvedAt(events, k, b) && !(OccursAt(events, k, b) && TriedAt(cfg, events, b))
  }

  lemma Shorter(cfg: Config, events: seq<Event>, k: Key, i: int)
    requires events != [] && 0 <= i < |events| - 1
    ensures var init := events[..|events| - 1];
      && init[i] == events[i]
      && OccursAt(events, k, i) == OccursAt(init, k, i)
      && ResolvedAt(events, k, i) == ResolvedAt(init, k, i)
      && TriedAt(cfg, events, i) == TriedAt(cfg, init, i)
      && (events[i].Occur? ==> forall p :: 0 <= p < |init| ==> PrunesAt(events, p, events[i].at) == PrunesAt(init, p, events[i].at))
  {
    assert events[..|events| - 1][..i] == events[..i];
  }

  lemma OwedSinceStep(cfg: Config, events: seq<Event>, k: Key, a: int)
    requires events != []
    ensures var n := |events| - 1;
      OwedSince(cfg, events, k, a) <==>
        if a == n then OccursAt(events, k, n) && TriedAt(cfg, events, n) && !Delivered(cfg, events[n].outcomes)
        else OwedSince(cfg, events[..n], k, a) && !ResolvedAt(events, k, n) && !(OccursAt(events, k, n) && TriedAt(cfg, events, n))
  {
    hide ResolvedAt, TriedAt, Delivered;
    var n := |events| - 1;
    forall i | 0 <= i < n
      ensures events[..n][i] == events[i]
      ensures OccursAt(events, k, i) == OccursAt(events[..n], k, i)
      ensures ResolvedAt(events, k, i) == ResolvedAt(events[..n], k, i)
      ensures TriedAt(cfg, events, i) == TriedAt(cfg, events[..n], i)
    {
      Shorter(cfg, events, k, i);
    }
  }

  lemma OwedStep(cfg: Config, events: seq<Event>, k: Key)
    requires events != []
    ensures var n := |events| - 1;
      Owed(cfg, events, k) <==>
        if OccursAt(events, k, n) && TriedAt(cfg, events, n) then !Delivered(cfg, events[n].outcomes)
        else Owed(cfg, events[..n], k) && !ResolvedAt(events, k, n)
  {
    var n := |events| - 1;
    forall a: int
      ensures OwedSince(cfg, events, k, a) <==>
        if a == n then OccursAt(events, k, n) && TriedAt(cfg, events, n) && !Delivered(cfg, events[n].outcomes)
        else OwedSince(cfg, events[..n], k, a) && !ResolvedAt(events, k, n) && !(OccursAt(events, k, n) && TriedAt(cfg, events, n))
    {
      OwedSinceStep(cfg, events, k, a);
    }
    if OccursAt(events, k, n) && TriedAt(cfg, events, n) && !Delivered(cfg, events[n].outcomes) {
      assert OwedSince(cfg, events, k, n);
    }
    if Owed(cfg, events[..n], k) && !ResolvedAt(events, k, n) && !(OccursAt(events, k, n) && TriedAt(cfg, events, n)) {
      var a :| OwedSince(cfg, events[..n], k, a);
      assert OwedSince(cfg, events, k, a);
    }
  }

  lemma GoneStep(cfg: Config, events: seq<Event>, k: Key, i: int)
    requires events != [] && 0 <= i < |events| - 1 && events[i].Occur?
    ensures var n := |events| - 1;
      && events[..n][i].Occur?
      && (Gone(events, k, i) <==>
            || Gone(events[..n], k, i)
            || (PrunesAt(events, n, events[i].at) && ResolvedSince(events[..n], k, i)))
      && (ResolvedSince(events, k, i) <==> ResolvedSince(events[..n], k, i) || ResolvedAt(events, k, n))
  {
    var n := |events| - 1;
    var init := events[..n];
    forall r | 0 <= r < n
      ensures init[r] == events[r]
      ensures ResolvedAt(events, k, r) == ResolvedAt(init, k, r)
      ensures PrunesAt(events, r, events[i].at) == PrunesAt(init, r, init[i].at)
    {
      Shorter(cfg, events, k, r);
    }
    if PrunesAt(events, n, events[i].at) && ResolvedSince(init, k, i) {
      var r :| i < r < |init| && ResolvedAt(init, k, r);
      assert ResolvedAt(events, k, r);
    }
    if Gone(init, k, i) {
      var r, p :| i < r < p < |init| && ResolvedAt(init, k, r) && PrunesAt(init, p, init[i].at);
      assert ResolvedAt(events, k, r) && PrunesAt(events, p, events[i].at);
    }
  }

  ghost predicate ResolvedSince(events: seq<Event>, k: Key, i: int) {
    exists r :: i < r < |events| && ResolvedAt(events, k, r)
  }

  /** How often `k` occurred since its row was created. */
  ghost function Occurrences(events: seq<Event>, k: Key): nat {
    if events == [] then 0 else
      var init := events[..|events| - 1];
      if !OccursAt(events, k, |events| - 1) then Occurrences(init, k)
      else if Latest(init, k) < 0 || Gone(init, k, Latest(init, k)) then 1
      else Occurrences(init, k) + 1
  }

  /** Index of the occurrence of `k` that created its row, or -1. */
  ghost function Created(events: seq<Event>, k: Key): int {
    if events == [] then -1 else
      var init := events[..|events| - 1];
      if !OccursAt(events, k, |events| - 1) then Created(init, k)
      else if Latest(init, k) < 0 || Gone(init, k, Latest(init, k)) then |events| - 1
      else Created(init, k)
  }

  /** The table row of `k`, read off the history. */
  ghost predicate RowIs(cfg: Config, events: seq<Event>, k: Key, row: Option<Row>) {
    var i := Latest(events, k);
    if i < 0 || Gone(events, k, i) then row.None? && !Owed(cfg, events, k)
    else
      && row.Some?
      && row.value.lastSeen == events[i].at
      && row.value.severity == Classify(events[i].sig.suggested, events[i].answer.severity)
      && row.value.title == events[i].sig.title && row.value.body == Body(events[i].sig, events[i].answer)
      && row.value.count == Occurrences(events, k)
      && 0 <= Created(events, k) < |events| && events[Created(events, k)].Occur?
      && row.value.firstSeen == events[Created(events, k)].at
      && (row.value.status.Resolved? <==> ResolvedSince(events, k, i))
      && (row.value.status.AlertFailed? <==> Owed(cfg, events, k))
  }

  /** What an occurrence makes of the row of its problem. */
  lemma OwnRow(cfg: Config, rows: Table, e: Event)
    requires e.Occur?
    ensures var k := Key(e.sig.source, e.sig.fingerprint);
      var prev, row := Get(rows, k), Get(Apply(cfg, rows, e), k);
      && row.Some? && row.value.lastSeen == e.at && row.value.severity == Classify(e.sig.suggested, e.answer.severity)
      && row.value.title == e.sig.title && row.value.body == Body(e.sig, e.answer)
      && row.value.count == (if prev.Some? then prev.value.count + 1 else 1)
      && row.value.firstSeen == (if prev.Some? then prev.value.firstSeen else e.at)
      && !row.value.status.Resolved?
      && (row.value.status.AlertFailed? <==>
            if Pages(cfg, rows, e) then !Delivered(cfg, e.outcomes) else prev.Some? && prev.value.status.AlertFailed?)
      && (prev.None? ==> Pages(cfg, rows, e))
  {
    hide Classify, Body, Delivered;
  }

  lemma {:induction false} RowIsHistory(cfg: Config, events: seq<Event>, k: Key)
    ensures RowIs(cfg, events, k, Get(Rows(cfg, events), k))
  {
    if events == [] {
      return;
    }
    hide Classify, Body;
    var n := |events| - 1;
    var init, e := events[..n], events[n];
    RowIsHistory(cfg, init, k);
    OwedStep(cfg, events, k);
    var i := Latest(init, k);
    if OccursAt(events, k, n) {
      assert Latest(events, k) == n;
      assert !Gone(events, k, n) && !ResolvedSince(events, k, n);
      OwnRow(cfg, Rows(cfg, init), e);
      assert Rows(cfg, events) == Apply(cfg, Rows(cfg, init), e);
      hide Rows, Apply, Pages, Delivered, Gone, Owed, ResolvedSince;
    } else {
      LatestStays(events, k);
      if i >= 0 {
        GoneStep(cfg, events, k, i);
        OtherEvent(cfg, events, k, i);
      }
    }
  }

  lemma LatestStays(events: seq<Event>, k: Key)
    requires events != [] && !OccursAt(events, k, |events| - 1)
    ensures Latest(events, k) == Latest(events[..|events| - 1], k)
  {
  }

  /** What an event that is no occurrence of `k` does to its row. */
  lemma OtherRow(cfg: Config, rows: Table, e: Event, k: Key)
    requires e.Occur? ==> Key(e.sig.source, e.sig.fingerprint) != k
    ensures Get(Apply(cfg, rows, e), k) ==
      if e == Resolve(k) && k in rows then Some(rows[k].(status := Resolved))
      else if e.Prune? && k in rows && Expired(rows[k], e.at, e.days) then None
      else Get(rows, k)
  {
    hide NewRow, Pages, Delivered, Expired;
  }

  lemma OtherEvent(cfg: Config, events: seq<Event>, k: Key, i: nat)
    requires events != [] && !OccursAt(events, k, |events| - 1)
    requires var init := events[..|events| - 1];
      && i < |init| && i == Latest(init, k) == Latest(events, k)
      && RowIs(cfg, init, k, Get(Rows(cfg, init), k))
      && (Gone(events, k, i) <==> Gone(init, k, i) || (PrunesAt(events, |init|, events[i].at) && ResolvedSince(init, k, i)))
      && (ResolvedSince(events, k, i) <==> ResolvedSince(init, k, i) || ResolvedAt(events, k, |init|))
      && (Owed(cfg, events, k) <==> Owed(cfg, init, k) && !ResolvedAt(events, k, |init|))
    ensures RowIs(cfg, events, k, Get(Rows(cfg, events), k))
  {
    OtherRow(cfg, Rows(cfg, events[..|events| - 1]), events[|events| - 1], k);
    assert Rows(cfg, events) == Apply(cfg, Rows(cfg, events[..|events| - 1]), events[|events| - 1]);
    assert Occurrences(events, k) == Occurrences(events[..|events| - 1], k);
    assert Created(events, k) == Created(events[..|events| - 1], k);
    hide Rows, Apply, Gone, ResolvedSince, Owed, Latest, Upserted, Pages, Delivered, Occurrences, Created, Classify, Body;
    assert events[..|events| - 1][i] == events[i];
  }

  /** A page that failed is never forgotten: after every run the row is `alert_failed` exactly when the
      latest run that tried to page used up its attempts (and nobody resolved it since). */
  lemma FailedPageIsRemembered(cfg: Config, events: seq<Event>, k: Key)
    ensures Owed(cfg, events, k) <==> k in Rows(cfg, events) && Rows(cfg, events)[k].status.AlertFailed?
  {
    RowIsHistory(cfg, events, k);
  }

  /** An occurrence tries to page if and only if it is the first since its row was created, or critical,
      or at least a window after the previous occurrence, or the latest attempt exhausted its retries. */
  lemma PagingMeaning(cfg: Config, events: seq<Event>, j: nat)
    requires j < |events| && events[j].Occur?
    ensures var past, e := events[..j], events[j];
      var k := Key(e.sig.source, e.sig.fingerprint);
      var i := Latest(past, k);
      TriedAt(cfg, events, j) <==>
        || i < 0
        || Gone(past, k, i)
        || Classify(e.sig.suggested, e.answer.severity) == "critical"
        || e.at - past[i].at >= cfg.dedupWindowMinutes as real * 60.0
        || Owed(cfg, past, k)
  {
    RowIsHistory(cfg, events[..j], DedupKey(events[j].sig));
  }

  /** Run `i` should page, said without the table: it is the first occurrence since the row was created, or critical,
      or comes a window or more after the previous one, or a page is unpaid. */
  ghost predicate ShouldPage(cfg: Config, events: seq<Event>, i: nat)
    decreases i, 1
  {
    && i < |events| && events[i].Occur?
    && var past, e := events[..i], events[i];
       var k := Key(e.sig.source, e.sig.fingerprint);
       var last := Latest(past, k);
       || last < 0
       || Gone(past, k, last)
       || Classify(e.sig.suggested, e.answer.severity) == "critical"
       || e.at - past[last].at >= cfg.dedupWindowMinutes as real * 60.0
       || Unpaid(cfg, past, k)
  }

  /** The latest run that should have paged for `k` used up every attempt, and no operator resolved `k` since. */
  ghost predicate Unpaid(cfg: Config, events: seq<Event>, k: Key)
    decreases |events|, 0
  {
    exists a: nat :: a < |events| && OccursAt(events, k, a) && ShouldPage(cfg, events, a) && !Delivered(cfg, events[a].outcomes) &&
      forall b: nat :: a < b < |events| ==> !ResolvedAt(events, k, b) && !(OccursAt(events, k, b) && ShouldPage(cfg, events, b))
  }

  /** What the runs do on the table is what the history alone says. */
  lemma {:induction false} PagingIsHistory(cfg: Config, events: seq<Event>, j: nat)
    requires j < |events|
    ensures TriedAt(cfg, events, j) <==> ShouldPage(cfg, events, j)
    decreases j, 1
  {
    if events[j].Occur? {
      hide Gone, Owed, Unpaid, Classify;
      PagingMeaning(cfg, events, j);
      OwedIsHistory(cfg, events[..j], DedupKey(events[j].sig));
    }
  }

  lemma {:induction false} OwedIsHistory(cfg: Config, events: seq<Event>, k: Key)
    ensures Owed(cfg, events, k) <==> Unpaid(cfg, events, k)
    ensures Unpaid(cfg, events, k) <==> k in Rows(cfg, events) && Rows(cfg, events)[k].status.AlertFailed?
    decreases |events|, 0
  {
    hide TriedAt, ShouldPage, Delivered, Rows;
    FailedPageIsRemembered(cfg, events, k);
    forall a: nat | a < |events|
      ensures TriedAt(cfg, events, a) <==> ShouldPage(cfg, events, a)
    {
      PagingIsHistory(cfg, events, a);
    }
    if Owed(cfg, events, k) {
      var a :| OwedSince(cfg, events, k, a);
      assert OccursAt(events, k, a) && ShouldPage(cfg, events, a);
    }
    if Unpaid(cfg, events, k) {
      var a: nat :| a < |events| && OccursAt(events, k, a) && ShouldPage(cfg, events, a) && !Delivered(cfg, events[a].outcomes) &&
        forall b: nat :: a < b < |events| ==> !ResolvedAt(events, k, b) && !(OccursAt(events, k, b) && ShouldPage(cfg, events, b));
      assert OwedSince(cfg, events, k, a);
    }
  }

  lemma {:induction false} StaysOwed(cfg: Config, events: seq<Event>, more: seq<Event>, k: Key)
    requires Owed(cfg, events, k)
    requires forall i :: 0 <= i < |more| ==> !OccursAt(more, k, i) && !ResolvedAt(more, k, i)
    ensures Owed(cfg, events + more, k)
    decreases |more|
  {
    hide Owed;
    var all := events + more;
    if more == [] {
      assert all == events;
    } else {
      var m := |more| - 1;
      assert forall i :: 0 <= i < m ==> OccursAt(more[..m], k, i) == OccursAt(more, k, i) && ResolvedAt(more[..m], k, i) == ResolvedAt(more, k, i);
      StaysOwed(cfg, events, more[..m], k);
      assert all[..|all| - 1] == events + more[..m];
      assert !OccursAt(more, k, m) && !ResolvedAt(more, k, m) && all[|all| - 1] == more[m];
      OwedStep(cfg, all, k);
    }
  }

  /** Whatever else happens meanwhile, an owed page stays owed and the next occurrence retries it. */
  lemma OwedUntilRetried(cfg: Config, events: seq<Event>, more: seq<Event>, next: Event)
    requires next.Occur?
    requires Owed(cfg, events, Key(next.sig.source, next.sig.fingerprint))
    requires forall i :: 0 <= i < |more| ==> !OccursAt(more, Key(next.sig.source, next.sig.fingerprint), i) && !ResolvedAt(more, Key(next.sig.source, next.sig.fingerprint), i)
    ensures Owed(cfg, events + more, Key(next.sig.source, next.sig.fingerprint))
    ensures TriedAt(cfg, events + more + [next], |events + more|)
  {
    hide Owed, TriedAt, Gone, Latest, OccursAt, ResolvedAt, Classify;
    StaysOwed(cfg, events, more, Key(next.sig.source, next.sig.fingerprint));
    var all := events + more;
    assert (all + [next])[..|all|] == all;
    PagingMeaning(cfg, all + [next], |all|);
  }

  /** A non-critical burst: every later occurrence of `k` is under the window after the previous one,
      and nobody resolves it. */
  ghost predicate Burst(cfg: Config, events: seq<Event>, k: Key, f: int) {
    && OccursAt(events, k, f)
    && (forall j :: f < j < |events| ==> !ResolvedAt(events, k, j))
    && (forall j :: f < j < |events| && OccursAt(events, k, j) ==> Quiet(cfg, events, k, j))
  }

  ghost predicate Quiet(cfg: Config, events: seq<Event>, k: Key, j: int)
    requires OccursAt(events, k, j)
  {
    var i := Latest(events[..j], k);
    && Classify(events[j].sig.suggested, events[j].answer.severity) != "critical"
    && (i >= 0 ==> events[j].at - events[i].at < cfg.dedupWindowMinutes as real * 60.0)
  }

  /** Nothing is owed to a key whose last try was delivered. */
  lemma PaidOff(cfg: Config, events: seq<Event>, k: Key, f: int)
    requires OccursAt(events, k, f) && TriedAt(cfg, events, f) && Delivered(cfg, events[f].outcomes)
    requires forall b :: f < b < |events| && OccursAt(events, k, b) ==> !TriedAt(cfg, events, b)
    ensures !Owed(cfg, events, k)
  {
    forall a: int
      ensures !OwedSince(cfg, events, k, a)
    {
    }
  }

  /** A burst whose first page is delivered sends exactly that one page, whatever other keys do. */
  lemma {:induction false} BurstPagesOnce(cfg: Config, events: seq<Event>, k: Key, f: nat, j: nat)
    requires Burst(cfg, events, k, f) && TriedAt(cfg, events, f) && Delivered(cfg, events[f].outcomes)
    requires f < j < |events| && OccursAt(events, k, j)
    ensures !TriedAt(cfg, events, j)
    decreases j
  {
    hide Classify, Rows, Pages, Delivered, Owed;
    var past := events[..j];
    var i := Latest(past, k);
    assert OccursAt(past, k, f);
    assert i >= f;
    forall b | f <= b < j
      ensures OccursAt(past, k, b) == OccursAt(events, k, b) && ResolvedAt(past, k, b) == ResolvedAt(events, k, b)
      ensures TriedAt(cfg, past, b) == TriedAt(cfg, events, b)
      ensures b > f && OccursAt(events, k, b) ==> !TriedAt(cfg, events, b)
    {
      assert past[..b] == events[..b];
      if b > f && OccursAt(events, k, b) {
        BurstPagesOnce(cfg, events, k, f, b);
      }
    }
    assert TriedAt(cfg, past, f) && past[f] == events[f];
    PaidOff(cfg, past, k, f);
    assert forall r :: i < r < |past| ==> !ResolvedAt(past, k, r);
    assert Quiet(cfg, events, k, j);
    PagingMeaning(cfg, events, j);
  }
}
