/**
 Keyset pagination of the audit log.

 A page is the newest `limit` matching rows older than the cursor; the cursor of the next
 page is the timestamp of the oldest row on this one.  The database may order rows with
 equal timestamps as it likes, and differently for each page.
 */
module AuditPages {
  import opened Wrappers

  datatype Row = Row(id: nat, tenant: string, ts: int, actor: string, action: string, resource: Option<string>)

  datatype Filter = Filter(tenant: string, action: Option<string>, actor: Option<string>, resource: Option<string>)

  /** A filter that is absent or empty adds no clause. */
  predicate Wants(wanted: Option<string>, actual: Option<string>) {
    wanted.None? || wanted.value == "" || actual == wanted
  }

  predicate Selects(f: Filter, before: Option<int>, r: Row) {
    && r.tenant == f.tenant
    && Wants(f.action, Some(r.action)) && Wants(f.actor, Some(r.actor)) && Wants(f.resource, r.resource)
    && (before.Some? ==> r.ts < before.value)
  }

  function Matches(log: set<Row>, f: Filter, before: Option<int>): set<Row> {
    set r | r in log && Selects(f, before, r)
  }

  /** The rows a query selects: the tenant's own, equal to every filter that is set and not empty, older than the
      cursor if there is one. */
  lemma MatchesExactly(log: set<Row>, f: Filter, before: Option<int>, r: Row)
    ensures r in Matches(log, f, before) <==>
      && r in log && r.tenant == f.tenant
      && (f.action != None && f.action != Some("") ==> Some(r.action) == f.action)
      && (f.actor != None && f.actor != Some("") ==> Some(r.actor) == f.actor)
      && (f.resource != None && f.resource != Some("") ==> r.resource == f.resource)
      && (before.Some? ==> r.ts < before.value)
  {
  }

  ghost predicate Distinct(s: seq<Row>) {
    forall i, j :: 0 <= i < j < |s| ==> s[i] != s[j]
  }

  ghost predicate NewestFirst(s: seq<Row>) {
    forall i, j :: 0 <= i < j < |s| ==> s[i].ts >= s[j].ts
  }

  function Elements(s: seq<Row>): set<Row> {
    set r | r in s
  }

  /** Any answer the database may give: ORDER BY ts DESC LIMIT `limit`. */
  ghost predicate IsPage(rows: set<Row>, limit: nat, page: seq<Row>) {
    && Distinct(page) && NewestFirst(page) && Elements(page) <= rows
    && |page| == (if limit <= |rows| then limit else |rows|)
    && (forall r, s :: r in rows && r !in page && s in page ==> r.ts <= s.ts)
  }

  /** What `activity_context` shows: the page without the rows the free-text filter rejects, and the
      cursor, computed before that filter. */
  datatype View = View(events: seq<Row>, nextBefore: Option<int>)

  function Keep(s: seq<Row>, text: Row -> bool): seq<Row> {
    if s == [] then [] else (if text(s[0]) then [s[0]] else []) + Keep(s[1..], text)
  }

  method ActivityContext(raw: seq<Row>, limit: nat, text: Row -> bool) returns (v: View)
    ensures v == ViewOf(raw, limit, text)
  {
    var hasMore := |raw| >= limit;
    var nextBefore := if hasMore && |raw| > 0 then Some(raw[|raw| - 1].ts) else None;
    var events := [];
    var i := 0;
    while i < |raw|
      invariant 0 <= i <= |raw|
      invariant Keep(raw, text) == events + Keep(raw[i..], text)
    {
      assert raw[i..][0] == raw[i] && raw[i..][1..] == raw[i + 1..];
      if text(raw[i]) {
        events := events + [raw[i]];
      }
      i := i + 1;
    }
    v := View(events, nextBefore);
  }

  function ViewOf(raw: seq<Row>, limit: nat, text: Row -> bool): View {
    View(Keep(raw, text), if |raw| >= limit && raw != [] then Some(raw[|raw| - 1].ts) else None)
  }

  /** `pages` are the database pages seen by following the cursors from `before` to the end. */
  ghost predicate Browse(log: set<Row>, f: Filter, limit: nat, text: Row -> bool, before: Option<int>, pages: seq<seq<Row>>)
    decreases |pages|
  {
    && pages != []
    && IsPage(Matches(log, f, before), limit, pages[0])
    && match ViewOf(pages[0], limit, text).nextBefore
       case None => |pages| == 1
       case Some(c) => |pages| > 1 && Browse(log, f, limit, text, Some(c), pages[1..])
  }

  /** The same when rows are inserted meanwhile: each page is taken from the log of its time. */
  ghost predicate BrowseLive(logs: seq<set<Row>>, f: Filter, limit: nat, text: Row -> bool, before: Option<int>, pages: seq<seq<Row>>)
    decreases |pages|
  {
    && pages != [] && |logs| == |pages|
    && IsPage(Matches(logs[0], f, before), limit, pages[0])
    && match ViewOf(pages[0], limit, text).nextBefore
       case None => |pages| == 1
       case Some(c) => |pages| > 1 && BrowseLive(logs[1..], f, limit, text, Some(c), pages[1..])
  }

  function Flatten(pages: seq<seq<Row>>): seq<Row> {
    if pages == [] then [] else pages[0] + Flatten(pages[1..])
  }

  function Shown(pages: seq<seq<Row>>, limit: nat, text: Row -> bool): seq<Row> {
    if pages == [] then [] else ViewOf(pages[0], limit, text).events + Shown(pages[1..], limit, text)
  }

  // ---------- pages ----------

  lemma {:induction false} ElementsSize(s: seq<Row>)
    requires Distinct(s)
    ensures |Elements(s)| == |s|
  {
    if s != [] {
      var init, last := s[..|s| - 1], s[|s| - 1];
      ElementsSize(init);
      assert Elements(s) == Elements(init) + {last};
      assert last !in Elements(init);
    } else {
      assert Elements(s) == {};
    }
  }

  lemma SubsetSize(a: set<Row>, b: set<Row>)
    requires a <= b
    ensures |a| <= |b| && (|a| == |b| ==> a == b)
  {
    assert b == a + (b - a);
  }

  lemma NewestOf(rows: set<Row>) returns (r: Row)
    requires rows != {}
    ensures r in rows && forall s :: s in rows ==> s.ts <= r.ts
    decreases |rows|
  {
    r :| r in rows;
    if rows - {r} != {} {
      var n := NewestOf(rows - {r});
      if n.ts > r.ts {
        r := n;
      }
    }
  }

  /** The database always has an answer. */
  lemma {:induction false} PageExists(rows: set<Row>, limit: nat) returns (page: seq<Row>)
    ensures IsPage(rows, limit, page)
    decreases limit
  {
    if limit == 0 || rows == {} {
      page := [];
    } else {
      var r := NewestOf(rows);
      var rest := PageExists(rows - {r}, limit - 1);
      page := [r] + rest;
      PageCons(rows, limit, r, rest);
    }
  }

  lemma DistinctCons(r: Row, rest: seq<Row>)
    requires Distinct(rest) && r !in rest
    ensures Distinct([r] + rest)
  {
  }

  lemma NewestCons(r: Row, rest: seq<Row>)
    requires NewestFirst(rest) && forall s :: s in rest ==> s.ts <= r.ts
    ensures NewestFirst([r] + rest)
  {
  }

  lemma PageCons(rows: set<Row>, limit: nat, r: Row, rest: seq<Row>)
    requires r in rows && (forall s :: s in rows ==> s.ts <= r.ts) && limit > 0 && IsPage(rows - {r}, limit - 1, rest)
    ensures IsPage(rows, limit, [r] + rest)
  {
    hide Distinct, NewestFirst;
    assert forall s :: s in rest ==> s in Elements(rest);
    DistinctCons(r, rest);
    NewestCons(r, rest);
    assert forall s :: s in [r] + rest <==> s == r || s in rest;
    assert Elements([r] + rest) == {r} + Elements(rest);
  }

  lemma NextRows(log: set<Row>, f: Filter, limit: nat, before: Option<int>, page: seq<Row>)
    requires IsPage(Matches(log, f, before), limit, page) && page != []
    ensures var c := page[|page| - 1].ts;
      && Matches(log, f, Some(c)) == OlderThan(Matches(log, f, before), c)
      && (forall r :: r in page ==> r.ts >= c && r in Matches(log, f, before))
      && |Matches(log, f, Some(c))| < |Matches(log, f, before)|
  {
    var rows, c := Matches(log, f, before), page[|page| - 1].ts;
    var next := Matches(log, f, Some(c));
    assert page[|page| - 1] in Elements(page);
    assert forall r :: r in page ==> r in Elements(page);
    assert next == OlderThan(rows, c);
    SubsetSize(next, rows - {page[|page| - 1]});
  }

  /** Following the cursors from the first page always comes to an end. */
  lemma {:induction false} PagingEnds(log: set<Row>, f: Filter, limit: nat, text: Row -> bool, before: Option<int>)
    returns (pages: seq<seq<Row>>)
    ensures Browse(log, f, limit, text, before, pages)
    decreases |Matches(log, f, before)|
  {
    var page := PageExists(Matches(log, f, before), limit);
    match ViewOf(page, limit, text).nextBefore
    case None => pages := [page];
    case Some(c) =>
      NextRows(log, f, limit, before, page);
      var rest := PagingEnds(log, f, limit, text, Some(c));
      pages := [page] + rest;
      assert pages[1..] == rest;
  }

  lemma Joined(page: seq<Row>, rest: seq<Row>, c: int)
    requires Distinct(page) && NewestFirst(page) && Distinct(rest) && NewestFirst(rest)
    requires (forall r :: r in page ==> r.ts >= c) && (forall r :: r in rest ==> r.ts < c)
    ensures Distinct(page + rest) && NewestFirst(page + rest)
  {
    var all := page + rest;
    forall i, j | 0 <= i < j < |all|
      ensures all[i] != all[j] && all[i].ts >= all[j].ts
    {
      assert i < |page| ==> all[i] in page;
      assert j >= |page| ==> all[j] in rest;
    }
  }

  lemma PageRows(log: set<Row>, f: Filter, limit: nat, before: Option<int>, page: seq<Row>)
    requires IsPage(Matches(log, f, before), limit, page)
    ensures forall r :: r in page ==> r in log && Selects(f, before, r)
    ensures page != [] ==> forall r :: r in page ==> r.ts >= page[|page| - 1].ts
  {
    assert forall r :: r in page ==> r in Elements(page);
  }

  /** The rows of all logs. */
  function Ever(logs: seq<set<Row>>): set<Row> {
    if logs == [] then {} else logs[0] + Ever(logs[1..])
  }

  lemma {:induction false} LivePagesInOrder(logs: seq<set<Row>>, f: Filter, limit: nat, text: Row -> bool, before: Option<int>, pages: seq<seq<Row>>)
    requires BrowseLive(logs, f, limit, text, before, pages)
    ensures Distinct(Flatten(pages)) && NewestFirst(Flatten(pages))
    ensures forall r :: r in Flatten(pages) ==> r in Ever(logs) && Selects(f, before, r)
    decreases |pages|
  {
    hide Wants, Distinct, NewestFirst;
    var page := pages[0];
    PageRows(logs[0], f, limit, before, page);
    if |pages| > 1 {
      var c, rest := page[|page| - 1].ts, Flatten(pages[1..]);
      LivePagesInOrder(logs[1..], f, limit, text, Some(c), pages[1..]);
      assert page[|page| - 1] in page;
      Joined(page, rest, c);
    } else {
      assert Flatten(pages[1..]) == [];
      assert Flatten(pages) == page;
    }
  }

  /** Whatever the ties, and whatever rows are inserted while paging, no row is ever repeated. */
  lemma NothingRepeats(logs: seq<set<Row>>, f: Filter, limit: nat, text: Row -> bool, before: Option<int>, pages: seq<seq<Row>>)
    requires BrowseLive(logs, f, limit, text, before, pages)
    ensures Distinct(Flatten(pages))
  {
    LivePagesInOrder(logs, f, limit, text, before, pages);
  }

  /** Whatever the ties and the insertions, the pages run from the newest row to the oldest, and show only matching
      rows of the log. */
  lemma NewestComeFirst(logs: seq<set<Row>>, f: Filter, limit: nat, text: Row -> bool, before: Option<int>, pages: seq<seq<Row>>, i: nat)
    requires BrowseLive(logs, f, limit, text, before, pages) && i < |Flatten(pages)|
    ensures i > 0 ==> Flatten(pages)[i - 1].ts >= Flatten(pages)[i].ts
    ensures var r := Flatten(pages)[i];
      && r in Ever(logs) && r.tenant == f.tenant
      && (f.action != None && f.action != Some("") ==> Some(r.action) == f.action)
      && (f.actor != None && f.actor != Some("") ==> Some(r.actor) == f.actor)
      && (f.resource != None && f.resource != Some("") ==> r.resource == f.resource)
      && (before.Some? ==> r.ts < before.value)
  {
    LivePagesInOrder(logs, f, limit, text, before, pages);
    assert Flatten(pages)[i] in Flatten(pages);
  }

  /** A row is left out of a full page only, and is not newer than its end. */
  lemma LeftOut(rows: set<Row>, limit: nat, page: seq<Row>, r: Row)
    requires limit > 0 && IsPage(rows, limit, page) && r in rows && r !in page
    ensures |page| == limit && page[|page| - 1].ts >= r.ts
  {
    ElementsSize(page);
    SubsetSize(Elements(page), rows);
    assert r !in Elements(page);
    assert page[|page| - 1] in page;
  }

  /** Whatever is inserted while paging, a matching row that was there throughout is shown, unless it has the
      timestamp of the last row of a page that left it out. */
  lemma {:induction false} PresentRowsAreShown(logs: seq<set<Row>>, f: Filter, limit: nat, text: Row -> bool, before: Option<int>,
                                               pages: seq<seq<Row>>, r: Row)
    requires limit > 0 && BrowseLive(logs, f, limit, text, before, pages)
    requires Selects(f, before, r) && forall i :: 0 <= i < |logs| ==> r in logs[i]
    ensures r in Flatten(pages) || exists i :: 0 <= i < |pages| && TiesWithEnd(pages[i], r)
    decreases |pages|
  {
    var page := pages[0];
    if r !in page && !TiesWithEnd(page, r) {
      LeftOut(Matches(logs[0], f, before), limit, page, r);
      assert forall i :: 0 <= i < |logs[1..]| ==> logs[1..][i] == logs[i + 1];
      PresentRowsAreShown(logs[1..], f, limit, text, Some(page[|page| - 1].ts), pages[1..], r);
      if i :| 0 <= i < |pages[1..]| && TiesWithEnd(pages[1..][i], r) {
        assert TiesWithEnd(pages[i + 1], r);
      }
    }
  }

  predicate TiesWithEnd(page: seq<Row>, r: Row) {
    page != [] && r !in page && page[|page| - 1].ts == r.ts
  }

  function Constant(log: set<Row>, n: nat): (logs: seq<set<Row>>)
    ensures |logs| == n
  {
    if n == 0 then [] else [log] + Constant(log, n - 1)
  }

  /** Paging through an unchanged log. */
  lemma {:induction false} PagesInOrder(log: set<Row>, f: Filter, limit: nat, text: Row -> bool, before: Option<int>, pages: seq<seq<Row>>)
    requires Browse(log, f, limit, text, before, pages)
    ensures Distinct(Flatten(pages)) && NewestFirst(Flatten(pages))
    ensures forall r :: r in Flatten(pages) ==> r in Matches(log, f, before)
  {
    BrowseIsLive(log, f, limit, text, before, pages);
    LivePagesInOrder(Constant(log, |pages|), f, limit, text, before, pages);
    EverConstant(log, |pages|);
  }

  lemma {:induction false} EverConstant(log: set<Row>, n: nat)
    ensures Ever(Constant(log, n)) <= log
  {
    if n > 0 {
      EverConstant(log, n - 1);
      assert Constant(log, n)[1..] == Constant(log, n - 1);
    }
  }

  lemma {:induction false} BrowseIsLive(log: set<Row>, f: Filter, limit: nat, text: Row -> bool, before: Option<int>, pages: seq<seq<Row>>)
    requires Browse(log, f, limit, text, before, pages)
    ensures BrowseLive(Constant(log, |pages|), f, limit, text, before, pages)
    decreases |pages|
  {
    assert Constant(log, |pages|)[1..] == Constant(log, |pages| - 1);
    if |pages| > 1 {
      BrowseIsLive(log, f, limit, text, ViewOf(pages[0], limit, text).nextBefore, pages[1..]);
    }
  }

  /** There is at most one more page than matching rows. */
  lemma {:induction false} FewPages(log: set<Row>, f: Filter, limit: nat, text: Row -> bool, before: Option<int>, pages: seq<seq<Row>>)
    requires Browse(log, f, limit, text, before, pages)
    ensures |pages| <= |Matches(log, f, before)| + 1
    decreases |pages|
  {
    if |pages| > 1 {
      NextRows(log, f, limit, before, pages[0]);
      FewPages(log, f, limit, text, ViewOf(pages[0], limit, text).nextBefore, pages[1..]);
    }
  }

  /** The free-text filter only hides rows: the rows shown are the database rows it accepts, in order. */
  lemma {:induction false} FilterOnlyHides(pages: seq<seq<Row>>, limit: nat, text: Row -> bool)
    ensures Shown(pages, limit, text) == Keep(Flatten(pages), text)
  {
    if pages != [] {
      FilterOnlyHides(pages[1..], limit, text);
      KeepConcat(pages[0], Flatten(pages[1..]), text);
    }
  }

  /** Filtering keeps exactly the accepted rows, in their order: `at` lists their positions. */
  lemma {:induction false} KeepsAccepted(s: seq<Row>, text: Row -> bool) returns (at: seq<nat>)
    ensures |at| == |Keep(s, text)|
    ensures forall i :: 0 <= i < |at| ==> at[i] < |s| && Keep(s, text)[i] == s[at[i]] && text(s[at[i]])
    ensures forall i, j :: 0 <= i < j < |at| ==> at[i] < at[j]
    ensures forall k: nat :: k < |s| && text(s[k]) ==> k in at
  {
    at := [];
    if s != [] {
      var n := |s| - 1;
      at := KeepsAccepted(s[..n], text);
      KeepConcat(s[..n], [s[n]], text);
      assert s == s[..n] + [s[n]] && Keep([s[n]][1..], text) == [];
      if text(s[n]) {
        at := at + [n];
      }
    }
  }

  lemma {:induction false} KeepConcat(a: seq<Row>, b: seq<Row>, text: Row -> bool)
    ensures Keep(a + b, text) == Keep(a, text) + Keep(b, text)
  {
    if a == [] {
      assert a + b == b;
    } else {
      var kept := if text(a[0]) then [a[0]] else [];
      KeepConcat(a[1..], b, text);
      assert (a + b)[0] == a[0] && (a + b)[1..] == a[1..] + b;
      assert kept + (Keep(a[1..], text) + Keep(b, text)) == kept + Keep(a[1..], text) + Keep(b, text);
    }
  }

  /** The cursors, and so the pages, do not depend on the free-text filter: it never ends paging early. */
  lemma {:induction false} FilterNeverEndsPaging(log: set<Row>, f: Filter, limit: nat, text: Row -> bool, other: Row -> bool,
                                                 before: Option<int>, pages: seq<seq<Row>>)
    requires Browse(log, f, limit, text, before, pages)
    ensures Browse(log, f, limit, other, before, pages)
    decreases |pages|
  {
    if |pages| > 1 {
      FilterNeverEndsPaging(log, f, limit, text, other, ViewOf(pages[0], limit, text).nextBefore, pages[1..]);
    }
  }

  // ---------- when paging is complete ----------

  function Newer(rows: set<Row>, t: int): set<Row> {
    set r | r in rows && r.ts > t
  }

  function OlderThan(rows: set<Row>, c: int): set<Row> {
    set r | r in rows && r.ts < c
  }

  function NotOlder(rows: set<Row>, t: int): set<Row> {
    set r | r in rows && r.ts >= t
  }

  /** `m` is a multiple of the page size. */
  predicate Boundary(m: nat, limit: nat) {
    m == 0 || (limit > 0 && m >= limit && Boundary(m - limit, limit))
  }

  /** No timestamp is shared by rows on both sides of a page boundary: between the number of rows newer
      than `t` and the number not older than `t` there is no multiple of the page size. */
  ghost predicate NoTieAcrossPages(rows: set<Row>, limit: nat) {
    forall t: int, m: nat :: |Newer(rows, t)| < m < |NotOlder(rows, t)| ==> !Boundary(m, limit)
  }

  ghost predicate Complete(rows: set<Row>, pages: seq<seq<Row>>) {
    rows == Elements(Flatten(pages))
  }

  /** On a full page, either a row tied with the cursor was left out, or the page is exactly the rows
      not older than the cursor. */
  lemma FullPage(rows: set<Row>, limit: nat, page: seq<Row>)
    requires limit > 0 && IsPage(rows, limit, page) && |page| == limit
    ensures var c := page[|page| - 1].ts;
      && |Newer(rows, c)| < limit <= |NotOlder(rows, c)|
      && (|NotOlder(rows, c)| == limit <==> NotOlder(rows, c) == Elements(page))
      && ((exists r :: r in rows && r !in page && r.ts == c) <==> |NotOlder(rows, c)| > limit)
  {
    var last := page[|page| - 1];
    var c, e := last.ts, Elements(page);
    ElementsSize(page);
    assert last in page && last in e;
    forall r | r in Newer(rows, c)
      ensures r in e - {last}
    {
      assert r !in page ==> r.ts <= last.ts;
    }
    SubsetSize(Newer(rows, c), e - {last});
    forall r | r in e
      ensures r in NotOlder(rows, c)
    {
    }
    SubsetSize(e, NotOlder(rows, c));
    if |NotOlder(rows, c)| > limit {
      assert exists r :: r in NotOlder(rows, c) && r !in e by {
        if NotOlder(rows, c) <= e {
          SubsetSize(NotOlder(rows, c), e);
        }
      }
      var r :| r in NotOlder(rows, c) && r !in e;
      assert r.ts <= last.ts;
    } else {
      forall r | r in rows && r.ts == c
        ensures r in page
      {
        assert r in NotOlder(rows, c);
      }
    }
  }

  lemma ShiftCounts(rows: set<Row>, page: seq<Row>, c: int, t: int)
    requires Distinct(page) && NotOlder(rows, c) == Elements(page) && t < c
    ensures var older := OlderThan(rows, c);
      |Newer(rows, t)| == |Newer(older, t)| + |page| && |NotOlder(rows, t)| == |NotOlder(older, t)| + |page|
  {
    var older := OlderThan(rows, c);
    ElementsSize(page);
    assert Newer(rows, t) == Newer(older, t) + Elements(page);
    assert NotOlder(rows, t) == NotOlder(older, t) + Elements(page);
  }

  lemma ClearShifts(rows: set<Row>, limit: nat, page: seq<Row>, c: int)
    requires limit == |page| > 0 && Distinct(page) && NotOlder(rows, c) == Elements(page)
    ensures NoTieAcrossPages(rows, limit) <==> NoTieAcrossPages(OlderThan(rows, c), limit)
  {
    var older := OlderThan(rows, c);
    forall t: int
      ensures t < c ==> |Newer(rows, t)| == |Newer(older, t)| + limit && |NotOlder(rows, t)| == |NotOlder(older, t)| + limit
      ensures t >= c ==> |NotOlder(rows, t)| <= limit && |NotOlder(older, t)| == 0
    {
      if t < c {
        ShiftCounts(rows, page, c, t);
      } else {
        ElementsSize(page);
        SubsetSize(NotOlder(rows, t), NotOlder(rows, c));
        assert NotOlder(older, t) == {};
      }
    }
    if NoTieAcrossPages(rows, limit) {
      forall t: int, m: nat | |Newer(older, t)| < m < |NotOlder(older, t)|
        ensures !Boundary(m, limit)
      {
        assert !Boundary(m + limit, limit);
      }
    }
    if NoTieAcrossPages(older, limit) {
      forall t: int, m: nat | |Newer(rows, t)| < m < |NotOlder(rows, t)|
        ensures !Boundary(m, limit)
      {
        if t < c {
          assert !Boundary(m - limit, limit);
        }
      }
    }
  }

  /** The pages together are exactly the matching rows if and only if no timestamp tie straddles a page
      boundary (and, for a page size of 0, there was nothing to show). */
  lemma {:induction false} CompleteExactly(log: set<Row>, f: Filter, limit: nat, text: Row -> bool, before: Option<int>, pages: seq<seq<Row>>)
    requires Browse(log, f, limit, text, before, pages)
    ensures var rows := Matches(log, f, before);
      Complete(rows, pages) <==> (limit > 0 || rows == {}) && NoTieAcrossPages(rows, limit)
    decreases |pages|
  {
    var rows, page := Matches(log, f, before), pages[0];
    if |pages| == 1 {
      assert Flatten(pages) == page + Flatten(pages[1..]) == page;
      LastPage(rows, limit, page);
    } else {
      var c := page[|page| - 1].ts;
      var rest := pages[1..];
      NextRows(log, f, limit, before, page);
      PagesInOrder(log, f, limit, text, Some(c), rest);
      CompleteExactly(log, f, limit, text, Some(c), rest);
      assert Elements(Flatten(pages)) == Elements(page) + Elements(Flatten(rest));
      FullPageStep(rows, limit, page, Elements(Flatten(rest)));
    }
  }

  /** It does happen: of two rows with one timestamp, pages of one row show only one. */
  lemma TieLosesRow(f: Filter, text: Row -> bool, r: Row, s: Row)
    requires r != s && r.ts == s.ts && Selects(f, None, r) && Selects(f, None, s)
    ensures Browse({r, s}, f, 1, text, None, [[r], []]) && s !in Flatten([[r], []])
  {
    hide Wants;
    var pages: seq<seq<Row>> := [[r], []];
    assert Matches({r, s}, f, None) == {r, s} && Matches({r, s}, f, Some(r.ts)) == {};
    assert Elements([r]) == {r} && Elements([]) == {};
    assert pages[1..] == [[]] && pages[1..][1..] == [];
    assert Flatten(pages[1..]) == [];
  }

  lemma FullPageStep(rows: set<Row>, limit: nat, page: seq<Row>, rest: set<Row>)
    requires limit > 0 && IsPage(rows, limit, page) && |page| == limit
    requires var older := OlderThan(rows, page[|page| - 1].ts);
      rest <= older && (rest == older <==> NoTieAcrossPages(older, limit))
    ensures rows == Elements(page) + rest <==> NoTieAcrossPages(rows, limit)
  {
    var c := page[|page| - 1].ts;
    var older := OlderThan(rows, c);
    FullPage(rows, limit, page);
    if |NotOlder(rows, c)| == limit {
      ClearShifts(rows, limit, page, c);
      assert NotOlder(rows, c) + older == rows && NotOlder(rows, c) !! older;
      if rows == Elements(page) + rest {
        assert older <= rest;
      }
    } else {
      assert Boundary(limit - limit, limit) && Boundary(limit, limit);
      var r :| r in rows && r !in page && r.ts == c;
      assert r !in older;
    }
  }

  lemma LastPage(rows: set<Row>, limit: nat, page: seq<Row>)
    requires IsPage(rows, limit, page) && !(|page| >= limit && page != [])
    ensures rows == Elements(page) <==> (limit > 0 || rows == {}) && NoTieAcrossPages(rows, limit)
  {
    ElementsSize(page);
    SubsetSize(Elements(page), rows);
    if limit > 0 {
      forall t: int, m: nat | |Newer(rows, t)| < m < |NotOlder(rows, t)|
        ensures !Boundary(m, limit)
      {
        SubsetSize(NotOlder(rows, t), rows);
      }
    }
    if rows == {} {
      forall t: int
        ensures |NotOlder(rows, t)| == 0
      {
        SubsetSize(NotOlder(rows, t), rows);
      }
    }
  }

  ghost predicate DistinctTimes(rows: set<Row>) {
    forall r, s :: r in rows && s in rows && r.ts == s.ts ==> r == s
  }

  /** `s` lists exactly `rows`, newest first, each once. */
  ghost predicate Lists(s: seq<Row>, rows: set<Row>) {
    Distinct(s) && NewestFirst(s) && forall r :: r in s <==> r in rows
  }

  lemma FirstIsNewest(s: seq<Row>, rows: set<Row>)
    requires Lists(s, rows) && s != []
    ensures s[0] in rows && forall r :: r in rows ==> r.ts <= s[0].ts
    ensures Lists(s[1..], rows - {s[0]})
  {
    forall r | r in rows
      ensures r.ts <= s[0].ts
    {
      var i :| 0 <= i < |s| && s[i] == r;
    }
    forall r
      ensures r in s[1..] <==> r in rows - {s[0]}
    {
      assert r in s <==> r == s[0] || r in s[1..];
    }
  }

  lemma EmptyListing(s: seq<Row>, rows: set<Row>)
    requires Lists(s, rows)
    ensures s == [] <==> rows == {}
  {
    if s != [] {
      assert s[0] in s;
    }
  }

  lemma {:induction false} OneListing(a: seq<Row>, b: seq<Row>, rows: set<Row>)
    requires Lists(a, rows) && Lists(b, rows) && DistinctTimes(rows)
    ensures a == b
  {
    EmptyListing(a, rows);
    EmptyListing(b, rows);
    if a != [] {
      FirstIsNewest(a, rows);
      FirstIsNewest(b, rows);
      assert a[0] == b[0];
      OneListing(a[1..], b[1..], rows - {a[0]});
    }
  }

  lemma OnlyListing(log: set<Row>, f: Filter, limit: nat, text: Row -> bool, pages: seq<seq<Row>>, listing: seq<Row>)
    requires limit > 0 && Browse(log, f, limit, text, None, pages)
    requires DistinctTimes(Matches(log, f, None)) && Lists(listing, Matches(log, f, None))
    ensures Flatten(pages) == listing
  {
    var rows := Matches(log, f, None);
    hide Matches, Browse, Flatten, NoTieAcrossPages;
    ClearWhenDistinct(rows, limit);
    CompleteExactly(log, f, limit, text, None, pages);
    PagesInOrder(log, f, limit, text, None, pages);
    assert forall r :: r in Flatten(pages) <==> r in Elements(Flatten(pages));
    OneListing(Flatten(pages), listing, rows);
  }

  /** When timestamps are distinct, the pages one after the other are the filtered log, newest first, each row
      once: any such listing of it is what was paged through, and a row is shown if and only if it is the tenant's
      and equals every filter that is set and not empty. */
  lemma DistinctTimesPartition(log: set<Row>, f: Filter, limit: nat, text: Row -> bool, pages: seq<seq<Row>>, listing: seq<Row>, r: Row)
    requires limit > 0 && Browse(log, f, limit, text, None, pages)
    requires DistinctTimes(Matches(log, f, None)) && Lists(listing, Matches(log, f, None))
    ensures Flatten(pages) == listing
    ensures r in Flatten(pages) <==>
      && r in log && r.tenant == f.tenant
      && (f.action != None && f.action != Some("") ==> Some(r.action) == f.action)
      && (f.actor != None && f.actor != Some("") ==> Some(r.actor) == f.actor)
      && (f.resource != None && f.resource != Some("") ==> r.resource == f.resource)
  {
    hide Matches, Browse, Flatten, Selects, DistinctTimes, Distinct, NewestFirst;
    OnlyListing(log, f, limit, text, pages, listing);
    MatchesExactly(log, f, None, r);
  }

  lemma ClearWhenDistinct(rows: set<Row>, limit: nat)
    requires DistinctTimes(rows)
    ensures NoTieAcrossPages(rows, limit)
  {
    forall t: int
      ensures |NotOlder(rows, t)| <= |Newer(rows, t)| + 1
    {
      if r :| r in rows && r.ts == t {
        assert NotOlder(rows, t) == Newer(rows, t) + {r};
      } else {
        assert NotOlder(rows, t) == Newer(rows, t);
      }
    }
  }
}
