/**
 The per-job spending cap with calls in flight.

 A chat call compares the recorded spend with the cap when it starts and adds its cost
 when its answer arrives, so several calls may pass the comparison before any of them is
 recorded.  An answer dearer than the per-call ceiling raises instead of being recorded.
 */
module JobCap {

  datatype Config = Config(cap: real, ceiling: real)

  datatype Job = Job(spent: real, inFlight: nat)

  /** A call asks to start; an answer of some cost arrives; or the gateway call raises. */
  datatype Event = Ask | Answer(cost: real) | Fail

  predicate Refuses(c: Config, spent: real) {
    c.cap > 0.0 && spent >= c.cap
  }

  function Step(c: Config, j: Job, e: Event): Job {
    match e
    case Ask => if Refuses(c, j.spent) then j else j.(inFlight := j.inFlight + 1)
    case Answer(cost) => Job(if cost > c.ceiling then j.spent else j.spent + cost, if j.inFlight > 0 then j.inFlight - 1 else 0)
    case Fail => j.(inFlight := if j.inFlight > 0 then j.inFlight - 1 else 0)
  }

  function After(c: Config, j: Job, events: seq<Event>): Job
    decreases |events|
  {
    if events == [] then j else After(c, Step(c, j, events[0]), events[1..])
  }

  /** At most `n` calls in flight; only they can end; costs are not negative. */
  ghost predicate Possible(c: Config, n: nat, j: Job, events: seq<Event>)
    decreases |events|
  {
    && j.inFlight <= n
    && (events != [] ==>
          && (events[0].Ask? || j.inFlight > 0)
          && (events[0].Answer? ==> events[0].cost >= 0.0)
          && Possible(c, n, Step(c, j, events[0]), events[1..]))
  }

  /** Calls that really start. */
  function Started(c: Config, j: Job, events: seq<Event>): nat
    decreases |events|
  {
    if events == [] then 0 else
      Started(c, Step(c, j, events[0]), events[1..]) + if events[0].Ask? && !Refuses(c, j.spent) then 1 else 0
  }

  /** What the gateway charged, and the part of it that was over the ceiling. */
  function Charged(events: seq<Event>): real {
    if events == [] then 0.0 else Charged(events[1..]) + if events[0].Answer? then events[0].cost else 0.0
  }

  function OverCeiling(c: Config, events: seq<Event>): real {
    if events == [] then 0.0 else
      OverCeiling(c, events[1..]) + if events[0].Answer? && events[0].cost > c.ceiling then events[0].cost else 0.0
  }

  /** `k` times the dearest recordable call. */
  function Dearest(c: Config, k: nat): real {
    if k == 0 then 0.0 else Dearest(c, k - 1) + if c.ceiling > 0.0 then c.ceiling else 0.0
  }

  lemma {:induction false} DearestIsProduct(c: Config, k: nat)
    requires c.ceiling >= 0.0
    ensures Dearest(c, k) == k as real * c.ceiling
  {
    if k > 0 {
      DearestIsProduct(c, k - 1);
      assert k as real * c.ceiling == (k - 1) as real * c.ceiling + c.ceiling;
    }
  }

  lemma {:induction false} DearestGrows(c: Config, k: nat, n: nat)
    requires k <= n
    ensures Dearest(c, k) <= Dearest(c, n)
  {
    if k < n {
      DearestGrows(c, k, n - 1);
    }
  }

  lemma {:induction false} OvershootFrom(c: Config, n: nat, j: Job, events: seq<Event>)
    requires c.cap > 0.0 && Possible(c, n, j, events)
    requires j.spent + Dearest(c, j.inFlight) < c.cap + Dearest(c, n)
    ensures var k := After(c, j, events); k.spent + Dearest(c, k.inFlight) < c.cap + Dearest(c, n)
    decreases |events|
  {
    if events != [] {
      var next := Step(c, j, events[0]);
      if events[0].Ask? {
        DearestGrows(c, next.inFlight, n);
      }
      OvershootFrom(c, n, next, events[1..]);
    }
  }

  lemma {:induction false} DearestNonNegative(c: Config, k: nat)
    ensures Dearest(c, k) >= 0.0
  {
    DearestGrows(c, 0, k);
  }

  /** With at most `n` calls in flight the recorded spend stays strictly below cap + n * ceiling. */
  lemma OvershootBound(c: Config, n: nat, events: seq<Event>)
    requires c.cap > 0.0 && Possible(c, n, Job(0.0, 0), events)
    ensures After(c, Job(0.0, 0), events).spent < c.cap + Dearest(c, n)
    ensures c.ceiling >= 0.0 ==> After(c, Job(0.0, 0), events).spent < c.cap + n as real * c.ceiling
  {
    DearestNonNegative(c, n);
    OvershootFrom(c, n, Job(0.0, 0), events);
    DearestNonNegative(c, After(c, Job(0.0, 0), events).inFlight);
    if c.ceiling >= 0.0 {
      DearestIsProduct(c, n);
    }
  }

  // ---------- the bound is tight ----------

  /** A possible run that ends in `spent` with `inFlight` calls in flight. */
  ghost predicate Reaches(c: Config, n: nat, j: Job, events: seq<Event>, end: Job) {
    Possible(c, n, j, events) && After(c, j, events) == end
  }

  lemma Prepend(c: Config, n: nat, j: Job, e: Event, rest: seq<Event>, end: Job)
    requires j.inFlight <= n && (e.Ask? || j.inFlight > 0) && (e.Answer? ==> e.cost >= 0.0)
    requires Reaches(c, n, Step(c, j, e), rest, end)
    ensures Reaches(c, n, j, [e] + rest, end)
  {
    assert ([e] + rest)[1..] == rest;
  }

  /** Calls made one after the other can bring the recorded spend to anything below the cap. */
  lemma {:induction false} Fill(c: Config, n: nat, spent: real, target: real, k: nat, rest: seq<Event>, end: Job) returns (events: seq<Event>)
    requires n > 0 && c.ceiling > 0.0 && 0.0 <= spent <= target < c.cap && target - spent <= Dearest(c, k)
    requires Reaches(c, n, Job(target, 0), rest, end)
    ensures Reaches(c, n, Job(spent, 0), events, end)
    decreases k
  {
    hide Reaches;
    if spent == target {
      events := rest;
    } else {
      var cost := if target - spent <= c.ceiling then target - spent else c.ceiling;
      DearestNonNegative(c, k - 1);
      var more := Fill(c, n, spent + cost, target, k - 1, rest, end);
      Prepend(c, n, Job(spent, 1), Answer(cost), more, end);
      Prepend(c, n, Job(spent, 0), Ask, [Answer(cost)] + more, end);
      events := [Ask] + ([Answer(cost)] + more);
    }
  }

  function Asks(k: nat): seq<Event> {
    if k == 0 then [] else [Ask] + Asks(k - 1)
  }

  function Answers(k: nat, cost: real): seq<Event> {
    if k == 0 then [] else [Answer(cost)] + Answers(k - 1, cost)
  }

  lemma {:induction false} AllAnswer(c: Config, n: nat, spent: real, k: nat)
    requires k <= n && c.ceiling >= 0.0
    ensures Reaches(c, n, Job(spent, k), Answers(k, c.ceiling), Job(spent + Dearest(c, k), 0))
    decreases k
  {
    if k > 0 {
      AllAnswer(c, n, spent + c.ceiling, k - 1);
      hide Reaches;
      Prepend(c, n, Job(spent, k), Answer(c.ceiling), Answers(k - 1, c.ceiling), Job(spent + Dearest(c, k), 0));
    }
  }

  lemma {:induction false} AllAsk(c: Config, n: nat, spent: real, inFlight: nat, k: nat, rest: seq<Event>, end: Job)
    requires inFlight + k <= n && !Refuses(c, spent) && Reaches(c, n, Job(spent, inFlight + k), rest, end)
    ensures Reaches(c, n, Job(spent, inFlight), Asks(k) + rest, end)
    decreases k
  {
    hide Reaches;
    if k == 0 {
      assert Asks(0) + rest == rest;
    } else {
      AllAsk(c, n, spent, inFlight + 1, k - 1, rest, end);
      Prepend(c, n, Job(spent, inFlight), Ask, Asks(k - 1) + rest, end);
      assert Asks(k) + rest == [Ask] + (Asks(k - 1) + rest);
    }
  }

  lemma {:induction false} EnoughCalls(c: Config, target: real) returns (k: nat)
    requires c.ceiling > 0.0 && target >= 0.0
    ensures target <= Dearest(c, k)
  {
    k := (target / c.ceiling).Floor + 1;
    assert target / c.ceiling <= k as real;
    assert target == (target / c.ceiling) * c.ceiling <= k as real * c.ceiling;
    DearestIsProduct(c, k);
  }

  /** The overshoot bound is tight: some run comes within any positive amount of cap + n * ceiling, all `n` calls
      having passed the cap while the spend was just below it. */
  lemma OvershootAttained(c: Config, n: nat, slack: real) returns (events: seq<Event>)
    requires c.cap > 0.0 && c.ceiling > 0.0 && n > 0 && slack > 0.0
    ensures Possible(c, n, Job(0.0, 0), events)
    ensures After(c, Job(0.0, 0), events).spent > c.cap + Dearest(c, n) - slack
    ensures After(c, Job(0.0, 0), events).spent > c.cap + n as real * c.ceiling - slack
  {
    var target := if slack / 2.0 < c.cap then c.cap - slack / 2.0 else 0.0;
    var end := Job(target + Dearest(c, n), 0);
    AllAnswer(c, n, target, n);
    AllAsk(c, n, target, 0, n, Answers(n, c.ceiling), end);
    var k := EnoughCalls(c, target);
    events := Fill(c, n, 0.0, target, k, Asks(n) + Answers(n, c.ceiling), end);
    DearestIsProduct(c, n);
  }

  /** Once the recorded spend has reached the cap, no call ever starts again. */
  lemma {:induction false} CapIsFinal(c: Config, n: nat, j: Job, events: seq<Event>)
    requires c.cap > 0.0 && j.spent >= c.cap && Possible(c, n, j, events)
    ensures Started(c, j, events) == 0 && After(c, j, events).spent >= c.cap
    decreases |events|
  {
    if events != [] {
      CapIsFinal(c, n, Step(c, j, events[0]), events[1..]);
    }
  }

  function Requests(events: seq<Event>): nat {
    if events == [] then 0 else Requests(events[1..]) + if events[0].Ask? then 1 else 0
  }

  /** A cap of 0 or less, the default, stops nothing: every call that asks to start does. */
  lemma {:induction false} UncappedStartsAll(c: Config, j: Job, events: seq<Event>)
    requires c.cap <= 0.0
    ensures Started(c, j, events) == Requests(events)
    decreases |events|
  {
    if events != [] {
      UncappedStartsAll(c, Step(c, j, events[0]), events[1..]);
    }
  }

  lemma {:induction false} RecordedIsCharged(c: Config, n: nat, j: Job, events: seq<Event>)
    requires Possible(c, n, j, events)
    ensures After(c, j, events).spent - j.spent == Charged(events) - OverCeiling(c, events)
    ensures OverCeiling(c, events) >= 0.0
    ensures c.ceiling >= 0.0 ==>
      (OverCeiling(c, events) == 0.0 <==> forall i :: 0 <= i < |events| && events[i].Answer? ==> events[i].cost <= c.ceiling)
    decreases |events|
  {
    if events != [] {
      var rest := events[1..];
      RecordedIsCharged(c, n, Step(c, j, events[0]), rest);
      if forall i :: 0 <= i < |events| && events[i].Answer? ==> events[i].cost <= c.ceiling {
        assert forall i :: 0 <= i < |rest| ==> rest[i] == events[i + 1];
      } else {
        var i :| 0 <= i < |events| && events[i].Answer? && events[i].cost > c.ceiling;
        if i > 0 {
          assert rest[i - 1] == events[i];
        }
      }
    }
  }

  /** The ledger shows what the gateway charged exactly when no answer came in over the ceiling:
      the spend of a rejected answer is never recorded, so it never counts towards the cap. */
  lemma LedgerIsTheBill(c: Config, n: nat, events: seq<Event>)
    requires c.ceiling >= 0.0 && Possible(c, n, Job(0.0, 0), events)
    ensures After(c, Job(0.0, 0), events).spent == Charged(events) <==>
      forall i :: 0 <= i < |events| && events[i].Answer? ==> events[i].cost <= c.ceiling
  {
    RecordedIsCharged(c, n, Job(0.0, 0), events);
  }

  /** One answer over the ceiling is charged and never recorded. */
  lemma BillExceedsLedger(c: Config, cost: real)
    requires c.cap > 0.0 && 0.0 <= c.ceiling < cost
    ensures var events := [Ask, Answer(cost)];
      Possible(c, 1, Job(0.0, 0), events) && After(c, Job(0.0, 0), events).spent == 0.0 < Charged(events)
  {
    var end := Job(0.0, 0);
    assert Reaches(c, 1, end, [], end);
    Prepend(c, 1, Job(0.0, 1), Answer(cost), [], end);
    Prepend(c, 1, Job(0.0, 0), Ask, [Answer(cost)], end);
    assert [Ask] + [Answer(cost)] == [Ask, Answer(cost)] && [Answer(cost)] + [] == [Answer(cost)];
    assert [Ask, Answer(cost)][1..] == [Answer(cost)] && [Answer(cost)][1..] == [];
    assert Charged([Answer(cost)]) == Charged([]) + cost;
  }
}
