/**
 The in-process circuit breaker that chat and embedding calls share.

 A call checks the breaker when it starts and reports when it ends: a success, a
 counted failure (transport error, 5xx, unknown) or an uncounted one (4xx).  Any
 number of calls may be in flight in between.  The gateway is an oracle and each
 clock reading is an argument.
 */
module CircuitBreaker {
  import opened Wrappers

  datatype State = State(failures: nat, openedAt: Option<real>)

  datatype Outcome = Success | Counted | Uncounted

  datatype Config = Config(threshold: int, cooldown: real)

  function Passes(c: Config, s: State, now: real): bool {
    c.threshold <= 0 || s.openedAt.None? || now - s.openedAt.value >= c.cooldown
  }

  function Succeeded(c: Config, s: State): State {
    if c.threshold <= 0 then s else State(0, None)
  }

  function Failed(c: Config, s: State, now: real): State {
    if c.threshold <= 0 then s
    else State(s.failures + 1, if s.failures + 1 >= c.threshold then Some(now) else s.openedAt)
  }

  function Ended(c: Config, s: State, outcome: Outcome, now: real): State {
    match outcome
    case Success => Succeeded(c, s)
    case Counted => Failed(c, s, now)
    case Uncounted => s
  }

  class Breaker {
    const config: Config
    var failures: nat
    var openedAt: Option<real>

    function Value(): State
      reads this
    {
      State(failures, openedAt)
    }

    constructor (config: Config)
      ensures this.config == config && Value() == State(0, None)
    {
      this.config, failures, openedAt := config, 0, None;
    }

    /** False stands for CircuitOpenError. */
    method Check(now: real) returns (ok: bool)
      ensures ok == Passes(config, Value(), now)
    {
      if config.threshold <= 0 || openedAt.None? {
        return true;
      }
      if now - openedAt.value < config.cooldown {
        return false;
      }
      return true;
    }

    method RecordSuccess()
      modifies this
      ensures Value() == Succeeded(config, old(Value()))
    {
      if config.threshold <= 0 {
        return;
      }
      failures, openedAt := 0, None;
    }

    method RecordFailure(now: real)
      modifies this
      ensures Value() == Failed(config, old(Value()), now)
    {
      if config.threshold <= 0 {
        return;
      }
      failures := failures + 1;
      if failures >= config.threshold {
        openedAt := Some(now);
      }
    }

    /** How both gateway paths report the end of a call. */
    method Record(outcome: Outcome, now: real)
      modifies this
      ensures Value() == Ended(config, old(Value()), outcome, now)
    {
      match outcome
      case Success => RecordSuccess();
      case Counted => RecordFailure(now);
      case Uncounted =>
    }
  }

  // ---------- runs ----------

  /** A call asking to start, or one of the calls in flight ending. */
  datatype Event = Start(at: real) | End(at: real, outcome: Outcome)

  datatype Run = Run(state: State, inFlight: nat)

  function Step(c: Config, r: Run, e: Event): Run {
    match e
    case Start(at) => if Passes(c, r.state, at) then r.(inFlight := r.inFlight + 1) else r
    case End(at, outcome) => Run(Ended(c, r.state, outcome, at), if r.inFlight > 0 then r.inFlight - 1 else 0)
  }

  function After(c: Config, r: Run, events: seq<Event>): Run
    decreases |events|
  {
    if events == [] then r else After(c, Step(c, r, events[0]), events[1..])
  }

  /** Only a call in flight can end, and at most `n` calls are in flight. */
  ghost predicate Possible(c: Config, n: nat, r: Run, events: seq<Event>)
    decreases |events|
  {
    && r.inFlight <= n
    && (events != [] ==>
          && (events[0].End? ==> r.inFlight > 0)
          && Possible(c, n, Step(c, r, events[0]), events[1..]))
  }

  /** The events come in time order within [a, b]. */
  ghost predicate Within(events: seq<Event>, a: real, b: real) {
    events == [] || (a <= events[0].at <= b && Within(events[1..], events[0].at, b))
  }

  ghost predicate NoSuccess(events: seq<Event>) {
    forall e :: e in events && e.End? ==> e.outcome != Success
  }

  function CountedFailures(events: seq<Event>): nat {
    if events == [] then 0
    else CountedFailures(events[1..]) + if events[0].End? && events[0].outcome == Counted then 1 else 0
  }

  function SinceLastSuccess(events: seq<Event>): nat {
    if events == [] then 0 else
      var init, e := events[..|events| - 1], events[|events| - 1];
      if e.Start? then SinceLastSuccess(init)
      else match e.outcome
        case Success => 0
        case Counted => SinceLastSuccess(init) + 1
        case Uncounted => SinceLastSuccess(init)
  }

  /** Open exactly when the failures have reached the threshold. */
  ghost predicate Coherent(c: Config, s: State) {
    s.openedAt.Some? <==> s.failures >= c.threshold
  }

  lemma {:induction false} AfterLast(c: Config, r: Run, events: seq<Event>)
    requires events != []
    ensures After(c, r, events) == Step(c, After(c, r, events[..|events| - 1]), events[|events| - 1])
    decreases |events|
  {
    if |events| > 1 {
      AfterLast(c, Step(c, r, events[0]), events[1..]);
      assert events[1..][..|events| - 2] == events[..|events| - 1][1..];
      assert events[..|events| - 1][0] == events[0];
    } else {
      assert events[1..] == [] && events[..0] == [];
    }
  }

  /** From a fresh breaker, the failure count is the number of counted failures since the last
      success, and the breaker is open exactly when that number has reached the threshold. */
  lemma {:induction false} CountIsHistory(c: Config, events: seq<Event>)
    requires c.threshold > 0
    ensures var s := After(c, Run(State(0, None), 0), events).state;
      s.failures == SinceLastSuccess(events) && Coherent(c, s)
    decreases |events|
  {
    if events != [] {
      CountIsHistory(c, events[..|events| - 1]);
      AfterLast(c, Run(State(0, None), 0), events);
    }
  }

  /** A threshold of 0 or less disables the breaker: it lets every call through and nothing changes it. */
  lemma {:induction false} DisabledAdmitsAll(c: Config, r: Run, events: seq<Event>)
    requires c.threshold <= 0
    ensures After(c, r, events).state == r.state
    ensures forall now :: Passes(c, r.state, now)
    decreases |events|
  {
    if events != [] {
      DisabledAdmitsAll(c, Step(c, r, events[0]), events[1..]);
    }
  }

  /** Time of the latest counted failure since the last success. */
  function LatestCounted(events: seq<Event>): Option<real> {
    if events == [] then None else
      var init, e := events[..|events| - 1], events[|events| - 1];
      if e.End? && e.outcome.Success? then None
      else if e.End? && e.outcome.Counted? then Some(e.at)
      else LatestCounted(init)
  }

  /** A call is refused exactly when the counted failures since the last success have reached the
      threshold and the latest of them is less than a cooldown old. */
  lemma {:induction false} RefusedExactly(c: Config, events: seq<Event>, now: real)
    requires c.threshold > 0
    ensures var s := After(c, Run(State(0, None), 0), events).state;
      && (s.openedAt.Some? ==> s.openedAt == LatestCounted(events))
      && (!Passes(c, s, now) <==>
            SinceLastSuccess(events) >= c.threshold && LatestCounted(events).Some? && now - LatestCounted(events).value < c.cooldown)
    decreases |events|
  {
    CountIsHistory(c, events);
    if events != [] {
      var init := events[..|events| - 1];
      CountIsHistory(c, init);
      RefusedExactly(c, init, now);
      AfterLast(c, Run(State(0, None), 0), events);
    }
  }

  /** Not in a burst: the next counted failure, at `a` or later, opens the breaker. */
  lemma {:induction false} Armed(c: Config, n: nat, r: Run, events: seq<Event>, a: real, b: real, q: nat)
    requires c.threshold > 0 && Possible(c, n, r, events) && NoSuccess(events) && Within(events, a, b)
    requires r.state.failures >= c.threshold - 1 && Coherent(c, r.state)
    requires b - a < (q + 1) as real * c.cooldown
    ensures CountedFailures(events) <= n * (q + 1)
    decreases |events|, 0
  {
    if events != [] {
      var e := events[0];
      assert e in events && forall d :: d in events[1..] ==> d in events;
      var next := Step(c, r, e);
      if e.End? && e.outcome == Counted {
        Burst(c, n, next, events[1..], e.at, b, e.at, q);
        assert 1 + next.inFlight + n * q <= n * (q + 1);
      } else {
        Armed(c, n, next, events[1..], e.at, b, q);
      }
    }
  }

  /** A failure at `t` opened the breaker: until t + cooldown no call starts, so only the calls
      already in flight can fail; after that the breaker is armed again, one window later. */
  lemma {:induction false} Burst(c: Config, n: nat, r: Run, events: seq<Event>, a: real, b: real, t: real, q: nat)
    requires c.threshold > 0 && Possible(c, n, r, events) && NoSuccess(events) && Within(events, a, b)
    requires r.state.failures >= c.threshold && Coherent(c, r.state) && r.state.openedAt.value >= t
    requires t <= a && b - t < (q + 1) as real * c.cooldown
    ensures CountedFailures(events) <= r.inFlight + n * q
    decreases |events|, 1
  {
    if events != [] {
      var e := events[0];
      assert e in events && forall d :: d in events[1..] ==> d in events;
      if e.at >= t + c.cooldown {
        if q == 0 {
          assert false;
        } else {
          assert b - e.at < q as real * c.cooldown;
          Armed(c, n, r, events, e.at, b, q - 1);
        }
      } else {
        Burst(c, n, Step(c, r, e), events[1..], e.at, b, t, q);
      }
    }
  }

  /** The outage bound from any state: an interval shorter than q + 1 cooldowns sees at most the failures still
      missing to the threshold, less one, plus `n` for each of q + 1 windows. */
  lemma {:induction false} OutageCount(c: Config, n: nat, r: Run, events: seq<Event>, a: real, b: real, q: nat)
    requires c.threshold > 0 && Possible(c, n, r, events) && NoSuccess(events) && Within(events, a, b)
    requires Coherent(c, r.state) && b - a < (q + 1) as real * c.cooldown
    ensures CountedFailures(events) <= c.threshold - 1 + n * (q + 1)
    ensures CountedFailures(events) <=
      (if r.state.failures < c.threshold then c.threshold - 1 - r.state.failures else 0) + n * (q + 1)
    decreases |events|
  {
    if r.state.failures >= c.threshold - 1 {
      Armed(c, n, r, events, a, b, q);
    } else if events != [] {
      var e := events[0];
      assert e in events && forall d :: d in events[1..] ==> d in events;
      assert b - e.at < (q + 1) as real * c.cooldown;
      OutageCount(c, n, Step(c, r, e), events[1..], e.at, b, q);
    }
  }

  /** The outage bound with its floor: with at most `n` calls in flight and no success,
      an interval [a, b] sees at most threshold - 1 + n * (1 + floor((b - a) / cooldown)) counted
      failures; for calls made one at a time that is threshold + floor((b - a) / cooldown). */
  lemma OutageBound(c: Config, n: nat, r: Run, events: seq<Event>, a: real, b: real)
    requires c.threshold > 0 && c.cooldown > 0.0 && a <= b
    requires Coherent(c, r.state) && Possible(c, n, r, events) && NoSuccess(events) && Within(events, a, b)
    ensures CountedFailures(events) <= c.threshold - 1 + n * (1 + ((b - a) / c.cooldown).Floor)
    ensures n == 1 ==> CountedFailures(events) <= c.threshold + ((b - a) / c.cooldown).Floor
  {
    var x := (b - a) / c.cooldown;
    assert x >= 0.0 && x * c.cooldown == b - a;
    var q: nat := x.Floor;
    assert x < (q + 1) as real;
    assert b - a < (q + 1) as real * c.cooldown;
    OutageCount(c, n, r, events, a, b, q);
  }

  // ---------- the bound is attained ----------

  function Starts(k: nat, at: real): seq<Event> {
    if k == 0 then [] else [Start(at)] + Starts(k - 1, at)
  }

  function Fails(k: nat, at: real): seq<Event> {
    if k == 0 then [] else [End(at, Counted)] + Fails(k - 1, at)
  }

  /** A call at a time, each ending in a counted failure at once. */
  function OneByOne(k: nat, at: real): seq<Event> {
    if k == 0 then [] else [Start(at), End(at, Counted)] + OneByOne(k - 1, at)
  }

  /** `waves` times, a cooldown apart: `n` calls start together and then all fail. */
  function Waves(c: Config, n: nat, waves: nat, at: real): seq<Event> {
    if waves == 0 then [] else Starts(n, at) + (Fails(n, at) + Waves(c, n, waves - 1, at + c.cooldown))
  }

  /** A possible failing run with so many counted failures, ending by `b`. */
  ghost predicate Outage(c: Config, n: nat, r: Run, events: seq<Event>, a: real, b: real, count: nat) {
    Possible(c, n, r, events) && NoSuccess(events) && Within(events, a, b) && CountedFailures(events) == count
  }

  lemma PrependStep(c: Config, n: nat, r: Run, e: Event, rest: seq<Event>, a: real, b: real, count: nat)
    requires r.inFlight <= n && (e.End? ==> r.inFlight > 0 && e.outcome != Success) && a <= e.at <= b
    requires Outage(c, n, Step(c, r, e), rest, e.at, b, count)
    ensures Outage(c, n, r, [e] + rest, a, b, count + if e.End? && e.outcome == Counted then 1 else 0)
  {
    assert ([e] + rest)[1..] == rest;
  }

  lemma {:induction false} PrependStarts(c: Config, n: nat, r: Run, k: nat, at: real, rest: seq<Event>, b: real, count: nat)
    requires r.inFlight + k <= n && at <= b && Passes(c, r.state, at)
    requires Outage(c, n, Run(r.state, r.inFlight + k), rest, at, b, count)
    ensures Outage(c, n, r, Starts(k, at) + rest, at, b, count)
    decreases k
  {
    hide Outage;
    if k == 0 {
      assert Starts(k, at) + rest == rest;
    } else {
      PrependStarts(c, n, Step(c, r, Start(at)), k - 1, at, rest, b, count);
      PrependStep(c, n, r, Start(at), Starts(k - 1, at) + rest, at, b, count);
      assert Starts(k, at) + rest == [Start(at)] + (Starts(k - 1, at) + rest);
    }
  }

  /** The breaker after `k` counted failures at the same time, the last of which at least opens it. */
  function Burnt(c: Config, s: State, k: nat, at: real): State {
    if k == 0 then s else State(s.failures + k, Some(at))
  }

  lemma {:induction false} PrependFails(c: Config, n: nat, r: Run, k: nat, at: real, rest: seq<Event>, b: real, count: nat)
    requires c.threshold > 0 && k <= r.inFlight <= n && at <= b && r.state.failures >= c.threshold - 1
    requires Outage(c, n, Run(Burnt(c, r.state, k, at), r.inFlight - k), rest, at, b, count)
    ensures Outage(c, n, r, Fails(k, at) + rest, at, b, count + k)
    decreases k
  {
    hide Outage;
    if k == 0 {
      assert Fails(k, at) + rest == rest;
    } else {
      var next := Step(c, r, End(at, Counted));
      assert Burnt(c, next.state, k - 1, at) == Burnt(c, r.state, k, at);
      PrependFails(c, n, next, k - 1, at, rest, b, count);
      PrependStep(c, n, r, End(at, Counted), Fails(k - 1, at) + rest, at, b, count + k - 1);
      assert Fails(k, at) + rest == [End(at, Counted)] + (Fails(k - 1, at) + rest);
    }
  }

  lemma Earlier(c: Config, n: nat, r: Run, events: seq<Event>, a: real, later: real, b: real, count: nat)
    requires Outage(c, n, r, events, later, b, count) && a <= later
    ensures Outage(c, n, r, events, a, b, count)
  {
  }

  lemma {:induction false} WavesAreOutage(c: Config, n: nat, s: State, waves: nat, at: real)
    requires c.threshold > 0 && c.cooldown > 0.0 && n > 0 && waves > 0 && s.failures >= c.threshold - 1 && Passes(c, s, at)
    ensures Outage(c, n, Run(s, 0), Waves(c, n, waves, at), at, at + (waves - 1) as real * c.cooldown, n * waves)
    decreases waves
  {
    hide Outage;
    var b := at + (waves - 1) as real * c.cooldown;
    var burnt, later := Burnt(c, s, n, at), at + c.cooldown;
    var rest := Waves(c, n, waves - 1, later);
    if waves == 1 {
      assert Outage(c, n, Run(burnt, 0), rest, at, b, 0) by {
        NoEvents(c, n, Run(burnt, 0), at, b);
      }
      assert b == at;
    } else {
      WavesAreOutage(c, n, burnt, waves - 1, later);
      assert later + (waves - 2) as real * c.cooldown == b;
      assert (waves - 1) as real * c.cooldown >= 0.0;
      Earlier(c, n, Run(burnt, 0), rest, at, later, b, n * (waves - 1));
    }
    assert n * waves == n * (waves - 1) + n;
    PrependFails(c, n, Run(s, n), n, at, rest, b, n * (waves - 1));
    PrependStarts(c, n, Run(s, 0), n, at, Fails(n, at) + rest, b, n * waves);
  }

  lemma OutageCounts(c: Config, n: nat, r: Run, events: seq<Event>, a: real, b: real, count: nat)
    requires Outage(c, n, r, events, a, b, count)
    ensures CountedFailures(events) == count
  {
  }

  lemma NoEvents(c: Config, n: nat, r: Run, a: real, b: real)
    requires r.inFlight <= n
    ensures Outage(c, n, r, [], a, b, 0)
  {
  }

  lemma {:induction false} OneByOneIsOutage(c: Config, n: nat, s: State, k: nat, at: real, rest: seq<Event>, b: real, count: nat)
    requires c.threshold > 0 && n > 0 && at <= b && s.openedAt.None? && s.failures + k < c.threshold
    requires Outage(c, n, Run(State(s.failures + k, None), 0), rest, at, b, count)
    ensures Outage(c, n, Run(s, 0), OneByOne(k, at) + rest, at, b, count + k)
    decreases k
  {
    hide Outage;
    if k == 0 {
      assert OneByOne(k, at) + rest == rest;
    } else {
      var more := OneByOne(k - 1, at) + rest;
      OneByOneIsOutage(c, n, State(s.failures + 1, None), k - 1, at, rest, b, count);
      PrependStep(c, n, Run(s, 1), End(at, Counted), more, at, b, count + k - 1);
      PrependStep(c, n, Run(s, 0), Start(at), [End(at, Counted)] + more, at, b, count + k);
      assert OneByOne(k, at) + rest == [Start(at)] + ([End(at, Counted)] + more);
    }
  }

  /** The outage bound is attained, for every number of calls in flight and every number of cooldowns: from a fresh
      breaker, an interval of `q` cooldowns can see all of threshold - 1 + n * (q + 1) counted failures.  That is more
      than threshold + q exactly when calls overlap. */
  lemma OutageAttained(c: Config, n: nat, q: nat, at: real) returns (events: seq<Event>)
    requires c.threshold > 0 && c.cooldown > 0.0 && n > 0
    ensures Outage(c, n, Run(State(0, None), 0), events, at, at + q as real * c.cooldown, c.threshold - 1 + n * (q + 1))
    ensures CountedFailures(events) > c.threshold + q <==> n >= 2
  {
    hide Outage;
    var b := at + q as real * c.cooldown;
    assert q as real * c.cooldown >= 0.0;
    var waves := Waves(c, n, q + 1, at);
    events := OneByOne(c.threshold - 1, at) + waves;
    WavesAreOutage(c, n, State(c.threshold - 1, None), q + 1, at);
    OneByOneIsOutage(c, n, State(0, None), c.threshold - 1, at, waves, b, n * (q + 1));
    assert CountedFailures(events) == c.threshold - 1 + n * (q + 1) by {
      OutageCounts(c, n, Run(State(0, None), 0), events, at, b, c.threshold - 1 + n * (q + 1));
    }
    assert n >= 2 ==> n * (q + 1) >= 2 * (q + 1);
  }

  /** No call ended with a success or a counted failure. */
  ghost predicate Undecided(events: seq<Event>) {
    forall e :: e in events && e.End? ==> e.outcome == Uncounted
  }

  /** Every event comes after the cooldown of an open breaker has run out. */
  ghost predicate AfterCooldown(c: Config, s: State, events: seq<Event>) {
    s.openedAt.Some? && forall e :: e in events ==> e.at - s.openedAt.value >= c.cooldown
  }

  /** The documentation promises one half-open trial.  In the code every call that starts after the cooldown is let
      through, whatever calls end with a 4xx meanwhile: nothing of that changes the breaker. */
  lemma {:induction false} HalfOpenAdmitsAll(c: Config, r: Run, events: seq<Event>)
    requires AfterCooldown(c, r.state, events) && Undecided(events)
    ensures After(c, r, events).state == r.state
    ensures forall i :: 0 <= i < |events| && events[i].Start? ==> Passes(c, After(c, r, events[..i]).state, events[i].at)
    decreases |events|
  {
    if events != [] {
      var n := |events| - 1;
      var init := events[..n];
      assert events[n] in events && forall e :: e in init ==> e in events;
      HalfOpenAdmitsAll(c, r, init);
      AfterLast(c, r, events);
      forall i | 0 <= i < |events| && events[i].Start?
        ensures Passes(c, After(c, r, events[..i]).state, events[i].at)
      {
        if i < n {
          assert init[..i] == events[..i] && init[i] == events[i];
        }
      }
    }
  }

  /** The half-open window closes at the first success or counted failure: a success closes the breaker, and a
      counted failure shuts it for a fresh cooldown, to the instant. */
  lemma HalfOpenEnds(c: Config, r: Run, events: seq<Event>, decision: Event)
    requires c.threshold > 0 && Coherent(c, r.state)
    requires AfterCooldown(c, r.state, events + [decision]) && Undecided(events)
    requires decision.End? && decision.outcome != Uncounted
    ensures var s := After(c, r, events + [decision]).state;
      if decision.outcome == Success then s == State(0, None)
      else s == State(r.state.failures + 1, Some(decision.at)) && forall now :: Passes(c, s, now) <==> now - decision.at >= c.cooldown
  {
    var all := events + [decision];
    assert all[..|events|] == events && forall e :: e in events ==> e in all;
    HalfOpenAdmitsAll(c, r, events);
    AfterLast(c, r, all);
  }

  /** Nothing else closes it, and once closed it never is the same window again: the breaker is as the window found
      it if and only if no call has ended with a success or a counted failure. */
  lemma {:induction false} HalfOpenExactly(c: Config, r: Run, events: seq<Event>)
    requires c.threshold > 0 && c.cooldown > 0.0 && Coherent(c, r.state) && AfterCooldown(c, r.state, events)
    ensures After(c, r, events).state == r.state <==> Undecided(events)
    ensures !Undecided(events) ==> After(c, r, events).state.openedAt != r.state.openedAt
    decreases |events|
  {
    if events != [] {
      var n := |events| - 1;
      var init, e := events[..n], events[n];
      assert e in events && (forall d :: d in init ==> d in events) && (forall d :: d in events ==> d == e || d in init);
      HalfOpenExactly(c, r, init);
      AfterLast(c, r, events);
    }
  }
}
