/**
 Whole runs of one LLM client: any interleaving of the stretches of code that tasks run on
 it between two waits.  The ledger, the spending cap and the breaker keep their promises
 on the client itself, because every run of the client is a run of their machines.
 */
module LlmRuns {
  import opened Wrappers
  import opened LlmClient
  import Sums
  import CB = CircuitBreaker
  import JobCap

  // ---------- the ledger ----------

  lemma PlusCommutes(u: UsageValue, v: UsageValue)
    ensures Plus(u, v) == Plus(v, u)
  {
    Sums.SameMap(Sums.Merge(u.byModel, v.byModel), Sums.Merge(v.byModel, u.byModel));
  }

  lemma PlusAssociates(u: UsageValue, v: UsageValue, w: UsageValue)
    ensures Plus(Plus(u, v), w) == Plus(u, Plus(v, w))
  {
    Sums.SameMap(Sums.Merge(Sums.Merge(u.byModel, v.byModel), w.byModel), Sums.Merge(u.byModel, Sums.Merge(v.byModel, w.byModel)));
  }

  /** What the chat calls that end in `turns` add to the ledger. */
  function Added(s: Settings, turns: seq<Turn>): UsageValue
    decreases |turns|
  {
    if turns == [] then ZERO_USAGE
    else if turns[0].ChatEnds? then Plus(UsageOf(s, turns[0].model, turns[0].reply), Added(s, turns[1..]))
    else Added(s, turns[1..])
  }

  /** Whatever runs on the client, its usage grows by what the ended chat calls add, stays balanced, and nothing
      else is added. */
  lemma {:induction false} RunLedger(c: State, turns: seq<Turn>)
    ensures Run(c, turns).settings == c.settings && Run(c, turns).breakerConfig == c.breakerConfig
    ensures Run(c, turns).usage == Plus(c.usage, Added(c.settings, turns))
    ensures Balanced(Added(c.settings, turns)) && (Balanced(c.usage) ==> Balanced(Run(c, turns).usage))
    decreases |turns|
  {
    hide Plus, UsageOf;
    if turns == [] {
      PlusZero(c.usage);
      NothingIsBalanced();
    } else {
      var next, rest := Do(c, turns[0]), Added(c.settings, turns[1..]);
      RunLedger(next, turns[1..]);
      if turns[0].ChatEnds? {
        var u := UsageOf(c.settings, turns[0].model, turns[0].reply);
        PlusAssociates(c.usage, u, rest);
        UsageIsBalanced(c.settings, turns[0].model, turns[0].reply);
        PlusBalanced(u, rest);
      }
      if Balanced(c.usage) {
        PlusBalanced(c.usage, Added(c.settings, turns));
      }
    }
  }

  /** Tokens, and dollars on one model, of the answers within the ceiling. */
  function PromptTokens(s: Settings, turns: seq<Turn>): nat {
    if turns == [] then 0 else
      var t := turns[0];
      PromptTokens(s, turns[1..]) + if t.ChatEnds? && Recorded(s, t.model, t.reply) then t.reply.prompt else 0
  }

  function CompletionTokens(s: Settings, turns: seq<Turn>): nat {
    if turns == [] then 0 else
      var t := turns[0];
      CompletionTokens(s, turns[1..]) + if t.ChatEnds? && Recorded(s, t.model, t.reply) then t.reply.completion else 0
  }

  function SpendOn(s: Settings, turns: seq<Turn>, model: string): real {
    if turns == [] then 0.0 else
      var t := turns[0];
      SpendOn(s, turns[1..], model)
      + if t.ChatEnds? && t.model == model && Recorded(s, model, t.reply)
        then EstimateCost(s.prices, model, t.reply.prompt, t.reply.completion, s.allowUnpriced) else 0.0
  }

  /** The ledger field by field: the tokens of all recorded answers, and on each model the dollars of its own. */
  lemma {:induction false} LedgerInFields(c: State, turns: seq<Turn>, model: string)
    ensures Run(c, turns).usage.prompt == c.usage.prompt + PromptTokens(c.settings, turns)
    ensures Run(c, turns).usage.completion == c.usage.completion + CompletionTokens(c.settings, turns)
    ensures Sums.Value(Run(c, turns).usage.byModel, model) == Sums.Value(c.usage.byModel, model) + SpendOn(c.settings, turns, model)
    decreases |turns|
  {
    if turns != [] {
      hide EstimateCost;
      LedgerInFields(Do(c, turns[0]), turns[1..], model);
    }
  }

  lemma NothingIsBalanced()
    ensures Balanced(ZERO_USAGE)
  {
  }

  lemma PlusBalanced(u: UsageValue, v: UsageValue)
    requires Balanced(u) && Balanced(v)
    ensures Balanced(Plus(u, v))
  {
    Sums.TotalMerge(u.byModel, v.byModel);
  }

  /** What other tasks added to the ledger while the calls `xs` waited. */
  function AddedMeanwhile(s: Settings, xs: seq<Exchange>): UsageValue {
    if xs == [] then ZERO_USAGE else Plus(AddedMeanwhile(s, xs[..|xs| - 1]), Added(s, xs[|xs| - 1].meanwhile))
  }

  /** a + p + q + r + u, regrouped. */
  lemma Regrouped(a: UsageValue, p: UsageValue, q: UsageValue, r: UsageValue, u: UsageValue)
    ensures Plus(Plus(Plus(Plus(a, p), q), r), u) == Plus(Plus(a, Plus(p, u)), Plus(q, r))
  {
    hide Plus;
    calc {
      Plus(Plus(Plus(Plus(a, p), q), r), u);
      { PlusAssociates(Plus(a, p), q, r); }
      Plus(Plus(Plus(a, p), Plus(q, r)), u);
      { PlusAssociates(Plus(a, p), Plus(q, r), u); }
      Plus(Plus(a, p), Plus(Plus(q, r), u));
      { PlusCommutes(Plus(q, r), u); }
      Plus(Plus(a, p), Plus(u, Plus(q, r)));
      { PlusAssociates(Plus(a, p), u, Plus(q, r)); }
      Plus(Plus(Plus(a, p), u), Plus(q, r));
      { PlusAssociates(a, p, u); }
      Plus(Plus(a, Plus(p, u)), Plus(q, r));
    }
  }

  /** The ledger after some calls is what it was, plus what they added, plus what others added meanwhile. */
  lemma {:induction false} CallsLedger(c: State, model: string, xs: seq<Exchange>)
    ensures After(c, model, xs).settings == c.settings
    ensures After(c, model, xs).usage
         == Plus(Plus(c.usage, PlusAll(ZERO_USAGE, Usages(c.settings, model, xs))), AddedMeanwhile(c.settings, xs))
    ensures Balanced(PlusAll(ZERO_USAGE, Usages(c.settings, model, xs))) && Balanced(AddedMeanwhile(c.settings, xs))
  {
    hide Plus, UsageOf, Run, Added, Balanced;
    if xs == [] {
      PlusZero(c.usage);
      NothingIsBalanced();
    } else {
      var init, x := xs[..|xs| - 1], xs[|xs| - 1];
      CallsLedger(c, model, init);
      var before := After(c, model, init);
      var own, others := PlusAll(ZERO_USAGE, Usages(c.settings, model, init)), AddedMeanwhile(c.settings, init);
      var added, u := Added(c.settings, x.meanwhile), UsageOf(c.settings, model, x.reply);
      RunLedger(before.(inFlight := before.inFlight + 1), x.meanwhile);
      Regrouped(c.usage, own, others, added, u);
      LastUsage(c.settings, model, xs);
      UsageIsBalanced(c.settings, model, x.reply);
      PlusBalanced(own, u);
      PlusBalanced(others, added);
    }
  }

  lemma LastUsage(s: Settings, model: string, xs: seq<Exchange>)
    requires xs != []
    ensures PlusAll(ZERO_USAGE, Usages(s, model, xs))
         == Plus(PlusAll(ZERO_USAGE, Usages(s, model, xs[..|xs| - 1])), UsageOf(s, model, xs[|xs| - 1].reply))
  {
    hide Plus, UsageOf;
    var before, last := Usages(s, model, xs[..|xs| - 1]), UsageOf(s, model, xs[|xs| - 1].reply);
    assert (before + [last])[..|before|] == before;
  }

  lemma {:induction false} CostIsSum(vs: seq<UsageValue>)
    ensures PlusAll(ZERO_USAGE, vs).cost == CostOf(vs)
  {
    hide Sums.Merge;
    if vs != [] {
      CostIsSum(vs[..|vs| - 1]);
    }
  }

  /** However the retry loop ends, it made at most one gateway call per allowed attempt.  The client's ledger is
      balanced and grew by what these calls recorded plus what other tasks recorded while they waited, and by
      nothing else; on success the calls recorded exactly the returned total. */
  lemma RetriesAreCharged<T>(c: State, t: Task<T>, script: seq<Exchange>, n: nat, calls: nat, r: Result<T>)
    requires Balanced(c.usage) && Ends(c, t, script, n, calls, r)
    ensures (calls == 0 || calls <= t.maxRetries + 1) && calls <= |script|
    ensures r == Err(JsonInvalid) ==> calls == if t.maxRetries < 0 then 0 else t.maxRetries + 1
    ensures var own, others, after := PlusAll(ZERO_USAGE, Usages(c.settings, t.model, script[..calls])),
                                      AddedMeanwhile(c.settings, script[..calls]), After(c, t.model, script[..calls]).usage;
      && after == Plus(Plus(c.usage, own), others) && Balanced(after)
      && own.cost == CostOf(Usages(c.settings, t.model, script[..calls]))
      && (r.Ok? ==> own == r.usage)
  {
    hide Sums.Merge, Plus, PlusAll, Usages, After, AddedMeanwhile, CostOf, Hurdle, Recorded, Rejected, Balanced;
    var xs := script[..calls];
    var own := PlusAll(ZERO_USAGE, Usages(c.settings, t.model, xs));
    CallsLedger(c, t.model, xs);
    PlusBalanced(c.usage, own);
    PlusBalanced(Plus(c.usage, own), AddedMeanwhile(c.settings, xs));
    CostIsSum(Usages(c.settings, t.model, xs));
  }

  // ---------- the cap ----------

  /** At most `n` chat and `m` embedding calls wait at a time, and only a waiting call can end. */
  ghost predicate Possible(n: nat, m: nat, c: State, turns: seq<Turn>)
    decreases |turns|
  {
    && c.inFlight <= n && c.embeds <= m
    && (turns != [] ==>
          && (turns[0].ChatEnds? ==> c.inFlight > 0) && (turns[0].EmbedEnds? ==> c.embeds > 0)
          && Possible(n, m, Do(c, turns[0]), turns[1..]))
  }

  function CapOf(c: State): JobCap.Config {
    JobCap.Config(c.settings.jobCostCapUsd, c.settings.maxCostUsd)
  }

  function JobOf(c: State): JobCap.Job {
    JobCap.Job(c.usage.cost, c.inFlight)
  }

  /** What a turn means to the cap machine. */
  function JobEvent(c: State, turn: Turn): seq<JobCap.Event> {
    match turn
    case ChatStarts(model, promptTokens, outCap, at) =>
      if Obstacle(c, model, promptTokens, outCap, at).None? then [JobCap.Ask] else []
    case ChatEnds(model, Answered(_, p, q), _) => [JobCap.Answer(CallUsage(c.settings, model, p, q).cost)]
    case ChatEnds(_, Raised(_), _) => [JobCap.Fail]
    case EmbedStarts(_) => []
    case EmbedEnds(_, _) => []
  }

  function JobEvents(c: State, turns: seq<Turn>): seq<JobCap.Event>
    decreases |turns|
  {
    if turns == [] then [] else JobEvent(c, turns[0]) + JobEvents(Do(c, turns[0]), turns[1..])
  }

  lemma JobStep(c: State, turn: Turn)
    ensures JobOf(Do(c, turn)) == if JobEvent(c, turn) == [] then JobOf(c) else JobCap.Step(CapOf(c), JobOf(c), JobEvent(c, turn)[0])
    ensures |JobEvent(c, turn)| <= 1 && CapOf(Do(c, turn)) == CapOf(c) && Do(c, turn).settings == c.settings
    ensures NonNegative(c.settings.prices) && JobEvent(c, turn) != [] && JobEvent(c, turn)[0].Answer? ==> JobEvent(c, turn)[0].cost >= 0.0
    ensures JobEvent(c, turn) != [] && !JobEvent(c, turn)[0].Ask? ==> turn.ChatEnds?
  {
    hide EstimateCost, Sums.Merge;
    if turn.ChatEnds? && turn.reply.Answered? && NonNegative(c.settings.prices) {
      CostMonotone(c.settings.prices, turn.model, turn.reply.prompt, turn.reply.prompt, turn.reply.completion, c.settings.allowUnpriced);
    }
  }

  /** Every run of the client is a run of the cap machine, and a possible one if it was. */
  lemma {:induction false} ClientIsJob(n: nat, m: nat, c: State, turns: seq<Turn>)
    ensures JobCap.After(CapOf(c), JobOf(c), JobEvents(c, turns)) == JobOf(Run(c, turns))
    ensures NonNegative(c.settings.prices) && Possible(n, m, c, turns) ==> JobCap.Possible(CapOf(c), n, JobOf(c), JobEvents(c, turns))
    decreases |turns|
  {
    if turns != [] {
      hide Do, JobEvent, JobOf, CapOf, JobCap.Step;
      var turn := turns[0];
      var next, event, rest := Do(c, turn), JobEvent(c, turn), JobEvents(Do(c, turn), turns[1..]);
      ClientIsJob(n, m, next, turns[1..]);
      JobStep(c, turn);
      InFlightOf(c);
      if event == [] {
        assert event + rest == rest;
      } else {
        assert (event + rest)[0] == event[0] && (event + rest)[1..] == rest;
      }
    }
  }

  lemma InFlightOf(c: State)
    ensures JobOf(c).inFlight == c.inFlight
  {
  }

  /** However tasks interleave, a client that starts with an empty ledger never records cap + n ceilings, with at
      most `n` chat calls waiting at a time. */
  lemma SpendStaysBelow(n: nat, m: nat, c: State, turns: seq<Turn>)
    requires c.settings.jobCostCapUsd > 0.0 && c.settings.maxCostUsd >= 0.0 && NonNegative(c.settings.prices)
    requires c.usage.cost == 0.0 && c.inFlight == 0 && Possible(n, m, c, turns)
    ensures Run(c, turns).usage.cost < c.settings.jobCostCapUsd + n as real * c.settings.maxCostUsd
  {
    ClientIsJob(n, m, c, turns);
    JobCap.OvershootBound(CapOf(c), n, JobEvents(c, turns));
  }

  /** Once the recorded spend has reached the cap every chat call is stopped before the gateway, for good. */
  lemma {:induction false} CappedForGood(c: State, turns: seq<Turn>)
    requires c.settings.jobCostCapUsd > 0.0 && NonNegative(c.settings.prices) && c.usage.cost >= c.settings.jobCostCapUsd
    ensures forall i :: 0 <= i < |turns| && turns[i].ChatStarts? ==>
      Obstacle(Run(c, turns[..i]), turns[i].model, turns[i].promptTokens, turns[i].outCap, turns[i].at).Some?
    decreases |turns|
  {
    if turns != [] {
      var next := Do(c, turns[0]);
      JobStep(c, turns[0]);
      hide Do, Obstacle;
      assert Run(c, turns[..0]) == c;
      Stopped(c);
      assert next.usage.cost >= c.usage.cost by {
        SpendGrows(c, turns[0]);
      }
      CappedForGood(next, turns[1..]);
      forall i | 0 < i < |turns| && turns[i].ChatStarts?
        ensures Obstacle(Run(c, turns[..i]), turns[i].model, turns[i].promptTokens, turns[i].outCap, turns[i].at).Some?
      {
        assert turns[..i][1..] == turns[1..][..i - 1] && turns[i] == turns[1..][i - 1];
      }
    }
  }

  lemma Stopped(c: State)
    requires c.settings.jobCostCapUsd > 0.0 && c.usage.cost >= c.settings.jobCostCapUsd
    ensures forall model, promptTokens, outCap, at :: Obstacle(c, model, promptTokens, outCap, at).Some?
  {
  }

  lemma SpendGrows(c: State, turn: Turn)
    requires NonNegative(c.settings.prices)
    ensures Do(c, turn).usage.cost >= c.usage.cost
  {
    hide EstimateCost, Sums.Merge;
    if turn.ChatEnds? && turn.reply.Answered? {
      CostMonotone(c.settings.prices, turn.model, turn.reply.prompt, turn.reply.prompt, turn.reply.completion, c.settings.allowUnpriced);
    }
  }

  // ---------- the breaker ----------

  function BreakerOf(c: State): CB.Run {
    CB.Run(c.breaker, c.inFlight + c.embeds)
  }

  /** What a turn means to the breaker: chat calls stopped by a ceiling or the cap never reach it. */
  function CallEvent(c: State, turn: Turn): seq<CB.Event> {
    match turn
    case ChatStarts(model, promptTokens, outCap, at) =>
      if Obstacle(c, model, promptTokens, outCap, at).None? then [CB.Start(at)] else []
    case ChatEnds(_, reply, at) => [CB.End(at, OutcomeOf(reply))]
    case EmbedStarts(at) => if CB.Passes(c.breakerConfig, c.breaker, at) then [CB.Start(at)] else []
    case EmbedEnds(reply, at) => [CB.End(at, OutcomeOf(reply))]
  }

  function CallEvents(c: State, turns: seq<Turn>): seq<CB.Event>
    decreases |turns|
  {
    if turns == [] then [] else CallEvent(c, turns[0]) + CallEvents(Do(c, turns[0]), turns[1..])
  }

  /** Transport errors, 5xx and unknown failures among the ends of calls. */
  function Failures(turns: seq<Turn>): nat {
    if turns == [] then 0 else
      var t := turns[0];
      Failures(turns[1..]) + if (t.ChatEnds? || t.EmbedEnds?) && t.reply == Raised(true) then 1 else 0
  }

  ghost predicate NoAnswer(turns: seq<Turn>) {
    forall i :: 0 <= i < |turns| && (turns[i].ChatEnds? || turns[i].EmbedEnds?) ==> turns[i].reply.Raised?
  }

  ghost predicate InOrder(turns: seq<Turn>, a: real, b: real) {
    turns == [] || (a <= turns[0].at <= b && InOrder(turns[1..], turns[0].at, b))
  }

  lemma CallStep(c: State, turn: Turn)
    requires turn.ChatEnds? ==> c.inFlight > 0
    requires turn.EmbedEnds? ==> c.embeds > 0
    ensures BreakerOf(Do(c, turn)) ==
      if CallEvent(c, turn) == [] then BreakerOf(c) else CB.Step(c.breakerConfig, BreakerOf(c), CallEvent(c, turn)[0])
    ensures |CallEvent(c, turn)| <= 1 && Do(c, turn).breakerConfig == c.breakerConfig
    ensures CallEvent(c, turn) != [] ==>
      && CallEvent(c, turn)[0].at == turn.at && (CallEvent(c, turn)[0].End? <==> turn.ChatEnds? || turn.EmbedEnds?)
      && (CallEvent(c, turn)[0].End? ==> BreakerOf(c).inFlight > 0 && CallEvent(c, turn)[0].outcome == OutcomeOf(turn.reply))
    ensures turn.ChatEnds? || turn.EmbedEnds? ==> CallEvent(c, turn) != []
  {
    hide EstimateCost, Plus, UsageOf;
  }

  /** Every possible run of the client is a possible run of the breaker, chat and embedding calls together. */
  lemma {:induction false} ClientIsBreaker(n: nat, m: nat, c: State, turns: seq<Turn>, a: real, b: real)
    requires Possible(n, m, c, turns) && InOrder(turns, a, b) && NoAnswer(turns)
    ensures var events := CallEvents(c, turns);
      && CB.After(c.breakerConfig, BreakerOf(c), events) == BreakerOf(Run(c, turns))
      && CB.Possible(c.breakerConfig, n + m, BreakerOf(c), events) && CB.Within(events, a, b) && CB.NoSuccess(events)
      && CB.CountedFailures(events) == Failures(turns)
    decreases |turns|
  {
    if turns != [] {
      var turn := turns[0];
      var next, event, rest := Do(c, turn), CallEvent(c, turn), CallEvents(Do(c, turn), turns[1..]);
      ClientIsBreaker(n, m, next, turns[1..], turn.at, b);
      CallStep(c, turn);
      InFlightIs(c);
      hide Do, CallEvent, BreakerOf, CB.Step;
      if event == [] {
        assert event + rest == rest;
      } else {
        assert (event + rest)[0] == event[0] && (event + rest)[1..] == rest;
        assert forall e :: e in event + rest ==> e == event[0] || e in rest;
      }
    }
  }

  lemma InFlightIs(c: State)
    ensures BreakerOf(c).inFlight == c.inFlight + c.embeds
  {
  }

  /** The outage bound on the client: while nothing is answered, chat and embedding calls together see at most
      threshold - 1 + (n + m) * (1 + floor((b - a) / cooldown)) counted failures in [a, b]. */
  lemma OutageOnClient(n: nat, m: nat, c: State, turns: seq<Turn>, a: real, b: real)
    requires c.breakerConfig.threshold > 0 && c.breakerConfig.cooldown > 0.0 && a <= b && CB.Coherent(c.breakerConfig, c.breaker)
    requires Possible(n, m, c, turns) && InOrder(turns, a, b) && NoAnswer(turns)
    ensures Failures(turns) <= c.breakerConfig.threshold - 1 + (n + m) * (1 + ((b - a) / c.breakerConfig.cooldown).Floor)
  {
    ClientIsBreaker(n, m, c, turns, a, b);
    CB.OutageBound(c.breakerConfig, n + m, BreakerOf(c), CallEvents(c, turns), a, b);
  }
}
