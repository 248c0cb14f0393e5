/**
 The metered LLM client: usage ledger, price table, and the chat paths with their
 pre-flight ceiling, breaker, per-job cap and corrective-retry loop.

 The gateway is an oracle: each call is given the reply it will get and the clock
 readings at its start and end.  `Begin` and `Finish` are the two stretches of a chat
 call that run without yielding; what other tasks do with the client between them is
 part of the call's exchange.
 */
module LlmClient {
  import opened Wrappers
  import Sums
  import CB = CircuitBreaker
  import JobCap

  // ---------- usage ----------

  datatype UsageValue = UsageValue(prompt: nat, completion: nat, cost: real, byModel: map<string, real>)

  const ZERO_USAGE := UsageValue(0, 0, 0.0, map[])

  function Plus(u: UsageValue, v: UsageValue): UsageValue {
    UsageValue(u.prompt + v.prompt, u.completion + v.completion, u.cost + v.cost, Sums.Merge(u.byModel, v.byModel))
  }

  function PlusAll(u: UsageValue, vs: seq<UsageValue>): UsageValue {
    if vs == [] then u else Plus(PlusAll(u, vs[..|vs| - 1]), vs[|vs| - 1])
  }

  /** The per-model amounts add up to the cost. */
  ghost predicate Balanced(u: UsageValue) {
    Sums.Total(u.byModel) == u.cost
  }

  function CostOf(vs: seq<UsageValue>): real {
    if vs == [] then 0.0 else CostOf(vs[..|vs| - 1]) + vs[|vs| - 1].cost
  }

  /** However calls accumulate, the per-model amounts always sum to the cost, and the cost
      is the sum of the calls' costs. */
  lemma {:induction false} LedgerBalances(u: UsageValue, vs: seq<UsageValue>)
    requires Balanced(u) && forall i :: 0 <= i < |vs| ==> Balanced(vs[i])
    ensures Balanced(PlusAll(u, vs))
    ensures PlusAll(u, vs).cost == u.cost + CostOf(vs)
  {
    if vs != [] {
      var init := vs[..|vs| - 1];
      LedgerBalances(u, init);
      Sums.TotalMerge(PlusAll(u, init).byModel, vs[|vs| - 1].byModel);
    }
  }

  /** Adds `other`'s entries into a dictionary one by one. */
  method AddEntries(byModel: map<string, real>, other: map<string, real>) returns (sum: map<string, real>)
    ensures sum == Sums.Merge(byModel, other)
  {
    sum := byModel;
    var left := other.Keys;
    while left != {}
      invariant forall k :: k in left ==> k in other
      invariant forall k :: k in sum <==> k in byModel || (k in other && k !in left)
      invariant forall k :: k in sum ==>
        sum[k] == Sums.Value(byModel, k) + if k in left then 0.0 else Sums.Value(other, k)
      decreases |left|
    {
      var model :| model in left;
      sum := sum[model := Sums.Value(sum, model) + other[model]];
      left := left - {model};
    }
    Sums.MergeIs(byModel, other, sum);
  }

  class Usage {
    var promptTokens: nat
    var completionTokens: nat
    var costUsd: real
    var byModel: map<string, real>

    function Value(): UsageValue
      reads this
    {
      UsageValue(promptTokens, completionTokens, costUsd, byModel)
    }

    constructor ()
      ensures Value() == ZERO_USAGE
    {
      promptTokens, completionTokens, costUsd, byModel := 0, 0, 0.0, map[];
    }

    method Add(other: UsageValue)
      modifies this
      ensures Value() == Plus(old(Value()), other)
    {
      promptTokens := promptTokens + other.prompt;
      completionTokens := completionTokens + other.completion;
      costUsd := costUsd + other.cost;
      byModel := AddEntries(byModel, other.byModel);
    }
  }

  // ---------- prices and estimates ----------

  type Prices = map<string, (real, real)>

  const UNPRICED_SENTINEL := (1000.0, 1000.0)

  /** An unknown model is billed at the sentinel price unless unpriced models are allowed. */
  function PriceOf(prices: Prices, model: string, allowUnpriced: bool): (real, real) {
    if model in prices then prices[model]
    else if allowUnpriced then (0.0, 0.0)
    else UNPRICED_SENTINEL
  }

  function EstimateCost(prices: Prices, model: string, prompt: nat, completion: nat, allowUnpriced: bool): real {
    var p := PriceOf(prices, model, allowUnpriced);
    (prompt as real * p.0 + completion as real * p.1) / 1000000.0
  }

  ghost predicate NonNegative(prices: Prices) {
    forall m :: m in prices ==> prices[m].0 >= 0.0 && prices[m].1 >= 0.0
  }

  /** With non-negative prices a cost is non-negative and never falls as tokens grow. */
  lemma CostMonotone(prices: Prices, model: string, p: nat, q: nat, completion: nat, allowUnpriced: bool)
    requires NonNegative(prices) && p <= q
    ensures 0.0 <= EstimateCost(prices, model, p, completion, allowUnpriced)
                <= EstimateCost(prices, model, q, completion, allowUnpriced)
  {
    var price := PriceOf(prices, model, allowUnpriced);
    assert p as real * price.0 >= 0.0 && completion as real * price.1 >= 0.0;
    assert q as real * price.0 == p as real * price.0 + (q - p) as real * price.0;
    assert (q - p) as real * price.0 >= 0.0;
  }

  /** An unknown model is charged a thousandth of a dollar per token, so a call of more than 1000 tokens
      per dollar of ceiling is always stopped, unless unpriced models are allowed: then it is free. */
  lemma UnpricedFailsClosed(prices: Prices, model: string, prompt: nat, completion: nat, ceiling: real)
    requires model !in prices
    ensures EstimateCost(prices, model, prompt, completion, false) > ceiling <==> (prompt + completion) as real > 1000.0 * ceiling
    ensures EstimateCost(prices, model, prompt, completion, true) == 0.0
  {
    assert prompt as real * 1000.0 + completion as real * 1000.0 == 1000.0 * (prompt + completion) as real;
  }

  /** Prices are dollars per million tokens: a million prompt tokens of a listed model cost the first of its pair, a
      million completion tokens the second, and the cost of any two amounts together is the sum of their costs. */
  lemma PricesArePerMillion(prices: Prices, model: string, p: nat, c: nat, q: nat, d: nat, allowUnpriced: bool)
    ensures model in prices ==>
      && EstimateCost(prices, model, 1000000, 0, allowUnpriced) == prices[model].0
      && EstimateCost(prices, model, 0, 1000000, allowUnpriced) == prices[model].1
    ensures EstimateCost(prices, model, p + q, c + d, allowUnpriced)
         == EstimateCost(prices, model, p, c, allowUnpriced) + EstimateCost(prices, model, q, d, allowUnpriced)
  {
    var price := PriceOf(prices, model, allowUnpriced);
    assert (p + q) as real * price.0 == p as real * price.0 + q as real * price.0;
    assert (c + d) as real * price.1 == c as real * price.1 + d as real * price.1;
  }

  const DEFAULT_PRICES: Prices := map[
    "claude-sonnet" := (3.0, 15.0), "gpt-5" := (1.25, 10.0), "gemini-pro" := (1.25, 5.0),
    "deepseek-chat" := (0.3, 1.1), "deepseek-reasoner" := (0.55, 2.2),
    "qwen3.5-flash" := (0.1, 0.4), "qwen3.5-plus" := (0.4, 1.2), "glm-5.1" := (0.6, 2.2),
    "kimi-k2.6" := (0.6, 2.5), "minimax-m3" := (0.3, 1.2), "grok-4.3" := (3.0, 15.0)]

  /** The default table, model by model: dollars per million prompt and per million completion tokens. */
  lemma DefaultPrices(model: string)
    ensures model in DEFAULT_PRICES <==> model in {
      "claude-sonnet", "gpt-5", "gemini-pro", "deepseek-chat", "deepseek-reasoner", "qwen3.5-flash", "qwen3.5-plus",
      "glm-5.1", "kimi-k2.6", "minimax-m3", "grok-4.3"}
    ensures model in DEFAULT_PRICES ==> DEFAULT_PRICES[model] == match model
      case "claude-sonnet" => (3.0, 15.0)
      case "grok-4.3" => (3.0, 15.0)
      case "gpt-5" => (1.25, 10.0)
      case "gemini-pro" => (1.25, 5.0)
      case "deepseek-chat" => (0.3, 1.1)
      case "deepseek-reasoner" => (0.55, 2.2)
      case "qwen3.5-flash" => (0.1, 0.4)
      case "qwen3.5-plus" => (0.4, 1.2)
      case "glm-5.1" => (0.6, 2.2)
      case "kimi-k2.6" => (0.6, 2.5)
      case _ => (0.3, 1.2)
  {
  }

  /** One entry of the override object; `None` is a value that is not a pair of numbers. */
  type Entry = (string, Option<(real, real)>)

  /** How many entries come before the first malformed one. */
  function Readable(override: seq<Entry>): (n: nat)
    ensures n <= |override|
    ensures forall i :: 0 <= i < n ==> override[i].1.Some?
    ensures n < |override| ==> override[n].1.None?
  {
    if override == [] || override[0].1.None? then 0 else 1 + Readable(override[1..])
  }

  function Priced(prices: Prices, entries: seq<Entry>): Prices
    requires forall i :: 0 <= i < |entries| ==> entries[i].1.Some?
  {
    if entries == [] then prices else
      var last := entries[|entries| - 1];
      Priced(prices, entries[..|entries| - 1])[last.0 := last.1.value]
  }

  ghost predicate DistinctModels(entries: seq<Entry>) {
    forall i, j :: 0 <= i < j < |entries| ==> entries[i].0 != entries[j].0
  }

  lemma {:induction false} PricedAt(prices: Prices, entries: seq<Entry>, m: string)
    requires DistinctModels(entries) && forall i :: 0 <= i < |entries| ==> entries[i].1.Some?
    ensures (forall i :: 0 <= i < |entries| ==> entries[i].0 != m) ==>
      (m in Priced(prices, entries) <==> m in prices) && (m in prices ==> Priced(prices, entries)[m] == prices[m])
    ensures forall i :: 0 <= i < |entries| && entries[i].0 == m ==>
      m in Priced(prices, entries) && Priced(prices, entries)[m] == entries[i].1.value
  {
    if entries != [] {
      PricedAt(prices, entries[..|entries| - 1], m);
    }
  }

  /** Every entry's price is in the table, and every other model keeps its own. */
  ghost predicate Overridden(before: Prices, entries: seq<Entry>, after: Prices)
    requires forall i :: 0 <= i < |entries| ==> entries[i].1.Some?
  {
    && (forall i :: 0 <= i < |entries| ==> entries[i].0 in after && after[entries[i].0] == entries[i].1.value)
    && (forall m :: (forall i :: 0 <= i < |entries| ==> entries[i].0 != m) ==>
          (m in after <==> m in before) && (m in before ==> after[m] == before[m]))
  }

  lemma PricedIs(prices: Prices, entries: seq<Entry>)
    requires DistinctModels(entries) && forall i :: 0 <= i < |entries| ==> entries[i].1.Some?
    ensures Overridden(prices, entries, Priced(prices, entries))
  {
    hide Priced;
    forall m: string
      ensures (forall i :: 0 <= i < |entries| ==> entries[i].0 != m) ==>
        (m in Priced(prices, entries) <==> m in prices) && (m in prices ==> Priced(prices, entries)[m] == prices[m])
      ensures forall i :: 0 <= i < |entries| && entries[i].0 == m ==>
        m in Priced(prices, entries) && Priced(prices, entries)[m] == entries[i].1.value
    {
      PricedAt(prices, entries, m);
    }
  }

  /** The default prices with an override read over them, entry by entry until one is malformed.  There are no
      entries when the variable is unset or holds no JSON object; the keys of an object are distinct. */
  method LoadPrices(override: seq<Entry>) returns (prices: Prices)
    requires DistinctModels(override)
    ensures prices == Priced(DEFAULT_PRICES, override[..Readable(override)])
    ensures Overridden(DEFAULT_PRICES, override[..Readable(override)], prices)
  {
    hide DEFAULT_PRICES, Overridden;
    PricedIs(DEFAULT_PRICES, override[..Readable(override)]);
    prices := DEFAULT_PRICES;
    var i := 0;
    while i < |override|
      invariant 0 <= i <= Readable(override)
      invariant prices == Priced(DEFAULT_PRICES, override[..i])
    {
      if override[i].1.None? {
        return;
      }
      assert override[..i + 1][..i] == override[..i];
      prices := prices[override[i].0 := override[i].1.value];
      i := i + 1;
    }
  }

  /** A malformed override is documented to be ignored.  It is exactly when each entry before the malformed one
      repeats the price already in the table. */
  lemma MalformedOverrideIgnoredExactly(prices: Prices, override: seq<Entry>)
    requires DistinctModels(override)
    ensures var n := Readable(override);
      Priced(prices, override[..n]) == prices <==>
      forall i :: 0 <= i < n ==> override[i].0 in prices && prices[override[i].0] == override[i].1.value
  {
    hide Priced;
    var entries := override[..Readable(override)];
    PricedIs(prices, entries);
    var now := Priced(prices, entries);
    if forall i :: 0 <= i < |entries| ==> entries[i].0 in prices && prices[entries[i].0] == entries[i].1.value {
      forall m: string
        ensures m in now <==> m in prices
        ensures m in prices ==> now[m] == prices[m]
      {
        if i :| 0 <= i < |entries| && entries[i].0 == m {
          assert now[m] == entries[i].1.value;
        }
      }
      assert now.Keys == prices.Keys;
    }
  }

  /** It does happen: an entry with another price comes before the malformed one. */
  lemma MalformedOverrideChangesPrices(prices: Prices, m: string, price: (real, real), other: string)
    requires m != other && (m in prices ==> prices[m] != price)
    ensures var override := [(m, Some(price)), (other, None)];
      DistinctModels(override) && Readable(override) == 1 && Priced(prices, override[..1]) != prices
  {
    var override: seq<Entry> := [(m, Some(price)), (other, None)];
    assert override[1..][0] == override[1];
    assert override[0].0 == m;
    MalformedOverrideIgnoredExactly(prices, override);
  }

  datatype Message = Message(role: string, content: string)

  function Chars(messages: seq<Message>): nat {
    if messages == [] then 0
    else Chars(messages[..|messages| - 1]) + |messages[|messages| - 1].role| + |messages[|messages| - 1].content|
  }

  function EstimatePromptTokens(messages: seq<Message>): nat {
    Chars(messages) / 4 + 4 * |messages|
  }

  /** The characters of the roles and contents add up. */
  lemma {:induction false} CharsAddUp(messages: seq<Message>, more: seq<Message>)
    ensures Chars(messages + more) == Chars(messages) + Chars(more)
    ensures forall m: Message :: Chars([m]) == |m.role| + |m.content|
  {
    forall m: Message
      ensures Chars([m]) == |m.role| + |m.content|
    {
      assert [m][..0] == [];
    }
    if more == [] {
      assert messages + more == messages;
    } else {
      CharsAddUp(messages, more[..|more| - 1]);
      assert (messages + more)[..|messages + more| - 1] == messages + more[..|more| - 1];
    }
  }

  /** The estimate is a quarter of the characters, rounded down, and four tokens a message. */
  lemma EstimateIsQuarter(messages: seq<Message>, m: Message)
    ensures 4 * EstimatePromptTokens(messages) <= Chars(messages) + 16 * |messages| < 4 * EstimatePromptTokens(messages) + 4
    ensures EstimatePromptTokens([m]) == 4 + (|m.role| + |m.content|) / 4
  {
    CharsAddUp([], [m]);
  }

  lemma {:induction false} EstimateGrows(messages: seq<Message>, more: seq<Message>)
    ensures EstimatePromptTokens(messages) <= EstimatePromptTokens(messages + more)
  {
    assert messages + [] == messages;
    if more != [] {
      var init := more[..|more| - 1];
      EstimateGrows(messages, init);
      assert (messages + more)[..|messages + more| - 1] == messages + init;
    }
  }

  // ---------- the client ----------

  datatype Settings = Settings(
    model: string, maxTokens: nat, maxCostUsd: real, jobCostCapUsd: real, allowUnpriced: bool, prices: Prices)

  datatype Error = CostLimitExceeded | CircuitOpen | JobCostCapExceeded | GatewayError | JsonInvalid

  /** What the gateway does with one call. */
  datatype Reply = Answered(text: string, prompt: nat, completion: nat) | Raised(counted: bool)

  datatype Result<+T> = Ok(value: T, usage: UsageValue) | Err(error: Error)

  /** One stretch of code that runs without yielding, of this or another task. */
  datatype Turn =
    | ChatStarts(model: string, promptTokens: nat, outCap: nat, at: real)
    | ChatEnds(model: string, reply: Reply, at: real)
    | EmbedStarts(at: real)
    | EmbedEnds(reply: Reply, at: real)

  /** One gateway call: when it starts, what other tasks do while it waits, what comes back, when. */
  datatype Exchange = Exchange(start: real, meanwhile: seq<Turn>, reply: Reply, end: real)

  function OutcomeOf(r: Reply): CB.Outcome {
    match r
    case Answered(_, _, _) => CB.Success
    case Raised(counted) => if counted then CB.Counted else CB.Uncounted
  }

  function CallUsage(s: Settings, model: string, prompt: nat, completion: nat): UsageValue {
    var cost := EstimateCost(s.prices, model, prompt, completion, s.allowUnpriced);
    UsageValue(prompt, completion, cost, map[model := cost])
  }

  /** An answer within the ceiling is recorded and returned. */
  predicate Recorded(s: Settings, model: string, r: Reply) {
    r.Answered? && CallUsage(s, model, r.prompt, r.completion).cost <= s.maxCostUsd
  }

  /** What a call that ends like this adds to the ledger. */
  function UsageOf(s: Settings, model: string, r: Reply): UsageValue {
    if Recorded(s, model, r) then CallUsage(s, model, r.prompt, r.completion) else ZERO_USAGE
  }

  /** The fields of a client as values, and how many chat and embedding calls are waiting for the gateway. */
  datatype State = State(
    settings: Settings, breakerConfig: CB.Config, usage: UsageValue, breaker: CB.State, inFlight: nat, embeds: nat)

  /** What stops a call before it reaches the gateway, in the order the code checks. */
  function Obstacle(c: State, model: string, promptTokens: nat, outCap: nat, now: real): Option<Error> {
    if EstimateCost(c.settings.prices, model, promptTokens, outCap, c.settings.allowUnpriced) > c.settings.maxCostUsd
    then Some(CostLimitExceeded)
    else if !CB.Passes(c.breakerConfig, c.breaker, now) then Some(CircuitOpen)
    else if JobCap.Refuses(JobCap.Config(c.settings.jobCostCapUsd, c.settings.maxCostUsd), c.usage.cost)
    then Some(JobCostCapExceeded)
    else None
  }

  /** The pair of prices, in dollars per million tokens, at which calls on a model are charged: the listed one, else
      nothing when unpriced models are allowed, else 1000 dollars. */
  ghost predicate ChargedAt(s: Settings, model: string, price: (real, real)) {
    if model in s.prices then price == s.prices[model]
    else if s.allowUnpriced then price == (0.0, 0.0)
    else price == (1000.0, 1000.0)
  }

  /** What stops a call: the ceiling first, then the breaker, then the cap. */
  lemma ObstaclesInOrder(c: State, model: string, price: (real, real), promptTokens: nat, outCap: nat, now: real)
    requires ChargedAt(c.settings, model, price)
    ensures var stop := Obstacle(c, model, promptTokens, outCap, now);
      var dear := promptTokens as real * price.0 + outCap as real * price.1 > 1000000.0 * c.settings.maxCostUsd;
      var open := c.breakerConfig.threshold > 0 && c.breaker.openedAt.Some? && now - c.breaker.openedAt.value < c.breakerConfig.cooldown;
      var spent := c.settings.jobCostCapUsd > 0.0 && c.usage.cost >= c.settings.jobCostCapUsd;
      && (stop == Some(CostLimitExceeded) <==> dear)
      && (stop == Some(CircuitOpen) <==> !dear && open)
      && (stop == Some(JobCostCapExceeded) <==> !dear && !open && spent)
      && (stop == None <==> !dear && !open && !spent)
  {
  }

  /** These tokens at this pair of prices cost so many dollars. */
  ghost predicate IsPrice(price: (real, real), prompt: nat, completion: nat, dollars: real) {
    dollars * 1000000.0 == prompt as real * price.0 + completion as real * price.1
  }

  lemma OnePrice(s: Settings, model: string, prompt: nat, completion: nat)
    ensures forall price, dollars :: ChargedAt(s, model, price) && IsPrice(price, prompt, completion, dollars) ==>
      dollars == CallUsage(s, model, prompt, completion).cost
  {
  }

  /** What an answer costs, and so whether it is returned and recorded, and as what. */
  lemma AnswerIsBilled(s: Settings, model: string, r: Reply, price: (real, real), dollars: real)
    requires r.Answered? && ChargedAt(s, model, price) && IsPrice(price, r.prompt, r.completion, dollars)
    ensures Recorded(s, model, r) <==> dollars <= s.maxCostUsd
    ensures UsageOf(s, model, r) ==
      if dollars <= s.maxCostUsd then UsageValue(r.prompt, r.completion, dollars, map[model := dollars])
      else UsageValue(0, 0, 0.0, map[])
  {
    OnePrice(s, model, r.prompt, r.completion);
  }

  function Fewer(n: nat): nat {
    if n > 0 then n - 1 else 0
  }

  function Do(c: State, turn: Turn): State {
    match turn
    case ChatStarts(model, promptTokens, outCap, at) =>
      if Obstacle(c, model, promptTokens, outCap, at).None? then c.(inFlight := c.inFlight + 1) else c
    case ChatEnds(model, reply, at) =>
      c.(usage := Plus(c.usage, UsageOf(c.settings, model, reply)),
         breaker := CB.Ended(c.breakerConfig, c.breaker, OutcomeOf(reply), at), inFlight := Fewer(c.inFlight))
    case EmbedStarts(at) => if CB.Passes(c.breakerConfig, c.breaker, at) then c.(embeds := c.embeds + 1) else c
    case EmbedEnds(reply, at) =>
      c.(breaker := CB.Ended(c.breakerConfig, c.breaker, OutcomeOf(reply), at), embeds := Fewer(c.embeds))
  }

  function Run(c: State, turns: seq<Turn>): State
    decreases |turns|
  {
    if turns == [] then c else Run(Do(c, turns[0]), turns[1..])
  }

  /** The client after a call on `model` that reached the gateway. */
  function Called(c: State, model: string, x: Exchange): State {
    Do(Run(c.(inFlight := c.inFlight + 1), x.meanwhile), ChatEnds(model, x.reply, x.end))
  }

  /** The client after the calls `xs`, one after the other. */
  function After(c: State, model: string, xs: seq<Exchange>): State {
    if xs == [] then c else Called(After(c, model, xs[..|xs| - 1]), model, xs[|xs| - 1])
  }

  // ---------- the corrective-retry loop ----------

  /** `parse` stands for extracting the JSON object and validating it against the schema, `corrective` for the
      text of the re-prompt. */
  datatype Task<T> = Task(
    messages: seq<Message>, parse: string -> Option<T>, corrective: string, maxRetries: int, model: string, outCap: nat)

  function Most<T>(t: Task<T>): nat {
    if t.maxRetries + 1 > 0 then t.maxRetries + 1 else 0
  }

  /** The conversation after the calls `xs`: each answer is quoted and followed by the corrective text. */
  function Convo(messages: seq<Message>, corrective: string, xs: seq<Exchange>): seq<Message> {
    if xs == [] then messages else
      var last := xs[|xs| - 1].reply;
      Convo(messages, corrective, xs[..|xs| - 1])
      + [Message("assistant", if last.Answered? then last.text else ""), Message("user", corrective)]
  }

  /** What each of the calls `xs` adds to the ledger. */
  function Usages(s: Settings, model: string, xs: seq<Exchange>): seq<UsageValue> {
    if xs == [] then [] else Usages(s, model, xs[..|xs| - 1]) + [UsageOf(s, model, xs[|xs| - 1].reply)]
  }

  /** What the attempt that starts at `now` meets, after the calls `xs`, before it reaches the gateway. */
  function Hurdle<T>(c: State, t: Task<T>, xs: seq<Exchange>, now: real): Option<Error> {
    Obstacle(After(c, t.model, xs), t.model, EstimatePromptTokens(Convo(t.messages, t.corrective, xs)), t.outCap, now)
  }

  /** Attempt `i` is answered within the ceiling. */
  ghost predicate Succeeds<T>(c: State, t: Task<T>, script: seq<Exchange>, i: int) {
    0 <= i < |script| && Hurdle(c, t, script[..i], script[i].start).None? && Recorded(c.settings, t.model, script[i].reply)
  }

  /** Attempt `i` is answered, but not with a valid object. */
  ghost predicate Rejected<T>(c: State, t: Task<T>, script: seq<Exchange>, i: int) {
    Succeeds(c, t, script, i) && t.parse(script[i].reply.text).None?
  }

  /** The loop ends with result `r` after `n` attempts, `calls` of which reached the gateway. */
  ghost predicate Ends<T>(c: State, t: Task<T>, script: seq<Exchange>, n: nat, calls: nat, r: Result<T>) {
    && n <= Most(t) && n <= |script|
    && (forall i :: 0 <= i < n - 1 ==> Rejected(c, t, script, i))
    && match r
       case Ok(value, total) =>
         && Succeeds(c, t, script, n - 1) && t.parse(script[n - 1].reply.text) == Some(value)
         && total == PlusAll(ZERO_USAGE, Usages(c.settings, t.model, script[..n])) && calls == n
       case Err(JsonInvalid) => n == Most(t) == calls && (n > 0 ==> Rejected(c, t, script, n - 1))
       case Err(error) =>
         && n > 0
         && var h, reply := Hurdle(c, t, script[..n - 1], script[n - 1].start), script[n - 1].reply;
            if h.Some? then error == h.value && calls == n - 1
            else && !Recorded(c.settings, t.model, reply) && calls == n
                 && error == if reply.Raised? then GatewayError else CostLimitExceeded
  }

  lemma LastIsNotRejected<T>(c: State, t: Task<T>, script: seq<Exchange>, n: nat, calls: nat, r: Result<T>)
    requires Ends(c, t, script, n, calls, r) && n < Most(t)
    ensures n > 0 && !Rejected(c, t, script, n - 1)
  {
  }

  /** The replies decide everything: the loop can end in one way only. */
  lemma EndsOneWay<T>(c: State, t: Task<T>, script: seq<Exchange>, n: nat, calls: nat, r: Result<T>, m: nat, calls': nat, r': Result<T>)
    requires Ends(c, t, script, n, calls, r) && Ends(c, t, script, m, calls', r')
    ensures n == m && calls == calls' && r == r'
  {
    hide Recorded, Hurdle, Usages, PlusAll;
    if n < Most(t) {
      LastIsNotRejected(c, t, script, n, calls, r);
    }
    if m < Most(t) {
      LastIsNotRejected(c, t, script, m, calls', r');
    }
  }

  /** Attempt k sends the original messages as a prefix plus exactly 2k more, and neither the token estimate nor
      the projected cost ever falls from one attempt to the next. */
  lemma {:induction false} CorrectionsGrow(messages: seq<Message>, corrective: string, xs: seq<Exchange>,
                                           prices: Prices, model: string, outCap: nat, allowUnpriced: bool)
    requires NonNegative(prices)
    ensures messages <= Convo(messages, corrective, xs) && |Convo(messages, corrective, xs)| == |messages| + 2 * |xs|
    ensures forall i :: 0 <= i < |xs| && xs[i].reply.Answered? ==>
      && Convo(messages, corrective, xs)[|messages| + 2 * i] == Message("assistant", xs[i].reply.text)
      && Convo(messages, corrective, xs)[|messages| + 2 * i + 1] == Message("user", corrective)
    ensures xs != [] ==>
      var before := EstimatePromptTokens(Convo(messages, corrective, xs[..|xs| - 1]));
      var now := EstimatePromptTokens(Convo(messages, corrective, xs));
      && before <= now
      && EstimateCost(prices, model, before, outCap, allowUnpriced) <= EstimateCost(prices, model, now, outCap, allowUnpriced)
  {
    if xs != [] {
      hide Chars, EstimateCost;
      var init := Convo(messages, corrective, xs[..|xs| - 1]);
      CorrectionsGrow(messages, corrective, xs[..|xs| - 1], prices, model, outCap, allowUnpriced);
      var more := Convo(messages, corrective, xs)[|init|..];
      assert Convo(messages, corrective, xs) == init + more;
      EstimateGrows(init, more);
      CostMonotone(prices, model, EstimatePromptTokens(init), EstimatePromptTokens(init + more), outCap, allowUnpriced);
    }
  }

  lemma PlusZero(u: UsageValue)
    ensures Plus(u, ZERO_USAGE) == u
  {
    Sums.SameMap(Sums.Merge(u.byModel, map[]), u.byModel);
  }

  /** What a call adds is balanced. */
  lemma UsageIsBalanced(s: Settings, model: string, r: Reply)
    ensures Balanced(UsageOf(s, model, r))
  {
    if r.Answered? {
      Sums.TotalUpdate(map[], model, CallUsage(s, model, r.prompt, r.completion).cost);
    }
  }

  /** One more call. */
  lemma OneMoreCall(c: State, model: string, script: seq<Exchange>, i: nat)
    requires i < |script|
    ensures After(c, model, script[..i + 1]) == Called(After(c, model, script[..i]), model, script[i])
    ensures PlusAll(ZERO_USAGE, Usages(c.settings, model, script[..i + 1]))
         == Plus(PlusAll(ZERO_USAGE, Usages(c.settings, model, script[..i])), UsageOf(c.settings, model, script[i].reply))
  {
    hide Called, Plus, UsageOf;
    assert script[..i + 1][..i] == script[..i];
    var before, last := Usages(c.settings, model, script[..i]), UsageOf(c.settings, model, script[i].reply);
    assert (before + [last])[..|before|] == before;
  }

  lemma OneMoreCorrection(messages: seq<Message>, corrective: string, script: seq<Exchange>, i: nat)
    requires i < |script| && script[i].reply.Answered?
    ensures Convo(messages, corrective, script[..i + 1])
         == Convo(messages, corrective, script[..i]) + [Message("assistant", script[i].reply.text), Message("user", corrective)]
  {
    assert script[..i + 1][..i] == script[..i];
  }

  lemma NoCalls<T>(c: State, t: Task<T>, script: seq<Exchange>)
    ensures After(c, t.model, script[..0]) == c
    ensures PlusAll(ZERO_USAGE, Usages(c.settings, t.model, script[..0])) == ZERO_USAGE
    ensures Convo(t.messages, t.corrective, script[..0]) == t.messages
  {
  }

  lemma RunStep(c: State, turns: seq<Turn>, i: nat)
    requires i < |turns|
    ensures Run(c, turns[i..]) == Run(Do(c, turns[i]), turns[i + 1..])
  {
    assert turns[i..][1..] == turns[i + 1..];
  }

  class LlmClient {
    const settings: Settings
    const usage: Usage
    const breaker: CB.Breaker
    // chat and embedding calls waiting for the gateway
    ghost var inFlight: nat
    ghost var embeds: nat

    ghost predicate Valid()
      reads usage
    {
      Balanced(usage.Value())
    }

    ghost function Value(): State
      reads this, usage, breaker
    {
      State(settings, breaker.config, usage.Value(), breaker.Value(), inFlight, embeds)
    }

    constructor (settings: Settings, breaker: CB.Config)
      ensures Valid() && fresh(usage) && fresh(this.breaker)
      ensures Value() == State(settings, breaker, ZERO_USAGE, CB.State(0, None), 0, 0)
    {
      this.settings := settings;
      var u := new Usage();
      var b := new CB.Breaker(breaker);
      usage, this.breaker, inFlight, embeds := u, b, 0, 0;
    }

    /** An absent or empty model means the client's own. */
    function ModelFor(model: Option<string>): (m: string)
      ensures model == None || model == Some("") ==> m == settings.model
      ensures model != None && model != Some("") ==> Some(m) == model
    {
      if model.Some? && model.value != "" then model.value else settings.model
    }

    /** So does an absent or zero limit. */
    function OutCap(maxTokens: Option<nat>): (n: nat)
      ensures maxTokens == None || maxTokens == Some(0) ==> n == settings.maxTokens
      ensures maxTokens != None && maxTokens != Some(0) ==> Some(n) == maxTokens
    {
      if maxTokens.Some? && maxTokens.value != 0 then maxTokens.value else settings.maxTokens
    }

    method Begin(model: string, promptTokens: nat, outCap: nat, now: real) returns (stopped: Option<Error>)
      modifies this`inFlight
      ensures stopped == Obstacle(old(Value()), model, promptTokens, outCap, now)
      ensures Value() == Do(old(Value()), ChatStarts(model, promptTokens, outCap, now))
    {
      var projected := EstimateCost(settings.prices, model, promptTokens, outCap, settings.allowUnpriced);
      if projected > settings.maxCostUsd {
        return Some(CostLimitExceeded);
      }
      var passes := breaker.Check(now);
      if !passes {
        return Some(CircuitOpen);
      }
      if settings.jobCostCapUsd > 0.0 && usage.costUsd >= settings.jobCostCapUsd {
        return Some(JobCostCapExceeded);
      }
      inFlight := inFlight + 1;
      return None;
    }

    method Finish(model: string, reply: Reply, now: real) returns (r: Result<string>)
      requires Valid()
      modifies this`inFlight, usage, breaker
      ensures Valid() && Value() == Do(old(Value()), ChatEnds(model, reply, now))
      ensures r ==
        if Recorded(settings, model, reply) then Ok(reply.text, CallUsage(settings, model, reply.prompt, reply.completion))
        else Err(if reply.Raised? then GatewayError else CostLimitExceeded)
      ensures usage.Value() == if r.Ok? then Plus(old(usage.Value()), r.usage) else old(usage.Value())
    {
      PlusZero(usage.Value());
      UsageIsBalanced(settings, model, reply);
      breaker.Record(OutcomeOf(reply), now);
      inFlight := Fewer(inFlight);
      if reply.Raised? {
        return Err(GatewayError);
      }
      var u := CallUsage(settings, model, reply.prompt, reply.completion);
      if u.cost > settings.maxCostUsd {
        return Err(CostLimitExceeded);
      }
      Sums.TotalMerge(usage.byModel, u.byModel);
      usage.Add(u);
      return Ok(reply.text, u);
    }

    method EmbedBegin(now: real) returns (passes: bool)
      modifies this`embeds
      ensures passes == CB.Passes(breaker.config, breaker.Value(), now)
      ensures Value() == Do(old(Value()), EmbedStarts(now))
    {
      passes := breaker.Check(now);
      if passes {
        embeds := embeds + 1;
      }
    }

    method EmbedFinish(reply: Reply, now: real)
      modifies this`embeds, breaker
      ensures Value() == Do(old(Value()), EmbedEnds(reply, now))
    {
      breaker.Record(OutcomeOf(reply), now);
      embeds := Fewer(embeds);
    }

    /** What other tasks do with this client while one of its calls waits. */
    method Others(turns: seq<Turn>)
      requires Valid()
      modifies this`inFlight, this`embeds, usage, breaker
      ensures Valid() && Value() == Run(old(Value()), turns)
    {
      hide Do, Balanced;
      var i := 0;
      while i < |turns|
        invariant 0 <= i <= |turns| && Valid()
        invariant Run(Value(), turns[i..]) == Run(old(Value()), turns)
      {
        RunStep(Value(), turns, i);
        match turns[i] {
          case ChatStarts(model, promptTokens, outCap, at) =>
            var _ := Begin(model, promptTokens, outCap, at);
          case ChatEnds(model, reply, at) =>
            var _ := Finish(model, reply, at);
          case EmbedStarts(at) =>
            var _ := EmbedBegin(at);
          case EmbedEnds(reply, at) =>
            EmbedFinish(reply, at);
        }
        i := i + 1;
      }
    }

    /** One chat completion; `called` says if the gateway was reached.  While it waits, other tasks may use the client
        in any way. */
    method Complete(messages: seq<Message>, model: Option<string>, maxTokens: Option<nat>, x: Exchange)
      returns (r: Result<string>, called: bool)
      requires Valid()
      modifies this`inFlight, this`embeds, usage, breaker
      ensures Valid()
      ensures var stop := Obstacle(old(Value()), ModelFor(model), EstimatePromptTokens(messages), OutCap(maxTokens), x.start);
        called == stop.None? && (stop.Some? ==> r == Err(stop.value) && Value() == old(Value()))
      ensures called ==> Value() == Called(old(Value()), ModelFor(model), x)
      ensures called ==>
        if Recorded(settings, ModelFor(model), x.reply) then
          r == Ok(x.reply.text, CallUsage(settings, ModelFor(model), x.reply.prompt, x.reply.completion))
        else r == Err(if x.reply.Raised? then GatewayError else CostLimitExceeded)
      ensures r.Err? ==> r.error != JsonInvalid
      // in dollars
      ensures called && x.reply.Answered? ==>
        forall price, dollars :: ChargedAt(settings, ModelFor(model), price) && IsPrice(price, x.reply.prompt, x.reply.completion, dollars) ==>
          (r.Ok? <==> dollars <= settings.maxCostUsd) && (r.Ok? ==> r.usage.cost == dollars)
    {
      if x.reply.Answered? {
        OnePrice(settings, ModelFor(model), x.reply.prompt, x.reply.completion);
      }
      hide IsPrice, ChargedAt;
      hide EstimateCost, Run, Do, Obstacle;
      var mdl := ModelFor(model);
      var stopped := Begin(mdl, EstimatePromptTokens(messages), OutCap(maxTokens), x.start);
      if stopped.Some? {
        return Err(stopped.value), false;
      }
      Others(x.meanwhile);
      r := Finish(mdl, x.reply, x.end);
      called := true;
    }

    /** Embeddings share the breaker and touch neither the cap nor the ledger. */
    method EmbedTexts(x: Exchange) returns (error: Option<Error>)
      requires Valid()
      modifies this`inFlight, this`embeds, usage, breaker
      ensures Valid()
      ensures error == Some(CircuitOpen) <==> !CB.Passes(breaker.config, old(breaker.Value()), x.start)
      ensures error == Some(GatewayError) <==> CB.Passes(breaker.config, old(breaker.Value()), x.start) && x.reply.Raised?
      ensures Value() ==
        if error == Some(CircuitOpen) then old(Value())
        else Do(Run(Do(old(Value()), EmbedStarts(x.start)), x.meanwhile), EmbedEnds(x.reply, x.end))
    {
      var passes := EmbedBegin(x.start);
      if !passes {
        return Some(CircuitOpen);
      }
      Others(x.meanwhile);
      EmbedFinish(x.reply, x.end);
      return if x.reply.Raised? then Some(GatewayError) else None;
    }

    /** The corrective-retry loop.  Besides the result it reports the conversations sent and the number of
        gateway calls. */
    method CompleteJson<T>(messages: seq<Message>, parse: string -> Option<T>, corrective: string, maxRetries: int,
                           model: Option<string>, maxTokens: Option<nat>, script: seq<Exchange>)
      returns (r: Result<T>, sent: seq<seq<Message>>, calls: nat)
      requires Valid() && maxRetries + 1 <= |script|
      modifies this`inFlight, this`embeds, usage, breaker
      ensures Valid()
      // how it ends, and how often it asks
      ensures var t := Task(messages, parse, corrective, maxRetries, ModelFor(model), OutCap(maxTokens));
        Ends(old(Value()), t, script, |sent|, calls, r)
      // what it sends
      ensures forall k :: 0 <= k < |sent| ==> sent[k] == Convo(messages, corrective, script[..k])
      // what it leaves behind
      ensures calls <= |script| && Value() == After(old(Value()), ModelFor(model), script[..calls])
    {
      hide Run, Do, Called, CallUsage, Plus, PlusAll, Usages, Convo, After, Obstacle, EstimatePromptTokens, Balanced;
      ghost var c, t := Value(), Task(messages, parse, corrective, maxRetries, ModelFor(model), OutCap(maxTokens));
      var convo := messages;
      var total := new Usage();
      sent, calls := [], 0;
      var attempt := 0;
      NoCalls(c, t, script);
      while attempt < maxRetries + 1
        invariant 0 <= attempt <= Most(t) && |sent| == calls == attempt
        invariant Valid() && fresh(total)
        invariant convo == Convo(messages, corrective, script[..attempt])
        invariant forall k :: 0 <= k < |sent| ==> sent[k] == Convo(messages, corrective, script[..k])
        invariant forall i :: 0 <= i < attempt ==> Rejected(c, t, script, i)
        invariant Value() == After(c, t.model, script[..attempt])
        invariant total.Value() == PlusAll(ZERO_USAGE, Usages(settings, t.model, script[..attempt]))
      {
        var x := script[attempt];
        var one, called := Complete(convo, model, maxTokens, x);
        sent := sent + [convo];
        OneMoreCall(c, t.model, script, attempt);
        if called {
          calls := calls + 1;
        }
        if one.Err? {
          return Err(one.error), sent, calls;
        }
        OneMoreCorrection(messages, corrective, script, attempt);
        total.Add(one.usage);
        var obj := parse(one.value);
        if obj.Some? {
          return Ok(obj.value, total.Value()), sent, calls;
        }
        convo := convo + [Message("assistant", one.value), Message("user", corrective)];
        attempt := attempt + 1;
      }
      return Err(JsonInvalid), sent, calls;
    }
  }
}
