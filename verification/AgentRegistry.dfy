/**
 The registry of agents kept in one dotenv key: load, edit, validate, save.

 JSON and the dashboard's own parser are parameters; only that parsing undoes serialising
 is ever assumed about them.
 */
module AgentRegistry {
  import opened Wrappers
  import opened Dotenv
  import opened Text

  const DASHBOARD_AGENTS_KEY := "DASHBOARD_AGENTS"

  datatype Agent = Agent(slug: string, settings: string)

  /** `registry` gives the slugs the dashboard builds from a list, or None when it rejects it. */
  datatype Codec = Codec(serialize: seq<Agent> -> string, parse: string -> Option<seq<Agent>>, registry: seq<Agent> -> Option<seq<string>>)

  /** Compact JSON: parsing gives the list back, and the text is one line starting with "[". */
  ghost predicate Invertible(c: Codec, agents: seq<Agent>) {
    var text := c.serialize(agents);
    c.parse(text) == Some(agents) && OneLine(text) && text != "" && text[0] == '['
  }

  function Remove(agents: seq<Agent>, slug: string): seq<Agent> {
    if agents == [] then [] else (if agents[0].slug != slug then [agents[0]] else []) + Remove(agents[1..], slug)
  }

  function Upsert(agents: seq<Agent>, new_: Agent): seq<Agent> {
    Remove(agents, new_.slug) + [new_]
  }

  function Slugs(agents: seq<Agent>): (s: seq<string>)
    ensures |s| == |agents| && forall i :: 0 <= i < |s| ==> s[i] == agents[i].slug
  {
    seq(|agents|, i requires 0 <= i < |agents| => agents[i].slug)
  }

  ghost predicate UniqueSlugs(agents: seq<Agent>) {
    agents == [] || (UniqueSlugs(agents[1..]) && forall a :: a in agents[1..] ==> a.slug != agents[0].slug)
  }

  lemma {:induction false} RemoveKeepsTheRest(agents: seq<Agent>, slug: string)
    ensures forall a :: a in Remove(agents, slug) <==> a in agents && a.slug != slug
  {
    if agents != [] {
      RemoveKeepsTheRest(agents[1..], slug);
      assert forall a :: a in agents <==> a == agents[0] || a in agents[1..];
    }
  }

  lemma {:induction false} RemoveIdle(agents: seq<Agent>, slug: string)
    requires forall a :: a in agents ==> a.slug != slug
    ensures Remove(agents, slug) == agents
  {
    if agents != [] {
      assert agents[0] in agents && forall a :: a in agents[1..] ==> a in agents;
      RemoveIdle(agents[1..], slug);
      assert agents == [agents[0]] + agents[1..];
    }
  }

  lemma {:induction false} UpsertKeepsUnique(agents: seq<Agent>, x: Agent)
    requires UniqueSlugs(agents)
    ensures UniqueSlugs(Upsert(agents, x))
  {
    if agents != [] {
      var tail := agents[1..];
      UpsertKeepsUnique(tail, x);
      if agents[0].slug != x.slug {
        RemoveKeepsTheRest(tail, x.slug);
        assert Upsert(agents, x) == [agents[0]] + Upsert(tail, x);
        assert Upsert(agents, x)[1..] == Upsert(tail, x);
      } else {
        assert Remove(agents, x.slug) == Remove(tail, x.slug);
      }
    }
  }

  lemma {:induction false} RemoveLast(agents: seq<Agent>, x: Agent)
    ensures Remove(agents + [x], x.slug) == Remove(agents, x.slug)
  {
    if agents == [] {
      assert agents + [x] == [x] && [x][1..] == [];
    } else {
      RemoveLast(agents[1..], x);
      assert (agents + [x])[1..] == agents[1..] + [x];
    }
  }

  /** The first |at| entries of `now` are entries of `before`, in the order they had there. */
  ghost predicate InOrder(at: seq<nat>, before: seq<Agent>, now: seq<Agent>) {
    && |at| <= |now|
    && (forall i :: 0 <= i < |at| ==> at[i] < |before| && now[i] == before[at[i]])
    && (forall i, j :: 0 <= i < j < |at| ==> at[i] < at[j])
  }

  function Shifted(at: seq<nat>): (r: seq<nat>)
    ensures |r| == |at| && forall i :: 0 <= i < |at| ==> r[i] == at[i] + 1
  {
    seq(|at|, i requires 0 <= i < |at| => at[i] + 1)
  }

  lemma Skipped(at: seq<nat>, before: seq<Agent>, now: seq<Agent>)
    requires before != [] && InOrder(at, before[1..], now) && |at| == |now|
    ensures InOrder(Shifted(at), before, now)
    ensures InOrder([0] + Shifted(at), before, [before[0]] + now)
  {
  }

  /** A removal keeps its entries in order: `at` lists their positions. */
  lemma {:induction false} RemoveKeepsOrder(agents: seq<Agent>, slug: string) returns (at: seq<nat>)
    ensures InOrder(at, agents, Remove(agents, slug)) && |at| == |Remove(agents, slug)|
  {
    at := [];
    if agents != [] {
      hide InOrder;
      at := RemoveKeepsOrder(agents[1..], slug);
      Skipped(at, agents, Remove(agents[1..], slug));
      at := if agents[0].slug != slug then [0] + Shifted(at) else Shifted(at);
      assert [] + Remove(agents[1..], slug) == Remove(agents[1..], slug);
    }
  }

  /** An upsert keeps slugs unique, puts the new entry last and leaves every other slug's entry, in the same order;
      upserting a slug again, or removing it, forgets the earlier upsert. */
  lemma UpsertLaws(agents: seq<Agent>, x: Agent, y: Agent)
    ensures UniqueSlugs(agents) ==> UniqueSlugs(Upsert(agents, x))
    ensures forall a :: a in Upsert(agents, x) <==> a == x || (a in agents && a.slug != x.slug)
    ensures exists at: seq<nat> :: InOrder(at, agents, Upsert(agents, x)) && |at| == |Upsert(agents, x)| - 1
    ensures Upsert(agents, x)[|Upsert(agents, x)| - 1] == x
    ensures y.slug == x.slug ==> Upsert(Upsert(agents, x), y) == Upsert(agents, y)
    ensures Remove(Upsert(agents, x), x.slug) == Remove(agents, x.slug)
  {
    hide Remove, UniqueSlugs;
    RemoveKeepsTheRest(agents, x.slug);
    RemoveIdle(Remove(agents, x.slug), x.slug);
    RemoveLast(Remove(agents, x.slug), x);
    var at := RemoveKeepsOrder(agents, x.slug);
    assert InOrder(at, agents, Upsert(agents, x));
    if UniqueSlugs(agents) {
      UpsertKeepsUnique(agents, x);
    }
  }

  /** The code of save_agents; None stands for the exception it raises. */
  method SaveAgents(file: File, agents: seq<Agent>, c: Codec) returns (saved: Option<File>)
    ensures saved == Saved(file, agents, c)
  {
    var payload := c.serialize(agents);
    var parsed := c.parse(payload);
    if parsed.None? {
      return None;
    }
    var registry := c.registry(parsed.value);
    if registry.None? || registry.value != Slugs(agents) {
      return None;
    }
    var written := WriteDotenvValue(file, DASHBOARD_AGENTS_KEY, payload);
    saved := Some(written);
  }

  function Saved(file: File, agents: seq<Agent>, c: Codec): Option<File> {
    var parsed := c.parse(c.serialize(agents));
    if parsed.None? || c.registry(parsed.value) != Some(Slugs(agents)) then None
    else Some(Written(file, DASHBOARD_AGENTS_KEY, c.serialize(agents)))
  }

  method LoadAgents(file: File, c: Codec, defaults: seq<Agent>) returns (agents: Option<seq<Agent>>)
    ensures agents == Loaded(file, c, defaults)
    // the defaults when no line of the file defines the key, else what its first definition parses to
    ensures (forall i :: 0 <= i < |LinesOf(file)| ==> !Defines(LinesOf(file)[i], "DASHBOARD_AGENTS")) ==> agents == Some(defaults)
    ensures forall i :: FirstDefines(LinesOf(file), i, "DASHBOARD_AGENTS") ==> agents == c.parse(ValueOf(LinesOf(file)[i]))
  {
    hide Defines, ValueOf, LinesOf;
    ReadIsFirst(LinesOf(file), DASHBOARD_AGENTS_KEY);
    var raw := ReadDotenvValue(file, DASHBOARD_AGENTS_KEY);
    agents := if raw.None? then Some(defaults) else c.parse(raw.value);
  }

  function Loaded(file: File, c: Codec, defaults: seq<Agent>): Option<seq<Agent>> {
    var raw := ReadValue(file, DASHBOARD_AGENTS_KEY);
    if raw.None? then Some(defaults) else c.parse(raw.value)
  }

  lemma KeyIsWellFormed()
    ensures WellFormed(DASHBOARD_AGENTS_KEY)
  {
    TrimmedStays(DASHBOARD_AGENTS_KEY);
  }

  /** Loading after a save gives the saved agents, and no other key of the file has changed; a save
      happens exactly when the dashboard builds the same slugs from the list. */
  lemma LoadAfterSave(file: File, agents: seq<Agent>, c: Codec, defaults: seq<Agent>, other: string)
    requires Invertible(c, agents)
    ensures Saved(file, agents, c).Some? <==> c.registry(agents) == Some(Slugs(agents))
    ensures Saved(file, agents, c).Some? ==>
      && Loaded(Saved(file, agents, c).value, c, defaults) == Some(agents)
      && (other != "DASHBOARD_AGENTS" ==> ReadValue(Saved(file, agents, c).value, other) == ReadValue(file, other))
  {
    hide ReadLines, LinesOf, Written, WellFormed;
    KeyIsWellFormed();
    RoundTripExactly(file, DASHBOARD_AGENTS_KEY, c.serialize(agents));
    if other != DASHBOARD_AGENTS_KEY {
      OtherKeysUntouched(file, DASHBOARD_AGENTS_KEY, c.serialize(agents), other);
    }
  }
}
