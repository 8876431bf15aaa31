/** Layered policies of the agent memory
    (`agent_service/internal/session/memory/policy.go`). */
module MemoryPolicy {
  import opened Options
  import opened Text
  import opened MemoryKeys

  /** An override: `None` and non-positive numbers inherit. */
  datatype Policy = Policy(longTerm: Option<bool>, write: Option<bool>, recall: Option<bool>,
                           recentWindow: int, summaryWindow: int, recallLimit: int, tokenBudget: int)

  datatype Effective = Effective(longTerm: bool, write: bool, recall: bool,
                                 recentWindow: int, summaryWindow: int, recallLimit: int, tokenBudget: int)

  /** The configured defaults have the same fields as a resolved policy. */
  type Config = Effective

  const DefaultConfig := Effective(false, false, false, 6, 12, 5, 1200)

  function PositiveOrDefault(value: int, fallback: int): int {
    if value > 0 then value else fallback
  }

  type Policies = map<string, Policy>

  /** The levels consulted for a scope, widest first. */
  function Levels(s: Scope): seq<Level> {
    var n := Normalized(s);
    [Global]
    + (if n.tenant != "" then [Tenant] else [])
    + (if n.tenant != "" && n.team != "" then [Team] else [])
    + (if n.tenant != "" && n.team != "" && n.cluster != "" then [Cluster] else [])
  }

  /** The overrides found at those levels, widest first. */
  function Found(policies: Policies, s: Scope, levels: seq<Level>): seq<Policy> {
    if levels == [] then []
    else
      var key := PolicyKey(levels[0], s);
      (if key in policies then [policies[key]] else []) + Found(policies, s, levels[1..])
  }

  /** The value of the last override that sets the field, that is of the most specific level. */
  function MostSpecific<T>(found: seq<Policy>, field: Policy -> Option<T>, fallback: T): T {
    if found == [] then fallback
    else
      var last := field(found[|found| - 1]);
      if last.Some? then last.value else MostSpecific(found[..|found| - 1], field, fallback)
  }

  function Positive(n: int): Option<int> { if n > 0 then Some(n) else None }

  function LongTermOf(): Policy -> Option<bool> { (p: Policy) => p.longTerm }
  function WriteOf(): Policy -> Option<bool> { (p: Policy) => p.write }
  function RecallOf(): Policy -> Option<bool> { (p: Policy) => p.recall }
  function RecentOf(): Policy -> Option<int> { (p: Policy) => Positive(p.recentWindow) }
  function SummaryOf(): Policy -> Option<int> { (p: Policy) => Positive(p.summaryWindow) }
  function LimitOf(): Policy -> Option<int> { (p: Policy) => Positive(p.recallLimit) }
  function BudgetOf(): Policy -> Option<int> { (p: Policy) => Positive(p.tokenBudget) }

  /** The policy in force, field by field: most specific setting, else configured, else default. */
  function Chosen(cfg: Config, found: seq<Policy>): Effective {
    Effective(
      MostSpecific(found, LongTermOf(), cfg.longTerm),
      MostSpecific(found, WriteOf(), cfg.write),
      MostSpecific(found, RecallOf(), cfg.recall),
      MostSpecific(found, RecentOf(), PositiveOrDefault(cfg.recentWindow, DefaultConfig.recentWindow)),
      MostSpecific(found, SummaryOf(), PositiveOrDefault(cfg.summaryWindow, DefaultConfig.summaryWindow)),
      MostSpecific(found, LimitOf(), PositiveOrDefault(cfg.recallLimit, DefaultConfig.recallLimit)),
      MostSpecific(found, BudgetOf(), PositiveOrDefault(cfg.tokenBudget, DefaultConfig.tokenBudget)))
  }

  function Resolve(policies: Policies, cfg: Config, s: Scope): Effective {
    Chosen(cfg, Found(policies, s, Levels(s)))
  }

  /** `applyPolicy`: overwrites the fields the override sets, so that it becomes the most specific
      of the overrides in force. */
  method ApplyPolicy(before: Effective, policy: Policy, ghost cfg: Config, ghost found: seq<Policy>)
    returns (after: Effective)
    requires before == Chosen(cfg, found)
    ensures after == Chosen(cfg, found + [policy])
  {
    var longTerm, write, recall := before.longTerm, before.write, before.recall;
    var recent, summary := before.recentWindow, before.summaryWindow;
    var limit, budget := before.recallLimit, before.tokenBudget;
    if policy.longTerm.Some? { longTerm := policy.longTerm.value; }
    if policy.write.Some? { write := policy.write.value; }
    if policy.recall.Some? { recall := policy.recall.value; }
    if policy.recentWindow > 0 { recent := policy.recentWindow; }
    if policy.summaryWindow > 0 { summary := policy.summaryWindow; }
    if policy.recallLimit > 0 { limit := policy.recallLimit; }
    if policy.tokenBudget > 0 { budget := policy.tokenBudget; }
    after := Effective(longTerm, write, recall, recent, summary, limit, budget);
    ChosenSnoc(cfg, found, policy);
  }

  function Or<T>(choice: Option<T>, otherwise: T): T {
    if choice.Some? then choice.value else otherwise
  }

  lemma ChosenSnoc(cfg: Config, found: seq<Policy>, p: Policy)
    ensures var e := Chosen(cfg, found);
            Chosen(cfg, found + [p]) ==
            Effective(Or(p.longTerm, e.longTerm), Or(p.write, e.write), Or(p.recall, e.recall),
                      PositiveOrDefault(p.recentWindow, e.recentWindow),
                      PositiveOrDefault(p.summaryWindow, e.summaryWindow),
                      PositiveOrDefault(p.recallLimit, e.recallLimit),
                      PositiveOrDefault(p.tokenBudget, e.tokenBudget))
  {
    hide MostSpecific;
    MostSpecificSnoc(found, LongTermOf(), cfg.longTerm, p);
    MostSpecificSnoc(found, WriteOf(), cfg.write, p);
    MostSpecificSnoc(found, RecallOf(), cfg.recall, p);
    MostSpecificSnoc(found, RecentOf(), PositiveOrDefault(cfg.recentWindow, DefaultConfig.recentWindow), p);
    MostSpecificSnoc(found, SummaryOf(), PositiveOrDefault(cfg.summaryWindow, DefaultConfig.summaryWindow), p);
    MostSpecificSnoc(found, LimitOf(), PositiveOrDefault(cfg.recallLimit, DefaultConfig.recallLimit), p);
    MostSpecificSnoc(found, BudgetOf(), PositiveOrDefault(cfg.tokenBudget, DefaultConfig.tokenBudget), p);
  }

  lemma MostSpecificSnoc<T>(found: seq<Policy>, field: Policy -> Option<T>, fallback: T, p: Policy)
    ensures MostSpecific(found + [p], field, fallback) ==
            if field(p).Some? then field(p).value else MostSpecific(found, field, fallback)
  {
    assert (found + [p])[..|found|] == found;
  }

  lemma ChosenNone(cfg: Config)
    ensures Chosen(cfg, []) ==
            Effective(cfg.longTerm, cfg.write, cfg.recall,
                      PositiveOrDefault(cfg.recentWindow, DefaultConfig.recentWindow),
                      PositiveOrDefault(cfg.summaryWindow, DefaultConfig.summaryWindow),
                      PositiveOrDefault(cfg.recallLimit, DefaultConfig.recallLimit),
                      PositiveOrDefault(cfg.tokenBudget, DefaultConfig.tokenBudget))
  {
  }

  /** `ResolvePolicy`: starts from the configuration and applies the levels from wide to narrow. */
  method ResolvePolicy(policies: Policies, cfg: Config, s: Scope) returns (effective: Effective)
    ensures effective == Resolve(policies, cfg, s)
  {
    effective := Effective(cfg.longTerm, cfg.write, cfg.recall,
                           PositiveOrDefault(cfg.recentWindow, DefaultConfig.recentWindow),
                           PositiveOrDefault(cfg.summaryWindow, DefaultConfig.summaryWindow),
                           PositiveOrDefault(cfg.recallLimit, DefaultConfig.recallLimit),
                           PositiveOrDefault(cfg.tokenBudget, DefaultConfig.tokenBudget));
    var levels := Levels(s);
    ghost var found: seq<Policy> := [];
    ChosenNone(cfg);
    hide Chosen;
    hide PolicyKey;
    hide Levels;
    var i := 0;
    while i < |levels|
      invariant 0 <= i <= |levels|
      invariant effective == Chosen(cfg, found)
      invariant found + Found(policies, s, levels[i..]) == Found(policies, s, levels)
    {
      var key := PolicyKey(levels[i], s);
      assert levels[i..][0] == levels[i] && levels[i..][1..] == levels[i + 1..];
      if key in policies {
        effective := ApplyPolicy(effective, policies[key], cfg, found);
        found := found + [policies[key]];
      }
      i := i + 1;
    }
    assert levels[|levels|..] == [] && found == Found(policies, s, levels);
  }

  // ------------------------------------------------------------- main results

  /** The most specific consulted level that sets a field decides it: no later level sets it. */
  lemma {:induction false} MostSpecificWins<T>(found: seq<Policy>, field: Policy -> Option<T>, fallback: T)
    ensures var v := MostSpecific(found, field, fallback);
            ((forall p | p in found :: field(p).None?) && v == fallback) ||
            exists i | 0 <= i < |found| :: field(found[i]) == Some(v) &&
                                           forall j | i < j < |found| :: field(found[j]).None?
  {
    if found != [] {
      var n := |found| - 1;
      var init := found[..n];
      assert found == init + [found[n]];
      if field(found[n]).None? {
        MostSpecificWins(init, field, fallback);
        if i :| 0 <= i < |init| && field(init[i]) == Some(MostSpecific(init, field, fallback)) &&
                forall j | i < j < |init| :: field(init[j]).None?
        {
          assert field(found[i]) == Some(MostSpecific(found, field, fallback));
        }
      } else {
        assert field(found[n]) == Some(MostSpecific(found, field, fallback));
      }
    }
  }

  lemma {:induction false} MostSpecificPositive(found: seq<Policy>, field: Policy -> Option<int>, fallback: int)
    requires fallback > 0 && forall p | p in found :: field(p).Some? ==> field(p).value > 0
    ensures MostSpecific(found, field, fallback) > 0
  {
    if found != [] {
      assert found[|found| - 1] in found;
      MostSpecificPositive(found[..|found| - 1], field, fallback);
    }
  }

  /** Whatever was configured and found, every window, limit and budget in force is positive. */
  lemma ChosenIsPositive(cfg: Config, found: seq<Policy>)
    ensures var e := Chosen(cfg, found);
            e.recentWindow > 0 && e.summaryWindow > 0 && e.recallLimit > 0 && e.tokenBudget > 0
  {
    MostSpecificPositive(found, RecentOf(), PositiveOrDefault(cfg.recentWindow, DefaultConfig.recentWindow));
    MostSpecificPositive(found, SummaryOf(), PositiveOrDefault(cfg.summaryWindow, DefaultConfig.summaryWindow));
    MostSpecificPositive(found, LimitOf(), PositiveOrDefault(cfg.recallLimit, DefaultConfig.recallLimit));
    MostSpecificPositive(found, BudgetOf(), PositiveOrDefault(cfg.tokenBudget, DefaultConfig.tokenBudget));
  }

  lemma WindowsArePositive(policies: Policies, cfg: Config, s: Scope)
    ensures var e := Resolve(policies, cfg, s);
            e.recentWindow > 0 && e.summaryWindow > 0 && e.recallLimit > 0 && e.tokenBudget > 0
  {
    hide Chosen;
    ChosenIsPositive(cfg, Found(policies, s, Levels(s)));
  }

  /** The key written by a valid `SetPolicy` is consulted for `s`. */
  predicate Consulted(s: Scope, level: Level, at: Scope) {
    exists l | l in Levels(s) :: PolicyKey(l, s) == PolicyKey(level, at)
  }

  /** It is, exactly when `s` has all identifiers of the level and they join to the same text. */
  lemma ConsultedIffSameText(level: Level, at: Scope, s: Scope)
    requires ValidPolicyScope(level, at)
    ensures Consulted(s, level, at) <==>
            StoredLevel(level) in Levels(s) &&
            Join(PolicyIds(level, s), "/") == Join(PolicyIds(level, at), "/")
  {
    hide Clean;
    hide PolicyKey;
    hide Join;
    forall l | l in Levels(s)
      ensures PolicyKey(l, s) == PolicyKey(level, at) <==>
              StoredLevel(level) == l && Join(PolicyIds(level, s), "/") == Join(PolicyIds(level, at), "/")
    {
      SameKeyIff(l, s, level, at);
    }
  }

  lemma UnderHasLevel(s: Scope, level: Level, at: Scope)
    requires ValidPolicyScope(level, at) && Under(s, level, at)
    ensures StoredLevel(level) in Levels(s)
  {
    hide Clean;
  }

  lemma LevelsAreValid(s: Scope, level: Level)
    requires StoredLevel(level) in Levels(s)
    ensures ValidPolicyScope(level, s)
  {
    hide Clean;
  }

  /** A stored policy is consulted for exactly the scopes under the place it was set at, if and only if
      its key is unambiguous; global and tenant policies always are. */
  lemma ConsultedIffUnder(level: Level, at: Scope)
    requires ValidPolicyScope(level, at)
    ensures (forall s :: Consulted(s, level, at) <==> Under(s, level, at)) <==> Unambiguous(level, at)
  {
    hide Clean;
    hide PolicyKey;
    hide Levels;
    hide Consulted;
    hide Under;
    hide Unambiguous;
    hide ValidPolicyScope;
    if Unambiguous(level, at) {
      forall s ensures Consulted(s, level, at) <==> Under(s, level, at) { ConsultedWhenUnambiguous(level, at, s); }
    } else {
      var s := OtherOwner(level, at);
      SharedIsConsulted(level, at, s);
    }
  }

  lemma ConsultedWhenUnambiguous(level: Level, at: Scope, s: Scope)
    requires ValidPolicyScope(level, at) && Unambiguous(level, at)
    ensures Consulted(s, level, at) <==> Under(s, level, at)
  {
    hide Clean;
    hide PolicyKey;
    hide Levels;
    hide Consulted;
    hide Unambiguous;
    ConsultedIffSameText(level, at, s);
    UnderIsSameIds(s, level, at);
    if Under(s, level, at) { UnderHasLevel(s, level, at); }
    if Consulted(s, level, at) {
      LevelsAreValid(s, level);
      SameKeyIff(level, s, level, at);
      PolicyKeyIsOwnIff(level, at);
    }
  }

  lemma SharedIsConsulted(level: Level, at: Scope, s: Scope)
    requires ValidPolicyScope(level, at) && ValidPolicyScope(level, s) && PolicyKey(level, s) == PolicyKey(level, at)
    ensures Consulted(s, level, at)
  {
    hide Clean;
    assert StoredLevel(level) in Levels(s);
    assert PolicyKey(StoredLevel(level), s) == PolicyKey(level, s);
  }

  lemma {:induction false} FoundUnchanged(policies: Policies, key: string, p: Policy, s: Scope, levels: seq<Level>)
    requires forall l | l in levels :: PolicyKey(l, s) != key
    ensures Found(policies[key := p], s, levels) == Found(policies, s, levels)
  {
    hide PolicyKey;
    if levels != [] {
      assert levels[0] in levels;
      FoundUnchanged(policies, key, p, s, levels[1..]);
    }
  }

  /** In a store without policies the one that was set is all that is found, as often as its key is
      consulted. */
  lemma {:induction false} FoundAlone(key: string, p: Policy, s: Scope, levels: seq<Level>)
    ensures forall q | q in Found(map[key := p], s, levels) :: q == p
    ensures (exists l | l in levels :: PolicyKey(l, s) == key) ==> Found(map[key := p], s, levels) != []
  {
    hide PolicyKey;
    if levels != [] {
      assert levels == [levels[0]] + levels[1..];
      FoundAlone(key, p, s, levels[1..]);
    }
  }

  /** An override of one switch. */
  function Switch(on: bool): Policy { Policy(Some(on), None, None, 0, 0, 0, 0) }

  lemma ConsultedMatters(cfg: Config, level: Level, at: Scope, s: Scope)
    requires Consulted(s, level, at)
    ensures var policies := map[PolicyKey(level, at) := Switch(!cfg.longTerm)];
            Resolve(policies, cfg, s).longTerm != Resolve(map[], cfg, s).longTerm
  {
    hide PolicyKey;
    hide Levels;
    var key, p := PolicyKey(level, at), Switch(!cfg.longTerm);
    var found := Found(map[key := p], s, Levels(s));
    FoundAlone(key, p, s, Levels(s));
    assert found[|found| - 1] in found;
    FoundNothing(s, Levels(s));
  }

  lemma {:induction false} FoundNothing(s: Scope, levels: seq<Level>)
    ensures Found(map[], s, levels) == []
  {
    hide PolicyKey;
    if levels != [] { FoundNothing(s, levels[1..]); }
  }

  /** Setting `p` at `level` and `at` makes no difference to `s`. */
  predicate Untouched(policies: Policies, cfg: Config, level: Level, at: Scope, p: Policy, s: Scope) {
    Resolve(policies[PolicyKey(level, at) := p], cfg, s) == Resolve(policies, cfg, s)
  }

  /** Setting a policy leaves the resolution of every scope outside its part of the hierarchy as it was,
      in every store and configuration, if and only if its key is unambiguous. */
  lemma SetPolicyIsLocalIff(level: Level, at: Scope)
    requires ValidPolicyScope(level, at)
    ensures (forall policies, cfg, p, s | !Under(s, level, at) :: Untouched(policies, cfg, level, at, p, s))
            <==> Unambiguous(level, at)
  {
    hide Clean;
    hide PolicyKey;
    hide Levels;
    hide Under;
    hide Unambiguous;
    hide ValidPolicyScope;
    hide Chosen;
    if Unambiguous(level, at) {
      forall policies, cfg, p, s | !Under(s, level, at) ensures Untouched(policies, cfg, level, at, p, s) {
        ConsultedWhenUnambiguous(level, at, s);
        FoundUnchanged(policies, PolicyKey(level, at), p, s, Levels(s));
      }
    } else {
      var s := OtherOwner(level, at);
      SharedIsConsulted(level, at, s);
      hide Resolve;
      ConsultedMatters(DefaultConfig, level, at, s);
      assert !Untouched(map[], DefaultConfig, level, at, Switch(true), s) by {
        assert map[][PolicyKey(level, at) := Switch(true)] == map[PolicyKey(level, at) := Switch(true)];
      }
    }
  }

  // ---------------------------------------------------------- in the source's words

  /** An override that sets nothing. */
  const NOTHING := Policy(None, None, None, 0, 0, 0, 0)

  /** What is stored under `key`, if it is consulted. */
  function At(policies: Policies, consulted: bool, key: string): Policy {
    if consulted && key in policies then policies[key] else NOTHING
  }

  /** The global, tenant, team and cluster policy that a scope is under. */
  datatype Layers = Layers(global: Policy, tenant: Policy, team: Policy, cluster: Policy)

  function LayersOf(policies: Policies, s: Scope): Layers {
    var tenant, team, cluster := Trim(GoSpace, s.tenant), Trim(GoSpace, s.team), Trim(GoSpace, s.cluster);
    Layers(At(policies, true, "global"),
           At(policies, tenant != "", "tenant" + "/" + tenant),
           At(policies, tenant != "" && team != "", "team" + "/" + (tenant + "/" + team)),
           At(policies, tenant != "" && team != "" && cluster != "",
              "cluster" + "/" + (tenant + "/" + (team + "/" + cluster))))
  }

  /** The value of the narrowest layer that sets the field. */
  function Narrowest<T>(cluster: Option<T>, team: Option<T>, tenant: Option<T>, global: Option<T>, fallback: T): T {
    if cluster.Some? then cluster.value
    else if team.Some? then team.value
    else if tenant.Some? then tenant.value
    else if global.Some? then global.value
    else fallback
  }

  /** The same for numbers, which are set when they are positive. */
  function NarrowestPositive(cluster: int, team: int, tenant: int, global: int, configured: int, default: int): int {
    if cluster > 0 then cluster
    else if team > 0 then team
    else if tenant > 0 then tenant
    else if global > 0 then global
    else if configured > 0 then configured
    else default
  }

  lemma FoundFour<T>(policies: Policies, s: Scope, field: Policy -> Option<T>, fallback: T)
    requires field(NOTHING).None?
    ensures var l := LayersOf(policies, s);
            MostSpecific(Found(policies, s, Levels(s)), field, fallback) ==
            Narrowest(field(l.cluster), field(l.team), field(l.tenant), field(l.global), fallback)
  {
    KeysAsText(s, "");
    hide PolicyKey;
    hide Trim;
    hide Found;
    var n := Normalized(s);
    FoundOne(policies, s, [], Global, field, fallback);
    FoundNone(policies, s);
    assert [] + [Global] == [Global];
    if n.tenant != "" {
      FoundOne(policies, s, [Global], Tenant, field, fallback);
      assert [Global] + [Tenant] == [Global, Tenant];
      if n.team != "" {
        FoundOne(policies, s, [Global, Tenant], Team, field, fallback);
        assert [Global, Tenant] + [Team] == [Global, Tenant, Team];
        if n.cluster != "" {
          FoundOne(policies, s, [Global, Tenant, Team], Cluster, field, fallback);
          assert Levels(s) == [Global, Tenant, Team] + [Cluster];
        } else {
          assert Levels(s) == [Global, Tenant, Team];
        }
      } else {
        assert Levels(s) == [Global, Tenant];
      }
    } else {
      assert Levels(s) == [Global];
    }
  }

  lemma FoundNone(policies: Policies, s: Scope)
    ensures Found(policies, s, []) == []
  {
  }

  /** One more level, narrower than those before it, decides the field if its policy sets it. */
  lemma FoundOne<T>(policies: Policies, s: Scope, wider: seq<Level>, level: Level, field: Policy -> Option<T>,
                    fallback: T)
    ensures var key := PolicyKey(level, s);
            MostSpecific(Found(policies, s, wider + [level]), field, fallback) ==
            if key in policies && field(policies[key]).Some? then field(policies[key]).value
            else MostSpecific(Found(policies, s, wider), field, fallback)
  {
    hide PolicyKey;
    FoundAppend(policies, s, wider, level);
    var key, found := PolicyKey(level, s), Found(policies, s, wider);
    if key in policies { MostSpecificSnoc(found, field, fallback, policies[key]); }
    assert found + [] == found;
  }

  lemma {:induction false} FoundAppend(policies: Policies, s: Scope, wider: seq<Level>, level: Level)
    ensures var key := PolicyKey(level, s);
            Found(policies, s, wider + [level]) ==
            Found(policies, s, wider) + if key in policies then [policies[key]] else []
  {
    hide PolicyKey;
    if wider == [] {
      assert wider + [level] == [level] && [level][1..] == [];
    } else {
      assert (wider + [level])[1..] == wider[1..] + [level];
      FoundAppend(policies, s, wider[1..], level);
    }
  }

  /** For every store, configuration and scope, field by field: the resolved value is that of the cluster
      policy if the scope has all three identifiers and that policy sets the field, else of the team
      policy, else of the tenant policy, else of the global policy, else the configured value, and for a
      window, limit or budget that is not positive the default. */
  lemma ResolutionIsLayered(policies: Policies, cfg: Config, s: Scope)
    ensures var e, l := Resolve(policies, cfg, s), LayersOf(policies, s);
            var (c, m, t, g) := (l.cluster, l.team, l.tenant, l.global);
            e == Effective(
              Narrowest(c.longTerm, m.longTerm, t.longTerm, g.longTerm, cfg.longTerm),
              Narrowest(c.write, m.write, t.write, g.write, cfg.write),
              Narrowest(c.recall, m.recall, t.recall, g.recall, cfg.recall),
              NarrowestPositive(c.recentWindow, m.recentWindow, t.recentWindow, g.recentWindow, cfg.recentWindow, 6),
              NarrowestPositive(c.summaryWindow, m.summaryWindow, t.summaryWindow, g.summaryWindow,
                                cfg.summaryWindow, 12),
              NarrowestPositive(c.recallLimit, m.recallLimit, t.recallLimit, g.recallLimit, cfg.recallLimit, 5),
              NarrowestPositive(c.tokenBudget, m.tokenBudget, t.tokenBudget, g.tokenBudget, cfg.tokenBudget, 1200))
  {
    hide Found;
    hide Levels;
    hide MostSpecific;
    hide LayersOf;
    FoundFour(policies, s, LongTermOf(), cfg.longTerm);
    FoundFour(policies, s, WriteOf(), cfg.write);
    FoundFour(policies, s, RecallOf(), cfg.recall);
    FoundFour(policies, s, RecentOf(), PositiveOrDefault(cfg.recentWindow, DefaultConfig.recentWindow));
    FoundFour(policies, s, SummaryOf(), PositiveOrDefault(cfg.summaryWindow, DefaultConfig.summaryWindow));
    FoundFour(policies, s, LimitOf(), PositiveOrDefault(cfg.recallLimit, DefaultConfig.recallLimit));
    FoundFour(policies, s, BudgetOf(), PositiveOrDefault(cfg.tokenBudget, DefaultConfig.tokenBudget));
  }
}
