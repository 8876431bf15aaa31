/** Scopes of the agent memory and the keys its store is addressed by
    (`agent_service/internal/session/memory/types.go`). */
module MemoryKeys {
  import opened Text

  datatype Scope = Scope(tenant: string, team: string, cluster: string, user: string, session: string)

  /** The policy levels; a level string outside the four known ones is `Other`. */
  datatype Level = Global | Tenant | Team | Cluster | Other(name: string)

  function Clean(s: string): string { Trim(GoSpace, s) }

  function Normalized(s: Scope): Scope {
    Scope(Clean(s.tenant), Clean(s.team), Clean(s.cluster), Clean(s.user), Clean(s.session))
  }

  predicate ValidMemoryScope(s: Scope) {
    var n := Normalized(s);
    n.tenant != "" && n.team != ""
  }

  predicate ValidSessionScope(s: Scope) {
    ValidMemoryScope(s) && Normalized(s).session != ""
  }

  predicate ValidPolicyScope(level: Level, s: Scope) {
    match level
    case Global => true
    case Tenant => Normalized(s).tenant != ""
    case Team => ValidMemoryScope(s)
    case Cluster => ValidMemoryScope(s) && Normalized(s).cluster != ""
    case Other(_) => true
  }

  // --------------------------------------------------------------------- keys

  function LevelName(level: Level): string {
    match level
    case Global => "global"
    case Tenant => "tenant"
    case Team => "team"
    case Cluster => "cluster"
    case Other(_) => "global"
  }

  /** The identifiers a policy key is made of. */
  function PolicyIds(level: Level, s: Scope): seq<string> {
    var n := Normalized(s);
    match level
    case Global => []
    case Tenant => [n.tenant]
    case Team => [n.tenant, n.team]
    case Cluster => [n.tenant, n.team, n.cluster]
    case Other(_) => []
  }

  function PolicyKey(level: Level, s: Scope): string {
    Join([LevelName(level)] + PolicyIds(level, s), "/")
  }

  function SessionIds(s: Scope): seq<string> {
    var n := Normalized(s);
    [n.tenant, n.team, n.cluster, n.user, n.session]
  }

  function SessionKey(s: Scope): string {
    Join(SessionIds(s), "/")
  }

  /** A string that can stand as an identifier after trimming; some may be empty. */
  predicate Fits(part: string, optional: bool) {
    Trimmed(GoSpace, part) && (optional || part != "")
  }

  /** All ways to cut `text` at slashes into identifiers, one for each element of `shape`. */
  function Readings(text: string, shape: seq<bool>): set<seq<string>>
    requires shape != []
    decreases |shape|
  {
    if |shape| == 1 then if Fits(text, shape[0]) then {[text]} else {}
    else set i, rest | 0 <= i < |text| && text[i] == '/' && Fits(text[..i], shape[0]) &&
                       rest in Readings(text[i + 1..], shape[1..]) :: [text[..i]] + rest
  }

  predicate FitAll(parts: seq<string>, shape: seq<bool>) {
    |parts| == |shape| && forall i | 0 <= i < |parts| :: Fits(parts[i], shape[i])
  }

  lemma {:induction false} ReadingIsCut(text: string, shape: seq<bool>, parts: seq<string>)
    requires shape != [] && parts in Readings(text, shape)
    ensures FitAll(parts, shape) && Join(parts, "/") == text
    decreases |shape|
  {
    hide Fits;
    if |shape| > 1 {
      var i, rest :| 0 <= i < |text| && text[i] == '/' && Fits(text[..i], shape[0]) &&
                     rest in Readings(text[i + 1..], shape[1..]) && parts == [text[..i]] + rest;
      hide Readings;
      hide Join;
      ReadingIsCut(text[i + 1..], shape[1..], rest);
      JoinCut(text, i, rest);
    }
  }

  lemma JoinCut(text: string, i: nat, rest: seq<string>)
    requires i < |text| && text[i] == '/' && rest != [] && Join(rest, "/") == text[i + 1..]
    ensures Join([text[..i]] + rest, "/") == text
  {
    JoinCons(text[..i], rest);
    hide Join;
    assert text == text[..i] + "/" + text[i + 1..];
  }

  lemma {:induction false} CutIsReading(shape: seq<bool>, parts: seq<string>)
    requires shape != [] && FitAll(parts, shape)
    ensures parts in Readings(Join(parts, "/"), shape)
    decreases |shape|
  {
    hide Fits;
    var text := Join(parts, "/");
    if |shape| == 1 {
      assert parts == [parts[0]];
    } else {
      var i, rest := |parts[0]|, parts[1..];
      CutIsReading(shape[1..], rest);
      assert text == parts[0] + "/" + Join(rest, "/");
      hide Join;
      assert text[..i] == parts[0] && text[i] == '/' && text[i + 1..] == Join(rest, "/");
      assert parts == [text[..i]] + rest;
    }
  }

  /** The readings of a text are exactly the lists of fitting identifiers that join to it. */
  lemma ReadingsAreCuts(text: string, shape: seq<bool>, parts: seq<string>)
    requires shape != []
    ensures parts in Readings(text, shape) <==> FitAll(parts, shape) && Join(parts, "/") == text
  {
    hide Readings;
    hide Join;
    hide FitAll;
    if parts in Readings(text, shape) { ReadingIsCut(text, shape, parts); }
    if FitAll(parts, shape) { CutIsReading(shape, parts); }
  }

  lemma JoinCons(head: string, tail: seq<string>)
    ensures Join([head] + tail, "/") == if tail == [] then head else head + "/" + Join(tail, "/")
  {
    assert ([head] + tail)[1..] == tail;
  }

  lemma CleanIsTrimmed(s: string)
    ensures Trimmed(GoSpace, Clean(s)) && (Trimmed(GoSpace, s) ==> Clean(s) == s)
  {
    TrimIsTrimmed(GoSpace, s);
  }

  lemma NormalizedIsTrimmed(s: Scope)
    ensures var n := Normalized(s);
            Trimmed(GoSpace, n.tenant) && Trimmed(GoSpace, n.team) && Trimmed(GoSpace, n.cluster) &&
            Trimmed(GoSpace, n.user) && Trimmed(GoSpace, n.session)
    ensures (Trimmed(GoSpace, s.tenant) && Trimmed(GoSpace, s.team) && Trimmed(GoSpace, s.cluster) &&
             Trimmed(GoSpace, s.user) && Trimmed(GoSpace, s.session)) ==> Normalized(s) == s
  {
    hide Clean;
    hide Trimmed;
    CleanIsTrimmed(s.tenant);
    CleanIsTrimmed(s.team);
    CleanIsTrimmed(s.cluster);
    CleanIsTrimmed(s.user);
    CleanIsTrimmed(s.session);
  }

  /** Which identifiers of a session may be empty. */
  const SESSION_SHAPE := [false, false, true, true, false]

  /** The scope whose session identifiers are `ids`. */
  function SessionScopeOf(ids: seq<string>): Scope
    requires |ids| == 5
  {
    Scope(ids[0], ids[1], ids[2], ids[3], ids[4])
  }

  lemma SessionReading(s: Scope)
    requires ValidSessionScope(s)
    ensures SessionIds(s) in Readings(SessionKey(s), SESSION_SHAPE)
  {
    hide Clean;
    hide Trimmed;
    NormalizedIsTrimmed(s);
    ReadingsAreCuts(SessionKey(s), SESSION_SHAPE, SessionIds(s));
  }

  lemma ReadingIsSession(ids: seq<string>)
    requires FitAll(ids, SESSION_SHAPE)
    ensures ValidSessionScope(SessionScopeOf(ids)) && SessionIds(SessionScopeOf(ids)) == ids
  {
    assert Fits(ids[0], false) && Fits(ids[1], false) && Fits(ids[2], true) && Fits(ids[3], true);
    assert Fits(ids[4], false);
    hide Clean;
    hide Trimmed;
    NormalizedIsTrimmed(SessionScopeOf(ids));
  }

  /** A valid scope has its session to itself exactly when its key can be cut at slashes into the five
      identifiers of a valid session in only one way. */
  lemma SessionKeyIsOwnIff(at: Scope)
    requires ValidSessionScope(at)
    ensures (forall s | ValidSessionScope(s) && SessionKey(s) == SessionKey(at) :: Normalized(s) == Normalized(at))
            <==> Readings(SessionKey(at), SESSION_SHAPE) == {SessionIds(at)}
  {
    hide Readings;
    hide ValidSessionScope;
    hide SessionKey;
    hide SessionIds;
    hide Normalized;
    var readings := Readings(SessionKey(at), SESSION_SHAPE);
    SessionReading(at);
    if readings == {SessionIds(at)} {
      forall s | ValidSessionScope(s) && SessionKey(s) == SessionKey(at) ensures Normalized(s) == Normalized(at) {
        SessionReading(s);
        SameSessionIds(s, at);
      }
    } else {
      var ids :| ids in readings && ids != SessionIds(at);
      var s := OtherSession(SessionKey(at), ids);
      SameSessionIds(s, at);
    }
  }

  lemma OtherSession(key: string, ids: seq<string>) returns (s: Scope)
    requires ids in Readings(key, SESSION_SHAPE)
    ensures ValidSessionScope(s) && SessionIds(s) == ids && SessionKey(s) == key
  {
    hide Readings;
    hide ValidSessionScope;
    hide SessionIds;
    ReadingsAreCuts(key, SESSION_SHAPE, ids);
    hide Join;
    ReadingIsSession(ids);
    s := SessionScopeOf(ids);
  }

  lemma SameSessionIds(s: Scope, t: Scope)
    ensures SessionIds(s) == SessionIds(t) <==> Normalized(s) == Normalized(t)
  {
    hide Clean;
    var a, b := SessionIds(s), SessionIds(t);
    if a == b {
      assert a[0] == b[0] && a[1] == b[1] && a[2] == b[2] && a[3] == b[3] && a[4] == b[4];
    }
  }

  /** The level whose key a policy set at `level` is stored under. */
  function StoredLevel(level: Level): Level {
    if level.Other? then Global else level
  }

  /** `s` lies under the part of the hierarchy that `level` and `at` name. */
  predicate Under(s: Scope, level: Level, at: Scope) {
    var n, m := Normalized(s), Normalized(at);
    match level
    case Global => true
    case Tenant => n.tenant == m.tenant
    case Team => n.tenant == m.tenant && n.team == m.team
    case Cluster => n.tenant == m.tenant && n.team == m.team && n.cluster == m.cluster
    case Other(_) => true
  }

  lemma UnderIsSameIds(s: Scope, level: Level, at: Scope)
    ensures Under(s, level, at) <==> PolicyIds(level, s) == PolicyIds(level, at)
  {
    hide Clean;
    var a, b := PolicyIds(level, s), PolicyIds(level, at);
    if a == b {
      if |a| > 0 { assert a[0] == b[0]; }
      if |a| > 1 { assert a[1] == b[1]; }
      if |a| > 2 { assert a[2] == b[2]; }
    }
  }

  lemma PolicyKeyText(level: Level, s: Scope)
    ensures var ids := PolicyIds(level, s);
            PolicyKey(level, s) == if ids == [] then LevelName(level) else LevelName(level) + "/" + Join(ids, "/")
  {
    var ids := PolicyIds(level, s);
    hide Join;
    assert ([LevelName(level)] + ids)[1..] == ids;
    JoinCons(LevelName(level), ids);
  }

  /** Two policy keys are the same exactly when they are of one level and their identifiers join to the
      same text: keys of different levels never meet, whatever the identifiers contain. */
  lemma SameKeyIff(level: Level, at: Scope, other: Level, s: Scope)
    ensures PolicyKey(level, at) == PolicyKey(other, s) <==>
            StoredLevel(level) == StoredLevel(other) &&
            Join(PolicyIds(level, at), "/") == Join(PolicyIds(other, s), "/")
  {
    var a, b := PolicyKey(level, at), PolicyKey(other, s);
    var x, y := Join(PolicyIds(level, at), "/"), Join(PolicyIds(other, s), "/");
    PolicyKeyText(level, at);
    PolicyKeyText(other, s);
    hide Join;
    hide PolicyKey;
    hide Clean;
    var n, m := LevelName(level), LevelName(other);
    if StoredLevel(level) == StoredLevel(other) {
      if PolicyIds(level, at) != [] {
        assert a[|n| + 1..] == x && b[|n| + 1..] == y;
      }
    } else if a == b {
      assert a[0] == n[0] == m[0] == b[0] && a[2] == n[2] && b[2] == m[2];
      LevelNamesDiffer(level, other);
      assert false;
    }
  }

  lemma LevelNamesDiffer(level: Level, other: Level)
    requires StoredLevel(level) != StoredLevel(other)
    ensures LevelName(level)[0] != LevelName(other)[0] || LevelName(level)[2] != LevelName(other)[2]
  {
    assert "global"[0] == 'g' && "cluster"[0] == 'c' && "tenant"[0] == 't' && "team"[0] == 't';
    assert "tenant"[2] == 'n' && "team"[2] == 'a';
  }

  /** Every identifier of a valid policy scope is needed. */
  function PolicyShape(level: Level): seq<bool> {
    match level
    case Global => []
    case Tenant => [false]
    case Team => [false, false]
    case Cluster => [false, false, false]
    case Other(_) => []
  }

  /** The text of the key can be cut at slashes into the identifiers of the level in only one way. A
      tenant is never cut, so this says something about team and cluster keys only. */
  predicate Unambiguous(level: Level, at: Scope) {
    level.Team? || level.Cluster? ==>
      Readings(Join(PolicyIds(level, at), "/"), PolicyShape(level)) == {PolicyIds(level, at)}
  }

  lemma PolicyReading(level: Level, s: Scope)
    requires ValidPolicyScope(level, s) && PolicyShape(level) != []
    ensures PolicyIds(level, s) in Readings(Join(PolicyIds(level, s), "/"), PolicyShape(level))
  {
    hide Clean;
    hide Trimmed;
    NormalizedIsTrimmed(s);
    ReadingsAreCuts(Join(PolicyIds(level, s), "/"), PolicyShape(level), PolicyIds(level, s));
  }

  /** The scope whose policy identifiers are `ids`. */
  function PolicyScopeOf(ids: seq<string>): Scope {
    Scope(if |ids| > 0 then ids[0] else "", if |ids| > 1 then ids[1] else "", if |ids| > 2 then ids[2] else "", "", "")
  }

  lemma ReadingIsPolicyScope(level: Level, ids: seq<string>)
    requires FitAll(ids, PolicyShape(level))
    ensures ValidPolicyScope(level, PolicyScopeOf(ids)) && PolicyIds(level, PolicyScopeOf(ids)) == ids
  {
    assert forall i | 0 <= i < |ids| :: Fits(ids[i], false);
    assert Fits("", true);
    hide Clean;
    hide Trimmed;
    NormalizedIsTrimmed(PolicyScopeOf(ids));
  }

  /** An ambiguous key has another owner: a valid scope elsewhere in the hierarchy with the same key. */
  lemma OtherOwner(level: Level, at: Scope) returns (s: Scope)
    requires ValidPolicyScope(level, at) && !Unambiguous(level, at)
    ensures ValidPolicyScope(level, s) && PolicyKey(level, s) == PolicyKey(level, at) && !Under(s, level, at)
  {
    var readings := Readings(Join(PolicyIds(level, at), "/"), PolicyShape(level));
    hide Clean;
    hide Readings;
    hide PolicyKey;
    PolicyReading(level, at);
    var ids :| ids in readings && ids != PolicyIds(level, at);
    ReadingsAreCuts(Join(PolicyIds(level, at), "/"), PolicyShape(level), ids);
    ReadingIsPolicyScope(level, ids);
    s := PolicyScopeOf(ids);
    UnderIsSameIds(s, level, at);
    SameKeyIff(level, s, level, at);
  }

  /** A valid scope has its policy key to itself exactly when the key is unambiguous. */
  lemma PolicyKeyIsOwnIff(level: Level, at: Scope)
    requires ValidPolicyScope(level, at)
    ensures (forall s | ValidPolicyScope(level, s) && PolicyKey(level, s) == PolicyKey(level, at) ::
               Under(s, level, at))
            <==> Unambiguous(level, at)
  {
    hide Clean;
    hide PolicyKey;
    hide Readings;
    if Unambiguous(level, at) {
      forall s | ValidPolicyScope(level, s) && PolicyKey(level, s) == PolicyKey(level, at) ensures Under(s, level, at) {
        SameKeyIff(level, s, level, at);
        UnderIsSameIds(s, level, at);
        if level.Team? || level.Cluster? {
          PolicyReading(level, s);
        }
      }
    } else {
      var s := OtherOwner(level, at);
    }
  }

  predicate SlashFree(parts: seq<string>) {
    forall part | part in parts :: '/' !in part
  }

  /** Identifiers without a slash are never ambiguous. */
  lemma SlashFreeReading(parts: seq<string>, shape: seq<bool>)
    requires shape != [] && FitAll(parts, shape) && SlashFree(parts)
    ensures Readings(Join(parts, "/"), shape) == {parts}
  {
    var text := Join(parts, "/");
    ReadingsAreCuts(text, shape, parts);
    JoinSplit(parts, '/');
    forall other | other in Readings(text, shape) ensures other == parts {
      ReadingsAreCuts(text, shape, other);
      SameSlashes(parts, other);
      JoinSplit(other, '/');
    }
  }

  /** Lists of one length that join to one text have the same number of slashes, so if one has none
      inside its parts neither has the other. */
  lemma SameSlashes(a: seq<string>, b: seq<string>)
    requires a != [] && |a| == |b| && Join(a, "/") == Join(b, "/") && SlashFree(a)
    ensures SlashFree(b)
  {
    SlashCount(a);
    SlashCount(b);
    InnerZero(a);
    InnerZero(b);
  }

  function Slashes(s: string): nat {
    if s == "" then 0 else (if s[0] == '/' then 1 else 0) + Slashes(s[1..])
  }

  function Inner(parts: seq<string>): nat {
    if parts == [] then 0 else Slashes(parts[0]) + Inner(parts[1..])
  }

  lemma {:induction false} SlashesAppend(a: string, b: string)
    ensures Slashes(a + b) == Slashes(a) + Slashes(b)
  {
    if a == "" {
      assert a + b == b;
    } else {
      assert (a + b)[0] == a[0] && (a + b)[1..] == a[1..] + b;
      SlashesAppend(a[1..], b);
    }
  }

  lemma {:induction false} SlashCount(parts: seq<string>)
    requires parts != []
    ensures Slashes(Join(parts, "/")) == Inner(parts) + |parts| - 1
  {
    if |parts| == 1 {
      assert parts[1..] == [];
    } else {
      var tail := Join(parts[1..], "/");
      SlashesAppend(parts[0] + "/", tail);
      SlashesAppend(parts[0], "/");
      assert Slashes("/") == 1;
      SlashCount(parts[1..]);
    }
  }

  lemma {:induction false} NoSlash(s: string)
    ensures Slashes(s) == 0 <==> '/' !in s
  {
    if s != "" {
      assert s == [s[0]] + s[1..];
      NoSlash(s[1..]);
    }
  }

  lemma {:induction false} InnerZero(parts: seq<string>)
    ensures Inner(parts) == 0 <==> SlashFree(parts)
  {
    if parts != [] {
      assert parts == [parts[0]] + parts[1..];
      NoSlash(parts[0]);
      InnerZero(parts[1..]);
    }
  }

  /** So the key of a valid policy scope without slashes is its own. */
  lemma SlashFreeIsUnambiguous(level: Level, at: Scope)
    requires ValidPolicyScope(level, at) && SlashFree(PolicyIds(level, at))
    ensures Unambiguous(level, at)
  {
    if level.Team? || level.Cluster? {
      hide Clean;
      hide Trimmed;
      NormalizedIsTrimmed(at);
      assert FitAll(PolicyIds(level, at), PolicyShape(level));
      SlashFreeReading(PolicyIds(level, at), PolicyShape(level));
    }
  }

  /** A team of tenant "a" and a team of tenant "a/b" that share a key. */
  lemma SlashCollision()
    ensures var s, t := Scope("a", "b/c", "", "", ""), Scope("a/b", "c", "", "", "");
            Normalized(s) != Normalized(t) && PolicyKey(Team, s) == PolicyKey(Team, t)
  {
    var s, t := Scope("a", "b/c", "", "", ""), Scope("a/b", "c", "", "", "");
    NormalizedIsTrimmed(s);
    NormalizedIsTrimmed(t);
    hide Clean;
    hide PolicyKey;
    SameKeyIff(Team, s, Team, t);
    assert Join(["a", "b/c"], "/") == "a/b/c" == Join(["a/b", "c"], "/");
  }

  // ---------------------------------------------------------- in the source's words

  /** The keys as text: trimmed identifiers in this order, after the name of the level. */
  lemma KeysAsText(s: Scope, name: string)
    ensures var tenant, team := Trim(GoSpace, s.tenant), Trim(GoSpace, s.team);
            var cluster, user, session := Trim(GoSpace, s.cluster), Trim(GoSpace, s.user), Trim(GoSpace, s.session);
            SessionKey(s) == tenant + "/" + (team + "/" + (cluster + "/" + (user + "/" + session))) &&
            PolicyKey(Global, s) == "global" && PolicyKey(Other(name), s) == "global" &&
            PolicyKey(Tenant, s) == "tenant" + "/" + tenant &&
            PolicyKey(Team, s) == "team" + "/" + (tenant + "/" + team) &&
            PolicyKey(Cluster, s) == "cluster" + "/" + (tenant + "/" + (team + "/" + cluster))
  {
    PolicyKeyText(Global, s);
    PolicyKeyText(Other(name), s);
    PolicyKeyText(Tenant, s);
    PolicyKeyText(Team, s);
    PolicyKeyText(Cluster, s);
    var n := Normalized(s);
    JoinThree(n.tenant, n.team, n.cluster);
    JoinThree(n.cluster, n.user, n.session);
    JoinCons(n.team, [n.cluster, n.user, n.session]);
    JoinCons(n.tenant, [n.team, n.cluster, n.user, n.session]);
    assert [n.team] + [n.cluster, n.user, n.session] == [n.team, n.cluster, n.user, n.session];
    assert [n.tenant] + [n.team, n.cluster, n.user, n.session] == SessionIds(s);
    hide Join;
    hide PolicyKey;
  }

  lemma JoinThree(a: string, b: string, c: string)
    ensures Join([a], "/") == a && Join([a, b], "/") == a + "/" + b
    ensures Join([a, b, c], "/") == a + "/" + (b + "/" + c)
  {
    JoinCons(c, []);
    JoinCons(b, [c]);
    JoinCons(a, [b, c]);
    JoinCons(a, [b]);
    JoinCons(b, []);
    JoinCons(a, []);
    assert [c] + [] == [c] && [b] + [c] == [b, c] && [a] + [b, c] == [a, b, c];
    assert [b] + [] == [b] && [a] + [b] == [a, b] && [a] + [] == [a];
    hide Join;
  }

  /** Which identifiers each kind of scope needs, blanks not counted. */
  lemma ValidScopes(s: Scope, name: string)
    ensures ValidMemoryScope(s) <==> Trim(GoSpace, s.tenant) != "" && Trim(GoSpace, s.team) != ""
    ensures ValidSessionScope(s) <==>
              Trim(GoSpace, s.tenant) != "" && Trim(GoSpace, s.team) != "" && Trim(GoSpace, s.session) != ""
    ensures ValidPolicyScope(Global, s) && ValidPolicyScope(Other(name), s)
    ensures ValidPolicyScope(Tenant, s) <==> Trim(GoSpace, s.tenant) != ""
    ensures ValidPolicyScope(Team, s) <==> Trim(GoSpace, s.tenant) != "" && Trim(GoSpace, s.team) != ""
    ensures ValidPolicyScope(Cluster, s) <==>
              Trim(GoSpace, s.tenant) != "" && Trim(GoSpace, s.team) != "" && Trim(GoSpace, s.cluster) != ""
  {
    hide Trim;
  }
}
