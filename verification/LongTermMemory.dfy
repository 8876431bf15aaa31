/** Long-term memory of the agent: items go active, deleting, deleted in the store while their
    vectors live in a separate index whose operations may fail
    (`agent_service/internal/session/memory/in_memory.go`). */
module LongTermMemory {
  import opened Options
  import opened Seqs
  import opened Text
  import opened MemoryKeys
  import opened MemoryPolicy
  import opened LongTermItems

  // --------------------------------------------------------------- operations

  /** `SaveLongTermMemory` with a new id; a candidate comes as active or pending. */
  function Save(s: Store, scope: Scope, kind: string, pending: bool, expires: Option<int>): Store {
    if !ValidMemoryScope(scope) then s
    else
      var item := Item(Normalized(scope), kind, if pending then Pending else Active, expires, s.now);
      s.(items := s.items[s.nextId := item], nextId := s.nextId + 1, unindexed := s.unindexed + {s.nextId})
  }

  /** `index.Upsert`; `added` says whether the vector ended up in the index. */
  function Upsert(s: Store, id: nat, added: bool): Store {
    if id !in s.unindexed then s
    else s.(unindexed := s.unindexed - {id}, index := if added then s.index + {id} else s.index)
  }

  /** `MarkLongTermStatus` for a list of ids: each gets the status and the time. */
  function MarkAll(items: map<nat, Item>, ids: seq<nat>, status: Status, now: int): map<nat, Item> {
    map id | id in items :: if id in ids then items[id].(status := status, updated := now) else items[id]
  }

  /** `index.Delete` then the final marks: a failing delete may have removed any vectors `gone`. */
  function Purge(s: Store, picked: seq<nat>, ok: bool, gone: set<nat>): Store {
    if ok then s.(index := s.index - (set id | id in picked), items := MarkAll(s.items, picked, Deleted, s.now))
    else s.(index := s.index - gone)
  }

  /** `DeleteMemories` on the listing it obtained. */
  function Delete(s: Store, picked: seq<nat>, ok: bool, gone: set<nat>): Store {
    Purge(s.(items := MarkAll(s.items, picked, Deleting, s.now)), picked, ok, gone)
  }

  /** `RetryDeletingMemories` narrows the caller's selector to items being deleted. */
  function RetrySelector(sel: Selector): Selector {
    sel.(status := Some(Deleting), includeDeleted := true)
  }

  /** The store object. */
  class LongTermStore {
    var items: map<nat, Item>
    var nextId: nat
    var index: set<nat>
    var unindexed: set<nat>
    var now: int

    function Value(): Store
      reads this
    {
      Store(items, nextId, index, unindexed, now)
    }

    constructor (now: int)
      ensures Value() == EmptyStore(now)
    {
      items, nextId, index, unindexed, this.now := map[], 0, {}, {}, now;
    }

    /** `ListLongTermMemories`: refuses a scope without tenant or team, else walks the map, filters,
        sorts, and cuts at the limit. */
    method List(sel: Selector) returns (ok: bool, picked: seq<nat>)
      ensures ok == ValidMemoryScope(sel.scope)
      ensures if ok then IsListing(Value(), sel, picked) else picked == []
    {
      picked := [];
      ok := ValidMemoryScope(sel.scope);
      if !ok { return; }
      var left := items.Keys;
      hide Matches;
      while left != {}
        invariant left <= items.Keys
        invariant Distinct(picked)
        invariant forall id :: id in picked <==> id in Matching(Value(), sel) && id !in left
        decreases left
      {
        var id :| id in left;
        left := left - {id};
        if Matches(sel, id, items[id], now) { picked := picked + [id]; }
      }
      SameElements(picked, Matching(Value(), sel));
      picked := SortListing(items, picked);
      SameElements(picked, Matching(Value(), sel));
      ghost var all := picked;
      if sel.limit > 0 && |picked| > sel.limit { picked := picked[..sel.limit]; }
      CutIsListing(Value(), sel, all, picked);
    }

    /** A stable sort with the source's comparator; where that is an order, so is the result. */
    static method SortListing(items: map<nat, Item>, ids: seq<nat>) returns (sorted: seq<nat>)
      requires Distinct(ids) && forall id | id in ids :: id in items
      ensures Distinct(sorted) && forall id :: id in sorted <==> id in ids
      ensures Consistent(items, set id | id in ids) ==> InOrder(items, sorted)
    {
      sorted := [];
      var i := 0;
      ghost var orderly := Consistent(items, set id | id in ids);
      while i < |ids|
        invariant 0 <= i <= |ids|
        invariant Distinct(sorted) && forall id :: id in sorted <==> id in ids[..i]
        invariant orderly ==> InOrder(items, sorted)
      {
        var x := ids[i];
        assert ids[..i + 1] == ids[..i] + [x] && x !in ids[..i];
        assert forall id | id in sorted :: id in ids;
        var k := Slot(items, sorted, x);
        if orderly { ComparableSlot(items, ids, sorted, x, k); }
        InsertAt(items, sorted, k, x, orderly);
        sorted := sorted[..k] + [x] + sorted[k..];
        i := i + 1;
      }
      assert ids[..|ids|] == ids;
    }

    /** The place of `x` after everything it does not come before. */
    static method Slot(items: map<nat, Item>, s: seq<nat>, x: nat) returns (k: nat)
      requires x in items && forall id | id in s :: id in items
      ensures k <= |s| && (forall j | 0 <= j < k :: !Before(items[x], items[s[j]]))
      ensures k < |s| ==> Before(items[x], items[s[k]])
    {
      k := 0;
      while k < |s| && !Before(items[x], items[s[k]])
        invariant 0 <= k <= |s|
        invariant forall j | 0 <= j < k :: !Before(items[x], items[s[j]])
      {
        k := k + 1;
      }
    }

    /** `MarkLongTermStatus` in the loop of a delete: an unknown id ends it with an error. */
    method Mark(ids: seq<nat>, status: Status) returns (ok: bool, ghost marked: seq<nat>)
      modifies this`items
      ensures ok <==> forall id | id in ids :: id in old(items)
      ensures items == MarkAll(old(items), marked, status, now)
      ensures marked <= ids && (forall id | id in marked :: id in old(items))
      ensures if ok then marked == ids else |marked| < |ids| && ids[|marked|] !in old(items)
    {
      var i := 0;
      while i < |ids|
        invariant 0 <= i <= |ids|
        invariant forall id | id in ids[..i] :: id in old(items)
        invariant items == MarkAll(old(items), ids[..i], status, now)
      {
        if ids[i] !in items { return false, ids[..i]; }
        items := items[ids[i] := items[ids[i]].(status := status, updated := now)];
        assert ids[..i + 1] == ids[..i] + [ids[i]];
        i := i + 1;
      }
      assert ids[..|ids|] == ids;
      return true, ids;
    }

    /** `DeleteMemories`: list, mark deleting, clear the vectors, mark deleted. */
    method DeleteMemories(sel: Selector, ok: bool, gone: set<nat>) returns (done: bool, ghost picked: seq<nat>)
      modifies this
      ensures done == (ValidMemoryScope(sel.scope) && ok)
      ensures if ValidMemoryScope(sel.scope)
              then IsListing(old(Value()), sel, picked) && Value() == Delete(old(Value()), picked, ok, gone)
              else Value() == old(Value())
    {
      var valid, ids := List(sel);
      picked := ids;
      if !valid { return false, []; }
      assert forall id | id in ids :: id in items;
      hide IsListing;
      var marked, _ := Mark(ids, Deleting);
      if !marked { return false, ids; }
      if !ok {
        index := index - gone;
        return false, ids;
      }
      index := index - (set id | id in ids);
      var finished, _ := Mark(ids, Deleted);
      done := finished;
    }

    /** `RetryDeletingMemories`. */
    method RetryDeletingMemories(sel: Selector, ok: bool, gone: set<nat>)
      returns (done: bool, ghost picked: seq<nat>)
      modifies this
      ensures done == (ValidMemoryScope(sel.scope) && ok)
      ensures if ValidMemoryScope(sel.scope)
              then IsListing(old(Value()), RetrySelector(sel), picked) &&
                   Value() == Purge(old(Value()), picked, ok, gone)
              else Value() == old(Value())
    {
      var valid, ids := List(RetrySelector(sel));
      picked := ids;
      if !valid { return false, []; }
      assert forall id | id in ids :: id in items;
      hide IsListing;
      if !ok {
        index := index - gone;
        return false, ids;
      }
      index := index - (set id | id in ids);
      var finished, _ := Mark(ids, Deleted);
      done := finished;
    }

    /** The long-term part of `LoadContext`: `search` is what the vector search returned, or `None` when
        it failed, which fails the call; a search without hits gives every listed item. */
    method Recall(policies: Policies, cfg: Config, scope: Scope, search: Option<set<nat>>)
      returns (ok: bool, ids: seq<nat>, ghost listed: seq<nat>)
      ensures var policy := Resolve(policies, cfg, scope);
              (ok <==> ValidSessionScope(scope) && (policy.longTerm && policy.recall ==> search.Some?)) &&
              |ids| <= policy.recallLimit && Distinct(ids) &&
              if ok && policy.longTerm && policy.recall
              then IsListing(Value(), RecallSelector(scope, policy), listed) &&
                   forall id :: id in ids <==> id in listed && Wanted(search.value, id)
              else ids == []
      ensures forall id | id in ids ::
                id in items && items[id].status == Active && Unexpired(items[id], now) && InScope(items[id], scope)
    {
      hide Resolve;
      WindowsArePositive(policies, cfg, scope);
      ok, ids, listed := false, [], [];
      if !ValidSessionScope(scope) { return; }
      var policy := ResolvePolicy(policies, cfg, scope);
      if !policy.longTerm || !policy.recall { return true, [], []; }
      if search.None? { return; }
      ok := true;
      var sel := RecallSelector(scope, policy);
      var _, found := List(sel);
      listed := found;
      forall id | id in found
        ensures id in items && items[id].status == Active && Unexpired(items[id], now) && InScope(items[id], scope)
      {
        assert id in Matching(Value(), sel);
      }
      assert |found| <= policy.recallLimit && Distinct(found);
      hide IsListing;
      if search.value == {} { return true, found, found; }
      ids := KeepHits(found, search.value);
    }

    /** The filtering loop of `recallLongTerm`. */
    static method KeepHits(found: seq<nat>, hits: set<nat>) returns (ids: seq<nat>)
      requires Distinct(found)
      ensures |ids| <= |found| && Distinct(ids) && forall id :: id in ids <==> id in found && id in hits
    {
      ids := [];
      var i := 0;
      while i < |found|
        invariant 0 <= i <= |found|
        invariant |ids| <= i && Distinct(ids)
        invariant forall id :: id in ids <==> id in found[..i] && id in hits
      {
        assert found[..i + 1] == found[..i] + [found[i]];
        assert found[i] !in found[..i];
        if found[i] in hits { ids := ids + [found[i]]; }
        i := i + 1;
      }
      assert found[..|found|] == found;
    }
  }

  /** What `recallLongTerm` asks the store for. */
  function RecallSelector(scope: Scope, policy: Effective): Selector {
    Selector(None, scope, "", Some(Active), false, policy.recallLimit)
  }

  /** Same tenant and team, and same cluster when the request names one. */
  predicate InScope(item: Item, scope: Scope) {
    var n := Normalized(scope);
    item.scope.tenant == n.tenant && item.scope.team == n.team &&
    (n.cluster != "" ==> item.scope.cluster == n.cluster)
  }

  /** A listed item is recalled when the search hit it or hit nothing. */
  predicate Wanted(hits: set<nat>, id: nat) { hits == {} || id in hits }

  // ------------------------------------------------------------------ sorting

  lemma ComparableSlot(items: map<nat, Item>, ids: seq<nat>, s: seq<nat>, x: nat, k: nat)
    requires Consistent(items, set id | id in ids) && x in ids && x in items && k <= |s|
    requires forall id | id in s :: id in ids && id in items
    requires forall j | 0 <= j < k :: !Before(items[x], items[s[j]])
    requires k < |s| ==> Before(items[x], items[s[k]])
    ensures (forall j | 0 <= j < k :: !Earlier(items[x], items[s[j]])) &&
            (k < |s| ==> Earlier(items[x], items[s[k]]))
  {
    assert forall id | id in s :: Comparable(items[x], items[id]);
  }

  lemma InsertAt(items: map<nat, Item>, s: seq<nat>, k: nat, x: nat, orderly: bool)
    requires k <= |s| && x in items && (forall y | y in s :: y in items) && Distinct(s) && x !in s
    requires orderly ==> InOrder(items, s) && (forall j | 0 <= j < k :: !Earlier(items[x], items[s[j]])) &&
                         (k < |s| ==> Earlier(items[x], items[s[k]]))
    ensures var t := s[..k] + [x] + s[k..];
            Distinct(t) && (forall y :: y in t <==> y in s || y == x) && (orderly ==> InOrder(items, t))
  {
    var t := s[..k] + [x] + s[k..];
    assert forall i | 0 <= i < |t| :: t[i] == if i < k then s[i] else if i == k then x else s[i - 1];
    assert s == s[..k] + s[k..];
    if orderly {
      forall i, j | 0 <= i < j < |t| ensures !Earlier(items[t[j]], items[t[i]]) {
        if i == k && j > k + 1 { assert !Earlier(items[s[j - 1]], items[s[k]]); }
      }
    }
  }

  lemma CutIsListing(s: Store, sel: Selector, all: seq<nat>, picked: seq<nat>)
    requires Distinct(all) && (forall x :: x in all <==> x in Matching(s, sel)) && |all| == |Matching(s, sel)|
    requires Consistent(s.items, set id | id in all) ==> InOrder(s.items, all)
    requires picked == if sel.limit > 0 && |all| > sel.limit then all[..sel.limit] else all
    ensures IsListing(s, sel, picked)
  {
    hide Matches;
    assert (set id | id in all) == Matching(s, sel);
    assert picked == all[..|picked|];
    if Consistent(s.items, Matching(s, sel)) {
      PrefixIsListing(s, sel, all);
    } else {
      assert forall x | x in picked :: x in all;
    }
  }

  // ------------------------------------------------------------------- recall

  /** Where the comparator is no order a listing may contain any given matching item. */
  lemma ListingWith(s: Store, sel: Selector, id: nat) returns (picked: seq<nat>)
    requires id in Matching(s, sel) && !Consistent(s.items, Matching(s, sel))
    ensures IsListing(s, sel, picked) && id in picked
  {
    hide Matches;
    var all := Matching(s, sel);
    SubsetSize({id}, all);
    var rest := Enumerate(all - {id}, ListLength(s, sel) - 1);
    picked := rest + [id];
  }

  /** The cluster rule of a recall: only items of the requested cluster, or without a cluster when the
      request names none. */
  ghost predicate ObeysClusterRule(s: Store, scope: Scope, picked: seq<nat>)
    requires forall id | id in picked :: id in s.items
  {
    forall id | id in picked :: s.items[id].scope.cluster == Normalized(scope).cluster
  }

  /** Every recall obeys the cluster rule exactly when the request names a cluster, or every item that
      matches it has none. */
  lemma ClusterRuleIff(s: Store, scope: Scope, policy: Effective)
    ensures (forall picked | IsListing(s, RecallSelector(scope, policy), picked) ::
               (forall id | id in picked :: id in s.items) && ObeysClusterRule(s, scope, picked)) <==>
            Normalized(scope).cluster != "" ||
            forall id | id in Matching(s, RecallSelector(scope, policy)) :: s.items[id].scope.cluster == ""
  {
    var sel := RecallSelector(scope, policy);
    if Normalized(scope).cluster == "" {
      if id :| id in Matching(s, sel) && s.items[id].scope.cluster != "" {
        var picked := ClusteredListing(s, sel, id);
        assert !ObeysClusterRule(s, scope, picked);
      }
    }
  }

  /** Items with a cluster come first, so if there is one a listing has one. */
  lemma ClusteredListing(s: Store, sel: Selector, id: nat) returns (picked: seq<nat>)
    requires id in Matching(s, sel) && s.items[id].scope.cluster != ""
    ensures IsListing(s, sel, picked)
    ensures exists x | x in picked :: x in s.items && s.items[x].scope.cluster != ""
  {
    hide Matches;
    if Consistent(s.items, Matching(s, sel)) {
      picked := SomeListing(s, sel);
      SubsetSize({id}, Matching(s, sel));
      assert picked[0] in picked && picked[0] in s.items;
      if id in picked {
        assert s.items[id].scope.cluster != "";
      } else {
        assert !Earlier(s.items[id], s.items[picked[0]]);
      }
    } else {
      picked := ListingWith(s, sel, id);
    }
  }

  /** It is broken as soon as a team has an item in some cluster: a request without a cluster id then
      recalls it. */
  lemma ClusterRuleBroken(scope: Scope, at: Scope, policy: Effective, now: int) returns (s: Store)
    requires ValidMemoryScope(scope) && Normalized(scope).cluster == "" && Normalized(at).cluster != ""
    requires Normalized(at).tenant == Normalized(scope).tenant && Normalized(at).team == Normalized(scope).team
    ensures s == Save(EmptyStore(now), at, "note", false, None)
    ensures IsListing(s, RecallSelector(scope, policy), [0]) && !ObeysClusterRule(s, scope, [0])
  {
    hide Normalized;
    s := Save(EmptyStore(now), at, "note", false, None);
    assert Matching(s, RecallSelector(scope, policy)) == {0};
  }

  /** A matching item that the search wants is in every recall if the listing has room for it, and, where
      the matching items have at most one cluster id besides the empty one, only if those that do not
      come after it fit the limit: the listing is cut before the hits are looked at. */
  lemma RecallFindsIff(s: Store, scope: Scope, policy: Effective, hits: set<nat>, id: nat)
    requires id in Matching(s, RecallSelector(scope, policy))
    ensures var sel := RecallSelector(scope, policy);
            HasRoom(s, sel, id) && Wanted(hits, id) ==> Recalled(s, sel, hits, id)
    ensures var sel := RecallSelector(scope, policy);
            Consistent(s.items, Matching(s, sel)) ==>
              (Recalled(s, sel, hits, id) <==>
               Wanted(hits, id) && (sel.limit <= 0 || |Ahead(s, sel, id)| <= sel.limit))
  {
    hide IsListing;
    hide HasRoom;
    hide Ahead;
    hide Consistent;
    var sel := RecallSelector(scope, policy);
    ListedIff(s, sel, id);
    if Consistent(s.items, Matching(s, sel)) { RoomIff(s, sel, id); }
    var some := SomeListing(s, sel);
  }

  /** Whatever the listing, `id` is among the recalled items. */
  ghost predicate Recalled(s: Store, sel: Selector, hits: set<nat>, id: nat) {
    forall listed | IsListing(s, sel, listed) :: id in listed && Wanted(hits, id)
  }

  // ------------------------------------------------------------------- retry

  /** An uninterrupted delete leaves every item it selected deleted and all others as they were; one
      stopped by the index leaves them being deleted. */
  lemma DeleteOutcome(s: Store, sel: Selector, picked: seq<nat>, ok: bool, gone: set<nat>, id: nat)
    requires IsListing(s, sel, picked) && id in s.items
    ensures Delete(s, picked, ok, gone).items[id] ==
            if id !in picked then s.items[id]
            else s.items[id].(status := if ok then Deleted else Deleting, updated := s.now)
  {
  }

  /** For an item being deleted that lies where the selector points: every answer of the retry's listing
      contains it if it has not expired and there is room for it, and, where the matching items have at
      most one cluster id besides the empty one, only if those that do not come after it fit the limit. */
  lemma RetryReachesIff(s: Store, sel: Selector, id: nat)
    requires id in s.items && s.items[id].status == Deleting && MatchesPlace(sel, id, s.items[id])
    ensures var r := RetrySelector(sel);
            Unexpired(s.items[id], s.now) && HasRoom(s, r, id) ==>
              forall picked | IsListing(s, r, picked) :: id in picked
    ensures var r := RetrySelector(sel);
            Consistent(s.items, Matching(s, r)) ==>
              ((forall picked | IsListing(s, r, picked) :: id in picked) <==>
               Unexpired(s.items[id], s.now) && (sel.limit <= 0 || |Ahead(s, r, id)| <= sel.limit))
  {
    var r := RetrySelector(sel);
    if Unexpired(s.items[id], s.now) {
      hide IsListing;
      hide HasRoom;
      hide Ahead;
      hide Consistent;
      ListedIff(s, r, id);
      if Consistent(s.items, Matching(s, r)) { RoomIff(s, r, id); }
    } else {
      var some := SomeListing(s, r);
      assert id !in some;
    }
  }

  /** Repeating a successful retry at once changes no item exactly when the first one listed every
      matching item, that is when its limit cut nothing off. */
  lemma RetryIsIdempotentIff(s: Store, sel: Selector, picked: seq<nat>)
    requires IsListing(s, RetrySelector(sel), picked)
    ensures var t := Purge(s, picked, true, {});
            (forall again | IsListing(t, RetrySelector(sel), again) :: Purge(t, again, true, {}).items == t.items)
            <==> sel.limit <= 0 || |Matching(s, RetrySelector(sel))| <= sel.limit
  {
    var r := RetrySelector(sel);
    var t := Purge(s, picked, true, {});
    var left := set id | id in Matching(s, r) && id !in picked;
    assert Matching(t, r) == left;
    if sel.limit <= 0 || |Matching(s, r)| <= sel.limit {
      forall id | id in Matching(s, r) ensures id in picked { FullListing(picked, Matching(s, r), id); }
      assert left == {};
    } else {
      var id := LeftOver(picked, Matching(s, r));
      assert id in left;
      SubsetSize({id}, left);
      var again := SomeListing(t, r);
      assert again != [] && again[0] in again && again[0] in left;
      assert Purge(t, again, true, {}).items[again[0]].status == Deleted;
      assert t.items[again[0]].status == Deleting;
    }
  }

  // ---------------------------------------------------------- in the source's words

  /** A delete with an id leaves every other item exactly as it was, one with a kind every other kind, and
      one with a tenant, team or cluster every item elsewhere, whether the index obeys or not; and as long
      as it obeys, their vectors too. */
  lemma DeleteIsSelective(s: Store, sel: Selector, picked: seq<nat>, ok: bool, gone: set<nat>, id: nat)
    requires IsListing(s, sel, picked) && id in s.items && !Lies(sel.scope, sel.kind, sel.id, id, s.items[id])
    ensures id in Delete(s, picked, ok, gone).items && Delete(s, picked, ok, gone).items[id] == s.items[id]
    ensures ok ==> (id in Delete(s, picked, ok, gone).index <==> id in s.index)
  {
    ListedMeans(s, sel, picked, id);
    hide Lies;
    hide IsListing;
  }

  /** A retry lists only items being deleted that lie where its selector points and have not expired, and
      without a limit all of them, whatever status the caller asked for. */
  lemma RetryListsDeleting(s: Store, sel: Selector, picked: seq<nat>, id: nat)
    requires IsListing(s, RetrySelector(sel), picked) && id in s.items
    ensures var item := s.items[id];
            var fits := Lies(sel.scope, sel.kind, sel.id, id, item) && item.status == Deleting &&
                        (item.expires == None || item.expires.value >= s.now);
            (id in picked ==> fits) && (fits && sel.limit <= 0 ==> id in picked)
  {
    ListedMeans(s, RetrySelector(sel), picked, id);
    hide Lies;
    hide IsListing;
  }

  /** A saved item gets the next id, the trimmed scope, the given kind, expiry and pending flag, and the
      time; nothing else changes, and its vector is still to come. A scope without tenant or team is
      refused. */
  lemma SaveOutcome(s: Store, scope: Scope, kind: string, pending: bool, expires: Option<int>)
    ensures var t := Save(s, scope, kind, pending, expires);
            if Trim(GoSpace, scope.tenant) == "" || Trim(GoSpace, scope.team) == "" then t == s
            else t == s.(items := t.items, nextId := s.nextId + 1, unindexed := s.unindexed + {s.nextId}) &&
                 t.items.Keys == s.items.Keys + {s.nextId} &&
                 (forall id | id in s.items && id != s.nextId :: t.items[id] == s.items[id]) &&
                 var item := t.items[s.nextId];
                 item.kind == kind && item.expires == expires && item.updated == s.now &&
                 item.status == (if pending then Pending else Active) &&
                 item.scope.tenant == Trim(GoSpace, scope.tenant) && item.scope.team == Trim(GoSpace, scope.team) &&
                 item.scope.cluster == Trim(GoSpace, scope.cluster) && item.scope.user == Trim(GoSpace, scope.user) &&
                 item.scope.session == Trim(GoSpace, scope.session)
  {
    hide Trim;
  }

  /** Every active, unexpired item of the tenant and team, and of the cluster if one is asked for, is
      listed for a recall if all of them fit its limit. */
  lemma RecallListsScope(s: Store, scope: Scope, policy: Effective, listed: seq<nat>, id: nat)
    requires ValidMemoryScope(scope) && IsListing(s, RecallSelector(scope, policy), listed) && id in s.items
    ensures var item := s.items[id];
            var fits := item.status == Active && (item.expires == None || item.expires.value >= s.now) &&
                        item.scope.tenant == Trim(GoSpace, scope.tenant) &&
                        item.scope.team == Trim(GoSpace, scope.team) &&
                        (Trim(GoSpace, scope.cluster) == "" || item.scope.cluster == Trim(GoSpace, scope.cluster));
            (id in listed ==> fits) && (fits && |listed| < policy.recallLimit ==> id in listed)
  {
    hide Trim;
    var sel := RecallSelector(scope, policy);
    ListedMeans(s, sel, listed, id);
    MatchingMeans(sel, id, s.items[id], s.now);
    hide Matches;
    if id in Matching(s, sel) && |listed| < policy.recallLimit { FullListing(listed, Matching(s, sel), id); }
  }
}
