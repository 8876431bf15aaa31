/** Items of the agent's long-term memory and how they are listed: which ones a selector matches, in
    which order they come, and which ones a limit keeps
    (`agent_service/internal/session/memory/in_memory.go`). */
module LongTermItems {
  import opened Options
  import opened Seqs
  import opened Text
  import opened MemoryKeys

  datatype Status = Active | Pending | Deleting | Deleted

  /** An item of the store; `updated` is when it was saved or last marked. Its vector carries the item's
      own id. */
  datatype Item = Item(scope: Scope, kind: string, status: Status, expires: Option<int>, updated: int)

  /** A filter; empty strings and `None` match everything, a limit below one is no limit. */
  datatype Selector = Selector(id: Option<nat>, scope: Scope, kind: string, status: Option<Status>,
                               includeDeleted: bool, limit: int)

  /** `index` holds the ids that have a vector, `unindexed` those saved whose upsert has not been
      issued yet; ids are given out in order. */
  datatype Store = Store(items: map<nat, Item>, nextId: nat, index: set<nat>, unindexed: set<nat>, now: int)

  function EmptyStore(now: int): Store { Store(map[], 0, {}, {}, now) }

  // ----------------------------------------------------------------- matching

  predicate Unexpired(item: Item, now: int) {
    item.expires.Some? ==> item.expires.value >= now
  }

  /** The part of `matchMemory` that neither status nor time can change. */
  predicate MatchesPlace(sel: Selector, id: nat, item: Item) {
    var n := Normalized(sel.scope);
    && (sel.id.Some? ==> id == sel.id.value)
    && (n.tenant != "" ==> item.scope.tenant == n.tenant)
    && (n.team != "" ==> item.scope.team == n.team)
    && (n.cluster != "" ==> item.scope.cluster == n.cluster)
    && (sel.kind != "" ==> item.kind == sel.kind)
  }

  /** `matchMemory`. */
  predicate Matches(sel: Selector, id: nat, item: Item, now: int) {
    && MatchesPlace(sel, id, item)
    && (sel.status.Some? ==> item.status == sel.status.value)
    && (!sel.includeDeleted ==> item.status != Deleted && item.status != Deleting)
    && (sel.status.None? ==> item.status == Active)
    && Unexpired(item, now)
  }

  function Matching(s: Store, sel: Selector): set<nat> {
    set id | id in s.items && Matches(sel, id, s.items[id], s.now)
  }

  function ListLength(s: Store, sel: Selector): nat {
    var n := |Matching(s, sel)|;
    if sel.limit > 0 && n > sel.limit then sel.limit else n
  }

  // -------------------------------------------------------------------- order

  /** The comparator of `ListLongTermMemories`. Between two different cluster ids that are both
      non-empty it puts each before the other. */
  predicate Before(a: Item, b: Item) {
    if a.scope.cluster != b.scope.cluster then a.scope.cluster != "" else a.updated > b.updated
  }

  /** An order for all items: those with a cluster first, then newest first. */
  predicate Earlier(a: Item, b: Item) {
    if (a.scope.cluster == "") != (b.scope.cluster == "") then b.scope.cluster == "" else a.updated > b.updated
  }

  predicate Comparable(a: Item, b: Item) {
    a.scope.cluster == b.scope.cluster || a.scope.cluster == "" || b.scope.cluster == ""
  }

  /** At most one cluster id occurs besides the empty one. */
  ghost predicate Consistent(items: map<nat, Item>, ids: set<nat>) {
    forall x, y | x in ids && y in ids && x in items && y in items :: Comparable(items[x], items[y])
  }

  lemma ComparatorIsOrder(a: Item, b: Item)
    requires Comparable(a, b)
    ensures Before(a, b) <==> Earlier(a, b)
  {
  }

  ghost predicate InOrder(items: map<nat, Item>, picked: seq<nat>) {
    forall i, j | 0 <= i < j < |picked| && picked[i] in items && picked[j] in items ::
      !Earlier(items[picked[j]], items[picked[i]])
  }

  /** Nothing that was left out comes before something that was kept. */
  ghost predicate FirstKept(items: map<nat, Item>, all: set<nat>, picked: seq<nat>) {
    forall x, y | x in picked && x in items && y in all && y in items && y !in picked ::
      !Earlier(items[y], items[x])
  }

  /** A possible answer of `ListLongTermMemories`: distinct matching ids, all of them or as many as the
      limit allows, in order, with ties open. Where the comparator is no order, the order and so which
      ones a limit cuts is left open. */
  ghost predicate IsListing(s: Store, sel: Selector, picked: seq<nat>) {
    && Distinct(picked)
    && (forall id | id in picked :: id in Matching(s, sel))
    && |picked| == ListLength(s, sel)
    && (Consistent(s.items, Matching(s, sel)) ==>
          InOrder(s.items, picked) && FirstKept(s.items, Matching(s, sel), picked))
  }

  // ------------------------------------------------------ sequences and sets

  lemma {:induction false} SameElements(s: seq<nat>, elements: set<nat>)
    requires Distinct(s) && forall x :: x in s <==> x in elements
    ensures |s| == |elements|
  {
    if s == [] {
      assert elements == {};
    } else {
      var init, last := s[..|s| - 1], s[|s| - 1];
      assert s == init + [last];
      assert last !in init;
      SameElements(init, elements - {last});
    }
  }

  /** Distinct elements of a set that are as many as the set are all of it. */
  lemma FullListing(s: seq<nat>, elements: set<nat>, x: nat)
    requires Distinct(s) && (forall y | y in s :: y in elements) && |s| == |elements|
    requires x in elements
    ensures x in s
  {
    var got := set y | y in s;
    SameElements(s, got);
    assert got <= elements;
    if x !in s {
      assert got <= elements - {x};
      SubsetSize(got, elements - {x});
    }
  }

  lemma {:induction false} SubsetSize(a: set<nat>, b: set<nat>)
    requires a <= b
    ensures |a| <= |b|
  {
    if a != {} {
      var x :| x in a;
      SubsetSize(a - {x}, b - {x});
    }
  }

  lemma {:induction false} Enumerate(elements: set<nat>, k: nat) returns (s: seq<nat>)
    requires k <= |elements|
    ensures Distinct(s) && |s| == k && forall x | x in s :: x in elements
  {
    if k == 0 {
      s := [];
    } else {
      var x :| x in elements;
      var rest := Enumerate(elements - {x}, k - 1);
      s := rest + [x];
    }
  }

  lemma LeftOver(s: seq<nat>, elements: set<nat>) returns (x: nat)
    requires Distinct(s) && (forall y | y in s :: y in elements) && |s| < |elements|
    ensures x in elements && x !in s
  {
    var got := set y | y in s;
    SameElements(s, got);
    if elements <= got { SubsetSize(elements, got); }
    x :| x in elements && x !in got;
  }

  // ----------------------------------------------------------------- listings

  /** The elements of `ids` in order, each once. */
  lemma {:induction false} Sort(items: map<nat, Item>, ids: set<nat>) returns (s: seq<nat>)
    requires ids <= items.Keys
    ensures Distinct(s) && InOrder(items, s) && |s| == |ids| && forall x :: x in s <==> x in ids
  {
    if ids == {} {
      s := [];
    } else {
      var x :| x in ids;
      var rest := Sort(items, ids - {x});
      s := Insert(items, rest, x);
      SameElements(s, ids);
    }
  }

  lemma {:induction false} Insert(items: map<nat, Item>, s: seq<nat>, x: nat) returns (t: seq<nat>)
    requires x in items && (forall y | y in s :: y in items) && Distinct(s) && x !in s && InOrder(items, s)
    ensures Distinct(t) && InOrder(items, t) && forall y :: y in t <==> y in s || y == x
  {
    if s == [] {
      t := [x];
    } else if Earlier(items[x], items[s[0]]) {
      t := [x] + s;
      assert forall j | 1 <= j < |t| :: t[j] == s[j - 1];
    } else {
      assert forall j | 0 <= j < |s| - 1 :: s[1..][j] == s[j + 1];
      var rest := Insert(items, s[1..], x);
      t := [s[0]] + rest;
      assert forall j | 1 <= j < |t| :: t[j] == rest[j - 1] && t[j] in rest;
      forall y | y in rest ensures !Earlier(items[y], items[s[0]]) && y != s[0] {
        if y != x {
          var k :| 0 <= k < |s[1..]| && s[1..][k] == y;
          assert s[k + 1] == y;
        }
      }
    }
  }

  /** Cutting everything that matches, in order, at the limit gives a listing. */
  lemma PrefixIsListing(s: Store, sel: Selector, all: seq<nat>)
    requires Distinct(all) && InOrder(s.items, all) && forall x :: x in all <==> x in Matching(s, sel)
    ensures ListLength(s, sel) <= |all| && IsListing(s, sel, all[..ListLength(s, sel)])
  {
    hide Matches;
    SameElements(all, Matching(s, sel));
    var picked := all[..ListLength(s, sel)];
    assert forall x | x in picked :: x in all;
    forall x, y | x in picked && y in Matching(s, sel) && y !in picked
      ensures !Earlier(s.items[y], s.items[x])
    {
      CutKeepsFirst(s.items, all, ListLength(s, sel), x, y);
    }
  }

  lemma SomeListing(s: Store, sel: Selector) returns (picked: seq<nat>)
    ensures IsListing(s, sel, picked)
  {
    var all := Sort(s.items, Matching(s, sel));
    PrefixIsListing(s, sel, all);
    picked := all[..ListLength(s, sel)];
  }

  /** The matching items that do not come strictly after `id`: those before it, its ties and itself. */
  function Ahead(s: Store, sel: Selector, id: nat): set<nat>
    requires id in s.items
  {
    set x | x in Matching(s, sel) && !Earlier(s.items[id], s.items[x])
  }

  /** A listing has room for `id`: there is no limit, everything fits, or everything up to `id` does. */
  ghost predicate HasRoom(s: Store, sel: Selector, id: nat)
    requires id in s.items
  {
    || sel.limit <= 0 || |Matching(s, sel)| <= sel.limit
    || (Consistent(s.items, Matching(s, sel)) && |Ahead(s, sel, id)| <= sel.limit)
  }

  lemma RoomIsEnough(s: Store, sel: Selector, id: nat, picked: seq<nat>)
    requires id in Matching(s, sel) && HasRoom(s, sel, id) && IsListing(s, sel, picked)
    ensures id in picked
  {
    hide Matches;
    hide Earlier;
    var all := Matching(s, sel);
    if sel.limit <= 0 || |all| <= sel.limit {
      FullListing(picked, all, id);
    } else if id !in picked {
      var got := set x | x in picked;
      SameElements(picked, got);
      NotEarlier(s.items[id]);
      assert got <= Ahead(s, sel, id) - {id};
      SubsetSize(got, Ahead(s, sel, id) - {id});
    }
  }

  lemma NotEarlier(a: Item)
    ensures !Earlier(a, a)
  {
  }

  /** Without room, the ties and whatever comes before can fill the listing. */
  lemma CrowdedOut(s: Store, sel: Selector, id: nat) returns (picked: seq<nat>)
    requires id in Matching(s, sel) && !HasRoom(s, sel, id) && Consistent(s.items, Matching(s, sel))
    ensures IsListing(s, sel, picked) && id !in picked
  {
    hide Matches;
    var crowd := Ahead(s, sel, id) - {id};
    NotEarlier(s.items[id]);
    var others := Sort(s.items, crowd);
    picked := others[..sel.limit];
    assert forall x | x in picked :: x in others && x in crowd;
    forall x, y | x in picked && y in Matching(s, sel) && y !in picked
      ensures !Earlier(s.items[y], s.items[x])
    {
      if y in crowd { CutKeepsFirst(s.items, others, sel.limit, x, y); }
    }
  }

  lemma CutKeepsFirst(items: map<nat, Item>, all: seq<nat>, n: nat, x: nat, y: nat)
    requires n <= |all| && InOrder(items, all) && x in all[..n] && y in all && y !in all[..n]
    requires x in items && y in items
    ensures !Earlier(items[y], items[x])
  {
    var i :| 0 <= i < n && all[..n][i] == x;
    var j :| 0 <= j < |all| && all[j] == y;
    assert forall k | 0 <= k < n :: all[k] in all[..n];
    assert all[i] == x;
  }

  /** A matching item is in every listing if there is room for it, and only if where the matching items
      have at most one cluster id besides the empty one. */
  lemma ListedIff(s: Store, sel: Selector, id: nat)
    requires id in Matching(s, sel)
    ensures HasRoom(s, sel, id) ==> forall picked | IsListing(s, sel, picked) :: id in picked
    ensures Consistent(s.items, Matching(s, sel)) ==>
              ((forall picked | IsListing(s, sel, picked) :: id in picked) <==> HasRoom(s, sel, id))
  {
    hide IsListing;
    hide Consistent;
    if HasRoom(s, sel, id) {
      forall picked | IsListing(s, sel, picked) ensures id in picked { RoomIsEnough(s, sel, id, picked); }
    } else if Consistent(s.items, Matching(s, sel)) {
      var picked := CrowdedOut(s, sel, id);
    }
  }

  /** With at most one cluster id besides the empty one, room is a matter of what comes up to the item. */
  lemma RoomIff(s: Store, sel: Selector, id: nat)
    requires id in Matching(s, sel) && Consistent(s.items, Matching(s, sel))
    ensures HasRoom(s, sel, id) <==> sel.limit <= 0 || |Ahead(s, sel, id)| <= sel.limit
  {
    SubsetSize(Ahead(s, sel, id), Matching(s, sel));
  }

  // ---------------------------------------------------------- in the source's words

  /** The item lies where a selector with these fields points; what is blank or not given does not
      narrow it. */
  predicate Lies(scope: Scope, kind: string, wanted: Option<nat>, id: nat, item: Item) {
    var tenant, team, cluster := Trim(GoSpace, scope.tenant), Trim(GoSpace, scope.team), Trim(GoSpace, scope.cluster);
    && (wanted == None || wanted == Some(id))
    && (tenant == "" || tenant == item.scope.tenant)
    && (team == "" || team == item.scope.team)
    && (cluster == "" || cluster == item.scope.cluster)
    && (kind == "" || kind == item.kind)
  }

  /** Its status is the one asked for, active if none is; items being deleted and deleted ones have to be
      asked for twice. */
  predicate StatusAsked(asked: Option<Status>, includeDeleted: bool, status: Status) {
    match asked
    case None => status == Active
    case Some(st) => status == st && (includeDeleted || (st != Deleting && st != Deleted))
  }

  /** Every listed item has the id that was asked for, lies in the tenant, team and cluster that were, and
      has the kind, the status and time left; and without a limit every such item is listed. */
  lemma ListedMeans(s: Store, sel: Selector, picked: seq<nat>, id: nat)
    requires IsListing(s, sel, picked)
    ensures id in picked ==>
              id in s.items && Lies(sel.scope, sel.kind, sel.id, id, s.items[id]) &&
              StatusAsked(sel.status, sel.includeDeleted, s.items[id].status) &&
              (s.items[id].expires == None || s.items[id].expires.value >= s.now)
    ensures sel.limit <= 0 && id in s.items && Lies(sel.scope, sel.kind, sel.id, id, s.items[id]) &&
            StatusAsked(sel.status, sel.includeDeleted, s.items[id].status) &&
            (s.items[id].expires == None || s.items[id].expires.value >= s.now) ==>
              id in picked
  {
    hide Trim;
    if id in s.items {
      MatchingMeans(sel, id, s.items[id], s.now);
      hide Matches;
      hide Lies;
      hide StatusAsked;
      if sel.limit <= 0 && id in Matching(s, sel) { FullListing(picked, Matching(s, sel), id); }
    }
  }

  lemma MatchingMeans(sel: Selector, id: nat, item: Item, now: int)
    ensures Matches(sel, id, item, now) <==>
            Lies(sel.scope, sel.kind, sel.id, id, item) &&
            StatusAsked(sel.status, sel.includeDeleted, item.status) &&
            (item.expires == None || item.expires.value >= now)
  {
    hide Trim;
  }
}
