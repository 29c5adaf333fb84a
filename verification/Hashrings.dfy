// Merging the last published hashrings with the endpoints that are ready now
// (internal/pkg/receive/hashrings.go).

module Hashrings {
  import opened Basics
  import opened Ordering
  import opened EndpointExtraction

  datatype HashringConfig = HashringConfig(
    name: string,
    tenants: seq<string>,
    tenantMatcherType: string,
    endpoints: seq<Endpoint>,
    algorithm: string,
    externalLabels: map<string, string>)

  datatype HashringMeta = HashringMeta(desiredReplicas: int, config: HashringConfig)

  type HashringState = map<string, HashringMeta>

  type HashringList = seq<HashringConfig>

  datatype Policy = Static | Dynamic

  // ---------------------------------------------------------------- pure parts

  predicate IsEmptyHashring(hashrings: HashringList) {
    |hashrings| == 0 || (|hashrings| == 1 && |hashrings[0].endpoints| == 0)
  }

  function MetaToHashring(key: string, value: HashringMeta): HashringConfig {
    value.config.(name := key)
  }

  function TrimTo<T>(s: seq<T>, target: int): seq<T> {
    var target := if target < 0 then 0 else target;
    if target > |s| then s else s[..target]
  }

  predicate NameLess(a: HashringConfig, b: HashringConfig) {
    Before(a.name, b.name)
  }

  // ---------------------------------------------------------------- what a merge publishes

  /** Enough members are ready to replace the published hashring. */
  predicate Admits(policy: Policy, rf: int, m: HashringMeta) {
    && |m.config.endpoints| >= rf
    && |m.config.endpoints| >= (if policy.Dynamic? then m.desiredReplicas - 1 else m.desiredReplicas)
  }

  /** The stricter threshold used while nothing is published yet. */
  predicate FullyReady(m: HashringMeta) {
    |m.config.endpoints| >= m.desiredReplicas
  }

  function Admitted(policy: Policy, key: string, m: HashringMeta): HashringConfig {
    var h := MetaToHashring(key, m);
    if policy.Static? then h.(endpoints := TrimTo(h.endpoints, m.desiredReplicas)) else h
  }

  /** The entries of `hashrings` called `name`, in order. */
  function Named(hashrings: HashringList, name: string): HashringList {
    if hashrings == [] then []
    else (if hashrings[0].name == name then [hashrings[0]] else []) + Named(hashrings[1..], name)
  }

  function Contribution(policy: Policy, previous: HashringList, rf: int, key: string, m: HashringMeta): HashringList {
    if Admits(policy, rf, m) then [Admitted(policy, key, m)] else Named(previous, key)
  }

  /** The unsorted merge when the fetched state is enumerated in the given order. */
  function Collected(policy: Policy, previous: HashringList, state: HashringState, rf: int,
                     order: seq<string>): HashringList
    requires forall k | k in order :: k in state
  {
    if order == [] then []
    else
      var last := |order| - 1;
      Collected(policy, previous, state, rf, order[..last])
        + Contribution(policy, previous, rf, order[last], state[order[last]])
  }

  /** The bootstrap list when the fetched state is enumerated in the given order. */
  function Unseen(state: HashringState, order: seq<string>): HashringList
    requires forall k | k in order :: k in state
  {
    if order == [] then []
    else
      var k := order[|order| - 1];
      Unseen(state, order[..|order| - 1]) + (if FullyReady(state[k]) then [MetaToHashring(k, state[k])] else [])
  }

  /** The possible results of a merge, one for each enumeration of the map and each tie-break of the sort. */
  ghost predicate MergeOutcome(policy: Policy, previous: HashringList, state: HashringState, rf: int,
                               order: seq<string>, merged: HashringList) {
    && IsEnumeration(order, state.Keys)
    && if IsEmptyHashring(previous) then merged == Unseen(state, order)
       else multiset(merged) == multiset(Collected(policy, previous, state, rf, order)) && Sorted(merged, NameLess)
  }

  // ---------------------------------------------------------------- the methods

  function NameOf(h: HashringConfig): string {
    h.name
  }

  ghost predicate UniqueNames(hashrings: HashringList) {
    DistinctBy(hashrings, NameOf)
  }

  lemma {:induction false} UnseenEntries(state: HashringState, order: seq<string>)
    requires Distinct(order) && forall k | k in order :: k in state
    ensures var c := Unseen(state, order);
            && UniqueNames(c)
            && (forall h :: h in c <==>
                 h.name in order && FullyReady(state[h.name]) && h == MetaToHashring(h.name, state[h.name]))
  {
    if order == [] {
    } else {
      var front, k := order[..|order| - 1], order[|order| - 1];
      UnseenEntries(state, front);
      assert order == front + [k];
      forall h | h in Unseen(state, front) ensures h.name in front {}
    }
  }

  /** The hashring `k` as fetched, with these endpoints. */
  function Described(k: string, m: HashringMeta, endpoints: seq<Endpoint>): HashringConfig {
    var c := m.config;
    HashringConfig(k, c.tenants, c.tenantMatcherType, endpoints, c.algorithm, c.externalLabels)
  }

  method HandleUnseenHashrings(state: HashringState) returns (hashrings: HashringList, ghost order: seq<string>)
    ensures IsEnumeration(order, state.Keys)
    ensures hashrings == Unseen(state, order)
    ensures forall h :: h in hashrings <==>
            && h.name in state && |state[h.name].config.endpoints| >= state[h.name].desiredReplicas
            && h == Described(h.name, state[h.name], state[h.name].config.endpoints)
  {
    hashrings, order := [], [];
    var remaining := state.Keys;
    while remaining != {}
      invariant remaining <= state.Keys
      invariant IsEnumeration(order, state.Keys - remaining)
      invariant hashrings == Unseen(state, order)
      decreases |remaining|
    {
      var k :| k in remaining;
      var v := state[k];
      order := order + [k];
      assert order[..|order| - 1] + [k] == order;
      if |v.config.endpoints| >= v.desiredReplicas {
        hashrings := hashrings + [MetaToHashring(k, v)];
      }
      remaining := remaining - {k};
    }
    UnseenEntries(state, order);
  }

  method KeepPrevious(previous: HashringList, k: string) returns (kept: HashringList)
    ensures kept == Named(previous, k)
  {
    kept := [];
    for i := 0 to |previous|
      invariant kept + Named(previous[i..], k) == Named(previous, k)
    {
      if previous[i].name == k {
        kept := kept + [previous[i]];
      }
    }
  }

  lemma NameLessIsOrder(s: HashringList)
    ensures StrictWeakOrder(s, NameLess)
  {
    forall x, y | x in s && y in s && NameLess(x, y) ensures !NameLess(y, x) {
      BeforeAsymmetric(x.name, y.name);
    }
    forall x, y, z | x in s && y in s && z in s && !NameLess(x, y) && !NameLess(y, z) ensures !NameLess(x, z) {
      NotBeforeTransitive(x.name, y.name, z.name);
    }
  }

  /** `h` is what the merge publishes for its name. */
  ghost predicate Publishes(policy: Policy, previous: HashringList, state: HashringState, rf: int, h: HashringConfig) {
    && h.name in state
    && var m := state[h.name];
       if IsEmptyHashring(previous) then FullyReady(m) && h == MetaToHashring(h.name, m)
       else if Admits(policy, rf, m) then h == Admitted(policy, h.name, m)
       else h in previous
  }

  /** There is more in the published list than a single hashring without endpoints. */
  predicate SomethingPublished(previous: HashringList) {
    |previous| >= 2 || (|previous| == 1 && |previous[0].endpoints| >= 1)
  }

  /** The entries called `k` after a merge, in counts of members: of those desired, `tolerated` may be missing.
      Enough ready members are published, as `admitted`; with fewer the published entry stays. */
  ghost predicate IsCounted(tolerated: nat, previous: HashringList, k: string, m: HashringMeta, rf: int,
                            admitted: seq<Endpoint>, merged: HashringList) {
    var ready := |m.config.endpoints|;
    forall h: HashringConfig | h.name == k ::
      h in merged <==> if ready >= rf && ready + tolerated >= m.desiredReplicas then h == Described(k, m, admitted)
                       else h in previous
  }

  /** The first `n` endpoints, as far as there are any. */
  function First(endpoints: seq<Endpoint>, n: int): seq<Endpoint> {
    if n <= 0 then [] else if n <= |endpoints| then endpoints[..n] else endpoints
  }

  lemma {:induction false} NamedNone(hashrings: HashringList, name: string)
    requires forall h | h in hashrings :: h.name != name
    ensures Named(hashrings, name) == []
  {
    if hashrings == [] {
    } else {
      NamedNone(hashrings[1..], name);
    }
  }

  lemma {:induction false} NamedMembers(hashrings: HashringList, name: string)
    ensures forall h :: h in Named(hashrings, name) <==> h in hashrings && h.name == name
    ensures UniqueNames(hashrings) ==> |Named(hashrings, name)| <= 1
  {
    if hashrings == [] {
    } else {
      NamedMembers(hashrings[1..], name);
      if UniqueNames(hashrings) && hashrings[0].name == name {
        NamedNone(hashrings[1..], name);
      }
    }
  }

  lemma {:induction false} CollectedMembers(policy: Policy, previous: HashringList, state: HashringState, rf: int,
                                            order: seq<string>)
    requires forall k | k in order :: k in state
    ensures forall h :: h in Collected(policy, previous, state, rf, order) <==>
              h.name in order && h in Contribution(policy, previous, rf, h.name, state[h.name])
  {
    if order == [] {
    } else {
      var front, k := order[..|order| - 1], order[|order| - 1];
      assert order == front + [k];
      CollectedMembers(policy, previous, state, rf, front);
      NamedMembers(previous, k);
      forall h ensures h in Contribution(policy, previous, rf, k, state[k]) ==> h.name == k {}
    }
  }

  lemma MergedMembers(policy: Policy, previous: HashringList, state: HashringState, rf: int, order: seq<string>,
                      merged: HashringList)
    requires SomethingPublished(previous) && MergeOutcome(policy, previous, state, rf, order, merged)
    ensures forall h :: h in merged <==>
              h.name in state && h in Contribution(policy, previous, rf, h.name, state[h.name])
  {
    CollectedMembers(policy, previous, state, rf, order);
    SameElements(merged, Collected(policy, previous, state, rf, order));
  }

  /** While nothing is published, a hashring is when all its desired members are ready, and with all ready ones. */
  lemma BootstrapCounts(policy: Policy, previous: HashringList, state: HashringState, rf: int, order: seq<string>,
                        merged: HashringList)
    requires !SomethingPublished(previous) && MergeOutcome(policy, previous, state, rf, order, merged)
    ensures forall h | h in merged :: h.name in state
    ensures forall k | k in state ::
            IsCounted(0, [], k, state[k], state[k].desiredReplicas, state[k].config.endpoints, merged)
  {
    UnseenEntries(state, order);
  }

  /** The dynamic merge tolerates a single missing member, however many were published before. */
  lemma DynamicMergeCounts(previous: HashringList, state: HashringState, rf: int, order: seq<string>,
                           merged: HashringList)
    requires SomethingPublished(previous) && MergeOutcome(Dynamic, previous, state, rf, order, merged)
    ensures forall h | h in merged :: h.name in state
    ensures forall k | k in state :: IsCounted(1, previous, k, state[k], rf, state[k].config.endpoints, merged)
  {
    MergedMembers(Dynamic, previous, state, rf, order, merged);
    forall k | k in state ensures IsCounted(1, previous, k, state[k], rf, state[k].config.endpoints, merged) {
      NamedMembers(previous, k);
    }
  }

  /** The static merge tolerates none, and publishes as many as are desired. */
  lemma StaticMergeCounts(previous: HashringList, state: HashringState, rf: int, order: seq<string>,
                          merged: HashringList)
    requires SomethingPublished(previous) && MergeOutcome(Static, previous, state, rf, order, merged)
    ensures forall h | h in merged :: h.name in state
    ensures forall k | k in state ::
              IsCounted(0, previous, k, state[k], rf, First(state[k].config.endpoints, state[k].desiredReplicas),
                  merged)
  {
    MergedMembers(Static, previous, state, rf, order, merged);
    forall k | k in state
      ensures IsCounted(0, previous, k, state[k], rf, First(state[k].config.endpoints, state[k].desiredReplicas),
                merged)
    {
      NamedMembers(previous, k);
    }
  }

  /** Unique names, exactly the entries to publish, and sorted by name unless this is the bootstrap. */
  ghost predicate IsMerge(policy: Policy, previous: HashringList, state: HashringState, rf: int, merged: HashringList) {
    && UniqueNames(merged)
    && (forall h :: h in merged <==> Publishes(policy, previous, state, rf, h))
    && (!IsEmptyHashring(previous) ==> StrictlySorted(merged, NameLess))
  }

  /** `list` publishes exactly what it should for the names in `order`, each at most once. */
  ghost predicate Covers(policy: Policy, previous: HashringList, state: HashringState, rf: int, order: seq<string>,
                         list: HashringList) {
    UniqueNames(list) && forall h :: h in list <==> h.name in order && Publishes(policy, previous, state, rf, h)
  }

  lemma ContributionEntries(policy: Policy, previous: HashringList, state: HashringState, rf: int, k: string)
    requires UniqueNames(previous) && !IsEmptyHashring(previous) && k in state
    ensures Covers(policy, previous, state, rf, [k], Contribution(policy, previous, rf, k, state[k]))
  {
    NamedMembers(previous, k);
  }

  lemma CoversConcat(policy: Policy, previous: HashringList, state: HashringState, rf: int, a: seq<string>,
                     b: seq<string>, c: HashringList, d: HashringList)
    requires Covers(policy, previous, state, rf, a, c) && Covers(policy, previous, state, rf, b, d)
    requires forall k | k in b :: k !in a
    ensures Covers(policy, previous, state, rf, a + b, c + d)
  {
    forall i, j | 0 <= i < j < |c + d| ensures NameOf((c + d)[i]) != NameOf((c + d)[j]) {
      if i < |c| <= j {
        assert c[i] in c && d[j - |c|] in d;
      }
    }
  }

  lemma {:induction false} CollectedEntries(policy: Policy, previous: HashringList, state: HashringState, rf: int,
                                            order: seq<string>)
    requires UniqueNames(previous) && !IsEmptyHashring(previous)
    requires Distinct(order) && forall k | k in order :: k in state
    ensures Covers(policy, previous, state, rf, order, Collected(policy, previous, state, rf, order))
  {
    if order == [] {
    } else {
      var front, k := order[..|order| - 1], order[|order| - 1];
      assert order == front + [k];
      CollectedEntries(policy, previous, state, rf, front);
      ContributionEntries(policy, previous, state, rf, k);
      CoversConcat(policy, previous, state, rf, front, [k],
                   Collected(policy, previous, state, rf, front), Contribution(policy, previous, rf, k, state[k]));
    }
  }

  lemma UniqueNamesPermuted(a: HashringList, b: HashringList)
    requires multiset(a) == multiset(b) && UniqueNames(a)
    ensures UniqueNames(b)
  {
    DistinctByPermuted(a, b, NameOf);
  }

  /** Both merges are pointwise: whatever the enumeration, each name is published at most once, and its
      entry depends on that name alone. */
  lemma MergeIsPointwise(policy: Policy, previous: HashringList, state: HashringState, rf: int, order: seq<string>,
                         merged: HashringList)
    requires UniqueNames(previous)
    requires MergeOutcome(policy, previous, state, rf, order, merged)
    ensures IsMerge(policy, previous, state, rf, merged)
    ensures SomethingPublished(previous) ==>
              forall i, j | 0 <= i < j < |merged| :: Before(merged[i].name, merged[j].name)
  {
    if IsEmptyHashring(previous) {
      UnseenEntries(state, order);
    } else {
      CollectedEntries(policy, previous, state, rf, order);
      var c := Collected(policy, previous, state, rf, order);
      UniqueNamesPermuted(c, merged);
      SameElements(c, merged);
      forall i, j | 0 <= i < j < |merged| ensures NameLess(merged[i], merged[j]) {
        BeforeTotal(merged[i].name, merged[j].name);
      }
    }
  }

  method DynamicMerge(previous: HashringList, state: HashringState, rf: int)
    returns (merged: HashringList, ghost order: seq<string>)
    ensures MergeOutcome(Dynamic, previous, state, rf, order, merged)
    ensures SomethingPublished(previous) ==> forall k | k in state ::
              IsCounted(1, previous, k, state[k], rf, state[k].config.endpoints, merged)
    ensures UniqueNames(previous) ==> IsMerge(Dynamic, previous, state, rf, merged)
  {
    if IsEmptyHashring(previous) {
      merged, order := HandleUnseenHashrings(state);
      if UniqueNames(previous) {
        MergeIsPointwise(Dynamic, previous, state, rf, order, merged);
      }
      return;
    }
    merged, order := [], [];
    var remaining := state.Keys;
    while remaining != {}
      invariant remaining <= state.Keys
      invariant IsEnumeration(order, state.Keys - remaining)
      invariant merged == Collected(Dynamic, previous, state, rf, order)
      decreases |remaining|
    {
      var k :| k in remaining;
      var v := state[k];
      order := order + [k];
      remaining := remaining - {k};
      assert order[..|order| - 1] + [k] == order;
      if |v.config.endpoints| >= rf && |v.config.endpoints| >= v.desiredReplicas - 1 {
        merged := merged + [MetaToHashring(k, v)];
      } else {
        var kept := KeepPrevious(previous, k);
        merged := merged + kept;
      }
    }
    NameLessIsOrder(merged);
    merged := SortSlice(merged, NameLess);
    DynamicMergeCounts(previous, state, rf, order, merged);
    if UniqueNames(previous) {
      MergeIsPointwise(Dynamic, previous, state, rf, order, merged);
    }
  }

  method StaticMerge(previous: HashringList, state: HashringState, rf: int)
    returns (merged: HashringList, ghost order: seq<string>)
    ensures MergeOutcome(Static, previous, state, rf, order, merged)
    ensures SomethingPublished(previous) ==> forall k | k in state ::
              IsCounted(0, previous, k, state[k], rf, First(state[k].config.endpoints, state[k].desiredReplicas),
                  merged)
    ensures UniqueNames(previous) ==> IsMerge(Static, previous, state, rf, merged)
  {
    if IsEmptyHashring(previous) {
      merged, order := HandleUnseenHashrings(state);
      if UniqueNames(previous) {
        MergeIsPointwise(Static, previous, state, rf, order, merged);
      }
      return;
    }
    merged, order := [], [];
    var remaining := state.Keys;
    while remaining != {}
      invariant remaining <= state.Keys
      invariant IsEnumeration(order, state.Keys - remaining)
      invariant merged == Collected(Static, previous, state, rf, order)
      decreases |remaining|
    {
      var k :| k in remaining;
      var v := state[k];
      order := order + [k];
      remaining := remaining - {k};
      assert order[..|order| - 1] + [k] == order;
      if |v.config.endpoints| >= rf && |v.config.endpoints| >= v.desiredReplicas {
        v := v.(config := v.config.(endpoints := TrimTo(v.config.endpoints, v.desiredReplicas)));
        merged := merged + [MetaToHashring(k, v)];
      } else {
        var kept := KeepPrevious(previous, k);
        merged := merged + kept;
      }
    }
    NameLessIsOrder(merged);
    merged := SortSlice(merged, NameLess);
    StaticMergeCounts(previous, state, rf, order, merged);
    if UniqueNames(previous) {
      MergeIsPointwise(Static, previous, state, rf, order, merged);
    }
  }

  // ---------------------------------------------------------------- the merge, entry by entry

  /** The lists that `f` gives for the keys, one after the other. */
  function Gather(f: string -> HashringList, order: seq<string>): HashringList {
    if order == [] then [] else Gather(f, order[..|order| - 1]) + f(order[|order| - 1])
  }

  function Dropped(order: seq<string>, i: nat): seq<string>
    requires i < |order|
  {
    order[..i] + order[i + 1..]
  }

  lemma DroppedFront(order: seq<string>, i: nat)
    requires i < |order| - 1
    ensures var front, d := order[..|order| - 1], Dropped(order, i);
            d != [] && d[..|d| - 1] == Dropped(front, i) && d[|d| - 1] == order[|order| - 1] && front[i] == order[i]
  {
  }

  lemma {:induction false} GatherDropped(f: string -> HashringList, order: seq<string>, i: nat)
    requires i < |order|
    ensures multiset(Gather(f, order)) == multiset(Gather(f, Dropped(order, i))) + multiset(f(order[i]))
  {
    if i == |order| - 1 {
      assert Dropped(order, i) == order[..i];
    } else {
      DroppedFront(order, i);
      GatherDropped(f, order[..|order| - 1], i);
    }
  }

  lemma DroppedMembers(order: seq<string>, i: nat)
    requires i < |order| && Distinct(order)
    ensures Distinct(Dropped(order, i)) && forall x :: x in Dropped(order, i) <==> x in order && x != order[i]
  {
    var d := Dropped(order, i);
    forall x | x in order && x != order[i] ensures x in d {
      var j :| 0 <= j < |order| && order[j] == x;
      assert d[if j < i then j else j - 1] == x;
    }
  }

  /** What is gathered does not depend on the order of the keys. */
  lemma {:induction false} GatherPermuted(f: string -> HashringList, a: seq<string>, b: seq<string>)
    requires Distinct(a) && Distinct(b) && forall x :: x in a <==> x in b
    ensures multiset(Gather(f, a)) == multiset(Gather(f, b))
  {
    if a == [] {
      EmptyOrInhabited(b);
    } else {
      var n := |a| - 1;
      assert a[n] in b;
      var i :| 0 <= i < |b| && b[i] == a[n];
      DroppedMembers(a, n);
      DroppedMembers(b, i);
      assert Dropped(a, n) == a[..n];
      GatherPermuted(f, a[..n], Dropped(b, i));
      GatherDropped(f, b, i);
    }
  }

  lemma {:induction false} CollectedIsGathered(policy: Policy, previous: HashringList, state: HashringState, rf: int,
                                               f: string -> HashringList, order: seq<string>)
    requires forall k | k in order :: k in state && f(k) == Contribution(policy, previous, rf, k, state[k])
    ensures Collected(policy, previous, state, rf, order) == Gather(f, order)
  {
    if order == [] {
    } else {
      var front, last := order[..|order| - 1], order[|order| - 1];
      assert order == front + [last];
      CollectedIsGathered(policy, previous, state, rf, f, front);
    }
  }

  lemma {:induction false} UnseenIsGathered(state: HashringState, f: string -> HashringList, order: seq<string>)
    requires forall k | k in order ::
             k in state && f(k) == if FullyReady(state[k]) then [MetaToHashring(k, state[k])] else []
    ensures Unseen(state, order) == Gather(f, order)
  {
    if order == [] {
    } else {
      var front, last := order[..|order| - 1], order[|order| - 1];
      assert order == front + [last];
      UnseenIsGathered(state, f, front);
    }
  }

  /** The order in which Go ranges over the fetched map changes at most the order of the result, whatever
      was published before. */
  lemma MergePermuted(policy: Policy, previous: HashringList, state: HashringState, rf: int,
                      order: seq<string>, merged: HashringList, order': seq<string>, merged': HashringList)
    requires MergeOutcome(policy, previous, state, rf, order, merged)
    requires MergeOutcome(policy, previous, state, rf, order', merged')
    ensures multiset(merged) == multiset(merged')
  {
    if IsEmptyHashring(previous) {
      var f := (k: string) => if k in state && FullyReady(state[k]) then [MetaToHashring(k, state[k])] else [];
      UnseenIsGathered(state, f, order);
      UnseenIsGathered(state, f, order');
      GatherPermuted(f, order, order');
    } else {
      var f := (k: string) => if k in state then Contribution(policy, previous, rf, k, state[k]) else [];
      CollectedIsGathered(policy, previous, state, rf, f, order);
      CollectedIsGathered(policy, previous, state, rf, f, order');
      GatherPermuted(f, order, order');
    }
  }

  /** Once something is published with unique names, not even the order of the result depends on Go's ranging. */
  lemma MergeIgnoresMapOrder(policy: Policy, previous: HashringList, state: HashringState, rf: int,
                             order: seq<string>, merged: HashringList, order': seq<string>, merged': HashringList)
    requires MergeOutcome(policy, previous, state, rf, order, merged)
    requires MergeOutcome(policy, previous, state, rf, order', merged')
    ensures multiset(merged) == multiset(merged')
    ensures UniqueNames(previous) && !IsEmptyHashring(previous) ==> merged == merged'
  {
    MergePermuted(policy, previous, state, rf, order, merged, order', merged');
    if UniqueNames(previous) && !IsEmptyHashring(previous) {
      MergeIsPointwise(policy, previous, state, rf, order, merged);
      MergeIsPointwise(policy, previous, state, rf, order', merged');
      NameLessIsOrder(merged);
      SameElements(merged, merged');
      StrictlySortedUnique(merged, merged', NameLess);
    }
  }

  /** Once something is published, a hashring that the static merge does not merely keep has exactly the
      members it asks for. */
  lemma StaticSizeIsExact(previous: HashringList, state: HashringState, rf: int, order: seq<string>,
                          merged: HashringList, h: HashringConfig)
    requires UniqueNames(previous) && !IsEmptyHashring(previous)
    requires MergeOutcome(Static, previous, state, rf, order, merged)
    requires h in merged
    requires forall k | k in state :: state[k].desiredReplicas >= 0
    ensures h.name in state && (h in previous || |h.endpoints| == state[h.name].desiredReplicas)
  {
    MergeIsPointwise(Static, previous, state, rf, order, merged);
  }
}
