// The reconcile loop of the receive router's hashring configuration: load the published list from
// its ConfigMap, merge it with the ready endpoints, store the result
// (internal/controller/thanosreceive_controller.go, internal/pkg/manifests/receive/builder.go).

module ReceiveReconcile {
  import opened Basics
  import opened Ordering
  import opened EndpointExtraction
  import opened Hashrings

  // ---------------------------------------------------------------- the stored document

  // JSON values, one optional field per key that may be absent.
  datatype JsonEndpoint =
    | JsonString(text: string)
    | JsonObject(address: Option<string>, capnprotoAddress: Option<string>, az: Option<string>)

  datatype JsonHashring = JsonHashring(
    hashring: Option<string>,
    tenants: Option<seq<string>>,
    tenantMatcherType: Option<string>,
    endpoints: Option<seq<JsonEndpoint>>,
    algorithm: Option<string>,
    externalLabels: Option<map<string, string>>)

  /** The value under the ConfigMap's hashring key. `Blank` also covers a ConfigMap that does not
      exist yet and one without data. */
  datatype Text = Blank | Corrupt | Document(entries: seq<JsonHashring>)

  function OmitEmpty(s: string): Option<string> {
    if s == "" then None else Some(s)
  }

  function OrEmpty(s: Option<string>): string {
    if s.Some? then s.value else ""
  }

  function MarshalEndpoint(e: Endpoint): JsonEndpoint {
    JsonObject(Some(e.address), Some(e.capnProtoAddress), Some(e.az))
  }

  /** `Endpoint.UnmarshalJSON`: a bare string is an address, and of an object only the address and
      the availability zone are taken. */
  function UnmarshalEndpoint(j: JsonEndpoint): Endpoint {
    match j
    case JsonString(text) => Endpoint(text, "", "")
    case JsonObject(address, _, az) => Endpoint(OrEmpty(address), "", OrEmpty(az))
  }

  function Marshal(h: HashringConfig): JsonHashring {
    JsonHashring(
      OmitEmpty(h.name),
      if h.tenants == [] then None else Some(h.tenants),
      OmitEmpty(h.tenantMatcherType),
      Some(MapSeq(MarshalEndpoint, h.endpoints)),
      OmitEmpty(h.algorithm),
      Some(h.externalLabels))
  }

  function Unmarshal(j: JsonHashring): HashringConfig {
    HashringConfig(
      OrEmpty(j.hashring),
      if j.tenants.Some? then j.tenants.value else [],
      OrEmpty(j.tenantMatcherType),
      if j.endpoints.Some? then
        MapSeq(UnmarshalEndpoint, j.endpoints.value)
      else [],
      OrEmpty(j.algorithm),
      if j.externalLabels.Some? then j.externalLabels.value else map[])
  }

  function WithoutCapnProto(e: Endpoint): Endpoint {
    e.(capnProtoAddress := "")
  }

  /** What survives a trip through the ConfigMap. */
  function Reloaded(h: HashringConfig): HashringConfig {
    h.(endpoints := MapSeq(WithoutCapnProto, h.endpoints))
  }

  lemma MarshalRoundTrip(h: HashringConfig)
    ensures Unmarshal(Marshal(h)) == Reloaded(h)
    ensures Reloaded(Reloaded(h)) == Reloaded(h)
    ensures |Reloaded(h).endpoints| == |h.endpoints|
    ensures forall i | 0 <= i < |h.endpoints| ::
              Reloaded(h).endpoints[i] == Endpoint(h.endpoints[i].address, "", h.endpoints[i].az)
    ensures Reloaded(h).(endpoints := []) == h.(endpoints := [])
  {
    assert Unmarshal(Marshal(h)).endpoints == Reloaded(h).endpoints;
    assert Reloaded(Reloaded(h)).endpoints == Reloaded(h).endpoints;
  }

  /** Endpoints may also be stored as plain addresses. */
  lemma PlainAddressesAreRead(j: JsonHashring, addresses: seq<string>)
    requires j.endpoints == Some(MapSeq((a: string) => JsonString(a), addresses))
    ensures Unmarshal(j).endpoints == MapSeq((a: string) => Endpoint(a, "", ""), addresses)
  {
  }

  /** The current hashrings read at the start of a reconcile; `None` is an unmarshalling error. */
  function Load(t: Text): Option<HashringList> {
    match t
    case Blank => Some([])
    case Corrupt => None
    case Document(entries) => Some(MapSeq(Unmarshal, entries))
  }

  /** The text a reconcile hands to the router's options. */
  function Rendered(merged: HashringList): Text {
    if |merged| == 0 then Blank
    else Document(MapSeq(Marshal, merged))
  }

  const EMPTY_HASHRING_CONFIG := Document([JsonHashring(None, None, None, None, None, None)])

  /** The ConfigMap builder: no text becomes `[{}]`. */
  function ConfigMapContents(t: Text): Text {
    if t.Blank? then EMPTY_HASHRING_CONFIG else t
  }

  function Store(merged: HashringList): Text {
    ConfigMapContents(Rendered(merged))
  }

  function ReloadedList(merged: HashringList): HashringList {
    MapSeq(Reloaded, merged)
  }

  /** Storing and loading gives back every hashring without its Cap'n Proto addresses; an empty
      result comes back as something the merge treats as empty. */
  lemma StoreLoadRoundTrip(merged: HashringList)
    ensures merged != [] ==> Load(Store(merged)) == Some(ReloadedList(merged))
    ensures Load(Store([])) == Some([HashringConfig("", [], "", [], "", map[])])
    ensures IsEmptyHashring(Load(Store([])).value)
  {
    forall i | 0 <= i < |merged| ensures Unmarshal(Marshal(merged[i])) == Reloaded(merged[i]) {
      MarshalRoundTrip(merged[i]);
    }
    if merged != [] {
      assert Load(Store(merged)).value == ReloadedList(merged);
    }
    assert Load(Store([])).value == [HashringConfig("", [], "", [], "", map[])];
  }

  // ---------------------------------------------------------------- the spec

  datatype TenancyConfig = TenancyConfig(tenants: seq<string>, tenantMatcherType: string)

  datatype HashringSpec = HashringSpec(
    name: string,
    replicas: int,
    hashingAlgorithm: Option<string>,
    tenancyConfig: Option<TenancyConfig>)

  datatype ReceiveSpec = ReceiveSpec(
    hashrings: seq<HashringSpec>,
    replicationFactor: int,
    replicationProtocol: Option<string>,
    hashringPolicy: Option<string>)

  /** The API server's answer to listing the EndpointSlices of each hashring's Service; a missing
      key is a failed call. */
  type SliceListings = map<string, seq<EndpointSlice>>

  /** A spec without a policy is merged dynamically; the API server does not let one through, as it fills in
      the static policy. */
  function PolicyOf(spec: ReceiveSpec): Policy {
    if spec.hashringPolicy == Some("static") then Static else Dynamic
  }

  function ConverterOf(spec: ReceiveSpec): EndpointConverter {
    if spec.replicationProtocol == Some("capnproto") then CapnProtoConverter else DefaultConverter
  }

  function AlgorithmOf(h: HashringSpec): string {
    if h.hashingAlgorithm == Some("hashmod") then "hashmod" else "ketama"
  }

  /** `m` describes `h` with the endpoints that are ready according to the listings. */
  ghost predicate Describes(spec: ReceiveSpec, listings: SliceListings, h: HashringSpec, m: HashringMeta) {
    && h.name in listings
    && m.desiredReplicas == h.replicas
    && IsExtraction(ConverterOf(spec), listings[h.name], [Ready], m.config.endpoints)
    && m.config.name == h.name
    && m.config.algorithm == AlgorithmOf(h)
    && m.config.externalLabels == map[]
    && m.config.tenants == (if h.tenancyConfig.Some? then h.tenancyConfig.value.tenants else [])
    && m.config.tenantMatcherType == (if h.tenancyConfig.Some? then h.tenancyConfig.value.tenantMatcherType else "")
  }

  /** The fetched map after the first `n` hashrings of the spec: a later hashring of the same name wins. */
  function Fetched(spec: ReceiveSpec, metas: seq<HashringMeta>, n: nat): HashringState
    requires n <= |spec.hashrings| && n <= |metas|
  {
    if n == 0 then map[] else Fetched(spec, metas, n - 1)[spec.hashrings[n - 1].name := metas[n - 1]]
  }

  /** `metas` describe the first `n` hashrings of the spec. */
  ghost predicate DescribesFirst(spec: ReceiveSpec, listings: SliceListings, metas: seq<HashringMeta>, n: nat)
    requires n <= |spec.hashrings|
  {
    |metas| == n && forall i | 0 <= i < n :: Describes(spec, listings, spec.hashrings[i], metas[i])
  }

  lemma DescribesSnoc(spec: ReceiveSpec, listings: SliceListings, metas: seq<HashringMeta>, n: nat, m: HashringMeta)
    requires n < |spec.hashrings| && DescribesFirst(spec, listings, metas, n)
             && Describes(spec, listings, spec.hashrings[n], m)
    ensures DescribesFirst(spec, listings, metas + [m], n + 1)
  {
  }

  ghost predicate IsFetchedState(spec: ReceiveSpec, listings: SliceListings, state: HashringState) {
    exists metas: seq<HashringMeta> ::
      DescribesFirst(spec, listings, metas, |spec.hashrings|) && state == Fetched(spec, metas, |metas|)
  }

  /** The hashring's endpoints cannot be fetched: the listing failed or a ready endpoint has no hostname. */
  ghost predicate Unfetchable(listings: SliceListings, h: HashringSpec) {
    h.name !in listings || MissingHostname(listings[h.name], [Ready])
  }

  ghost predicate AllFetchable(spec: ReceiveSpec, listings: SliceListings, n: nat)
    requires n <= |spec.hashrings|
  {
    forall i | 0 <= i < n :: !Unfetchable(listings, spec.hashrings[i])
  }

  ghost predicate FetchFails(spec: ReceiveSpec, listings: SliceListings) {
    !AllFetchable(spec, listings, |spec.hashrings|)
  }

  method DescribeHashring(spec: ReceiveSpec, listings: SliceListings, h: HashringSpec) returns (m: Option<HashringMeta>)
    ensures m.None? <==> Unfetchable(listings, h)
    ensures m.Some? ==> Describes(spec, listings, h, m.value)
  {
    if h.name !in listings {
      return None;
    }
    var endpoints := EndpointSliceListToEndpoints(ConverterOf(spec), listings[h.name], [Ready]);
    if endpoints.None? {
      return None;
    }
    var config := HashringConfig(h.name, [], "", endpoints.value, AlgorithmOf(h), map[]);
    if h.tenancyConfig.Some? {
      config := config.(
        tenants := h.tenancyConfig.value.tenants,
        tenantMatcherType := h.tenancyConfig.value.tenantMatcherType);
    }
    m := Some(HashringMeta(h.replicas, config));
  }

  lemma {:induction false} FetchedPrefix(spec: ReceiveSpec, metas: seq<HashringMeta>, m: HashringMeta, n: nat)
    requires n <= |spec.hashrings| && n <= |metas|
    ensures Fetched(spec, metas + [m], n) == Fetched(spec, metas, n)
  {
    if n == 0 {
    } else {
      FetchedPrefix(spec, metas, m, n - 1);
    }
  }

  method FetchReadyState(spec: ReceiveSpec, listings: SliceListings) returns (state: Option<HashringState>)
    ensures state.None? <==> FetchFails(spec, listings)
    ensures state.Some? ==> IsFetchedState(spec, listings, state.value)
  {
    var fetched: HashringState := map[];
    ghost var metas: seq<HashringMeta> := [];
    for n := 0 to |spec.hashrings|
      invariant AllFetchable(spec, listings, n)
      invariant DescribesFirst(spec, listings, metas, n) && fetched == Fetched(spec, metas, n)
    {
      var h := spec.hashrings[n];
      var m := DescribeHashring(spec, listings, h);
      if m.None? {
        return None;
      }
      FetchedPrefix(spec, metas, m.value, n);
      DescribesSnoc(spec, listings, metas, n, m.value);
      metas := metas + [m.value];
      fetched := fetched[h.name := m.value];
    }
    state := Some(fetched);
  }

  lemma {:induction false} FetchedEntries(spec: ReceiveSpec, metas: seq<HashringMeta>, n: nat)
    requires n <= |spec.hashrings| && n <= |metas|
    ensures forall i | 0 <= i < n :: spec.hashrings[i].name in Fetched(spec, metas, n)
    ensures forall k | k in Fetched(spec, metas, n) ::
              exists i :: 0 <= i < n && spec.hashrings[i].name == k && Fetched(spec, metas, n)[k] == metas[i]
  {
    if n == 0 {
    } else {
      FetchedEntries(spec, metas, n - 1);
    }
  }

  /** What is fetched for a hashring of the spec, seen from the spec and the EndpointSlices of its Service: the
      endpoints of the ready members, the algorithm and the tenants. Of hashrings of one name the last counts. */
  ghost predicate IsFetchedFor(spec: ReceiveSpec, slices: seq<EndpointSlice>, h: HashringSpec, m: HashringMeta) {
    var c := m.config;
    var converter := if spec.replicationProtocol == Some("capnproto") then CapnProtoConverter else DefaultConverter;
    && m.desiredReplicas == h.replicas && c.name == h.name && c.externalLabels == map[]
    && (forall e :: e in c.endpoints <==> exists slice, ep ::
          slice in slices && ep in slice.members && ep.ready == Some(true) && IsEndpointOf(converter, slice, ep, e))
    && (forall i, j | 0 <= i < j < |c.endpoints| :: Before(c.endpoints[i].address, c.endpoints[j].address))
    && c.algorithm == (if h.hashingAlgorithm == Some("hashmod") then "hashmod" else "ketama")
    && (match h.tenancyConfig
        case Some(t) => c.tenants == t.tenants && c.tenantMatcherType == t.tenantMatcherType
        case None => c.tenants == [] && c.tenantMatcherType == "")
  }

  lemma {:induction false} LastIsFetched(spec: ReceiveSpec, metas: seq<HashringMeta>, i: nat, n: nat)
    requires i < n <= |spec.hashrings| && n <= |metas|
    requires forall j | i < j < n :: spec.hashrings[j].name != spec.hashrings[i].name
    ensures spec.hashrings[i].name in Fetched(spec, metas, n)
    ensures Fetched(spec, metas, n)[spec.hashrings[i].name] == metas[i]
    decreases n
  {
    if n == i + 1 {
    } else {
      LastIsFetched(spec, metas, i, n - 1);
    }
  }

  lemma DescribedMeaning(spec: ReceiveSpec, listings: SliceListings, h: HashringSpec, m: HashringMeta)
    requires Describes(spec, listings, h, m)
    ensures IsFetchedFor(spec, listings[h.name], h, m)
  {
    ReadyMembersServe(ConverterOf(spec), listings[h.name], m.config.endpoints);
  }

  lemma FetchedMeaning(spec: ReceiveSpec, listings: SliceListings, state: HashringState, i: nat)
    requires IsFetchedState(spec, listings, state) && i < |spec.hashrings|
    requires forall j | i < j < |spec.hashrings| :: spec.hashrings[j].name != spec.hashrings[i].name
    ensures var h := spec.hashrings[i];
            h.name in state && h.name in listings && IsFetchedFor(spec, listings[h.name], h, state[h.name])
  {
    var metas: seq<HashringMeta> :|
      DescribesFirst(spec, listings, metas, |spec.hashrings|) && state == Fetched(spec, metas, |metas|);
    LastIsFetched(spec, metas, i, |metas|);
    assert Describes(spec, listings, spec.hashrings[i], metas[i]);
    DescribedMeaning(spec, listings, spec.hashrings[i], metas[i]);
  }

  // ---------------------------------------------------------------- one reconcile

  /** `t'` may follow `t` when a reconcile with this policy and fetched state succeeds. */
  ghost predicate Reconciled(policy: Policy, rf: int, state: HashringState, t: Text, t': Text) {
    exists order, merged ::
      && Load(t).Some?
      && MergeOutcome(policy, Load(t).value, state, rf, order, merged)
      && t' == Store(merged)
  }

  /** `buildHashringConfig`. `stored` is `None` when the ConfigMap cannot be read; the result is `None` on error. */
  method BuildHashringConfig(stored: Option<Text>, spec: ReceiveSpec, listings: SliceListings)
    returns (config: Option<Text>, ghost state: HashringState)
    ensures config.None? <==> stored.None? || stored.value.Corrupt? || FetchFails(spec, listings)
    ensures config.Some? ==>
              && IsFetchedState(spec, listings, state)
              && Reconciled(PolicyOf(spec), spec.replicationFactor, state, stored.value,
                            ConfigMapContents(config.value))
  {
    config, state := None, map[];
    if stored.None? {
      return;
    }
    var current := Load(stored.value);
    if current.None? {
      return;
    }
    var fetched := FetchReadyState(spec, listings);
    if fetched.None? {
      return;
    }
    state := fetched.value;
    var merged;
    ghost var order;
    if spec.hashringPolicy == Some("static") {
      merged, order := StaticMerge(current.value, fetched.value, spec.replicationFactor);
    } else {
      merged, order := DynamicMerge(current.value, fetched.value, spec.replicationFactor);
    }
    config := Some(Rendered(merged));
    assert MergeOutcome(PolicyOf(spec), Load(stored.value).value, state, spec.replicationFactor, order, merged);
  }

  /** The router's ConfigMap and the part of a reconcile that rewrites it. */
  class RouterConfigMap {
    var text: Text

    constructor ()
      ensures text == Blank
    {
      text := Blank;
    }

    /** `readable` and `written` say whether the read and the later write of the ConfigMap succeed. */
    method Reconcile(spec: ReceiveSpec, listings: SliceListings, readable: bool, written: bool)
      returns (ghost state: HashringState, ok: bool)
      modifies this
      ensures ok <==> readable && written && !old(text).Corrupt? && !FetchFails(spec, listings)
      ensures ok ==> IsFetchedState(spec, listings, state)
                     && Reconciled(PolicyOf(spec), spec.replicationFactor, state, old(text), text)
      ensures !ok ==> text == old(text)
    {
      var config;
      config, state := BuildHashringConfig(if readable then Some(text) else None, spec, listings);
      ok := config.Some? && written;
      if ok {
        text := ConfigMapContents(config.value);
      }
    }
  }

  // ---------------------------------------------------------------- well-formed states

  /** The hashrings a stored document publishes; the sentinel publishes none. */
  function Published(t: Text): HashringList {
    if Load(t).Some? && !IsEmptyHashring(Load(t).value) then Load(t).value else []
  }

  predicate AtLeast(list: HashringList, floor: int) {
    forall h | h in list :: |h.endpoints| >= floor
  }

  /** Names are unique and every published hashring has at least `floor` endpoints. The documents a
      reconcile may meet are those with a floor of one: no hashring without endpoints, or the sentinel. */
  ghost predicate Healthy(t: Text, floor: int) {
    && Load(t).Some?
    && UniqueNames(Published(t))
    && AtLeast(Published(t), floor)
  }

  ghost predicate Publishing(t: Text, k: string) {
    exists h :: h in Published(t) && h.name == k
  }

  /** What admission validation guarantees of the spec behind a fetched state. */
  ghost predicate Admissible(rf: int, state: HashringState) {
    && rf >= 1
    && forall k | k in state :: state[k].desiredReplicas >= rf
  }

  /** The validation rule of the API, `replicas >= replicationFactor >= 1` in every hashring, makes the
      fetched state admissible; its names are those of the spec. */
  lemma AdmissibleSpec(spec: ReceiveSpec, listings: SliceListings, state: HashringState)
    requires spec.replicationFactor >= 1 && forall h | h in spec.hashrings :: h.replicas >= spec.replicationFactor
    requires IsFetchedState(spec, listings, state)
    ensures Admissible(spec.replicationFactor, state)
    ensures forall k :: k in state <==> exists h :: h in spec.hashrings && h.name == k
  {
    var metas: seq<HashringMeta> :|
      DescribesFirst(spec, listings, metas, |spec.hashrings|) && state == Fetched(spec, metas, |metas|);
    FetchedEntries(spec, metas, |metas|);
    forall k | k in state ensures state[k].desiredReplicas >= spec.replicationFactor
                                  && exists h :: h in spec.hashrings && h.name == k
    {
      var i :| 0 <= i < |metas| && spec.hashrings[i].name == k && state[k] == metas[i];
      assert Describes(spec, listings, spec.hashrings[i], metas[i]);
      assert spec.hashrings[i] in spec.hashrings;
    }
  }

  /** The next reconcile admits the ready members: all of them at bootstrap, enough of them later. */
  predicate Takes(policy: Policy, rf: int, t: Text, m: HashringMeta) {
    if Published(t) == [] then FullyReady(m) else Admits(policy, rf, m)
  }

  /** What it then publishes; bootstrap does not trim. */
  function Taken(policy: Policy, t: Text, key: string, m: HashringMeta): HashringConfig {
    if Published(t) == [] then MetaToHashring(key, m) else Admitted(policy, key, m)
  }

  /** A successful reconcile, entry by entry and seen from the ConfigMap before and after. */
  ghost predicate EntryAfter(policy: Policy, rf: int, state: HashringState, t: Text, h: HashringConfig) {
    && h.name in state
    && var m := state[h.name];
       if Takes(policy, rf, t, m) then h == Reloaded(Taken(policy, t, h.name, m)) else h in Published(t)
  }

  lemma ReloadedMembers(list: HashringList)
    ensures forall g :: g in ReloadedList(list) <==> exists h :: h in list && g == Reloaded(h)
    ensures UniqueNames(list) ==> UniqueNames(ReloadedList(list))
  {
    var r := ReloadedList(list);
    forall g | g in r ensures exists h :: h in list && g == Reloaded(h) {
      var i :| 0 <= i < |r| && r[i] == g;
      assert list[i] in list;
    }
    forall h | h in list ensures Reloaded(h) in r {
      var i :| 0 <= i < |list| && list[i] == h;
      assert r[i] == Reloaded(h);
    }
    if UniqueNames(list) {
      forall i, j | 0 <= i < j < |r| ensures r[i].name != r[j].name {
        assert r[i].name == list[i].name && r[j].name == list[j].name;
      }
    }
  }

  lemma UnmarshalledIsReloaded(j: JsonHashring)
    ensures Reloaded(Unmarshal(j)) == Unmarshal(j)
  {
    assert Reloaded(Unmarshal(j)).endpoints == Unmarshal(j).endpoints;
  }

  /** Everything a document publishes was read back, so reloading it changes nothing. */
  lemma PublishedIsReloaded(t: Text, h: HashringConfig)
    requires h in Published(t)
    ensures Reloaded(h) == h
  {
    var entries := t.entries;
    var i :| 0 <= i < |entries| && Unmarshal(entries[i]) == h;
    UnmarshalledIsReloaded(entries[i]);
  }

  lemma PublishedSize(policy: Policy, previous: HashringList, state: HashringState, rf: int, floor: int,
                      g: HashringConfig)
    requires Admissible(rf, state) && Publishes(policy, previous, state, rf, g) && floor <= rf
    requires IsEmptyHashring(previous) || AtLeast(previous, floor)
    ensures |g.endpoints| >= floor
  {
  }

  lemma UniqueNamesSmall(list: HashringList)
    requires |list| <= 1
    ensures UniqueNames(list)
  {
  }

  /** The list behind a successful reconcile of an admissible spec. */
  lemma MergedList(policy: Policy, rf: int, floor: int, state: HashringState, t: Text, t': Text)
    returns (merged: HashringList)
    requires Healthy(t, floor) && Admissible(rf, state) && floor <= rf
    requires Reconciled(policy, rf, state, t, t')
    ensures t' == Store(merged)
    ensures IsMerge(policy, Load(t).value, state, rf, merged) && AtLeast(merged, floor)
  {
    var previous := Load(t).value;
    var order;
    order, merged :| MergeOutcome(policy, previous, state, rf, order, merged) && t' == Store(merged);
    if IsEmptyHashring(previous) {
      UniqueNamesSmall(previous);
    }
    MergeIsPointwise(policy, previous, state, rf, order, merged);
    forall g | g in merged ensures |g.endpoints| >= floor {
      PublishedSize(policy, previous, state, rf, floor, g);
    }
  }

  lemma EntryForward(policy: Policy, rf: int, state: HashringState, t: Text, g: HashringConfig)
    requires Load(t).Some? && Publishes(policy, Load(t).value, state, rf, g)
    ensures EntryAfter(policy, rf, state, t, Reloaded(g))
  {
    if !IsEmptyHashring(Load(t).value) && g in Load(t).value {
      PublishedIsReloaded(t, g);
    }
  }

  lemma EntryBackward(policy: Policy, rf: int, state: HashringState, t: Text, h: HashringConfig)
    returns (g: HashringConfig)
    requires Load(t).Some? && EntryAfter(policy, rf, state, t, h)
    ensures Publishes(policy, Load(t).value, state, rf, g) && Reloaded(g) == h
  {
    var m := state[h.name];
    if IsEmptyHashring(Load(t).value) {
      g := MetaToHashring(h.name, m);
    } else if Admits(policy, rf, m) {
      g := Admitted(policy, h.name, m);
    } else {
      g := h;
      PublishedIsReloaded(t, h);
    }
  }

  lemma ReloadedEntry(policy: Policy, rf: int, state: HashringState, t: Text, merged: HashringList, h: HashringConfig)
    requires Load(t).Some? && forall g :: g in merged <==> Publishes(policy, Load(t).value, state, rf, g)
    ensures h in ReloadedList(merged) <==> EntryAfter(policy, rf, state, t, h)
  {
    ReloadedMembers(merged);
    if h in ReloadedList(merged) {
      var g :| g in merged && h == Reloaded(g);
      EntryForward(policy, rf, state, t, g);
    }
    if EntryAfter(policy, rf, state, t, h) {
      var g := EntryBackward(policy, rf, state, t, h);
      assert g in merged;
    }
  }

  lemma PublishedAfterStore(merged: HashringList, floor: int)
    requires floor >= 1 && AtLeast(merged, floor)
    ensures Published(Store(merged)) == ReloadedList(merged) && AtLeast(ReloadedList(merged), floor)
    ensures Load(Store(merged)).Some?
    ensures merged != [] ==> Load(Store(merged)) == Some(ReloadedList(merged))
  {
    StoreLoadRoundTrip(merged);
    ReloadedMembers(merged);
    if merged != [] {
      assert merged[0] in merged;
    }
  }

  /** The step theorem: after any successful reconcile of an admissible spec the document is healthy
      and publishes exactly the entries it should. */
  lemma StepEntries(policy: Policy, rf: int, floor: int, state: HashringState, t: Text, t': Text)
    requires Healthy(t, floor) && Admissible(rf, state) && 1 <= floor <= rf
    requires Reconciled(policy, rf, state, t, t')
    ensures Healthy(t', floor)
    ensures forall h :: h in Published(t') <==> EntryAfter(policy, rf, state, t, h)
  {
    var merged := MergedList(policy, rf, floor, state, t, t');
    PublishedAfterStore(merged, floor);
    ReloadedMembers(merged);
    forall h ensures h in Published(t') <==> EntryAfter(policy, rf, state, t, h) {
      ReloadedEntry(policy, rf, state, t, merged, h);
    }
  }

  /** A name is published after a reconcile exactly when the spec has it and it either was published
      already or has reached the threshold that applies. */
  lemma PublishedExactlyWhen(policy: Policy, rf: int, state: HashringState, t: Text, t': Text, k: string)
    requires Healthy(t, 1) && Admissible(rf, state)
    requires Reconciled(policy, rf, state, t, t')
    ensures Publishing(t', k) <==> k in state && (Publishing(t, k) || Takes(policy, rf, t, state[k]))
  {
    StepEntries(policy, rf, 1, state, t, t');
    if k in state {
      if Takes(policy, rf, t, state[k]) {
        assert EntryAfter(policy, rf, state, t, Reloaded(Taken(policy, t, k, state[k])));
      } else if Publishing(t, k) {
        var h :| h in Published(t) && h.name == k;
        assert EntryAfter(policy, rf, state, t, h);
      }
    }
  }

  /** Enough members are ready: not fewer than the replication factor, and all that are desired or, once
      something is published and unless the policy is static, all but one. */
  predicate EnoughReady(spec: ReceiveSpec, bootstrap: bool, m: HashringMeta) {
    var ready := |m.config.endpoints|;
    && ready >= spec.replicationFactor
    && (ready >= m.desiredReplicas
        || (!bootstrap && spec.hashringPolicy != Some("static") && ready + 1 >= m.desiredReplicas))
  }

  /** The ready members, of which the static policy takes no more than are desired. */
  function ReadyTaken(spec: ReceiveSpec, bootstrap: bool, m: HashringMeta): seq<Endpoint> {
    if spec.hashringPolicy == Some("static") && !bootstrap then First(m.config.endpoints, m.desiredReplicas)
    else m.config.endpoints
  }

  lemma TakenCounts(spec: ReceiveSpec, t: Text, k: string, m: HashringMeta)
    requires m.desiredReplicas >= spec.replicationFactor
    ensures Takes(PolicyOf(spec), spec.replicationFactor, t, m) <==> EnoughReady(spec, Published(t) == [], m)
    ensures Taken(PolicyOf(spec), t, k, m) == Described(k, m, ReadyTaken(spec, Published(t) == [], m))
  {
  }

  /** A whole reconcile in counts of members, from one document to the next: a hashring of the spec is published
      with its ready members if these are enough, and otherwise stays as it was. */
  lemma ReconcileCounts(spec: ReceiveSpec, state: HashringState, t: Text, t': Text, h: HashringConfig)
    requires Healthy(t, 1) && Admissible(spec.replicationFactor, state)
    requires Reconciled(PolicyOf(spec), spec.replicationFactor, state, t, t')
    ensures h in Published(t') <==>
            && h.name in state
            && var m, bootstrap := state[h.name], Published(t) == [];
               if EnoughReady(spec, bootstrap, m)
               then h == Reloaded(Described(h.name, m, ReadyTaken(spec, bootstrap, m)))
               else h in Published(t)
  {
    StepEntries(PolicyOf(spec), spec.replicationFactor, 1, state, t, t');
    if h.name in state {
      TakenCounts(spec, t, h.name, state[h.name]);
    }
    assert h in Published(t') <==> EntryAfter(PolicyOf(spec), spec.replicationFactor, state, t, h);
  }

  // ---------------------------------------------------------------- stabilisation

  /** Full readiness is at least admission, so bootstrap publishes nothing the merge would not. */
  lemma FullyReadyIsAdmitted(policy: Policy, rf: int, state: HashringState, k: string)
    requires Admissible(rf, state) && k in state && FullyReady(state[k])
    ensures Admits(policy, rf, state[k])
  {
  }

  lemma SettledEntry(policy: Policy, rf: int, state: HashringState, t0: Text, p1: HashringList, m1: HashringList,
                     h: HashringConfig)
    requires Published(t0) != []
    requires forall g :: g in m1 <==> Publishes(policy, Published(t0), state, rf, g)
    requires p1 == ReloadedList(m1) && !IsEmptyHashring(p1)
    ensures h in m1 <==> Publishes(policy, p1, state, rf, h)
  {
    ReloadedMembers(m1);
    if h.name in state && !Admits(policy, rf, state[h.name]) {
      if h in m1 {
        PublishedIsReloaded(t0, h);
        assert Reloaded(h) in p1;
      }
      if h in p1 {
        var g :| g in m1 && h == Reloaded(g);
        PublishedIsReloaded(t0, g);
      }
    }
  }

  /** The list merged from a reloaded merge is that merge again. */
  lemma SettledLists(policy: Policy, rf: int, state: HashringState, t0: Text, m1: HashringList, m2: HashringList)
    requires Published(t0) != [] && m1 != [] && !IsEmptyHashring(ReloadedList(m1))
    requires IsMerge(policy, Published(t0), state, rf, m1) && IsMerge(policy, ReloadedList(m1), state, rf, m2)
    ensures m1 == m2
  {
    forall h ensures h in m1 <==> h in m2 {
      SettledEntry(policy, rf, state, t0, ReloadedList(m1), m1, h);
    }
    NameLessIsOrder(m1);
    StrictlySortedUnique(m1, m2, NameLess);
  }

  /** What bootstrap would publish now, any reconcile of the same state has published before. */
  lemma BootstrapEntry(policy: Policy, rf: int, state: HashringState, t0: Text, h: HashringConfig)
    returns (g: HashringConfig)
    requires Admissible(rf, state) && Load(t0).Some?
    requires h.name in state && FullyReady(state[h.name])
    ensures EntryAfter(policy, rf, state, t0, g)
  {
    FullyReadyIsAdmitted(policy, rf, state, h.name);
    g := Reloaded(Taken(policy, t0, h.name, state[h.name]));
  }

  lemma NothingMerged(policy: Policy, rf: int, state: HashringState, t0: Text, published: HashringList,
                      previous: HashringList, merged: HashringList)
    requires Admissible(rf, state) && Load(t0).Some? && published == [] && IsEmptyHashring(previous)
    requires forall h :: h in published <==> EntryAfter(policy, rf, state, t0, h)
    requires forall g :: g in merged <==> Publishes(policy, previous, state, rf, g)
    ensures merged == []
  {
    forall h ensures h !in merged {
      if h in merged {
        var g := BootstrapEntry(policy, rf, state, t0, h);
      }
    }
    EmptyOrInhabited(merged);
  }

  /** If a reconcile publishes nothing, so does the next one, and it stores the same sentinel. */
  lemma EmptyStaysEmpty(policy: Policy, rf: int, state: HashringState, t0: Text, t1: Text, t2: Text)
    requires Healthy(t0, 1) && Healthy(t1, 1) && Admissible(rf, state)
    requires Reconciled(policy, rf, state, t0, t1) && Reconciled(policy, rf, state, t1, t2)
    requires Published(t1) == []
    ensures t2 == EMPTY_HASHRING_CONFIG && Published(t2) == []
  {
    StepEntries(policy, rf, 1, state, t0, t1);
    var merged := MergedList(policy, rf, 1, state, t1, t2);
    NothingMerged(policy, rf, state, t0, Published(t1), Load(t1).value, merged);
  }

  /** Once something is published, one reconcile reaches the fixpoint of an unchanging world. */
  lemma StableAfterOne(policy: Policy, rf: int, state: HashringState, t0: Text, t1: Text, t2: Text)
    requires Healthy(t0, 1) && Admissible(rf, state)
    requires Published(t0) != []
    requires Reconciled(policy, rf, state, t0, t1) && Reconciled(policy, rf, state, t1, t2)
    ensures t2 == t1
  {
    StepEntries(policy, rf, 1, state, t0, t1);
    if Published(t1) == [] {
      EmptyStaysEmpty(policy, rf, state, t0, t1, t2);
      var m1 := MergedList(policy, rf, 1, state, t0, t1);
      PublishedAfterStore(m1, 1);
    } else {
      var m1 := MergedList(policy, rf, 1, state, t0, t1);
      var m2 := MergedList(policy, rf, 1, state, t1, t2);
      PublishedAfterStore(m1, 1);
      SettledLists(policy, rf, state, t0, m1, m2);
    }
  }

  /** From any document without empty hashrings, an unchanging world is a fixpoint after at most two reconciles. */
  lemma StableAfterTwo(policy: Policy, rf: int, state: HashringState, t0: Text, t1: Text, t2: Text, t3: Text)
    requires Healthy(t0, 1) && Admissible(rf, state)
    requires Reconciled(policy, rf, state, t0, t1)
    requires Reconciled(policy, rf, state, t1, t2)
    requires Reconciled(policy, rf, state, t2, t3)
    ensures t3 == t2
  {
    StepEntries(policy, rf, 1, state, t0, t1);
    if Published(t1) != [] {
      StableAfterOne(policy, rf, state, t1, t2, t3);
    } else {
      StepEntries(policy, rf, 1, state, t1, t2);
      EmptyStaysEmpty(policy, rf, state, t0, t1, t2);
      EmptyStaysEmpty(policy, rf, state, t1, t2, t3);
    }
  }

  // ---------------------------------------------------------------- when bootstrap is final

  lemma MarshalInjective(h: HashringConfig, g: HashringConfig)
    requires Marshal(h) == Marshal(g)
    ensures h == g
  {
    var a, b := MapSeq(MarshalEndpoint, h.endpoints), MapSeq(MarshalEndpoint, g.endpoints);
    forall i | 0 <= i < |h.endpoints| ensures h.endpoints[i] == g.endpoints[i] {
      assert a[i] == b[i];
    }
    assert h.endpoints == g.endpoints;
  }

  lemma EmptyIsStoredApart(a: HashringList)
    ensures Store(a) == EMPTY_HASHRING_CONFIG <==> a == []
  {
    if a != [] {
      assert Store(a).entries[0] == Marshal(a[0]);
    }
  }

  /** Different lists are stored differently. */
  lemma StoreInjective(a: HashringList, b: HashringList)
    requires Store(a) == Store(b)
    ensures a == b
  {
    if a == [] || b == [] {
      EmptyIsStoredApart(a);
      EmptyIsStoredApart(b);
    } else {
      var x, y := MapSeq(Marshal, a), MapSeq(Marshal, b);
      forall i | 0 <= i < |a| ensures a[i] == b[i] {
        assert x[i] == y[i];
        MarshalInjective(a[i], b[i]);
      }
    }
  }

  /** All admitted hashrings are fully ready and, under the static policy, of exactly the desired size. */
  predicate AdmittedExactly(policy: Policy, rf: int, state: HashringState) {
    forall k | k in state && Admits(policy, rf, state[k]) ::
      FullyReady(state[k]) && (policy.Static? ==> |state[k].config.endpoints| == state[k].desiredReplicas)
  }

  predicate NobodyReady(state: HashringState) {
    forall k | k in state :: !FullyReady(state[k])
  }

  lemma AdmittedAsBootstrapped(policy: Policy, rf: int, state: HashringState, k: string)
    requires k in state && FullyReady(state[k]) && state[k].desiredReplicas >= 0
    ensures Admitted(policy, k, state[k]) == MetaToHashring(k, state[k])
            <==> (policy.Static? ==> |state[k].config.endpoints| == state[k].desiredReplicas)
  {
  }

  /** A bootstrapped list and the merge after it have the same entries exactly when this holds. */
  lemma BootstrapEntriesStay(policy: Policy, rf: int, state: HashringState, previous: HashringList, m1: HashringList,
                             m2: HashringList)
    requires Admissible(rf, state) && IsEmptyHashring(previous) && !IsEmptyHashring(ReloadedList(m1))
    requires IsMerge(policy, previous, state, rf, m1) && IsMerge(policy, ReloadedList(m1), state, rf, m2)
    ensures (forall h :: h in m1 <==> h in m2) <==> AdmittedExactly(policy, rf, state)
  {
    ReloadedMembers(m1);
    forall k | k in state && FullyReady(state[k]) ensures Admits(policy, rf, state[k]) {
      FullyReadyIsAdmitted(policy, rf, state, k);
    }
    if forall h :: h in m1 <==> h in m2 {
      forall k | k in state && Admits(policy, rf, state[k])
        ensures FullyReady(state[k]) && (policy.Static? ==> |state[k].config.endpoints| == state[k].desiredReplicas)
      {
        var h := Admitted(policy, k, state[k]);
        assert Publishes(policy, ReloadedList(m1), state, rf, h) && h in m2 && h in m1;
        AdmittedAsBootstrapped(policy, rf, state, k);
      }
    }
    forall h | h in ReloadedList(m1) ensures h.name in state && Admits(policy, rf, state[h.name]) {
      var g :| g in m1 && h == Reloaded(g);
    }
    if AdmittedExactly(policy, rf, state) {
      forall h ensures h in m1 <==> h in m2 {
        if h.name in state && FullyReady(state[h.name]) {
          AdmittedAsBootstrapped(policy, rf, state, h.name);
        }
      }
    }
  }

  lemma ReloadKeepsOrder(m: HashringList)
    ensures StrictlySorted(ReloadedList(m), NameLess) <==> StrictlySorted(m, NameLess)
  {
    var r := ReloadedList(m);
    assert forall i | 0 <= i < |m| :: r[i].name == m[i].name;
    if StrictlySorted(m, NameLess) {
      forall i, j | 0 <= i < j < |r| ensures NameLess(r[i], r[j]) {
        assert NameLess(m[i], m[j]);
      }
    }
    if StrictlySorted(r, NameLess) {
      forall i, j | 0 <= i < j < |m| ensures NameLess(m[i], m[j]) {
        assert NameLess(r[i], r[j]);
      }
    }
  }

  lemma BootstrapIsEmptyExactlyWhen(policy: Policy, rf: int, state: HashringState, previous: HashringList,
                                    m1: HashringList)
    requires IsEmptyHashring(previous) && IsMerge(policy, previous, state, rf, m1)
    ensures m1 == [] <==> NobodyReady(state)
  {
    forall k | k in state && FullyReady(state[k]) ensures m1 != [] {
      assert Publishes(policy, previous, state, rf, MetaToHashring(k, state[k]));
    }
    if m1 != [] {
      assert m1[0] in m1 && Publishes(policy, previous, state, rf, m1[0]);
    }
  }

  /** A list equals a sorted one exactly when it is sorted and has the same entries. */
  lemma SameSortedList(a: HashringList, b: HashringList)
    requires StrictlySorted(b, NameLess)
    ensures a == b <==> StrictlySorted(a, NameLess) && forall h :: h in a <==> h in b
  {
    if StrictlySorted(a, NameLess) && forall h :: h in a <==> h in b {
      NameLessIsOrder(a);
      StrictlySortedUnique(a, b, NameLess);
    }
  }

  /** Bootstrap is final, so that the next reconcile of an unchanging world stores the same document, exactly
      when nobody is ready, or the map happened to be enumerated by name and every admitted hashring is
      fully ready and, under the static policy, needs no trimming. */
  lemma BootstrapIsFinalExactlyWhen(policy: Policy, rf: int, state: HashringState, t0: Text, t1: Text, t2: Text)
    requires Healthy(t0, 1) && Published(t0) == [] && Admissible(rf, state)
    requires Reconciled(policy, rf, state, t0, t1) && Reconciled(policy, rf, state, t1, t2)
    ensures t2 == t1 <==>
            NobodyReady(state) || (StrictlySorted(Published(t1), NameLess) && AdmittedExactly(policy, rf, state))
  {
    StepEntries(policy, rf, 1, state, t0, t1);
    var previous := Load(t0).value;
    var m1 := MergedList(policy, rf, 1, state, t0, t1);
    var m2 := MergedList(policy, rf, 1, state, t1, t2);
    PublishedAfterStore(m1, 1);
    BootstrapIsEmptyExactlyWhen(policy, rf, state, previous, m1);
    if m1 == [] {
      EmptyStaysEmpty(policy, rf, state, t0, t1, t2);
    } else {
      BootstrapEntriesStay(policy, rf, state, previous, m1, m2);
      ReloadKeepsOrder(m1);
      SameSortedList(m1, m2);
      if t1 == t2 {
        StoreInjective(m1, m2);
      }
    }
  }

  // ---------------------------------------------------------------- a world with one hashring

  function ReadyMember(host: string): SliceMember {
    SliceMember(Some(host), Some(true))
  }

  /** The EndpointSlice of a Service whose pods with these hostnames are ready. */
  function ExampleSlice(hosts: seq<string>): EndpointSlice {
    EndpointSlice("monitoring", map[SERVICE_NAME_LABEL := "receive"], [], MapSeq(ReadyMember, hosts))
  }

  function ExampleEndpoint(host: string): Endpoint {
    Endpoint(DnsName(host, "receive", "monitoring") + GRPC_PORT, "", "")
  }

  function ExampleListings(hosts: seq<string>): SliceListings {
    map["a" := [ExampleSlice(hosts)]]
  }

  function ExampleSpec(rf: int, replicas: int): ReceiveSpec {
    ReceiveSpec([HashringSpec("a", replicas, None, None)], rf, None, Some("static"))
  }

  function ExampleMeta(replicas: int, hosts: seq<string>): HashringMeta {
    HashringMeta(replicas, HashringConfig("a", [], "", MapSeq(ExampleEndpoint, hosts), "ketama", map[]))
  }

  function ExampleState(replicas: int, hosts: seq<string>): HashringState {
    map["a" := ExampleMeta(replicas, hosts)]
  }

  lemma {:induction false} BeforeAppend(a: string, b: string, s: string, t: string)
    requires |a| == |b| && Before(a, b)
    ensures Before(a + s, b + t)
  {
    assert (a + s)[0] == a[0] && (b + t)[0] == b[0];
    if a[0] == b[0] {
      BeforeAppend(a[1..], b[1..], s, t);
      assert (a + s)[1..] == a[1..] + s && (b + t)[1..] == b[1..] + t;
    }
  }

  /** Hostnames of one length, in order. */
  predicate ExampleHosts(hosts: seq<string>) {
    forall i, j | 0 <= i < j < |hosts| :: |hosts[i]| == |hosts[j]| && Before(hosts[i], hosts[j])
  }

  /** Extraction from one slice whose members are all ready and come in the order of their addresses. */
  lemma SingleSliceExtraction(converter: EndpointConverter, slice: EndpointSlice, r: seq<Endpoint>)
    requires |r| == |slice.members|
    requires forall i | 0 <= i < |r| ::
             slice.members[i].ready == Some(true) && Convert(converter, slice, slice.members[i]) == Some(r[i])
    requires forall i, j | 0 <= i < j < |r| :: Before(r[i].address, r[j].address)
    ensures IsExtraction(converter, [slice], [Ready], r)
  {
    forall i | 0 <= i < |r| ensures Extracted(converter, [slice], [Ready], r[i]) {
      assert slice in [slice] && slice.members[i] in slice.members && PassesAll([Ready], slice, slice.members[i]);
    }
    forall e | Extracted(converter, [slice], [Ready], e) ensures e in r {
      var ep :| ep in slice.members && Convert(converter, slice, ep) == Some(e);
      var i :| 0 <= i < |slice.members| && slice.members[i] == ep;
      assert r[i] == e;
    }
  }

  lemma ExampleAddresses(a: string, b: string)
    requires |a| == |b| && Before(a, b)
    ensures Before(ExampleEndpoint(a).address, ExampleEndpoint(b).address)
  {
    var rest := "." + "receive" + "." + "monitoring" + ".svc:" + GRPC_PORT;
    BeforeAppend(a, b, rest, rest);
    assert ExampleEndpoint(a).address == a + rest && ExampleEndpoint(b).address == b + rest;
  }

  lemma ExampleExtraction(hosts: seq<string>)
    requires ExampleHosts(hosts)
    ensures IsExtraction(DefaultConverter, [ExampleSlice(hosts)], [Ready], MapSeq(ExampleEndpoint, hosts))
  {
    var slice, r := ExampleSlice(hosts), MapSeq(ExampleEndpoint, hosts);
    forall i, j | 0 <= i < j < |r| ensures Before(r[i].address, r[j].address) {
      ExampleAddresses(hosts[i], hosts[j]);
    }
    SingleSliceExtraction(DefaultConverter, slice, r);
  }

  lemma ExampleFetched(rf: int, replicas: int, hosts: seq<string>)
    requires ExampleHosts(hosts)
    ensures IsFetchedState(ExampleSpec(rf, replicas), ExampleListings(hosts), ExampleState(replicas, hosts))
  {
    var spec, metas := ExampleSpec(rf, replicas), [ExampleMeta(replicas, hosts)];
    ExampleExtraction(hosts);
    assert Describes(spec, ExampleListings(hosts), spec.hashrings[0], metas[0]);
    assert DescribesFirst(spec, ExampleListings(hosts), metas, |spec.hashrings|);
    assert Fetched(spec, metas, 0) == map[];
    assert Fetched(spec, metas, 1) == ExampleState(replicas, hosts);
  }

  lemma ExampleReload(hosts: seq<string>)
    ensures var h := ExampleMeta(0, hosts).config;
            Load(Store([h])) == Some([h]) && Reloaded(h) == h
  {
    var h := ExampleMeta(0, hosts).config;
    StoreLoadRoundTrip([h]);
    assert Reloaded(h).endpoints == h.endpoints;
    assert ReloadedList([h]) == [h];
  }

  /** A reconcile with one hashring in the spec. */
  lemma SingleHashring(policy: Policy, rf: int, m: HashringMeta, t: Text, merged: HashringList)
    requires Load(t).Some? && m.config.name == "a"
    requires if IsEmptyHashring(Load(t).value) then FullyReady(m) && merged == [m.config]
             else merged == Contribution(policy, Load(t).value, rf, "a", m) && |merged| <= 1
    ensures Reconciled(policy, rf, map["a" := m], t, Store(merged))
  {
    var state, order := map["a" := m], ["a"];
    assert order[..0] == [];
    assert Collected(policy, Load(t).value, state, rf, []) == [];
    assert MergeOutcome(policy, Load(t).value, state, rf, order, merged);
  }

  lemma ExampleTrim(hosts: seq<string>)
    requires |hosts| == 2
    ensures TrimTo(ExampleMeta(1, hosts).config.endpoints, 1) == ExampleMeta(1, hosts[..1]).config.endpoints
    ensures ExampleMeta(1, hosts).config != ExampleMeta(1, hosts[..1]).config
  {
    var r := MapSeq(ExampleEndpoint, hosts);
    assert r[..1] == MapSeq(ExampleEndpoint, hosts[..1]);
  }

  lemma StoredApart(a: HashringList, b: HashringList)
    requires a != b
    ensures Store(a) != Store(b)
  {
    if Store(a) == Store(b) {
      StoreInjective(a, b);
    }
  }

  /** Bootstrap publishes both of two ready endpoints, the static merge after it the one that is desired. */
  lemma BootstrapThenTrim(hosts: seq<string>, t1: Text, t2: Text)
    requires |hosts| == 2 && ExampleHosts(hosts)
    requires t1 == Store([ExampleMeta(1, hosts).config]) && t2 == Store([ExampleMeta(1, hosts[..1]).config])
    ensures Reconciled(Static, 1, ExampleState(1, hosts), Blank, t1)
    ensures Reconciled(Static, 1, ExampleState(1, hosts), t1, t2)
    ensures t1 != t2
  {
    var m, trimmed := ExampleMeta(1, hosts), ExampleMeta(1, hosts[..1]).config;
    ExampleReload(hosts);
    ExampleTrim(hosts);
    SingleHashring(Static, 1, m, Blank, [m.config]);
    assert Admitted(Static, "a", m) == trimmed;
    SingleHashring(Static, 1, m, t1, [trimmed]);
    assert [m.config][0] != [trimmed][0];
    StoredApart([m.config], [trimmed]);
  }

  lemma {:induction false} BeforePrefix(prefix: string, a: string, b: string)
    requires Before(a, b)
    ensures Before(prefix + a, prefix + b)
  {
    if prefix == "" {
      assert prefix + a == a && prefix + b == b;
    } else {
      BeforePrefix(prefix[1..], a, b);
      assert (prefix + a)[1..] == prefix[1..] + a && (prefix + b)[1..] == prefix[1..] + b;
    }
  }

  lemma ExampleOrder() returns (hosts: seq<string>)
    ensures |hosts| == 2 && ExampleHosts(hosts) && hosts[0] == "receive-0" && hosts[1] == "receive-1"
  {
    var prefix := "receive-";
    hosts := [prefix + "0", prefix + "1"];
    BeforePrefix(prefix, "0", "1");
  }

  /** Two reconciles can be needed: bootstrap publishes every ready endpoint, the static merge after it trims. */
  lemma OneReconcileIsNotEnough()
    returns (spec: ReceiveSpec, listings: SliceListings, state: HashringState, t1: Text, t2: Text)
    ensures IsFetchedState(spec, listings, state) && Admissible(spec.replicationFactor, state)
    ensures Reconciled(PolicyOf(spec), spec.replicationFactor, state, Blank, t1)
    ensures Reconciled(PolicyOf(spec), spec.replicationFactor, state, t1, t2)
    ensures t1 != t2
  {
    var hosts := ExampleOrder();
    spec, listings, state := ExampleSpec(1, 1), ExampleListings(hosts), ExampleState(1, hosts);
    t1, t2 := Store([ExampleMeta(1, hosts).config]), Store([ExampleMeta(1, hosts[..1]).config]);
    ExampleFetched(1, 1, hosts);
    BootstrapThenTrim(hosts, t1, t2);
  }

  /** What is fetched does not depend on the policy. */
  lemma {:induction false} FetchedAlike(spec: ReceiveSpec, other: ReceiveSpec, metas: seq<HashringMeta>, n: nat)
    requires n <= |metas| == |spec.hashrings| && other == spec.(hashringPolicy := other.hashringPolicy)
    ensures Fetched(other, metas, n) == Fetched(spec, metas, n)
  {
    if n == 0 {
    } else {
      FetchedAlike(spec, other, metas, n - 1);
    }
  }

  lemma PolicyIsNotFetched(spec: ReceiveSpec, other: ReceiveSpec, listings: SliceListings, state: HashringState)
    requires IsFetchedState(spec, listings, state) && other == spec.(hashringPolicy := other.hashringPolicy)
    ensures IsFetchedState(other, listings, state)
  {
    var metas :| DescribesFirst(spec, listings, metas, |spec.hashrings|)
      && state == Fetched(spec, metas, |spec.hashrings|);
    FetchedAlike(spec, other, metas, |spec.hashrings|);
    forall i | 0 <= i < |spec.hashrings| ensures Describes(other, listings, spec.hashrings[i], metas[i]) {
      assert Describes(spec, listings, spec.hashrings[i], metas[i]);
    }
    assert DescribesFirst(other, listings, metas, |other.hashrings|);
  }

  function BareSpec(): ReceiveSpec {
    ExampleSpec(1, 1).(hashringPolicy := None)
  }

  lemma BareSpecPolicies()
    ensures PolicyOf(BareSpec()) == Dynamic && PolicyOf(BareSpec().(hashringPolicy := Some("static"))) == Static
  {
  }

  lemma BareSpecFetched(hosts: seq<string>)
    requires ExampleHosts(hosts)
    ensures IsFetchedState(BareSpec(), ExampleListings(hosts), ExampleState(1, hosts))
  {
    ExampleFetched(1, 1, hosts);
    PolicyIsNotFetched(ExampleSpec(1, 1), BareSpec(), ExampleListings(hosts), ExampleState(1, hosts));
  }

  /** The dynamic merge keeps both of two ready endpoints. */
  lemma BothAreKept(hosts: seq<string>, t: Text)
    requires |hosts| == 2 && t == Store([ExampleMeta(1, hosts).config])
    ensures Healthy(t, 1)
    ensures Reconciled(Dynamic, 1, ExampleState(1, hosts), t, t)
  {
    var m := ExampleMeta(1, hosts);
    ExampleReload(hosts);
    assert Load(t) == Some([m.config]) && Published(t) == [m.config];
    assert Contribution(Dynamic, [m.config], 1, "a", m) == [m.config];
    SingleHashring(Dynamic, 1, m, t, [m.config]);
  }

  /** A missing policy and the documented default differ: where the static merge trims, the dynamic one that a
      spec without a policy gets keeps all ready endpoints. */
  lemma MissingPolicyIsNotTheDefault()
    returns (spec: ReceiveSpec, listings: SliceListings, state: HashringState, t: Text, t1: Text, t2: Text)
    ensures spec.hashringPolicy.None?
    ensures IsFetchedState(spec, listings, state) && Admissible(spec.replicationFactor, state) && Healthy(t, 1)
    ensures Reconciled(PolicyOf(spec), spec.replicationFactor, state, t, t1)
    ensures Reconciled(PolicyOf(spec.(hashringPolicy := Some("static"))), spec.replicationFactor, state, t, t2)
    ensures t1 != t2
  {
    var hosts := ExampleOrder();
    spec, listings, state := BareSpec(), ExampleListings(hosts), ExampleState(1, hosts);
    t, t2 := Store([ExampleMeta(1, hosts).config]), Store([ExampleMeta(1, hosts[..1]).config]);
    t1 := t;
    BareSpecPolicies();
    BareSpecFetched(hosts);
    BootstrapThenTrim(hosts, t, t2);
    BothAreKept(hosts, t);
  }

  // ---------------------------------------------------------------- the replication factor

  lemma TakenSize(policy: Policy, rf: int, state: HashringState, t: Text, k: string)
    requires Admissible(rf, state) && k in state && Takes(policy, rf, t, state[k])
    ensures |Reloaded(Taken(policy, t, k, state[k])).endpoints| >= rf
  {
  }

  /** A reconcile leaves every hashring with at least its replication factor of endpoints exactly when the
      hashrings it is going to keep have that many already. */
  lemma FactorIsMetExactlyWhen(policy: Policy, rf: int, state: HashringState, t: Text, t': Text)
    requires Healthy(t, 1) && Admissible(rf, state) && Reconciled(policy, rf, state, t, t')
    ensures Healthy(t', rf) <==>
            forall h | h in Published(t) && h.name in state && !Takes(policy, rf, t, state[h.name]) ::
              |h.endpoints| >= rf
  {
    StepEntries(policy, rf, 1, state, t, t');
    forall h | h in Published(t') && Takes(policy, rf, t, state[h.name]) ensures |h.endpoints| >= rf {
      assert EntryAfter(policy, rf, state, t, h);
      TakenSize(policy, rf, state, t, h.name);
    }
    forall h | h in Published(t) && h.name in state && !Takes(policy, rf, t, state[h.name]) ensures h in Published(t') {
      assert EntryAfter(policy, rf, state, t, h);
    }
  }

  /** One ready endpoint is published while one is desired, and kept when three are. */
  lemma KeptBelowFactor(hosts: seq<string>, t: Text)
    requires |hosts| == 1 && t == Store([ExampleMeta(1, hosts).config])
    ensures Reconciled(Static, 1, ExampleState(1, hosts), Blank, t)
    ensures Reconciled(Static, 3, ExampleState(3, hosts), t, t)
    ensures Healthy(t, 1) && !Healthy(t, 3)
  {
    var h := ExampleMeta(1, hosts).config;
    ExampleReload(hosts);
    assert Named([h], "a") == [h] by {
      assert [h][1..] == [];
    }
    SingleHashring(Static, 1, ExampleMeta(1, hosts), Blank, [h]);
    SingleHashring(Static, 3, ExampleMeta(3, hosts), t, [h]);
    assert Published(t) == [h] && h in [h] && |h.endpoints| == 1;
  }

  /** Raising the factor can leave an ailing hashring below it: a hashring published with one replica
      stays as it is when three are asked for and the new two are not ready. */
  lemma RaisingReplicationFactorBreaksInvariant()
    returns (before: ReceiveSpec, after: ReceiveSpec, listings: SliceListings,
             state: HashringState, state': HashringState, t: Text, t': Text)
    ensures IsFetchedState(before, listings, state) && Admissible(before.replicationFactor, state)
    ensures IsFetchedState(after, listings, state') && Admissible(after.replicationFactor, state')
    ensures Reconciled(PolicyOf(before), before.replicationFactor, state, Blank, t)
    ensures Reconciled(PolicyOf(after), after.replicationFactor, state', t, t')
    ensures Healthy(t, before.replicationFactor) && !Healthy(t', after.replicationFactor)
  {
    var hosts := ExampleOrder();
    var one := hosts[..1];
    before, after, listings := ExampleSpec(1, 1), ExampleSpec(3, 3), ExampleListings(one);
    state, state' := ExampleState(1, one), ExampleState(3, one);
    ExampleFetched(1, 1, one);
    ExampleFetched(3, 3, one);
    t, t' := Store([ExampleMeta(1, one).config]), Store([ExampleMeta(1, one).config]);
    KeptBelowFactor(one, t);
  }

  // ---------------------------------------------------------------- runs

  /** What may happen to the ConfigMap: a reconcile under some replication factor, policy and fetched
      state, or one that fails. */
  datatype Event = Success(rf: int, policy: Policy, state: HashringState) | Failure

  ghost predicate Next(e: Event, t: Text, t': Text) {
    match e
    case Success(rf, policy, state) => Admissible(rf, state) && Reconciled(policy, rf, state, t, t')
    case Failure => t' == t
  }

  ghost predicate StepAt(events: seq<Event>, texts: seq<Text>, i: nat)
    requires i < |events| && |texts| == |events| + 1
  {
    Next(events[i], texts[i], texts[i + 1])
  }

  /** A run: spec edits, changes of the replication factor, policy switches and ready sets are arbitrary. */
  ghost predicate Run(events: seq<Event>, texts: seq<Text>) {
    && |texts| == |events| + 1
    && Healthy(texts[0], 1)
    && forall i | 0 <= i < |events| :: StepAt(events, texts, i)
  }

  /** Event `j` is the last success among the first `n` events. */
  predicate IsLatest(events: seq<Event>, j: nat, n: nat)
    requires n <= |events|
  {
    && j < n
    && events[j].Success?
    && forall i | j < i < n :: events[i].Failure?
  }

  predicate FactorAtLeast(e: Event, floor: int) {
    e.Success? ==> e.rf >= floor
  }

  /** No event has a replication factor below `floor`. */
  predicate FactorsAtLeast(events: seq<Event>, floor: int) {
    forall i | 0 <= i < |events| :: FactorAtLeast(events[i], floor)
  }

  lemma NextHealthy(e: Event, floor: int, t: Text, t': Text)
    requires Next(e, t, t') && Healthy(t, floor) && floor >= 1 && FactorAtLeast(e, floor)
    ensures Healthy(t', floor)
    ensures e.Success? ==> forall h :: h in Published(t') <==> EntryAfter(e.policy, e.rf, e.state, t, h)
    ensures e.Failure? ==> t' == t
  {
    if e.Success? {
      StepEntries(e.policy, e.rf, floor, e.state, t, t');
    }
  }

  lemma HealthyAt(events: seq<Event>, texts: seq<Text>, floor: int, i: nat)
    requires Run(events, texts) && i < |events| && FactorsAtLeast(events, floor)
    requires Healthy(texts[i], floor) && floor >= 1
    ensures Healthy(texts[i + 1], floor)
  {
    assert StepAt(events, texts, i) && FactorAtLeast(events[i], floor);
    NextHealthy(events[i], floor, texts[i], texts[i + 1]);
  }

  lemma {:induction false} RunHealthy(events: seq<Event>, texts: seq<Text>, floor: int, n: nat)
    requires Run(events, texts) && Healthy(texts[0], floor) && floor >= 1 && FactorsAtLeast(events, floor)
    requires n <= |events|
    ensures Healthy(texts[n], floor)
  {
    if n == 0 {
    } else {
      var i := n - 1;
      RunHealthy(events, texts, floor, i);
      HealthyAt(events, texts, floor, i);
    }
  }

  /** The step of a run from document `i`, entry by entry. */
  lemma StepOfRun(events: seq<Event>, texts: seq<Text>, i: nat)
    requires Run(events, texts) && i < |events|
    ensures Healthy(texts[i], 1) && Healthy(texts[i + 1], 1)
    ensures events[i].Success? ==>
              forall h :: h in Published(texts[i + 1]) <==>
                EntryAfter(events[i].policy, events[i].rf, events[i].state, texts[i], h)
    ensures events[i].Failure? ==> texts[i + 1] == texts[i]
  {
    assert FactorsAtLeast(events, 1) by {
      forall j | 0 <= j < |events| ensures FactorAtLeast(events[j], 1) {
        assert StepAt(events, texts, j);
      }
    }
    RunHealthy(events, texts, 1, i);
    assert StepAt(events, texts, i) && FactorAtLeast(events[i], 1);
    NextHealthy(events[i], 1, texts[i], texts[i + 1]);
  }

  predicate NamesWithin(published: HashringList, names: set<string>) {
    forall h | h in published :: h.name in names
  }

  lemma NamesAt(events: seq<Event>, texts: seq<Text>, i: nat)
    requires Run(events, texts) && i < |events|
    ensures events[i].Success? ==> NamesWithin(Published(texts[i + 1]), events[i].state.Keys)
    ensures events[i].Failure? ==> texts[i + 1] == texts[i]
  {
    StepOfRun(events, texts, i);
    var e := events[i];
    if e.Success? {
      forall h | h in Published(texts[i + 1]) ensures h.name in e.state.Keys {
        assert EntryAfter(e.policy, e.rf, e.state, texts[i], h);
      }
    }
  }

  /** In any run the published names belong to the spec reconciled last. */
  lemma {:induction false} RunNames(events: seq<Event>, texts: seq<Text>, j: nat, n: nat)
    requires Run(events, texts) && n <= |events| && IsLatest(events, j, n)
    ensures NamesWithin(Published(texts[n]), events[j].state.Keys)
    decreases n
  {
    if n == j + 1 {
    } else {
      RunNames(events, texts, j, n - 1);
    }
    NamesAt(events, texts, n - 1);
  }

  /** The invariant: at every moment of a run each published hashring has a name of its own that belongs to
      the latest spec and, if the replication factor is fixed or never falls below `floor`, at least that
      many endpoints. */
  lemma RunInvariant(events: seq<Event>, texts: seq<Text>, floor: int, n: nat)
    requires Run(events, texts) && Healthy(texts[0], floor) && floor >= 1 && FactorsAtLeast(events, floor)
    requires n <= |events|
    ensures UniqueNames(Published(texts[n])) && AtLeast(Published(texts[n]), floor)
    ensures forall j: nat :: IsLatest(events, j, n) ==> NamesWithin(Published(texts[n]), events[j].state.Keys)
  {
    RunHealthy(events, texts, floor, n);
    forall j: nat | IsLatest(events, j, n) ensures NamesWithin(Published(texts[n]), events[j].state.Keys) {
      RunNames(events, texts, j, n);
    }
  }

  predicate KeepsName(e: Event, k: string) {
    e.Success? ==> k in e.state
  }

  /** The spec keeps the name `k` in the events from `i` up to `n`. */
  predicate Keeps(events: seq<Event>, k: string, i: nat, n: nat)
    requires n <= |events|
  {
    forall j | i <= j < n :: KeepsName(events[j], k)
  }

  lemma StickyAt(events: seq<Event>, texts: seq<Text>, k: string, i: nat)
    requires Run(events, texts) && i < |events|
    requires Publishing(texts[i], k) && KeepsName(events[i], k)
    ensures Publishing(texts[i + 1], k)
  {
    StepOfRun(events, texts, i);
    var e := events[i];
    if e.Success? {
      assert StepAt(events, texts, i);
      PublishedExactlyWhen(e.policy, e.rf, e.state, texts[i], texts[i + 1], k);
    }
  }

  /** Published once, published as long as the spec keeps the name, whatever becomes ready or not and
      whatever the replication factor becomes. */
  lemma {:induction false} Stickiness(events: seq<Event>, texts: seq<Text>, k: string, i: nat, n: nat)
    requires Run(events, texts) && i <= n <= |events|
    requires Publishing(texts[i], k) && Keeps(events, k, i, n)
    ensures Publishing(texts[n], k)
    decreases n
  {
    if i == n {
    } else {
      Stickiness(events, texts, k, i, n - 1);
      assert KeepsName(events[n - 1], k);
      StickyAt(events, texts, k, n - 1);
    }
  }

  /** The hashring named `k` is below its admission threshold in this event. */
  predicate Outage(e: Event, k: string) {
    e.Success? ==> k in e.state && !Admits(e.policy, e.rf, e.state[k])
  }

  predicate OutageThroughout(events: seq<Event>, k: string, i: nat, n: nat)
    requires n <= |events|
  {
    forall j | i <= j < n :: Outage(events[j], k)
  }

  lemma FrozenAt(events: seq<Event>, texts: seq<Text>, h: HashringConfig, i: nat)
    requires Run(events, texts) && i < |events|
    requires h in Published(texts[i]) && Outage(events[i], h.name)
    ensures h in Published(texts[i + 1])
  {
    StepOfRun(events, texts, i);
    var e := events[i];
    if e.Success? {
      assert EntryAfter(e.policy, e.rf, e.state, texts[i], h);
    }
  }

  /** Throughout an outage of any length the published entry stays exactly what it was. */
  lemma {:induction false} OutageFreezesEntry(events: seq<Event>, texts: seq<Text>, h: HashringConfig, i: nat, n: nat)
    requires Run(events, texts) && i <= n <= |events|
    requires h in Published(texts[i]) && OutageThroughout(events, h.name, i, n)
    ensures h in Published(texts[n])
    decreases n
  {
    if i == n {
    } else {
      OutageFreezesEntry(events, texts, h, i, n - 1);
      assert Outage(events[n - 1], h.name);
      FrozenAt(events, texts, h, n - 1);
    }
  }

  function AddressOf(e: Endpoint): string {
    e.address
  }

  function AddressesOf(h: HashringConfig): seq<string> {
    MapSeq(AddressOf, h.endpoints)
  }

  lemma ReloadKeepsAddresses(h: HashringConfig)
    ensures AddressesOf(Reloaded(h)) == AddressesOf(h)
  {
  }

  /** The event admits the hashring `k`, at bootstrap or later. */
  predicate Admission(e: Event, t: Text, k: string) {
    e.Success? && k in e.state && Takes(e.policy, e.rf, t, e.state[k])
  }

  /** What it admits. */
  function AdmittedBy(e: Event, t: Text, k: string): HashringConfig
    requires Admission(e, t, k)
  {
    Taken(e.policy, t, k, e.state[k])
  }

  lemma AdmittedAt(events: seq<Event>, texts: seq<Text>, k: string, i: nat)
    requires Run(events, texts) && i < |events| && Admission(events[i], texts[i], k)
    ensures Reloaded(AdmittedBy(events[i], texts[i], k)) in Published(texts[i + 1])
  {
    StepOfRun(events, texts, i);
    var e, h := events[i], Reloaded(AdmittedBy(events[i], texts[i], k));
    assert EntryAfter(e.policy, e.rf, e.state, texts[i], h);
  }

  lemma AdmittedKeeps(e: Event, t: Text, k: string)
    requires Admission(e, t, k)
    ensures var h := AdmittedBy(e, t, k);
            Reloaded(h).name == k && AddressesOf(Reloaded(h)) == AddressesOf(h)
  {
    ReloadKeepsAddresses(AdmittedBy(e, t, k));
  }

  lemma UniqueAt(events: seq<Event>, texts: seq<Text>, n: nat)
    requires Run(events, texts) && n <= |events|
    ensures UniqueNames(Published(texts[n]))
  {
    if n > 0 {
      StepOfRun(events, texts, n - 1);
    }
  }

  /** Admission followed by an outage: the addresses last admitted are the ones published to the end. */
  lemma LastAdmittedAddressesStay(events: seq<Event>, texts: seq<Text>, k: string, i: nat, n: nat)
    returns (h: HashringConfig)
    requires Run(events, texts) && i < n <= |events|
    requires Admission(events[i], texts[i], k) && OutageThroughout(events, k, i + 1, n)
    ensures h in Published(texts[n]) && h.name == k && UniqueNames(Published(texts[n]))
    ensures AddressesOf(h) == AddressesOf(AdmittedBy(events[i], texts[i], k))
  {
    h := Reloaded(AdmittedBy(events[i], texts[i], k));
    AdmittedAt(events, texts, k, i);
    AdmittedKeeps(events[i], texts[i], k);
    OutageFreezesEntry(events, texts, h, i + 1, n);
    UniqueAt(events, texts, n);
  }

  /** All desired members of the hashring are ready but one, and that is enough for the replication factor. */
  predicate LosesOne(e: Event, k: string) {
    && e.Success? && e.policy.Dynamic? && k in e.state
    && |e.state[k].config.endpoints| == e.state[k].desiredReplicas - 1 >= e.rf
  }

  /** Too few members are ready: two are missing, or one under the static policy, or the replication factor
      is not met. Failures to reconcile count as well. */
  predicate LosesMore(e: Event, k: string) {
    e.Success? ==>
      && k in e.state
      && var ready := |e.state[k].config.endpoints|;
         ready < e.rf || ready + (if e.policy.Dynamic? then 2 else 1) <= e.state[k].desiredReplicas
  }

  /** The dynamic ring under loss: one missing member shrinks it to the members that are left, and further
      losses, of any length, freeze it there. */
  lemma OneLossShrinksFurtherFreeze(events: seq<Event>, texts: seq<Text>, k: string, i: nat, n: nat)
    returns (h: HashringConfig)
    requires Run(events, texts) && i < n <= |events| && Published(texts[i]) != []
    requires LosesOne(events[i], k) && forall j | i < j < n :: LosesMore(events[j], k)
    ensures h in Published(texts[n]) && h.name == k && UniqueNames(Published(texts[n]))
    ensures AddressesOf(h) == MapSeq(AddressOf, events[i].state[k].config.endpoints)
  {
    assert OutageThroughout(events, k, i + 1, n) by {
      forall j | i + 1 <= j < n ensures Outage(events[j], k) {
        assert LosesMore(events[j], k);
      }
    }
    h := LastAdmittedAddressesStay(events, texts, k, i, n);
  }
}
