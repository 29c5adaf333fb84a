// Turning the EndpointSlices of a hashring's Service into the sorted, duplicate-free
// endpoint list that is published (internal/pkg/receive/hashrings.go).

module EndpointExtraction {
  import opened Basics
  import opened Ordering

  datatype Endpoint = Endpoint(address: string, capnProtoAddress: string, az: string)

  /** One member of an EndpointSlice; the optional fields are Go pointers. */
  datatype SliceMember = SliceMember(hostname: Option<string>, ready: Option<bool>)

  datatype EndpointSlice = EndpointSlice(
    namespace: string,
    labels: map<string, string>,
    owners: seq<string>,
    members: seq<SliceMember>)

  datatype EndpointFilter = ByOwnerRef(expectOwner: string) | Ready

  datatype EndpointConverter = DefaultConverter | CapnProtoConverter

  const SERVICE_NAME_LABEL := "kubernetes.io/service-name"

  const GRPC_PORT := "10901"

  const CAPN_PROTO_PORT := "19391"

  // ---------------------------------------------------------------- conversion

  function DnsName(host: string, service: string, namespace: string): string {
    host + "." + service + "." + namespace + ".svc:"
  }

  /** The two endpoint converters. `None` is the nil dereference of a missing hostname. */
  function Convert(converter: EndpointConverter, slice: EndpointSlice, ep: SliceMember): Option<Endpoint> {
    if ep.hostname.None? then None
    else
      var dns := DnsName(ep.hostname.value, GetOrEmpty(slice.labels, SERVICE_NAME_LABEL), slice.namespace);
      Some(Endpoint(
             dns + GRPC_PORT,
             if converter.CapnProtoConverter? then dns + CAPN_PROTO_PORT else "",
             ""))
  }

  /** The comparison handed to `sort.Slice`. On arbitrary endpoints it is not an order. */
  predicate EndpointLess(a: Endpoint, b: Endpoint) {
    if a.address != "" && b.address != "" then Before(a.address, b.address)
    else if a.capnProtoAddress != "" && b.capnProtoAddress != "" then Before(a.capnProtoAddress, b.capnProtoAddress)
    else false
  }

  /** What the address of a member is made of: its hostname, its Service and its namespace, as subdomains
      of the cluster's domain, and the port. */
  predicate Serves(slice: EndpointSlice, ep: SliceMember, port: string, address: string) {
    && ep.hostname.Some?
    && var service := GetOrEmpty(slice.labels, "kubernetes.io/service-name");
       address == Join([ep.hostname.value, service, slice.namespace, "svc:" + port], '.')
  }

  /** `e` is where the member listens: for gRPC and, if asked for, for Cap'n Proto. */
  predicate IsEndpointOf(converter: EndpointConverter, slice: EndpointSlice, ep: SliceMember, e: Endpoint) {
    && Serves(slice, ep, "10901", e.address)
    && (if converter.CapnProtoConverter? then Serves(slice, ep, "19391", e.capnProtoAddress)
         else e.capnProtoAddress == "")
    && e.az == ""
  }

  /** Read at its dots, an address names the member, the Service and the namespace, in this order. */
  lemma AddressParts(slice: EndpointSlice, ep: SliceMember, port: string, address: string)
    requires Serves(slice, ep, port, address) && '.' !in port
    requires '.' !in ep.hostname.value && '.' !in slice.namespace
    requires "kubernetes.io/service-name" in slice.labels && '.' !in slice.labels["kubernetes.io/service-name"]
    ensures Split(address, '.') ==
            [ep.hostname.value, slice.labels["kubernetes.io/service-name"], slice.namespace, "svc:" + port]
  {
    SplitJoin([ep.hostname.value, slice.labels["kubernetes.io/service-name"], slice.namespace, "svc:" + port], '.');
  }

  lemma FourParts(a: string, b: string, c: string, d: string, port: string)
    requires d == ".svc:"
    ensures a + "." + b + "." + c + d + port == Join([a, b, c, "svc:" + port], '.')
  {
    var abc := a + "." + b + "." + c;
    assert Join(["svc:" + port], '.') == "svc:" + port;
    assert Join([c, "svc:" + port], '.') == c + "." + ("svc:" + port);
    assert Join([b, c, "svc:" + port], '.') == b + "." + (c + "." + ("svc:" + port));
    assert Join([a, b, c, "svc:" + port], '.') == a + "." + (b + "." + (c + "." + ("svc:" + port)));
    assert abc + d + port == abc + ("." + ("svc:" + port));
  }

  /** A converter yields exactly the endpoint of the member. */
  lemma ConvertMeaning(converter: EndpointConverter, slice: EndpointSlice, ep: SliceMember, e: Endpoint)
    ensures Convert(converter, slice, ep) == Some(e) <==> IsEndpointOf(converter, slice, ep, e)
  {
    if ep.hostname.Some? {
      var service := GetOrEmpty(slice.labels, "kubernetes.io/service-name");
      FourParts(ep.hostname.value, service, slice.namespace, ".svc:", "10901");
      FourParts(ep.hostname.value, service, slice.namespace, ".svc:", "19391");
    }
  }

  ghost predicate IsConverted(converter: EndpointConverter, e: Endpoint) {
    exists slice, ep :: Convert(converter, slice, ep) == Some(e)
  }

  /** Among endpoints of one converter the address alone identifies the endpoint. */
  lemma ConvertedByAddress(converter: EndpointConverter, a: Endpoint, b: Endpoint)
    requires IsConverted(converter, a) && IsConverted(converter, b)
    ensures a.address != "" && (a.address == b.address ==> a == b)
  {
    var s, m :| Convert(converter, s, m) == Some(a);
    var t, n :| Convert(converter, t, n) == Some(b);
    var x := DnsName(m.hostname.value, GetOrEmpty(s.labels, SERVICE_NAME_LABEL), s.namespace);
    var y := DnsName(n.hostname.value, GetOrEmpty(t.labels, SERVICE_NAME_LABEL), t.namespace);
    if a.address == b.address {
      assert x == a.address[..|a.address| - |GRPC_PORT|];
      assert y == b.address[..|b.address| - |GRPC_PORT|];
    }
  }

  lemma EndpointLessIsOrder(converter: EndpointConverter, s: seq<Endpoint>)
    requires forall e | e in s :: IsConverted(converter, e)
    ensures StrictWeakOrder(s, EndpointLess)
  {
    forall x, y | x in s && y in s ensures EndpointLess(x, y) == Before(x.address, y.address) {
      ConvertedByAddress(converter, x, y);
      ConvertedByAddress(converter, y, x);
    }
    forall x, y | x in s && y in s && EndpointLess(x, y) ensures !EndpointLess(y, x) {
      BeforeAsymmetric(x.address, y.address);
    }
    forall x, y, z | x in s && y in s && z in s && !EndpointLess(x, y) && !EndpointLess(y, z)
      ensures !EndpointLess(x, z)
    {
      NotBeforeTransitive(x.address, y.address, z.address);
    }
  }

  /** On arbitrary endpoints it is not: one without addresses is equivalent to two that are in order. */
  lemma EndpointLessIsNoOrder() returns (s: seq<Endpoint>)
    ensures !StrictWeakOrder(s, EndpointLess)
  {
    var a, b, c := Endpoint("a", "", ""), Endpoint("", "", ""), Endpoint("b", "", "");
    s := [a, b, c];
    assert a in s && b in s && c in s && EndpointLess(a, c);
  }

  // ---------------------------------------------------------------- filters

  predicate Passes(filter: EndpointFilter, slice: EndpointSlice, ep: SliceMember) {
    match filter
    case ByOwnerRef(owner) => owner in slice.owners
    case Ready => ep.ready == Some(true)
  }

  ghost predicate PassesAll(filters: seq<EndpointFilter>, slice: EndpointSlice, ep: SliceMember) {
    forall f | f in filters :: Passes(f, slice, ep)
  }

  method ApplyFilter(filter: EndpointFilter, slice: EndpointSlice) returns (kept: seq<SliceMember>)
    ensures forall ep :: ep in kept <==> ep in slice.members && Passes(filter, slice, ep)
    ensures filter.ByOwnerRef? ==> kept == if filter.expectOwner in slice.owners then slice.members else []
    ensures filter.Ready? ==> forall ep :: ep in kept <==> ep in slice.members && ep.ready == Some(true)
  {
    match filter
    case ByOwnerRef(expectOwner) =>
      for i := 0 to |slice.owners|
        invariant expectOwner !in slice.owners[..i]
      {
        if slice.owners[i] == expectOwner {
          return slice.members;
        }
      }
      kept := [];
    case Ready =>
      kept := [];
      for i := 0 to |slice.members|
        invariant forall ep :: ep in kept <==> ep in slice.members[..i] && Passes(filter, slice, ep)
      {
        if slice.members[i].ready.Some? && slice.members[i].ready.value {
          kept := kept + [slice.members[i]];
        }
      }
  }

  // ---------------------------------------------------------------- extraction

  /** Some endpoint that passes every filter has no hostname. */
  ghost predicate MissingHostname(items: seq<EndpointSlice>, filters: seq<EndpointFilter>) {
    exists slice, ep :: slice in items && ep in slice.members && PassesAll(filters, slice, ep) && ep.hostname.None?
  }

  /** `e` is the conversion of some endpoint of some slice that passes every filter. */
  ghost predicate Extracted(converter: EndpointConverter, items: seq<EndpointSlice>, filters: seq<EndpointFilter>,
                            e: Endpoint) {
    exists slice, ep :: slice in items && ep in slice.members && PassesAll(filters, slice, ep)
                        && Convert(converter, slice, ep) == Some(e)
  }

  /** What extraction promises: strictly increasing by address, and exactly the extracted endpoints. */
  ghost predicate IsExtraction(converter: EndpointConverter, items: seq<EndpointSlice>, filters: seq<EndpointFilter>,
                               r: seq<Endpoint>) {
    && (forall i, j | 0 <= i < j < |r| :: Before(r[i].address, r[j].address))
    && (forall e :: e in r <==> Extracted(converter, items, filters, e))
  }

  /** The listed endpoints are exactly those where some surviving member listens. */
  ghost predicate AreServed(converter: EndpointConverter, items: seq<EndpointSlice>, filters: seq<EndpointFilter>,
                            r: seq<Endpoint>) {
    forall e :: e in r <==> exists slice, ep :: slice in items && ep in slice.members && PassesAll(filters, slice, ep)
                                                && IsEndpointOf(converter, slice, ep, e)
  }

  /** What is extracted, seen from the slices. */
  lemma ExtractionServes(converter: EndpointConverter, items: seq<EndpointSlice>, filters: seq<EndpointFilter>,
                         r: seq<Endpoint>)
    requires IsExtraction(converter, items, filters, r)
    ensures AreServed(converter, items, filters, r)
  {
    forall e ensures e in r <==> exists slice, ep ::
                     slice in items && ep in slice.members && PassesAll(filters, slice, ep)
                     && IsEndpointOf(converter, slice, ep, e)
    {
      if e in r {
        var slice, ep :| slice in items && ep in slice.members && PassesAll(filters, slice, ep)
                         && Convert(converter, slice, ep) == Some(e);
        ConvertMeaning(converter, slice, ep, e);
      }
      if slice, ep :| slice in items && ep in slice.members && PassesAll(filters, slice, ep)
                      && IsEndpointOf(converter, slice, ep, e)
      {
        ConvertMeaning(converter, slice, ep, e);
      }
    }
  }

  /** With the filter of the hashrings: the members that are ready. */
  lemma ReadyMembersServe(converter: EndpointConverter, items: seq<EndpointSlice>, r: seq<Endpoint>)
    requires IsExtraction(converter, items, [Ready], r)
    ensures forall e :: e in r <==> exists slice, ep ::
              slice in items && ep in slice.members && ep.ready == Some(true) && IsEndpointOf(converter, slice, ep, e)
  {
    ExtractionServes(converter, items, [Ready], r);
    forall slice, ep ensures PassesAll([Ready], slice, ep) == (ep.ready == Some(true)) {
      if PassesAll([Ready], slice, ep) {
        assert Ready in [Ready] && Passes(Ready, slice, ep);
      }
    }
  }

  method FilterMembers(filters: seq<EndpointFilter>, slice: EndpointSlice) returns (kept: seq<SliceMember>)
    ensures forall ep :: ep in kept <==> ep in slice.members && PassesAll(filters, slice, ep)
  {
    var current := slice;
    for i := 0 to |filters|
      invariant current == slice.(members := current.members)
      invariant forall ep :: ep in current.members <==> ep in slice.members && PassesAll(filters[..i], slice, ep)
    {
      var members := ApplyFilter(filters[i], current);
      assert filters[..i + 1] == filters[..i] + [filters[i]];
      forall ep ensures Passes(filters[i], current, ep) == Passes(filters[i], slice, ep) {}
      current := current.(members := members);
    }
    assert filters[..|filters|] == filters;
    kept := current.members;
  }

  /** Go's `slices.Compact`: drops every element equal to its predecessor. */
  function Compact<T(==)>(s: seq<T>): seq<T> {
    if |s| <= 1 then s
    else if s[0] == s[1] then Compact(s[1..])
    else [s[0]] + Compact(s[1..])
  }

  lemma {:induction false} CompactSorted(converter: EndpointConverter, s: seq<Endpoint>)
    requires Sorted(s, EndpointLess)
    requires forall e | e in s :: IsConverted(converter, e)
    ensures forall e :: e in Compact(s) <==> e in s
    ensures s != [] ==> Compact(s) != [] && Compact(s)[0] == s[0]
    ensures forall i, j | 0 <= i < j < |Compact(s)| :: Before(Compact(s)[i].address, Compact(s)[j].address)
  {
    if |s| <= 1 {
    } else {
      var rest := Compact(s[1..]);
      CompactSorted(converter, s[1..]);
      if s[0] != s[1] {
        forall j | 0 <= j < |rest| ensures Before(s[0].address, rest[j].address) {
          assert s[1] in s;
          ConvertedByAddress(converter, s[0], s[1]);
          ConvertedByAddress(converter, s[1], s[0]);
          BeforeTotal(s[0].address, s[1].address);
          assert !EndpointLess(s[1], s[0]);
          if j > 0 {
            BeforeTransitive(s[0].address, s[1].address, rest[j].address);
          }
        }
      }
    }
  }

  /** `e` is the conversion of one of the members. */
  ghost predicate ConvertedMember(converter: EndpointConverter, slice: EndpointSlice, members: seq<SliceMember>,
                                  e: Endpoint) {
    exists ep :: ep in members && Convert(converter, slice, ep) == Some(e)
  }

  lemma ConvertedSnoc(converter: EndpointConverter, slice: EndpointSlice, members: seq<SliceMember>, ep: SliceMember,
                      e: Endpoint)
    ensures ConvertedMember(converter, slice, members + [ep], e)
            <==> ConvertedMember(converter, slice, members, e) || Convert(converter, slice, ep) == Some(e)
  {
    if Convert(converter, slice, ep) == Some(e) {
      assert ep in members + [ep];
    }
    if ConvertedMember(converter, slice, members, e) {
      var x :| x in members && Convert(converter, slice, x) == Some(e);
      assert x in members + [ep];
    }
  }

  /** `r` holds the conversions of the members, and nothing else. */
  ghost predicate IsConversion(converter: EndpointConverter, slice: EndpointSlice, members: seq<SliceMember>,
                               r: seq<Endpoint>) {
    forall e :: e in r <==> ConvertedMember(converter, slice, members, e)
  }

  lemma ConversionSnoc(converter: EndpointConverter, slice: EndpointSlice, members: seq<SliceMember>, r: seq<Endpoint>,
                       ep: SliceMember, x: Endpoint)
    requires IsConversion(converter, slice, members, r) && Convert(converter, slice, ep) == Some(x)
    ensures IsConversion(converter, slice, members + [ep], r + [x])
  {
    forall e ensures e in r + [x] <==> ConvertedMember(converter, slice, members + [ep], e) {
      ConvertedSnoc(converter, slice, members, ep, e);
    }
  }

  predicate AllHosted(members: seq<SliceMember>) {
    forall i | 0 <= i < |members| :: members[i].hostname.Some?
  }

  lemma AllHostedSnoc(members: seq<SliceMember>, ep: SliceMember)
    ensures AllHosted(members + [ep]) <==> AllHosted(members) && ep.hostname.Some?
  {
    if AllHosted(members + [ep]) {
      assert (members + [ep])[|members|] == ep;
      forall i | 0 <= i < |members| ensures members[i].hostname.Some? {
        assert (members + [ep])[i] == members[i];
      }
    }
  }

  /** The conversion of the members that one slice has left. */
  method ConvertMembers(converter: EndpointConverter, slice: EndpointSlice, members: seq<SliceMember>)
    returns (r: Option<seq<Endpoint>>)
    ensures r.None? <==> !AllHosted(members)
    ensures r.Some? ==> IsConversion(converter, slice, members, r.value)
  {
    var endpoints: seq<Endpoint> := [];
    for j := 0 to |members|
      invariant AllHosted(members[..j])
      invariant IsConversion(converter, slice, members[..j], endpoints)
    {
      var converted := Convert(converter, slice, members[j]);
      if converted.None? {
        return None;
      }
      TakeNext(members, j);
      AllHostedSnoc(members[..j], members[j]);
      ConversionSnoc(converter, slice, members[..j], endpoints, members[j], converted.value);
      endpoints := endpoints + [converted.value];
    }
    assert members[..|members|] == members;
    r := Some(endpoints);
  }

  /** `kept` is what passes the filters. */
  ghost predicate IsKept(filters: seq<EndpointFilter>, slice: EndpointSlice, kept: seq<SliceMember>) {
    forall ep :: ep in kept <==> ep in slice.members && PassesAll(filters, slice, ep)
  }

  lemma MissingSnoc(items: seq<EndpointSlice>, filters: seq<EndpointFilter>, slice: EndpointSlice,
                    kept: seq<SliceMember>)
    requires IsKept(filters, slice, kept)
    ensures MissingHostname(items + [slice], filters) <==> MissingHostname(items, filters) || !AllHosted(kept)
  {
    if MissingHostname(items, filters) {
      var s, ep :| s in items && ep in s.members && PassesAll(filters, s, ep) && ep.hostname.None?;
      assert s in items + [slice];
    }
    if !AllHosted(kept) {
      var i :| 0 <= i < |kept| && kept[i].hostname.None?;
      assert kept[i] in kept && slice in items + [slice];
    }
  }

  lemma MissingPrefix(items: seq<EndpointSlice>, filters: seq<EndpointFilter>, i: nat)
    requires i <= |items| && MissingHostname(items[..i], filters)
    ensures MissingHostname(items, filters)
  {
    var s, ep :| s in items[..i] && ep in s.members && PassesAll(filters, s, ep) && ep.hostname.None?;
    assert s in items;
  }

  /** `r` holds what is extracted from the slices, and nothing else. */
  ghost predicate IsGathered(converter: EndpointConverter, items: seq<EndpointSlice>, filters: seq<EndpointFilter>,
                             r: seq<Endpoint>) {
    forall e :: e in r <==> Extracted(converter, items, filters, e)
  }

  lemma ExtractedSnoc(converter: EndpointConverter, items: seq<EndpointSlice>, filters: seq<EndpointFilter>,
                      slice: EndpointSlice, kept: seq<SliceMember>, e: Endpoint)
    requires IsKept(filters, slice, kept)
    ensures Extracted(converter, items + [slice], filters, e)
            <==> Extracted(converter, items, filters, e) || ConvertedMember(converter, slice, kept, e)
  {
    if Extracted(converter, items, filters, e) {
      var s, ep :| s in items && ep in s.members && PassesAll(filters, s, ep) && Convert(converter, s, ep) == Some(e);
      assert s in items + [slice];
    }
    if ConvertedMember(converter, slice, kept, e) {
      var ep :| ep in kept && Convert(converter, slice, ep) == Some(e);
      assert slice in items + [slice];
    }
  }

  lemma GatheredSnoc(converter: EndpointConverter, items: seq<EndpointSlice>, filters: seq<EndpointFilter>,
                     r: seq<Endpoint>, slice: EndpointSlice, kept: seq<SliceMember>, more: seq<Endpoint>)
    requires IsGathered(converter, items, filters, r) && IsKept(filters, slice, kept)
             && IsConversion(converter, slice, kept, more)
    ensures IsGathered(converter, items + [slice], filters, r + more)
  {
    forall e ensures e in r + more <==> Extracted(converter, items + [slice], filters, e) {
      ExtractedSnoc(converter, items, filters, slice, kept, e);
    }
  }

  /** The loop over the slices: the endpoints in the order in which they come, with repetitions. */
  method Gather(converter: EndpointConverter, items: seq<EndpointSlice>, filters: seq<EndpointFilter>)
    returns (r: Option<seq<Endpoint>>)
    ensures r.None? <==> MissingHostname(items, filters)
    ensures r.Some? ==> IsGathered(converter, items, filters, r.value)
  {
    var endpoints: seq<Endpoint> := [];
    for i := 0 to |items|
      invariant !MissingHostname(items[..i], filters)
      invariant IsGathered(converter, items[..i], filters, endpoints)
    {
      var slice := items[i];
      var svcEndpoints := FilterMembers(filters, slice);
      TakeNext(items, i);
      MissingSnoc(items[..i], filters, slice, svcEndpoints);
      var converted := ConvertMembers(converter, slice, svcEndpoints);
      if converted.None? {
        MissingPrefix(items, filters, i + 1);
        return None;
      }
      GatheredSnoc(converter, items[..i], filters, endpoints, slice, svcEndpoints, converted.value);
      endpoints := endpoints + converted.value;
    }
    assert items[..|items|] == items;
    r := Some(endpoints);
  }

  method EndpointSliceListToEndpoints(converter: EndpointConverter, items: seq<EndpointSlice>,
                                      filters: seq<EndpointFilter>)
    returns (r: Option<seq<Endpoint>>)
    ensures r.None? <==> MissingHostname(items, filters)
    ensures r.Some? ==> IsExtraction(converter, items, filters, r.value)
    ensures r.Some? ==> AreServed(converter, items, filters, r.value)
  {
    var gathered := Gather(converter, items, filters);
    if gathered.None? {
      return None;
    }
    forall e | e in gathered.value ensures IsConverted(converter, e) {
      assert Extracted(converter, items, filters, e);
    }
    EndpointLessIsOrder(converter, gathered.value);
    var endpoints := SortSlice(gathered.value, EndpointLess);
    SameElements(gathered.value, endpoints);
    CompactSorted(converter, endpoints);
    r := Some(Compact(endpoints));
    ExtractionServes(converter, items, filters, r.value);
  }

  // ---------------------------------------------------------------- canonicity

  /** The endpoint is ready to be published from this slice: what survives all filters. */
  ghost predicate Survives(items: seq<EndpointSlice>, filters: seq<EndpointFilter>, namespace: string, service: string,
                           host: Option<string>) {
    exists slice, ep :: slice in items && ep in slice.members && PassesAll(filters, slice, ep)
                        && slice.namespace == namespace && GetOrEmpty(slice.labels, SERVICE_NAME_LABEL) == service
                           && ep.hostname == host
  }

  ghost predicate SameSurvivors(items: seq<EndpointSlice>, filters: seq<EndpointFilter>, items': seq<EndpointSlice>,
                                filters': seq<EndpointFilter>) {
    forall namespace, service, host ::
      Survives(items, filters, namespace, service, host) <==> Survives(items', filters', namespace, service, host)
  }

  lemma ExtractedTransfers(converter: EndpointConverter, items: seq<EndpointSlice>, filters: seq<EndpointFilter>,
                           items': seq<EndpointSlice>, filters': seq<EndpointFilter>, e: Endpoint)
    requires Extracted(converter, items, filters, e)
    requires SameSurvivors(items, filters, items', filters')
    ensures Extracted(converter, items', filters', e)
  {
    var s, m :| s in items && m in s.members && PassesAll(filters, s, m) && Convert(converter, s, m) == Some(e);
    var service := GetOrEmpty(s.labels, SERVICE_NAME_LABEL);
    assert Survives(items, filters, s.namespace, service, m.hostname);
    assert Survives(items', filters', s.namespace, service, m.hostname);
    var t, n :| t in items' && n in t.members && PassesAll(filters', t, n)
                && t.namespace == s.namespace && GetOrEmpty(t.labels, SERVICE_NAME_LABEL) == service
                   && n.hostname == m.hostname;
    assert Convert(converter, t, n) == Some(e);
  }

  /** Extraction depends only on the set of surviving (namespace, service, hostname) triples. */
  lemma ExtractionIsCanonical(
    converter: EndpointConverter, items: seq<EndpointSlice>, filters: seq<EndpointFilter>, r: seq<Endpoint>,
    items': seq<EndpointSlice>, filters': seq<EndpointFilter>, r': seq<Endpoint>)
    requires IsExtraction(converter, items, filters, r) && IsExtraction(converter, items', filters', r')
    requires SameSurvivors(items, filters, items', filters')
    ensures r == r'
  {
    forall e | e in r ensures e in r' {
      ExtractedTransfers(converter, items, filters, items', filters', e);
    }
    forall e | e in r' ensures e in r {
      ExtractedTransfers(converter, items', filters', items, filters, e);
    }
    assert forall e | e in r :: IsConverted(converter, e);
    EndpointLessIsOrder(converter, r);
    forall e, f | e in r && f in r ensures EndpointLess(e, f) == Before(e.address, f.address) {
      ConvertedByAddress(converter, e, f);
      ConvertedByAddress(converter, f, e);
    }
    assert StrictlySorted(r, EndpointLess) && StrictlySorted(r', EndpointLess);
    StrictlySortedUnique(r, r', EndpointLess);
  }

  lemma RearrangedSurvivor(items: seq<EndpointSlice>, filters: seq<EndpointFilter>, items': seq<EndpointSlice>,
                           filters': seq<EndpointFilter>)
    requires forall f :: f in filters <==> f in filters'
    requires forall slice, ep | slice in items && ep in slice.members ::
               exists t | t in items' :: ep in t.members && t == slice.(members := t.members)
    ensures forall ns, service, host ::
            Survives(items, filters, ns, service, host) ==> Survives(items', filters', ns, service, host)
    ensures MissingHostname(items, filters) ==> MissingHostname(items', filters')
  {
    forall slice, ep | slice in items && ep in slice.members && PassesAll(filters, slice, ep)
      ensures exists t :: t in items' && ep in t.members && PassesAll(filters', t, ep)
                          && t == slice.(members := t.members)
    {
      var t :| t in items' && ep in t.members && t == slice.(members := t.members);
      forall f | f in filters' ensures Passes(f, t, ep) {
        assert Passes(f, slice, ep);
      }
    }
  }

  /** Reordering, repeating or re-slicing the same members, and permuting the filters, changes nothing. */
  lemma RearrangementKeepsSurvivors(items: seq<EndpointSlice>, filters: seq<EndpointFilter>,
                                    items': seq<EndpointSlice>, filters': seq<EndpointFilter>)
    requires forall f :: f in filters <==> f in filters'
    requires forall slice, ep | slice in items && ep in slice.members ::
               exists t | t in items' :: ep in t.members && t == slice.(members := t.members)
    requires forall slice, ep | slice in items' && ep in slice.members ::
               exists t | t in items :: ep in t.members && t == slice.(members := t.members)
    ensures SameSurvivors(items, filters, items', filters')
    ensures MissingHostname(items, filters) <==> MissingHostname(items', filters')
  {
    RearrangedSurvivor(items, filters, items', filters');
    RearrangedSurvivor(items', filters', items, filters);
  }
}
