// Kubernetes objects, the mutators that update them (internal/pkg/manifests/mutations.go), and the
// API server they live in.

module Objects {
  datatype Kind =
    | ServiceAccount | Service | StatefulSet | Deployment | ConfigMap | Secret
    | PodDisruptionBudget | ServiceMonitor | Role | RoleBinding | ClusterRole | ClusterRoleBinding

  datatype Key = Key(kind: Kind, namespace: string, name: string)

  datatype OwnerRef = OwnerRef(uid: string, controller: bool)

  /** The labels that the operator sets itself, and any others. */
  datatype LabelName =
    | NameLabel       // app.kubernetes.io/name
    | ComponentLabel  // app.kubernetes.io/component
    | PartOfLabel     // app.kubernetes.io/part-of
    | ManagedByLabel  // app.kubernetes.io/managed-by
    | InstanceLabel   // app.kubernetes.io/instance
    | OwnerLabel      // operator.thanos.io/owner
    | ShardLabel      // operator.thanos.io/shard
    | OtherLabel(text: string)

  type Labels = map<LabelName, string>

  /** The parts of an object's spec and data that some mutator assigns, and the others of a StatefulSet. */
  datatype Field =
    | BinaryData | Data | StringData | Ports | Selector | Replicas | Strategy | MinReadySeconds | PodManagementPolicy
    | PersistentVolumeClaimRetentionPolicy | SelectorMatchLabels | NamespaceSelector | Endpoints | Spec | Rules
    | Subjects | RoleRef | TemplateAnnotations | TemplateLabels | Affinity | Containers | InitContainers | NodeSelector
    | Tolerations | TopologySpreadConstraints | Volumes | TerminationGracePeriodSeconds | SecurityContext
    | ServiceAccountName | VolumeClaimTemplates | ServiceName | OtherField(name: string)

  type Fields = map<Field, string>

  /** An object as a value. `fields` holds the parts of its spec and data; `created` tells that
      it has a creation timestamp, so that it comes from the API server. */
  datatype Object = Object(
    key: Key,
    created: bool,
    labels: Labels,
    annotations: Labels,
    ownerRefs: seq<OwnerRef>,
    fields: Fields)

  predicate IsNamespaced(kind: Kind) {
    !kind.ClusterRole? && !kind.ClusterRoleBinding?
  }

  // ---------------------------------------------------------------- what each mutator assigns

  const POD_TEMPLATE_FIELDS := [
    TemplateAnnotations, TemplateLabels, Affinity, Containers, InitContainers, NodeSelector, Tolerations,
    TopologySpreadConstraints, Volumes, TerminationGracePeriodSeconds, SecurityContext, ServiceAccountName
  ]

  /** The fields that the mutator of a kind assigns; a selector only before the object is created. */
  function AssignedFields(kind: Kind, created: bool): seq<Field> {
    match kind
    case ConfigMap => [BinaryData, Data]
    case Secret => [Data, StringData]
    case Service => [Ports, Selector]
    case Deployment => (if created then [] else [Selector]) + [Replicas, Strategy] + POD_TEMPLATE_FIELDS
    case StatefulSet =>
      (if created then [] else [Selector])
      + [Replicas, MinReadySeconds, PodManagementPolicy, PersistentVolumeClaimRetentionPolicy] + POD_TEMPLATE_FIELDS
    case ServiceMonitor => [SelectorMatchLabels, NamespaceSelector, Endpoints]
    case PodDisruptionBudget => [Spec]
    case Role => [Rules]
    case RoleBinding => [Subjects, RoleRef]
    case _ => []
  }

  /** The kinds with a mutator. */
  predicate IsSupported(kind: Kind) {
    IsNamespaced(kind)
  }

  /** Workloads merge labels with those of the live object, all other kinds replace them. */
  predicate MergesLabels(kind: Kind) {
    kind.Deployment? || kind.StatefulSet?
  }

  predicate MergesAnnotations(kind: Kind) {
    kind.Deployment? || kind.StatefulSet? || kind.Service? || kind.ServiceAccount?
  }

  function Assign(fields: Fields, desired: Fields, name: Field): Fields {
    if name in desired then fields[name := desired[name]] else fields - {name}
  }

  function AssignAll(fields: Fields, desired: Fields, names: seq<Field>): Fields
    decreases |names|
  {
    if names == [] then fields else AssignAll(Assign(fields, desired, names[0]), desired, names[1..])
  }

  function MutatedLabels(existing: Object, desired: Object): Labels {
    if MergesLabels(existing.key.kind) then existing.labels + desired.labels else desired.labels
  }

  function MutatedAnnotations(existing: Object, desired: Object): Labels {
    if MergesAnnotations(existing.key.kind) then existing.annotations + desired.annotations else desired.annotations
  }

  function MutatedOwnerRefs(existing: Object, desired: Object): seq<OwnerRef> {
    if |desired.ownerRefs| > 0 then desired.ownerRefs else existing.ownerRefs
  }

  /** The value of the existing object after mutation towards the desired one. */
  function Mutated(existing: Object, desired: Object): Object {
    Object(existing.key, existing.created,
           MutatedLabels(existing, desired), MutatedAnnotations(existing, desired), MutatedOwnerRefs(existing, desired),
           AssignAll(existing.fields, desired.fields, AssignedFields(existing.key.kind, existing.created)))
  }

  predicate SameField(d: Fields, e: Fields, f: Field) {
    (f in d <==> f in e) && (f in d ==> d[f] == e[f])
  }

  /** The parts of a pod template that follow the desired one. */
  function TemplateFields(): set<Field> {
    {TemplateAnnotations, TemplateLabels, Affinity, Containers, InitContainers, NodeSelector, Tolerations,
     TopologySpreadConstraints, Volumes, TerminationGracePeriodSeconds, SecurityContext, ServiceAccountName}
  }

  /** The parts of a live object that follow the desired one, kind by kind; a workload's selector is immutable. */
  function Followed(kind: Kind): set<Field> {
    match kind
    case StatefulSet =>
      TemplateFields() + {Replicas, MinReadySeconds, PodManagementPolicy, PersistentVolumeClaimRetentionPolicy}
    case Deployment => TemplateFields() + {Replicas, Strategy}
    case Service => {Ports, Selector}
    case ConfigMap => {Data, BinaryData}
    case Secret => {Data, StringData}
    case ServiceMonitor => {SelectorMatchLabels, NamespaceSelector, Endpoints}
    case PodDisruptionBudget => {Spec}
    case Role => {Rules}
    case RoleBinding => {Subjects, RoleRef}
    case ServiceAccount | ClusterRole | ClusterRoleBinding => {}
  }

  /** A map of labels or annotations after mutation: as desired where something is desired, and otherwise
      as it was if existing ones are kept. */
  predicate LabelsFollow(kept: bool, existing: Labels, desired: Labels, result: Labels) {
    && (forall l | l in desired :: l in result && result[l] == desired[l])
    && (forall l | l in result && l !in desired :: kept && l in existing && result[l] == existing[l])
    && (kept ==> forall l | l in existing :: l in result)
  }

  /** What mutation makes of an object, part by part. */
  ghost predicate Follows(existing: Object, desired: Object, result: Object) {
    var kind := existing.key.kind;
    && result.key == existing.key && result.created == existing.created
    && (forall f | f in Followed(kind) :: SameField(result.fields, desired.fields, f))
    && (forall f | f !in Followed(kind) && (f.Selector? ==> existing.created) ::
          SameField(result.fields, existing.fields, f))
    && (!existing.created && kind in {StatefulSet, Deployment} ==> SameField(result.fields, desired.fields, Selector))
    && LabelsFollow(kind in {StatefulSet, Deployment}, existing.labels, desired.labels, result.labels)
    && LabelsFollow(kind in {StatefulSet, Deployment, Service, ServiceAccount}, existing.annotations,
                    desired.annotations, result.annotations)
    && result.ownerRefs == if desired.ownerRefs == [] then existing.ownerRefs else desired.ownerRefs
  }

  lemma {:induction false} AssignAllAt(fields: Fields, desired: Fields, names: seq<Field>, f: Field)
    ensures var r := AssignAll(fields, desired, names);
            if f in names then (f in r <==> f in desired) && (f in r ==> r[f] == desired[f])
            else (f in r <==> f in fields) && (f in r ==> r[f] == fields[f])
    decreases |names|
  {
    if names == [] {
    } else {
      AssignAllAt(Assign(fields, desired, names[0]), desired, names[1..], f);
      assert names == [names[0]] + names[1..];
    }
  }

  lemma TemplateMeaning(f: Field)
    ensures f in POD_TEMPLATE_FIELDS <==> f in TemplateFields()
  {
    if f in TemplateFields() {
      var t := POD_TEMPLATE_FIELDS;
      assert f in {t[0], t[1], t[2], t[3]} || f in {t[4], t[5], t[6], t[7]} || f in {t[8], t[9], t[10], t[11]};
    }
  }

  lemma WorkloadMeaning(selector: seq<Field>, own: seq<Field>, f: Field)
    ensures f in selector + own + POD_TEMPLATE_FIELDS <==> f in selector || f in own || f in TemplateFields()
  {
    TemplateMeaning(f);
  }

  lemma AssignedMeaning(kind: Kind, created: bool, f: Field)
    ensures f in AssignedFields(kind, created) <==>
            f in Followed(kind) || (f.Selector? && !created && kind in {StatefulSet, Deployment})
  {
    var selector := if created then [] else [Selector];
    match kind
    case StatefulSet =>
      var own := [Replicas, MinReadySeconds, PodManagementPolicy, PersistentVolumeClaimRetentionPolicy];
      WorkloadMeaning(selector, own, f);
    case Deployment => WorkloadMeaning(selector, [Replicas, Strategy], f);
    case _ =>
  }

  lemma FieldFollows(existing: Object, desired: Object, f: Field)
    ensures var kind, result := existing.key.kind, Mutated(existing, desired).fields;
            if f in Followed(kind) || (f.Selector? && !existing.created && kind in {StatefulSet, Deployment})
            then SameField(result, desired.fields, f) else SameField(result, existing.fields, f)
  {
    AssignedMeaning(existing.key.kind, existing.created, f);
    AssignAllAt(existing.fields, desired.fields, AssignedFields(existing.key.kind, existing.created), f);
  }

  /** Mutation makes an object follow the desired one in exactly the parts its kind asks for. */
  lemma MutatedFollows(existing: Object, desired: Object)
    ensures Follows(existing, desired, Mutated(existing, desired))
  {
    forall f ensures
      var kind, result := existing.key.kind, Mutated(existing, desired).fields;
      if f in Followed(kind) || (f.Selector? && !existing.created && kind in {StatefulSet, Deployment})
      then SameField(result, desired.fields, f) else SameField(result, existing.fields, f)
    {
      FieldFollows(existing, desired, f);
    }
  }

  /** The object being mutated, as the handler holds it. */
  class LiveObject {
    const key: Key
    const created: bool
    var labels: Labels
    var annotations: Labels
    var ownerRefs: seq<OwnerRef>
    var fields: Fields

    constructor (o: Object)
      ensures Value() == o
    {
      key, created := o.key, o.created;
      labels, annotations, ownerRefs, fields := o.labels, o.annotations, o.ownerRefs, o.fields;
    }

    function Value(): Object
      reads this
    {
      Object(key, created, labels, annotations, ownerRefs, fields)
    }

    method AssignFields(names: seq<Field>, desired: Object)
      modifies this`fields
      ensures fields == AssignAll(old(fields), desired.fields, names)
    {
      for i := 0 to |names|
        invariant AssignAll(fields, desired.fields, names[i..]) == AssignAll(old(fields), desired.fields, names)
      {
        fields := Assign(fields, desired.fields, names[i]);
        assert names[i..][1..] == names[i + 1..];
      }
    }

    /** What the kind's own mutator does to the merged metadata. */
    method ReplaceMetadata(desired: Object) returns (ok: bool)
      modifies this`labels, this`annotations
      ensures ok <==> IsSupported(key.kind)
      ensures ok ==> labels == if MergesLabels(key.kind) then old(labels) else desired.labels
      ensures ok ==> annotations == if MergesAnnotations(key.kind) then old(annotations) else desired.annotations
    {
      ok := true;
      match key.kind {
        case ConfigMap | Secret | ServiceMonitor | PodDisruptionBudget | Role | RoleBinding =>
          annotations := desired.annotations;
          labels := desired.labels;
        case Service | ServiceAccount =>
          labels := desired.labels;
        case Deployment | StatefulSet =>
        case ClusterRole | ClusterRoleBinding =>
          ok := false;
      }
    }

    /** `MutateFuncFor`. It fails for a kind without a mutator. */
    method Mutate(desired: Object) returns (ok: bool)
      modifies this
      ensures ok <==> IsSupported(key.kind)
      ensures ok ==> Value() == Mutated(old(Value()), desired)
      ensures ok ==> Follows(old(Value()), desired, Value())
    {
      ghost var existing := Value();
      annotations := annotations + desired.annotations;
      labels := labels + desired.labels;
      if |desired.ownerRefs| > 0 {
        ownerRefs := desired.ownerRefs;
      }
      ok := ReplaceMetadata(desired);
      if ok {
        AssignFields(AssignedFields(key.kind, created), desired);
      }
      MutatedFollows(existing, desired);
    }
  }

  // ---------------------------------------------------------------- properties of mutation

  lemma AssignAllTwice(fields: Fields, desired: Fields, names: seq<Field>)
    ensures AssignAll(AssignAll(fields, desired, names), desired, names) == AssignAll(fields, desired, names)
  {
    var r := AssignAll(fields, desired, names);
    var q := AssignAll(r, desired, names);
    forall f ensures (f in q <==> f in r) && (f in q ==> q[f] == r[f]) {
      AssignAllAt(fields, desired, names, f);
      AssignAllAt(r, desired, names, f);
    }
    assert q == r;
  }

  lemma AssignAllSelf(fields: Fields, names: seq<Field>)
    ensures AssignAll(fields, fields, names) == fields
  {
    var r := AssignAll(fields, fields, names);
    forall f ensures (f in r <==> f in fields) && (f in r ==> r[f] == fields[f]) {
      AssignAllAt(fields, fields, names, f);
    }
    assert r == fields;
  }

  /** Mutating twice towards the same object is mutating once. */
  lemma MutateIdempotent(existing: Object, desired: Object)
    ensures Mutated(Mutated(existing, desired), desired) == Mutated(existing, desired)
  {
    AssignAllTwice(existing.fields, desired.fields, AssignedFields(existing.key.kind, existing.created));
    assert (existing.labels + desired.labels) + desired.labels == existing.labels + desired.labels;
    assert (existing.annotations + desired.annotations) + desired.annotations ==
      existing.annotations + desired.annotations;
  }

  /** An object that is about to be created, or that has just been created from it, needs no mutation. */
  lemma MutateFresh(o: Object, created: bool)
    ensures Mutated(o.(created := created), o) == o.(created := created)
  {
    AssignAllSelf(o.fields, AssignedFields(o.key.kind, created));
    assert o.labels + o.labels == o.labels && o.annotations + o.annotations == o.annotations;
  }

  predicate CompatibleLabels(merged: bool, d: Labels, e: Labels) {
    if merged then forall l | l in d && l in e :: d[l] == e[l] else d == e
  }

  /** `d` and `e` ask for the same where the mutator replaces, and for nothing different where it merges. */
  predicate Compatible(d: Object, e: Object) {
    && CompatibleLabels(MergesLabels(d.key.kind), d.labels, e.labels)
    && CompatibleLabels(MergesAnnotations(d.key.kind), d.annotations, e.annotations)
    && (d.ownerRefs != [] && e.ownerRefs != [] ==> d.ownerRefs == e.ownerRefs)
    && forall f | f in AssignedFields(d.key.kind, true) :: SameField(d.fields, e.fields, f)
  }

  /** Mutating the live object towards either changes nothing. */
  predicate Unchanged(live: Object, d: Object) {
    Mutated(live, d) == live
  }

  lemma UnchangedLabels(merged: bool, live: Labels, d: Labels, e: Labels)
    requires live == if merged then live + d else d
    requires live == if merged then live + e else e
    ensures CompatibleLabels(merged, d, e)
  {
    if merged {
      forall l | l in d && l in e ensures d[l] == e[l] {
        assert (live + d)[l] == d[l] && (live + e)[l] == e[l];
      }
    }
  }

  /** A live object can be as two desired ones want it only if these are compatible. */
  lemma UnchangedCompatible(live: Object, d: Object, e: Object)
    requires live.created && live.key.kind == d.key.kind == e.key.kind
    requires Unchanged(live, d) && Unchanged(live, e)
    ensures Compatible(d, e)
  {
    var kind := live.key.kind;
    UnchangedLabels(MergesLabels(kind), live.labels, d.labels, e.labels);
    UnchangedLabels(MergesAnnotations(kind), live.annotations, d.annotations, e.annotations);
    forall f | f in AssignedFields(kind, true) ensures SameField(d.fields, e.fields, f) {
      AssignAllAt(live.fields, d.fields, AssignedFields(kind, true), f);
      AssignAllAt(live.fields, e.fields, AssignedFields(kind, true), f);
    }
  }

  lemma SameFieldsEqual(q: Fields, r: Fields)
    requires forall f :: SameField(q, r, f)
    ensures q == r
  {
    forall f ensures (f in q <==> f in r) && (f in q ==> q[f] == r[f]) {
      assert SameField(q, r, f);
    }
  }

  lemma CompatibleKeeps(merged: bool, live: Labels, d: Labels, e: Labels)
    requires live == if merged then live + d else d
    requires CompatibleLabels(merged, d, e)
    ensures var live' := if merged then live + e else e;
            live' == if merged then live' + d else d
  {
    if merged {
      forall l | l in d ensures (live + e)[l] == d[l] {
        assert (live + d)[l] == d[l];
      }
      assert (live + e) + d == live + e;
    }
  }

  /** Of two compatible desired objects, mutating towards one leaves the live object as the other wants it. */
  lemma CompatibleUnchanged(live: Object, d: Object, e: Object)
    requires live.created && live.key.kind == d.key.kind == e.key.kind
    requires Unchanged(live, d) && Compatible(d, e)
    ensures Unchanged(Mutated(live, e), d)
  {
    var kind, names := live.key.kind, AssignedFields(live.key.kind, true);
    CompatibleKeeps(MergesLabels(kind), live.labels, d.labels, e.labels);
    CompatibleKeeps(MergesAnnotations(kind), live.annotations, d.annotations, e.annotations);
    var r := AssignAll(live.fields, e.fields, names);
    var q := AssignAll(r, d.fields, names);
    forall f ensures SameField(q, r, f) {
      AssignAllAt(live.fields, e.fields, names, f);
      AssignAllAt(r, d.fields, names, f);
      assert f in names ==> SameField(d.fields, e.fields, f);
    }
    SameFieldsEqual(q, r);
  }

  lemma CompatibleWithItself(d: Object)
    ensures Compatible(d, d)
  {
  }

  /** The mutators never touch the claim templates, the service name or the selector of a live StatefulSet. */
  lemma LiveStatefulSetKeepsImmutableFields(existing: Object, desired: Object, f: Field)
    requires existing.key.kind.StatefulSet? && existing.created
    requires f in {VolumeClaimTemplates, ServiceName, Selector}
    ensures var fields := Mutated(existing, desired).fields;
            (f in fields <==> f in existing.fields) && (f in fields ==> fields[f] == existing.fields[f])
  {
    FieldFollows(existing, desired, f);
  }
}

module ApiServer {
  import opened Basics
  import opened Objects

  type Store = map<Key, Object>

  /** The writes that led from some first state to the present one. */
  datatype History =
    | Initial(objects: Store)
    | Upserted(prev: History, key: Key, value: Object)
    | Deleted(prev: History, key: Key)
  {
    function Now(): Store {
      match this
      case Initial(objects) => objects
      case Upserted(prev, key, value) => prev.Now()[key := value]
      case Deleted(prev, key) => prev.Now() - {key}
    }

    /** How many writes there were. */
    function Writes(): nat {
      match this
      case Initial(_) => 0
      case Upserted(prev, _, _) => prev.Writes() + 1
      case Deleted(prev, _) => prev.Writes() + 1
    }
  }

  /** Every write after `start` is as demanded. `ok` is given the history up to and including the write. */
  ghost predicate AllSince(h: History, start: History, ok: History -> bool) {
    h == start || (!h.Initial? && ok(h) && AllSince(h.prev, start, ok))
  }

  /** A write to one of the keys. */
  ghost function WritesTo(touched: Key -> bool): History -> bool {
    (w: History) => !w.Initial? && touched(w.key)
  }

  predicate Agree(s: Store, t: Store, k: Key) {
    (k in s <==> k in t) && (k in s ==> s[k] == t[k])
  }

  /** What is not written to stays as it is. */
  lemma {:induction false} UntouchedStays(h: History, start: History, touched: Key -> bool, k: Key)
    requires AllSince(h, start, WritesTo(touched)) && !touched(k)
    ensures Agree(h.Now(), start.Now(), k)
  {
    if h == start {
    } else {
      UntouchedStays(h.prev, start, touched, k);
    }
  }

  lemma {:induction false} AllSinceJoin(h: History, middle: History, start: History, ok: History -> bool)
    requires AllSince(h, middle, ok) && AllSince(middle, start, ok)
    ensures AllSince(h, start, ok)
  {
    if h != middle && h != start {
      AllSinceJoin(h.prev, middle, start, ok);
    }
  }

  lemma {:induction false} AllSinceWeaken(h: History, start: History, ok: History -> bool, weaker: History -> bool)
    requires AllSince(h, start, ok)
    requires forall w :: ok(w) ==> weaker(w)
    ensures AllSince(h, start, weaker)
  {
    if h == start {
    } else {
      AllSinceWeaken(h.prev, start, ok, weaker);
    }
  }

  datatype ListOptions = ListOptions(namespace: string, matchLabels: Labels)

  predicate HasLabels(labels: Labels, required: Labels) {
    forall l | l in required :: l in labels && labels[l] == required[l]
  }

  /** An empty namespace stands for all of them. */
  predicate Selected(opts: ListOptions, o: Object) {
    (opts.namespace == "" || o.key.namespace == opts.namespace) && HasLabels(o.labels, opts.matchLabels)
  }

  predicate IsListed(s: Store, kind: Kind, opts: ListOptions, o: Object) {
    o.key in s && s[o.key] == o && o.key.kind == kind && Selected(opts, o)
  }

  predicate DistinctKeys(items: seq<Object>) {
    forall i, j | 0 <= i < j < |items| :: items[i].key != items[j].key
  }

  /** `items` are those to be listed, except for the remaining keys. */
  ghost predicate AreListed(s: Store, kind: Kind, opts: ListOptions, remaining: set<Key>, items: seq<Object>) {
    DistinctKeys(items) && forall o :: o in items <==> o.key !in remaining && IsListed(s, kind, opts, o)
  }

  lemma ListStep(s: Store, kind: Kind, opts: ListOptions, remaining: set<Key>, items: seq<Object>, k: Key)
    requires AreListed(s, kind, opts, remaining, items) && k in remaining && k in s && s[k].key == k
    ensures AreListed(s, kind, opts, remaining - {k},
                      if k.kind == kind && Selected(opts, s[k]) then items + [s[k]] else items)
  {
    forall i | 0 <= i < |items| ensures items[i].key != k {
      assert items[i] in items;
    }
  }

  datatype GetResult = Found(value: Object) | NotFound | GetFailed

  datatype ListResult = Items(items: seq<Object>) | NoMatch | ListFailed

  ghost predicate KeysAgree(objects: Store) {
    forall k | k in objects :: objects[k].key == k
  }

  ghost predicate AllCreated(objects: Store) {
    forall k | k in objects :: objects[k].created
  }

  /** What the API server guarantees of its objects. */
  ghost predicate WellFormed(objects: Store, installed: set<Kind>) {
    KeysAgree(objects) && AllCreated(objects) && forall k | k in objects :: k.kind in installed && k.name != ""
  }

  /** A cluster with one client. `faults` decides which calls fail; a failed call has no effect. */
  class Server {
    const installed: set<Kind>
    const faults: nat -> bool
    var calls: nat
    var objects: Store
    ghost var history: History

    ghost predicate Valid()
      reads this
    {
      objects == history.Now() && WellFormed(objects, installed)
    }

    ghost predicate Reliable() {
      forall n :: !faults(n)
    }

    method Call() returns (ok: bool)
      modifies this`calls
      ensures ok == !faults(old(calls))
    {
      ok := !faults(calls);
      calls := calls + 1;
    }

    method Get(key: Key) returns (r: GetResult)
      requires Valid()
      modifies this`calls
      ensures r.Found? ==> key in objects && r.value == objects[key]
      ensures r.NotFound? ==> key !in objects
      ensures r.GetFailed? ==> faults(old(calls)) || key.kind !in installed
    {
      var ok := Call();
      if !ok || key.kind !in installed {
        return GetFailed;
      }
      r := if key in objects then Found(objects[key]) else NotFound;
    }

    /** Lists in any order. A kind that is not installed is no match. */
    method List(kind: Kind, opts: ListOptions) returns (r: ListResult)
      requires Valid()
      modifies this`calls
      ensures r.Items? ==> forall o :: o in r.items <==> IsListed(objects, kind, opts, o)
      ensures r.Items? ==> DistinctKeys(r.items)
      ensures r.NoMatch? ==> kind !in installed
      ensures r.ListFailed? ==> faults(old(calls))
    {
      var ok := Call();
      if !ok {
        return ListFailed;
      }
      if kind !in installed {
        return NoMatch;
      }
      var items: seq<Object> := [];
      var remaining := objects.Keys;
      while remaining != {}
        invariant remaining <= objects.Keys
        invariant AreListed(objects, kind, opts, remaining, items)
        decreases |remaining|
      {
        var k :| k in remaining;
        ListStep(objects, kind, opts, remaining, items, k);
        remaining := remaining - {k};
        if k.kind == kind && Selected(opts, objects[k]) {
          items := items + [objects[k]];
        }
      }
      r := Items(items);
    }

    /** Creates or updates. The server refuses a kind it does not know and an empty name. */
    method Put(o: Object) returns (ok: bool)
      requires Valid()
      modifies this
      ensures Valid()
      ensures history == if ok then Upserted(old(history), o.key, o.(created := true)) else old(history)
      ensures !ok ==> faults(old(calls)) || o.key.kind !in installed || o.key.name == ""
    {
      ok := Call();
      if !ok || o.key.kind !in installed || o.key.name == "" {
        return false;
      }
      history := Upserted(history, o.key, o.(created := true));
      objects := objects[o.key := o.(created := true)];
    }

    /** Deletes; a missing object is no error. */
    method Delete(key: Key) returns (ok: bool)
      requires Valid()
      modifies this
      ensures Valid()
      ensures history == if ok && key in old(objects) then Deleted(old(history), key) else old(history)
      ensures !ok ==> faults(old(calls))
    {
      ok := Call();
      if ok && key in objects {
        history := Deleted(history, key);
        objects := objects - {key};
      }
    }
  }

  /** The two states agree outside `keys`. */
  ghost predicate SameExcept(s: Store, t: Store, keys: set<Key>) {
    forall k | k !in keys :: Agree(s, t, k)
  }
}
