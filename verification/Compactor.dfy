// The Thanos compactor's reconciliation (internal/controller/thanoscompact_controller.go) and what it
// builds (internal/pkg/manifests/compact/builder.go).

module CompactorManifests {
  import opened Basics
  import opened Objects
  import opened ApiServer
  import opened Handlers
  import opened Relabelling
  import ResourceNames

  // ---------------------------------------------------------------- options and labels

  const NAME := "thanos-compact"

  const COMPONENT_NAME := "thanos-compactor"

  /** The feature gate for ServiceMonitors when it is on. */
  datatype MonitorConfig = MonitorConfig(additionalLabels: Objects.Labels)

  datatype Options = Options(
    owner: string,
    namespace: string,
    labels: Objects.Labels,
    annotations: Objects.Labels,
    shardName: Option<string>,
    relabelConfigs: seq<RelabelConfig>,
    serviceMonitor: Option<MonitorConfig>)

  /** The two sanitisers, and the spec of each built object. */
  datatype Env = Env(resourceName: string -> string, labelValue: string -> string, render: (Kind, Options) -> Fields)

  function RawName(opts: Options): string {
    NAME + "-" + opts.owner + (if opts.shardName.Some? then "-" + opts.shardName.value else "")
  }

  function GeneratedResourceName(opts: Options, env: Env): string {
    env.resourceName(RawName(opts))
  }

  function RequiredLabels(): Objects.Labels {
    map[NameLabel := NAME, ComponentLabel := COMPONENT_NAME,
        PartOfLabel := "thanos", ManagedByLabel := "thanos-operator"]
  }

  function SelectorLabels(opts: Options, env: Env): Objects.Labels {
    var labels := RequiredLabels()
      [InstanceLabel := env.labelValue(GeneratedResourceName(opts, env))]
      [OwnerLabel := env.labelValue(opts.owner)];
    if opts.shardName.Some? then labels[ShardLabel := env.labelValue(opts.shardName.value)] else labels
  }

  /** `GetLabelSelectorForOwner`: the selector labels of unsharded options, without the instance. */
  function OwnerSelector(owner: string, env: Env): Objects.Labels {
    SelectorLabels(Options(owner, "", map[], map[], None, [], None), env) - {InstanceLabel}
  }

  lemma SelectorCoversOwner(opts: Options, env: Env)
    ensures HasLabels(SelectorLabels(opts, env), OwnerSelector(opts.owner, env))
  {
  }

  /** The labels of a compactor object of this owner. */
  predicate BelongsTo(labels: Objects.Labels, owner: string, env: Env) {
    && NameLabel in labels && labels[NameLabel] == "thanos-compact"
    && ComponentLabel in labels && labels[ComponentLabel] == "thanos-compactor"
    && PartOfLabel in labels && labels[PartOfLabel] == "thanos"
    && ManagedByLabel in labels && labels[ManagedByLabel] == "thanos-operator"
    && OwnerLabel in labels && labels[OwnerLabel] == env.labelValue(owner)
  }

  /** The selector asks for these labels and nothing else. */
  lemma OwnerSelectorMeaning(labels: Objects.Labels, owner: string, env: Env)
    ensures HasLabels(labels, OwnerSelector(owner, env)) <==> BelongsTo(labels, owner, env)
  {
    var selector := OwnerSelector(owner, env);
    assert selector.Keys == {NameLabel, ComponentLabel, PartOfLabel, ManagedByLabel, OwnerLabel};
    if HasLabels(labels, selector) {
      assert NameLabel in selector && ComponentLabel in selector && PartOfLabel in selector;
      assert ManagedByLabel in selector && OwnerLabel in selector;
    }
  }

  /** With the operator's sanitisers a name that is valid is used as it is: prefix, owner and shard. */
  lemma GeneratedNameMeaning(opts: Options, env: Env, hash: string -> string, raw: string)
    requires forall s :: env.resourceName(s) == ResourceNames.ValidateAndSanitizeResourceName(s, hash)
    requires raw == "thanos-compact-" + opts.owner + if opts.shardName.Some? then "-" + opts.shardName.value else ""
    requires ResourceNames.IsDns1123Subdomain(raw)
    ensures GeneratedResourceName(opts, env) == raw
  {
    assert NAME + "-" == "thanos-compact-";
  }

  /** A shard of one owner and an owner of the joined name get one generated name. */
  lemma OwnersCanCollide(opts: Options, other: Options, env: Env)
    requires opts.shardName.Some? && other.shardName.None? && other.owner == opts.owner + "-" + opts.shardName.value
    ensures GeneratedResourceName(opts, env) == GeneratedResourceName(other, env)
  {
    assert RawName(opts) == RawName(other);
  }

  /** With the operator's sanitisers no generated name is empty. */
  lemma GeneratedNameNotEmpty(opts: Options, env: Env, hash: string -> string)
    requires ResourceNames.IsHexHash(hash)
    requires forall s :: env.resourceName(s) == ResourceNames.ValidateAndSanitizeResourceName(s, hash)
    ensures GeneratedResourceName(opts, env) != ""
  {
    var raw := RawName(opts);
    if !ResourceNames.IsDns1123Subdomain(raw) {
      assert raw[0] == 't' && raw[0] in raw;
      ResourceNames.TrimMeaning(raw);
      ResourceNames.SanitizeTrimmed(ResourceNames.EnsureAlphaNumericTrailingChars(raw), hash);
    }
  }

  // ---------------------------------------------------------------- what is built

  /** `MergeMaps` lets the selector labels win over those of the user. */
  function BuildAll(name: string, namespace: string, userLabels: Objects.Labels, selectorLabels: Objects.Labels,
                    annotations: Objects.Labels, monitor: Option<MonitorConfig>, fields: Kind -> Fields): seq<Object> {
    var metaLabels := userLabels + selectorLabels;
    [Object(Key(ServiceAccount, namespace, name), false, selectorLabels, annotations, [], fields(ServiceAccount)),
     Object(Key(StatefulSet, namespace, name), false, metaLabels, annotations, [], fields(StatefulSet)),
     Object(Key(Service, namespace, name), false, metaLabels, annotations, [], fields(Service))]
    + if monitor.None? then []
      else [Object(Key(ServiceMonitor, namespace, name), false,
                   monitor.value.additionalLabels + metaLabels, map[], [], fields(ServiceMonitor))]
  }

  function Build(opts: Options, env: Env): seq<Object> {
    BuildAll(GeneratedResourceName(opts, env), opts.namespace, opts.labels, SelectorLabels(opts, env), opts.annotations,
             opts.serviceMonitor, (kind: Kind) => env.render(kind, opts))
  }

  predicate IsBuiltKind(kind: Kind, gate: Option<MonitorConfig>) {
    kind.ServiceAccount? || kind.Service? || kind.StatefulSet? || (kind.ServiceMonitor? && gate.Some?)
  }

  predicate IsBuilt(o: Object, name: string, namespace: string, required: Objects.Labels, gate: Option<MonitorConfig>) {
    && HasLabels(o.labels, required)
    && o.key == Key(o.key.kind, namespace, name) && IsBuiltKind(o.key.kind, gate)
    && o.ownerRefs == []
  }

  lemma AllAreBuilt(name: string, namespace: string, userLabels: Objects.Labels, selectorLabels: Objects.Labels,
                    annotations: Objects.Labels, monitor: Option<MonitorConfig>,
                    fields: Kind -> Fields, required: Objects.Labels)
    requires HasLabels(selectorLabels, required)
    ensures forall o | o in BuildAll(name, namespace, userLabels, selectorLabels, annotations, monitor, fields) ::
              IsBuilt(o, name, namespace, required, monitor)
  {
  }

  /** Whatever the user's labels, every object that is built carries the owner's selector. */
  lemma BuiltCarryOwnerSelector(opts: Options, env: Env)
    ensures forall o | o in Build(opts, env) ::
              IsBuilt(o, GeneratedResourceName(opts, env), opts.namespace,
                      OwnerSelector(opts.owner, env), opts.serviceMonitor)
  {
    SelectorCoversOwner(opts, env);
    AllAreBuilt(GeneratedResourceName(opts, env), opts.namespace, opts.labels, SelectorLabels(opts, env),
                opts.annotations, opts.serviceMonitor, (kind: Kind) => env.render(kind, opts),
                OwnerSelector(opts.owner, env));
  }

  /** What is built for one owner is not found by the selector of another. */
  lemma BuiltBelongsToItsOwner(opts: Options, env: Env, o: Object, owner: string)
    requires o in Build(opts, env)
    ensures BelongsTo(o.labels, opts.owner, env)
    ensures BelongsTo(o.labels, owner, env) ==> env.labelValue(owner) == env.labelValue(opts.owner)
  {
    BuiltCarryOwnerSelector(opts, env);
    OwnerSelectorMeaning(o.labels, opts.owner, env);
  }
}

/** Prune first, then create: what one reconciliation does, for any plan of what is wanted. */
module PruneThenCreate {
  import opened Basics
  import opened Objects
  import opened ApiServer
  import opened Handlers

  /** What a reconciliation is to achieve. `gated` tells that ServiceMonitors are switched off. */
  datatype Plan = Plan(owner: Owner, selector: Labels, names: seq<string>, wanted: seq<Object>, gated: bool)

  function PrunedKinds(): set<Kind> {
    {ServiceAccount, Service, StatefulSet, ServiceMonitor}
  }

  /** The names to keep. The source allocates as many empty names in front of them, which match nothing. */
  function ExpectResources(names: seq<string>): seq<string> {
    seq(|names|, _ => "") + names
  }

  lemma ExpectedIsKept(names: seq<string>, name: string)
    requires name in names
    ensures name in ExpectResources(names)
  {
    var i :| 0 <= i < |names| && names[i] == name;
    assert ExpectResources(names)[|names| + i] == name;
  }

  function Listed(p: Plan): ListOptions {
    ListOptions(p.owner.namespace, p.selector)
  }

  /** What is listed under a name that is not among these. */
  function OrphansOf(opts: ListOptions, names: seq<string>): Target {
    KeepTarget(PrunedKinds(), ExpectResources(names), opts)
  }

  function Orphans(p: Plan): Target {
    OrphansOf(Listed(p), p.names)
  }

  function Monitors(p: Plan): Target {
    OwnedTarget({ServiceMonitor}, p.owner)
  }

  ghost predicate NoneLeft(s: Store, t: Target) {
    forall k :: !Doomed(s, t, k)
  }

  /** What one reconciliation did: orphans pruned, objects brought in place, gated monitors deleted. */
  datatype Sync = Sync(pruned: seq<Key>, done: seq<Object>, monitors: seq<Key>)

  function Pruned(h: History, run: Sync): History {
    DeleteAll(h, run.pruned)
  }

  function Created(h: History, run: Sync): History {
    EnsureAll(Pruned(h, run), run.done)
  }

  function After(h: History, run: Sync): History {
    DeleteAll(Created(h, run), run.monitors)
  }

  /** A reconciliation from `h`, which may have failed at any point. */
  ghost predicate IsSync(p: Plan, h: History, run: Sync, ok: bool) {
    && AllDoomed(h.Now(), Orphans(p), run.pruned)
    && (ok || run.done != [] ==> NoneMissed(h.Now(), Orphans(p), run.pruned))
    && (forall d | d in run.done :: d in p.wanted)
    && (ok ==> run.done == p.wanted)
    && AllDoomed(Created(h, run).Now(), Monitors(p), run.monitors)
    && (run.monitors != [] ==> p.gated && p.owner.uid != "")
    && (ok && p.gated && p.owner.uid != "" ==> NoneMissed(Created(h, run).Now(), Monitors(p), run.monitors))
  }

  predicate IsSound(p: Plan, d: Object) {
    && HasLabels(d.labels, p.selector)
    && d.key.namespace == p.owner.namespace && d.key.name in p.names
    && d.key.kind in PrunedKinds() && (d.key.kind.ServiceMonitor? ==> !p.gated)
    && IsControlledBy(d, p.owner.uid)
  }

  /** What the manifests guarantee of a plan. */
  ghost predicate Sound(p: Plan) {
    && p.owner.namespace != ""
    && (forall d | d in p.wanted :: IsSound(p, d))
    && (forall name, kind: Kind | name in p.names && kind in {ServiceAccount, Service, StatefulSet} ::
          Key(kind, p.owner.namespace, name) in Keys(p.wanted))
  }

  // ---------------------------------------------------------------- safety

  ghost function SafeWrite(p: Plan): History -> bool {
    (w: History) => w.Upserted? ==> NoneLeft(w.prev.Now(), Orphans(p))
  }

  lemma DeletedAll(h: History, ks: seq<Key>, t: Target)
    requires NoneMissed(h.Now(), t, ks)
    ensures NoneLeft(DeleteAll(h, ks).Now(), t)
  {
    DeleteAllAt(h, ks);
    forall k ensures !Doomed(DeleteAll(h, ks).Now(), t, k) {
      assert Doomed(h.Now(), t, k) ==> k in ks;
    }
  }

  lemma PrunedHasNoOrphans(p: Plan, h: History, run: Sync)
    requires NoneMissed(h.Now(), Orphans(p), run.pruned)
    ensures NoneLeft(Pruned(h, run).Now(), Orphans(p))
  {
    DeletedAll(h, run.pruned, Orphans(p));
  }

  /** Wanted objects are no orphans, so changing them makes none. */
  lemma NoNewOrphans(p: Plan, s: Store, t: Store)
    requires Sound(p) && NoneLeft(s, Orphans(p)) && SameExcept(s, t, Keys(p.wanted)) && KeysAgree(t)
    ensures NoneLeft(t, Orphans(p))
  {
    forall k ensures !Doomed(t, Orphans(p), k) {
      assert !Doomed(s, Orphans(p), k);
      if k in Keys(p.wanted) && k in t {
        var d :| d in p.wanted && d.key == k;
        assert IsSound(p, d);
        ExpectedIsKept(p.names, k.name);
      }
    }
  }

  lemma PrunedSafely(p: Plan, h: History, ks: seq<Key>)
    ensures AllSince(DeleteAll(h, ks), h, SafeWrite(p))
  {
    var keys := set k | k in ks;
    DeleteAllFrame(h, ks, keys);
    forall w | DeletionWithin(keys)(w) ensures SafeWrite(p)(w) {}
    AllSinceWeaken(DeleteAll(h, ks), h, DeletionWithin(keys), SafeWrite(p));
  }

  lemma KeysSubset(some: seq<Object>, all: seq<Object>)
    requires forall d | d in some :: d in all
    ensures Keys(some) <= Keys(all)
  {
  }

  lemma CreatedSafely(p: Plan, h: History, done: seq<Object>)
    requires Sound(p) && KeysAgree(h.Now()) && NoneLeft(h.Now(), Orphans(p)) && forall d | d in done :: d in p.wanted
    ensures AllSince(EnsureAll(h, done), h, SafeWrite(p))
  {
    var keys := Keys(p.wanted);
    KeysSubset(done, p.wanted);
    EnsureAllFrame(h, done, keys);
    forall w | UpsertWithin(h.Now(), keys)(w) ensures SafeWrite(p)(w) {
      NoNewOrphans(p, h.Now(), w.prev.Now());
    }
    AllSinceWeaken(EnsureAll(h, done), h, UpsertWithin(h.Now(), keys), SafeWrite(p));
  }

  /** Safety, whatever calls fail: every write that creates or updates an object is made in a state in which
      no object under the owner's selector has a name outside the expected ones. In particular no compactor
      StatefulSet starts while another one, left over from earlier sharding, may still be at work. */
  lemma SyncIsSafe(p: Plan, h: History, run: Sync, ok: bool)
    requires Sound(p) && KeysAgree(h.Now()) && IsSync(p, h, run, ok)
    ensures AllSince(After(h, run), h, SafeWrite(p))
  {
    PrunedSafely(p, h, run.pruned);
    if run.done != [] {
      PrunedHasNoOrphans(p, h, run);
      DeleteAllKeys(h, run.pruned);
      CreatedSafely(p, Pruned(h, run), run.done);
    }
    PrunedSafely(p, Created(h, run), run.monitors);
    AllSinceJoin(Created(h, run), Pruned(h, run), h, SafeWrite(p));
    AllSinceJoin(After(h, run), Created(h, run), h, SafeWrite(p));
  }

  // ---------------------------------------------------------------- framing

  /** What a reconciliation may write to: orphans, wanted objects, and monitors the owner controls. */
  ghost function Touched(p: Plan, s: Store): Key -> bool {
    (k: Key) => || Doomed(s, Orphans(p), k) || k in Keys(p.wanted)
                || (p.gated && p.owner.uid != "" && Doomed(s, Monitors(p), k))
  }

  lemma DeletesTouched(h: History, ks: seq<Key>, touched: Key -> bool)
    requires forall k | k in ks :: touched(k)
    ensures AllSince(DeleteAll(h, ks), h, WritesTo(touched))
  {
    var keys := set k | k in ks;
    DeleteAllFrame(h, ks, keys);
    forall w | DeletionWithin(keys)(w) ensures WritesTo(touched)(w) {}
    AllSinceWeaken(DeleteAll(h, ks), h, DeletionWithin(keys), WritesTo(touched));
  }

  lemma EnsuresTouched(h: History, ds: seq<Object>, keys: set<Key>, touched: Key -> bool)
    requires KeysAgree(h.Now()) && Keys(ds) <= keys && forall k | k in keys :: touched(k)
    ensures AllSince(EnsureAll(h, ds), h, WritesTo(touched))
  {
    EnsureAllFrame(h, ds, keys);
    forall w | UpsertWithin(h.Now(), keys)(w) ensures WritesTo(touched)(w) {}
    AllSinceWeaken(EnsureAll(h, ds), h, UpsertWithin(h.Now(), keys), WritesTo(touched));
  }

  lemma CreatedAt(p: Plan, h: History, run: Sync, ok: bool, k: Key)
    requires KeysAgree(h.Now()) && IsSync(p, h, run, ok) && k !in Keys(p.wanted) && k in Created(h, run).Now()
    ensures k in h.Now() && h.Now()[k] == Created(h, run).Now()[k]
  {
    DeleteAllAt(h, run.pruned);
    KeysSubset(run.done, p.wanted);
    EnsureAllFrame(Pruned(h, run), run.done, Keys(p.wanted));
  }

  lemma CreatedTouched(p: Plan, h: History, run: Sync, ok: bool)
    requires KeysAgree(h.Now()) && IsSync(p, h, run, ok)
    ensures AllSince(Created(h, run), Pruned(h, run), WritesTo(Touched(p, h.Now())))
  {
    DeleteAllKeys(h, run.pruned);
    KeysSubset(run.done, p.wanted);
    EnsuresTouched(Pruned(h, run), run.done, Keys(p.wanted), Touched(p, h.Now()));
  }

  lemma MonitorsTouched(p: Plan, h: History, run: Sync, ok: bool)
    requires KeysAgree(h.Now()) && IsSync(p, h, run, ok)
    ensures AllSince(After(h, run), Created(h, run), WritesTo(Touched(p, h.Now())))
  {
    forall k | k in run.monitors ensures Touched(p, h.Now())(k) {
      assert Doomed(Created(h, run).Now(), Monitors(p), k);
      if k !in Keys(p.wanted) {
        CreatedAt(p, h, run, ok, k);
      }
    }
    DeletesTouched(Created(h, run), run.monitors, Touched(p, h.Now()));
  }

  /** Framing, whatever calls fail: a reconciliation writes to nothing but the orphans under the owner's
      selector, the wanted names, and the ServiceMonitors the owner controls; all else stays as it is. */
  lemma SyncFrame(p: Plan, h: History, run: Sync, ok: bool)
    requires KeysAgree(h.Now()) && IsSync(p, h, run, ok)
    ensures AllSince(After(h, run), h, WritesTo(Touched(p, h.Now())))
    ensures forall k | !Touched(p, h.Now())(k) :: Agree(After(h, run).Now(), h.Now(), k)
  {
    var touched := Touched(p, h.Now());
    DeletesTouched(h, run.pruned, touched);
    CreatedTouched(p, h, run, ok);
    MonitorsTouched(p, h, run, ok);
    AllSinceJoin(Created(h, run), Pruned(h, run), h, WritesTo(touched));
    AllSinceJoin(After(h, run), Created(h, run), h, WritesTo(touched));
    forall k | !touched(k) ensures Agree(After(h, run).Now(), h.Now(), k) {
      UntouchedStays(After(h, run), h, touched, k);
    }
  }

  lemma OrphanMeaning(p: Plan, s: Store, k: Key)
    requires KeysAgree(s) && p.owner.namespace != "" && Doomed(s, Orphans(p), k)
    ensures k in s && k.namespace == p.owner.namespace && HasLabels(s[k].labels, p.selector)
    ensures k.kind in {ServiceAccount, Service, StatefulSet, ServiceMonitor}
  {
  }

  lemma MonitorMeaning(p: Plan, s: Store, k: Key)
    requires KeysAgree(s) && p.owner.namespace != "" && Doomed(s, Monitors(p), k)
    ensures k in s && k.namespace == p.owner.namespace && k.kind.ServiceMonitor? && IsControlledBy(s[k], p.owner.uid)
  {
  }

  lemma WantedKeyMeaning(p: Plan, k: Key)
    requires Sound(p) && k in Keys(p.wanted)
    ensures k.namespace == p.owner.namespace && k.name in p.names
    ensures k.kind in {ServiceAccount, Service, StatefulSet, ServiceMonitor}
  {
    var d :| d in p.wanted && d.key == k;
    assert IsSound(p, d);
  }

  // ---------------------------------------------------------------- runs under changing plans

  ghost function HasNone(t: Target): History -> bool {
    (w: History) => NoneLeft(w.Now(), t)
  }

  /** All that is listed has its name from one and the same generation. */
  ghost function OneGeneration(opts: ListOptions, generations: seq<seq<string>>): History -> bool {
    (w: History) => exists names :: names in generations && NoneLeft(w.Now(), OrphansOf(opts, names))
  }

  lemma {:induction false} DeletesKeepNone(h: History, ks: seq<Key>, t: Target)
    requires NoneLeft(h.Now(), t)
    ensures AllSince(DeleteAll(h, ks), h, HasNone(t)) && NoneLeft(DeleteAll(h, ks).Now(), t)
  {
    if ks == [] {
    } else {
      var front := DeleteAll(h, ks[..|ks| - 1]);
      DeletesKeepNone(h, ks[..|ks| - 1], t);
      forall k ensures !Doomed(DeleteAll(h, ks).Now(), t, k) {
        assert !Doomed(front.Now(), t, k);
      }
    }
  }

  lemma {:induction false} EnsuresKeepNone(p: Plan, h: History, ds: seq<Object>)
    requires Sound(p) && KeysAgree(h.Now()) && NoneLeft(h.Now(), Orphans(p)) && forall d | d in ds :: d in p.wanted
    ensures AllSince(EnsureAll(h, ds), h, HasNone(Orphans(p))) && NoneLeft(EnsureAll(h, ds).Now(), Orphans(p))
  {
    if ds == [] {
    } else {
      var front := ds[..|ds| - 1];
      assert ds == front + [ds[|ds| - 1]];
      EnsuresKeepNone(p, h, front);
      KeysSubset(ds, p.wanted);
      EnsureAllFrame(h, ds, Keys(p.wanted));
      NoNewOrphans(p, h.Now(), EnsureAll(h, ds).Now());
    }
  }

  /** During one reconciliation the old generation holds until the first creation, and the new one from then on. */
  lemma GenerationStep(p: Plan, h: History, run: Sync, ok: bool, before: seq<string>) returns (names: seq<string>)
    requires Sound(p) && KeysAgree(h.Now()) && IsSync(p, h, run, ok) && NoneLeft(h.Now(), OrphansOf(Listed(p), before))
    ensures names in {p.names, before} && NoneLeft(After(h, run).Now(), OrphansOf(Listed(p), names))
    ensures AllSince(Pruned(h, run), h, HasNone(OrphansOf(Listed(p), before)))
    ensures AllSince(After(h, run), Pruned(h, run), HasNone(OrphansOf(Listed(p), names)))
  {
    DeletesKeepNone(h, run.pruned, OrphansOf(Listed(p), before));
    names := before;
    if run.done != [] {
      names := p.names;
      PrunedHasNoOrphans(p, h, run);
      DeleteAllKeys(h, run.pruned);
      EnsuresKeepNone(p, Pruned(h, run), run.done);
    }
    DeletesKeepNone(Created(h, run), run.monitors, OrphansOf(Listed(p), names));
    AllSinceJoin(After(h, run), Created(h, run), Pruned(h, run), HasNone(OrphansOf(Listed(p), names)));
  }

  lemma GenerationOf(h: History, start: History, opts: ListOptions, names: seq<string>, generations: seq<seq<string>>)
    requires AllSince(h, start, HasNone(OrphansOf(opts, names))) && names in generations
    ensures AllSince(h, start, OneGeneration(opts, generations))
  {
    AllSinceWeaken(h, start, HasNone(OrphansOf(opts, names)), OneGeneration(opts, generations));
  }

  /** One reconciliation of a run, each with the plan of its time. */
  datatype Reconcile = Reconcile(plan: Plan, run: Sync, ok: bool)

  ghost predicate IsRun(h: History, rs: seq<Reconcile>)
    decreases |rs|
  {
    rs == [] || (Sound(rs[0].plan) && IsSync(rs[0].plan, h, rs[0].run, rs[0].ok) && IsRun(After(h, rs[0].run), rs[1..]))
  }

  function AfterRun(h: History, rs: seq<Reconcile>): History
    decreases |rs|
  {
    if rs == [] then h else AfterRun(After(h, rs[0].run), rs[1..])
  }

  lemma AfterKeysAgree(p: Plan, h: History, run: Sync, ok: bool)
    requires KeysAgree(h.Now()) && IsSync(p, h, run, ok)
    ensures KeysAgree(After(h, run).Now())
  {
    DeleteAllKeys(h, run.pruned);
    EnsureAllFrame(Pruned(h, run), run.done, Keys(run.done));
    DeleteAllKeys(Created(h, run), run.monitors);
  }

  /** Over any run of reconciliations for one owner, with expected names that change at will and calls that
      fail at will: in every state on the way, all ServiceAccounts, Services and StatefulSets under the
      owner's selector have their names from a single generation. Compactors of an earlier sharding never
      exist next to those of a later one. */
  lemma {:induction false} RunHasOneGeneration(h: History, rs: seq<Reconcile>, opts: ListOptions,
                                               first: seq<string>, generations: seq<seq<string>>)
    requires KeysAgree(h.Now()) && IsRun(h, rs) && NoneLeft(h.Now(), OrphansOf(opts, first))
    requires first in generations && forall r | r in rs :: Listed(r.plan) == opts && r.plan.names in generations
    ensures AllSince(AfterRun(h, rs), h, OneGeneration(opts, generations))
    decreases |rs|
  {
    if rs == [] {
    } else {
      var p, run, ok := rs[0].plan, rs[0].run, rs[0].ok;
      assert rs[0] in rs && forall r | r in rs[1..] :: r in rs;
      var next, one := After(h, run), OneGeneration(opts, generations);
      var names := GenerationStep(p, h, run, ok, first);
      GenerationOf(Pruned(h, run), h, opts, first, generations);
      GenerationOf(next, Pruned(h, run), opts, names, generations);
      AllSinceJoin(next, Pruned(h, run), h, one);
      AfterKeysAgree(p, h, run, ok);
      RunHasOneGeneration(next, rs[1..], opts, names, generations);
      AllSinceJoin(AfterRun(h, rs), next, h, one);
    }
  }

  // ---------------------------------------------------------------- convergence

  /** No orphans, everything wanted in place, and no controlled monitor when they are switched off. */
  ghost predicate Settled(p: Plan, s: Store) {
    && NoneLeft(s, Orphans(p))
    && AllInPlace(s, p.wanted)
    && (p.gated && p.owner.uid != "" ==> NoneLeft(s, Monitors(p)))
  }

  /** The creations leave no orphans, and pruning the monitors none that the owner controls. */
  lemma NothingIsLeft(p: Plan, h: History, run: Sync)
    requires Sound(p) && KeysAgree(h.Now()) && IsSync(p, h, run, true)
    ensures NoneLeft(After(h, run).Now(), Orphans(p))
    ensures p.gated && p.owner.uid != "" ==> NoneLeft(After(h, run).Now(), Monitors(p))
  {
    PrunedHasNoOrphans(p, h, run);
    DeleteAllKeys(h, run.pruned);
    EnsureAllFrame(Pruned(h, run), run.done, Keys(p.wanted));
    NoNewOrphans(p, Pruned(h, run).Now(), Created(h, run).Now());
    DeletesKeepNone(Created(h, run), run.monitors, Orphans(p));
    if p.gated && p.owner.uid != "" {
      DeletedAll(Created(h, run), run.monitors, Monitors(p));
    }
  }

  /** Pruning the monitors takes nothing away that is wanted. */
  lemma WantedSurvive(p: Plan, h: History, run: Sync, ok: bool, d: Object)
    requires Sound(p) && IsSync(p, h, run, ok) && d in p.wanted
    ensures InPlace(After(h, run).Now(), d) <==> InPlace(Created(h, run).Now(), d)
  {
    DeleteAllAt(Created(h, run), run.monitors);
    assert IsSound(p, d);
    assert d.key in run.monitors ==> Doomed(Created(h, run).Now(), Monitors(p), d.key);
  }

  /** An error-free reconciliation from any state settles the cluster, as soon as its creations leave all
      that is wanted in place. */
  lemma SettledOnceInPlace(p: Plan, h: History, run: Sync)
    requires Sound(p) && KeysAgree(h.Now()) && IsSync(p, h, run, true)
    ensures Settled(p, After(h, run).Now()) <==> AllInPlace(Created(h, run).Now(), p.wanted)
  {
    NothingIsLeft(p, h, run);
    forall d | d in p.wanted ensures InPlace(After(h, run).Now(), d) <==> InPlace(Created(h, run).Now(), d) {
      WantedSurvive(p, h, run, true, d);
    }
  }

  /** An error-free reconciliation settles the cluster if no two wanted objects share a key. */
  lemma SyncConverges(p: Plan, h: History, run: Sync)
    requires Sound(p) && KeysAgree(h.Now()) && IsSync(p, h, run, true) && DistinctKeys(p.wanted)
    ensures Settled(p, After(h, run).Now())
  {
    SettledOnceInPlace(p, h, run);
    EnsureAllSettles(Pruned(h, run), run.done);
  }

  /** It settles the cluster exactly if no two wanted objects under one key ask for different things. */
  lemma SyncConvergesExactlyWhen(p: Plan, h: History, run: Sync)
    requires Sound(p) && KeysAgree(h.Now()) && AllCreated(h.Now()) && IsSync(p, h, run, true)
    ensures Settled(p, After(h, run).Now()) <==> AllCompatible(p.wanted)
  {
    SettledOnceInPlace(p, h, run);
    DeleteAllKeys(h, run.pruned);
    DeleteAllCreated(h, run.pruned);
    EnsureAllSettlesExactlyWhen(Pruned(h, run), run.done);
  }

  /** If two do, no state at all is settled. */
  lemma IncompatibleNeverSettles(p: Plan, s: Store)
    requires KeysAgree(s) && AllCreated(s) && Settled(p, s)
    ensures AllCompatible(p.wanted)
  {
    forall d, e | d in p.wanted && e in p.wanted && d.key == e.key ensures Compatible(d, e) {
      BothInPlaceAgree(s, d, e);
    }
  }

  lemma NothingDoomed(s: Store, t: Target, ks: seq<Key>)
    requires AllDoomed(s, t, ks) && NoneLeft(s, t)
    ensures ks == []
  {
    forall k ensures k !in ks {
      assert !Doomed(s, t, k);
    }
    EmptyOrInhabited(ks);
  }

  /** Once settled, a reconciliation writes nothing at all, whatever calls fail. */
  lemma SettledSyncIsIdle(p: Plan, h: History, run: Sync, ok: bool)
    requires Settled(p, h.Now()) && IsSync(p, h, run, ok)
    ensures After(h, run) == h
  {
    NothingDoomed(h.Now(), Orphans(p), run.pruned);
    EnsureAllIdle(h, run.done);
    if run.monitors != [] {
      NothingDoomed(h.Now(), Monitors(p), run.monitors);
    }
  }

  /** An error-free reconciliation that writes nothing finds the cluster settled. */
  lemma IdleSyncIsSettled(p: Plan, h: History, run: Sync)
    requires IsSync(p, h, run, true) && After(h, run) == h
    ensures Settled(p, h.Now())
  {
    DeleteAllWrites(h, run.pruned);
    EnsureAllWrites(Pruned(h, run), run.done);
    DeleteAllWrites(Created(h, run), run.monitors);
    assert run.pruned == [] && run.monitors == [];
  }

  /** After one error-free reconciliation the next one is a no-op if no two wanted objects under one key ask
      for different things, whatever calls fail; if two do, it can be one only by failing. */
  lemma ConvergesThenIdle(p: Plan, h: History, first: Sync, second: Sync, ok: bool)
    requires Sound(p) && KeysAgree(h.Now()) && (AllCreated(h.Now()) || DistinctKeys(p.wanted))
    requires IsSync(p, h, first, true) && IsSync(p, After(h, first), second, ok)
    ensures AllCompatible(p.wanted) ==> After(After(h, first), second) == After(h, first)
    ensures ok && After(After(h, first), second) == After(h, first) ==> AllCompatible(p.wanted)
  {
    if DistinctKeys(p.wanted) {
      SyncConverges(p, h, first);
      DistinctKeysCompatible(p.wanted);
    } else {
      SyncConvergesExactlyWhen(p, h, first);
    }
    if AllCompatible(p.wanted) {
      SettledSyncIsIdle(p, After(h, first), second, ok);
    }
    if ok && After(After(h, first), second) == After(h, first) {
      IdleSyncIsSettled(p, After(h, first), second);
    }
  }

  /** What a settled cluster looks like: under the owner's selector there is exactly one ServiceAccount, one
      Service and one StatefulSet for each expected name, all controlled by the owner. */
  lemma SettledMeansExactly(p: Plan, s: Store, installed: set<Kind>, k: Key)
    requires Sound(p) && Settled(p, s) && WellFormed(s, installed)
    requires k.kind in {ServiceAccount, Service, StatefulSet}
    ensures k in s && Selected(Listed(p), s[k]) <==> k.namespace == p.owner.namespace && k.name in p.names
    ensures k in s && Selected(Listed(p), s[k]) ==> IsControlledBy(s[k], p.owner.uid)
  {
    if k in s && Selected(Listed(p), s[k]) {
      assert !Doomed(s, Orphans(p), k);
      assert k.name in ExpectResources(p.names);
    }
    if k.namespace == p.owner.namespace && k.name in p.names {
      assert k in Keys(p.wanted);
      var d :| d in p.wanted && d.key == k;
      assert IsSound(p, d) && InPlace(s, d);
      InPlaceMeaning(s, d);
    }
  }
}

module Compactor {
  import opened Basics
  import opened Objects
  import opened ApiServer
  import opened Handlers
  import opened Relabelling
  import opened CompactorManifests
  import opened PruneThenCreate
  import ResourceNames

  // ---------------------------------------------------------------- from the resource to options

  datatype Shard = Shard(shardName: string, externalLabels: seq<(string, string)>)

  datatype Compact = Compact(
    name: string,
    namespace: string,
    uid: string,
    labels: Objects.Labels,
    annotations: Objects.Labels,
    sharding: seq<Shard>)

  /** `compactV1Alpha1ToOptions`, as far as the model goes. */
  function ToOptions(compact: Compact, gate: Option<MonitorConfig>): Options {
    Options(compact.name, compact.namespace, compact.labels, compact.annotations, None, [], gate)
  }

  function KeepRule(v: (string, string)): RelabelConfig {
    RelabelConfig("keep", v.0, "", 0, v.1)
  }

  function ShardOptions(base: Options, shard: Shard): Options {
    base.(shardName := Some(shard.shardName), relabelConfigs := MapSeq(KeepRule, shard.externalLabels))
  }

  function OptionsFor(compact: Compact, gate: Option<MonitorConfig>): seq<Options> {
    var base := ToOptions(compact, gate);
    if compact.sharding == [] then [base] else MapSeq((shard: Shard) => ShardOptions(base, shard), compact.sharding)
  }

  method SpecToOptions(compact: Compact, gate: Option<MonitorConfig>) returns (buildable: seq<Options>)
    ensures buildable == OptionsFor(compact, gate)
  {
    if |compact.sharding| == 0 {
      return [ToOptions(compact, gate)];
    }
    buildable := [];
    ghost var base := ToOptions(compact, gate);
    for i := 0 to |compact.sharding|
      invariant |buildable| == i && forall j | 0 <= j < i :: buildable[j] == ShardOptions(base, compact.sharding[j])
    {
      var shard := compact.sharding[i];
      var relabelConfigs := [];
      for j := 0 to |shard.externalLabels|
        invariant |relabelConfigs| == j
        invariant forall k | 0 <= k < j :: relabelConfigs[k] == KeepRule(shard.externalLabels[k])
      {
        var v := shard.externalLabels[j];
        relabelConfigs := relabelConfigs + [RelabelConfig("keep", v.0, "", 0, v.1)];
      }
      assert relabelConfigs == MapSeq(KeepRule, shard.externalLabels);
      var opts := ToOptions(compact, gate);
      buildable := buildable + [opts.(shardName := Some(shard.shardName), relabelConfigs := relabelConfigs)];
    }
    assert buildable == OptionsFor(compact, gate);
  }

  lemma {:induction false} KeepRulesMeaning(r: Relabeller, wanted: seq<(string, string)>, block: Relabelling.Labels)
    ensures Keeps(r, MapSeq(KeepRule, wanted), block) <==>
            forall v | v in wanted :: r.matches(v.1, LabelValue(block, v.0))
    decreases |wanted|
  {
    var rules := MapSeq(KeepRule, wanted);
    if wanted == [] {
    } else {
      assert wanted == [wanted[0]] + wanted[1..] && rules[1..] == MapSeq(KeepRule, wanted[1..]);
      KeepRulesMeaning(r, wanted[1..], block);
    }
  }

  /** A shard compacts exactly the blocks whose external labels match all the values it is given. */
  lemma ShardKeepsExactly(r: Relabeller, compact: Compact, gate: Option<MonitorConfig>, i: nat,
                          block: Relabelling.Labels)
    requires i < |compact.sharding|
    ensures i < |OptionsFor(compact, gate)|
            && OptionsFor(compact, gate)[i].shardName == Some(compact.sharding[i].shardName)
    ensures Keeps(r, OptionsFor(compact, gate)[i].relabelConfigs, block) <==>
            forall v | v in compact.sharding[i].externalLabels :: r.matches(v.1, LabelValue(block, v.0))
  {
    KeepRulesMeaning(r, compact.sharding[i].externalLabels, block);
  }

  lemma OptionsMeaning(compact: Compact, gate: Option<MonitorConfig>)
    ensures OptionsFor(compact, gate) != []
    ensures forall o | o in OptionsFor(compact, gate) ::
              o.owner == compact.name && o.namespace == compact.namespace && o.serviceMonitor == gate
  {
  }

  // ---------------------------------------------------------------- the plan

  function Owned(uid: string): Object -> Object {
    (o: Object) => o.(ownerRefs := [OwnerRef(uid, true)])
  }

  function Wanted(options: seq<Options>, uid: string, env: Env): seq<Object> {
    if options == [] then []
    else Wanted(options[..|options| - 1], uid, env) + MapSeq(Owned(uid), Build(options[|options| - 1], env))
  }

  function Names(options: seq<Options>, env: Env): seq<string> {
    MapSeq((o: Options) => GeneratedResourceName(o, env), options)
  }

  function OwnerOf(compact: Compact): Owner {
    Owner(compact.uid, compact.namespace, compact.name)
  }

  function PlanFor(compact: Compact, gate: Option<MonitorConfig>, env: Env): Plan {
    var options := OptionsFor(compact, gate);
    Plan(OwnerOf(compact), OwnerSelector(compact.name, env), Names(options, env),
         Wanted(options, compact.uid, env), gate.None?)
  }

  lemma WantedSnoc(options: seq<Options>, i: nat, uid: string, env: Env)
    requires i < |options|
    ensures Wanted(options[..i + 1], uid, env) ==
            Wanted(options[..i], uid, env) + MapSeq(Owned(uid), Build(options[i], env))
  {
    assert options[..i + 1][..i] == options[..i];
  }

  /** Some options build the object. */
  ghost predicate IsBuiltBy(options: seq<Options>, env: Env, o: Object) {
    exists opts :: opts in options && o in Build(opts, env)
  }

  lemma MapSeqMembers<A, B>(f: A -> B, s: seq<A>)
    ensures forall b | b in MapSeq(f, s) :: exists a :: a in s && f(a) == b
    ensures forall a | a in s :: f(a) in MapSeq(f, s)
  {
    forall i | 0 <= i < |s| ensures f(s[i]) in MapSeq(f, s) {
      assert MapSeq(f, s)[i] == f(s[i]);
    }
  }

  lemma {:induction false} WantedMeaning(options: seq<Options>, uid: string, env: Env)
    ensures forall d | d in Wanted(options, uid, env) :: exists o :: IsBuiltBy(options, env, o) && d == Owned(uid)(o)
    ensures forall o | IsBuiltBy(options, env, o) :: Owned(uid)(o) in Wanted(options, uid, env)
  {
    if options != [] {
      var front, last := options[..|options| - 1], options[|options| - 1];
      assert options == front + [last];
      WantedMeaning(front, uid, env);
      MapSeqMembers(Owned(uid), Build(last, env));
      forall d | d in Wanted(options, uid, env) ensures exists o :: IsBuiltBy(options, env, o) && d == Owned(uid)(o) {
        if d in Wanted(front, uid, env) {
          var o :| IsBuiltBy(front, env, o) && d == Owned(uid)(o);
          assert IsBuiltBy(options, env, o);
        } else {
          var o :| o in Build(last, env) && d == Owned(uid)(o);
          assert IsBuiltBy(options, env, o);
        }
      }
      forall o | IsBuiltBy(options, env, o) ensures Owned(uid)(o) in Wanted(options, uid, env) {
        if !IsBuiltBy(front, env, o) {
          assert o in Build(last, env);
        }
      }
    }
  }

  lemma BuiltOfKind(opts: Options, env: Env, kind: Kind) returns (o: Object)
    requires IsBuiltKind(kind, opts.serviceMonitor)
    ensures o in Build(opts, env) && o.key == Key(kind, opts.namespace, GeneratedResourceName(opts, env))
    ensures o.fields == env.render(kind, opts)
    ensures o.annotations == if kind.ServiceMonitor? then map[] else opts.annotations
    ensures o.labels == if kind.ServiceAccount? then SelectorLabels(opts, env)
                        else if kind.ServiceMonitor? then
                          opts.serviceMonitor.value.additionalLabels + (opts.labels + SelectorLabels(opts, env))
                        else opts.labels + SelectorLabels(opts, env)
  {
    var i := if kind.ServiceAccount? then 0 else if kind.StatefulSet? then 1 else if kind.Service? then 2 else 3;
    o := Build(opts, env)[i];
  }

  lemma OwnedIsSound(p: Plan, o: Object, name: string, gate: Option<MonitorConfig>)
    requires IsBuilt(o, name, p.owner.namespace, p.selector, gate) && name in p.names && p.gated == gate.None?
    ensures IsSound(p, Owned(p.owner.uid)(o))
  {
  }

  lemma NameOfMember(options: seq<Options>, env: Env, opts: Options)
    requires opts in options
    ensures GeneratedResourceName(opts, env) in Names(options, env)
  {
    MapSeqMembers((o: Options) => GeneratedResourceName(o, env), options);
  }

  lemma WantedIsSound(p: Plan, options: seq<Options>, gate: Option<MonitorConfig>, env: Env, name: string, d: Object)
    requires p.wanted == Wanted(options, p.owner.uid, env) && p.selector == OwnerSelector(name, env)
    requires p.names == Names(options, env) && p.gated == gate.None?
    requires forall o | o in options :: o.owner == name && o.namespace == p.owner.namespace && o.serviceMonitor == gate
    requires d in p.wanted
    ensures IsSound(p, d)
  {
    WantedMeaning(options, p.owner.uid, env);
    var o :| IsBuiltBy(options, env, o) && d == Owned(p.owner.uid)(o);
    var opts :| opts in options && o in Build(opts, env);
    BuiltCarryOwnerSelector(opts, env);
    NameOfMember(options, env, opts);
    OwnedIsSound(p, o, GeneratedResourceName(opts, env), gate);
  }

  lemma NameIsWanted(p: Plan, options: seq<Options>, env: Env, name: string, kind: Kind)
    requires p.wanted == Wanted(options, p.owner.uid, env) && p.names == Names(options, env)
    requires forall o | o in options :: o.namespace == p.owner.namespace
    requires name in p.names && kind in {ServiceAccount, Service, StatefulSet}
    ensures Key(kind, p.owner.namespace, name) in Keys(p.wanted)
  {
    WantedMeaning(options, p.owner.uid, env);
    MapSeqMembers((o: Options) => GeneratedResourceName(o, env), options);
    var opts :| opts in options && GeneratedResourceName(opts, env) == name;
    var o := BuiltOfKind(opts, env, kind);
    assert IsBuiltBy(options, env, o);
    assert Owned(p.owner.uid)(o) in p.wanted;
  }

  /** The manifests keep their side: everything wanted carries the owner's selector and control, and there
      is a ServiceAccount, a Service and a StatefulSet for every expected name. */
  lemma PlanIsSound(compact: Compact, gate: Option<MonitorConfig>, env: Env)
    requires compact.namespace != ""
    ensures Sound(PlanFor(compact, gate, env))
  {
    var options, p := OptionsFor(compact, gate), PlanFor(compact, gate, env);
    OptionsMeaning(compact, gate);
    forall d | d in p.wanted ensures IsSound(p, d) {
      WantedIsSound(p, options, gate, env, compact.name, d);
    }
    forall name, kind: Kind | name in p.names && kind in {ServiceAccount, Service, StatefulSet}
      ensures Key(kind, p.owner.namespace, name) in Keys(p.wanted)
    {
      NameIsWanted(p, options, env, name, kind);
    }
  }

  predicate DistinctNames(options: seq<Options>, env: Env) {
    forall i, j | 0 <= i < j < |options| ::
      GeneratedResourceName(options[i], env) != GeneratedResourceName(options[j], env)
  }

  lemma BuildDistinct(opts: Options, uid: string, env: Env)
    ensures DistinctKeys(MapSeq(Owned(uid), Build(opts, env)))
  {
    var built := Build(opts, env);
    assert forall i, j | 0 <= i < j < |built| :: built[i].key.kind != built[j].key.kind;
  }

  lemma NamesOf(options: seq<Options>, uid: string, env: Env, d: Object)
    requires d in Wanted(options, uid, env)
    ensures exists i :: 0 <= i < |options| && d.key.name == GeneratedResourceName(options[i], env)
  {
    WantedMeaning(options, uid, env);
    var o :| IsBuiltBy(options, env, o) && d == Owned(uid)(o);
    var opts :| opts in options && o in Build(opts, env);
    BuiltCarryOwnerSelector(opts, env);
  }

  /** Shards with different generated names share no object. */
  lemma {:induction false} DistinctNamesSuffice(options: seq<Options>, uid: string, env: Env)
    requires DistinctNames(options, env)
    ensures DistinctKeys(Wanted(options, uid, env))
  {
    if options == [] {
    } else {
      var front, last := options[..|options| - 1], options[|options| - 1];
      assert options == front + [last];
      DistinctNamesSuffice(front, uid, env);
      var before, added := Wanted(front, uid, env), MapSeq(Owned(uid), Build(last, env));
      BuildDistinct(last, uid, env);
      forall d, e | d in before && e in added ensures d.key != e.key {
        NamesOf(front, uid, env, d);
        MapSeqMembers(Owned(uid), Build(last, env));
        var o :| o in Build(last, env) && e == Owned(uid)(o);
        BuiltCarryOwnerSelector(last, env);
      }
      forall i, j | 0 <= i < j < |before + added| ensures (before + added)[i].key != (before + added)[j].key {
        if i < |before| <= j {
          assert before[i] in before && added[j - |before|] in added;
        }
      }
    }
  }

  /** What the two options build under one key is compatible. */
  ghost predicate BuiltAlike(a: Options, b: Options, env: Env) {
    forall d, e | d in Build(a, env) && e in Build(b, env) && d.key == e.key :: Compatible(d, e)
  }

  /** Options with one generated name build the same, as far as the mutators go. */
  ghost predicate ShardsAgree(options: seq<Options>, env: Env) {
    forall a, b | a in options && b in options && GeneratedResourceName(a, env) == GeneratedResourceName(b, env) ::
      BuiltAlike(a, b, env)
  }

  lemma OwnedCompatible(d: Object, e: Object, uid: string)
    requires d.ownerRefs == e.ownerRefs == []
    ensures Compatible(Owned(uid)(d), Owned(uid)(e)) <==> Compatible(d, e)
  {
  }

  lemma BuiltPairs(options: seq<Options>, uid: string, env: Env, a: Options, b: Options, d: Object, e: Object)
    requires AllCompatible(Wanted(options, uid, env))
    requires a in options && b in options && d in Build(a, env) && e in Build(b, env) && d.key == e.key
    ensures Compatible(d, e)
  {
    WantedMeaning(options, uid, env);
    BuiltCarryOwnerSelector(a, env);
    BuiltCarryOwnerSelector(b, env);
    assert IsBuiltBy(options, env, d) && IsBuiltBy(options, env, e);
    assert Owned(uid)(d) in Wanted(options, uid, env) && Owned(uid)(e) in Wanted(options, uid, env);
    OwnedCompatible(d, e, uid);
  }

  lemma WantedPairs(options: seq<Options>, uid: string, env: Env, d: Object, e: Object)
    requires ShardsAgree(options, env)
    requires d in Wanted(options, uid, env) && e in Wanted(options, uid, env) && d.key == e.key
    ensures Compatible(d, e)
  {
    WantedMeaning(options, uid, env);
    var o :| IsBuiltBy(options, env, o) && d == Owned(uid)(o);
    var q :| IsBuiltBy(options, env, q) && e == Owned(uid)(q);
    var a :| a in options && o in Build(a, env);
    var b :| b in options && q in Build(b, env);
    BuiltCarryOwnerSelector(a, env);
    BuiltCarryOwnerSelector(b, env);
    assert BuiltAlike(a, b, env);
    OwnedCompatible(o, q, uid);
  }

  /** All that is wanted is compatible exactly when the shards agree wherever their generated names collide. */
  lemma WantedCompatibleExactlyWhen(options: seq<Options>, uid: string, env: Env)
    ensures AllCompatible(Wanted(options, uid, env)) <==> ShardsAgree(options, env)
  {
    if AllCompatible(Wanted(options, uid, env)) {
      forall a, b, d, e | a in options && b in options && d in Build(a, env) && e in Build(b, env) && d.key == e.key
        ensures Compatible(d, e)
      {
        BuiltPairs(options, uid, env, a, b, d, e);
      }
    }
    if ShardsAgree(options, env) {
      forall d, e | d in Wanted(options, uid, env) && e in Wanted(options, uid, env) && d.key == e.key
        ensures Compatible(d, e)
      {
        WantedPairs(options, uid, env, d, e);
      }
    }
  }

  /** Shards whose generated names differ agree, as no two of them collide. */
  lemma DistinctNamesAgree(options: seq<Options>, env: Env)
    requires DistinctNames(options, env)
    ensures ShardsAgree(options, env)
  {
    DistinctNamesSuffice(options, "", env);
    DistinctKeysCompatible(Wanted(options, "", env));
    WantedCompatibleExactlyWhen(options, "", env);
  }

  // ---------------------------------------------------------------- when shards collide

  /** Shards that collide without agreeing can never be settled: each reconciliation overwrites one with the other. */
  lemma DisagreementNeverSettles(compact: Compact, gate: Option<MonitorConfig>, env: Env, s: Store)
    requires !ShardsAgree(OptionsFor(compact, gate), env) && KeysAgree(s) && AllCreated(s)
    ensures !Settled(PlanFor(compact, gate, env), s)
  {
    WantedCompatibleExactlyWhen(OptionsFor(compact, gate), compact.uid, env);
    if Settled(PlanFor(compact, gate, env), s) {
      IncompatibleNeverSettles(PlanFor(compact, gate, env), s);
    }
  }

  lemma PairDisagrees(options: seq<Options>, env: Env, a: Options, b: Options, d: Object, e: Object)
    requires a in options && b in options && GeneratedResourceName(a, env) == GeneratedResourceName(b, env)
    requires d in Build(a, env) && e in Build(b, env) && d.key == e.key && !Compatible(d, e)
    ensures !ShardsAgree(options, env)
  {
    assert !BuiltAlike(a, b, env);
  }

  /** Two shards can never be settled whose names the sanitiser maps to one and whose StatefulSets differ in
      a field the mutator assigns. */
  lemma CollisionNeverSettles(compact: Compact, gate: Option<MonitorConfig>, env: Env, a: Options, b: Options, f: Field,
                              s: Store, installed: set<Kind>)
    requires a in OptionsFor(compact, gate) && b in OptionsFor(compact, gate)
    requires GeneratedResourceName(a, env) == GeneratedResourceName(b, env)
    requires f in AssignedFields(StatefulSet, true)
    requires !SameField(env.render(StatefulSet, a), env.render(StatefulSet, b), f)
    requires WellFormed(s, installed)
    ensures !Settled(PlanFor(compact, gate, env), s)
  {
    OptionsMeaning(compact, gate);
    var d := BuiltOfKind(a, env, StatefulSet);
    var e := BuiltOfKind(b, env, StatefulSet);
    assert !Compatible(d, e);
    PairDisagrees(OptionsFor(compact, gate), env, a, b, d, e);
    DisagreementNeverSettles(compact, gate, env, s);
  }

  /** Two shards with one generated name and different shard labels disagree on the labels of their ServiceAccount. */
  lemma LabelCollision(compact: Compact, gate: Option<MonitorConfig>, env: Env, a: Options, b: Options)
    requires a in OptionsFor(compact, gate) && b in OptionsFor(compact, gate)
    requires GeneratedResourceName(a, env) == GeneratedResourceName(b, env)
    requires a.shardName.Some? && b.shardName.Some?
             && env.labelValue(a.shardName.value) != env.labelValue(b.shardName.value)
    ensures !ShardsAgree(OptionsFor(compact, gate), env)
  {
    OptionsMeaning(compact, gate);
    var d := BuiltOfKind(a, env, ServiceAccount);
    var e := BuiltOfKind(b, env, ServiceAccount);
    assert d.labels[ShardLabel] != e.labels[ShardLabel];
    assert !Compatible(d, e);
    PairDisagrees(OptionsFor(compact, gate), env, a, b, d, e);
  }

  /** The operator's sanitisers. */
  ghost predicate IsStandard(env: Env, hash: string -> string) {
    && ResourceNames.IsHexHash(hash)
    && (forall s :: env.resourceName(s) == ResourceNames.ValidateAndSanitizeResourceName(s, hash))
    && (forall s :: env.labelValue(s) == ResourceNames.ValidateAndSanitizeNameToValidLabelValue(s, hash))
  }

  lemma Reassociate(front: string, x: string, separator: string, y: string)
    ensures front + "-" + (x + separator + y) == front + "-" + x + separator + y
    ensures front + ("-" + (x + separator + y)) == front + "-" + x + separator + y
  {
  }

  lemma UnderscoreNames(env: Env, hash: string -> string, a: Options, b: Options, x: string, y: string)
    requires IsStandard(env, hash) && a.owner == b.owner
    requires a.shardName == Some(x + "_" + y) && b.shardName == Some(x + "-" + y)
    requires x != "" && y != "" && ResourceNames.IsDns1123Label(x + "-" + y)
    requires ResourceNames.IsDns1123Label(NAME + "-" + a.owner + "-" + (x + "-" + y))
    ensures GeneratedResourceName(a, env) == GeneratedResourceName(b, env)
    ensures env.labelValue(a.shardName.value) != env.labelValue(b.shardName.value)
  {
    var front := NAME + "-" + a.owner;
    Reassociate(front, x, "_", y);
    Reassociate(front, x, "-", y);
    ResourceNames.UnderscoreBecomesDash(front + "-" + x, y, hash);
    ResourceNames.UnderscoreLabelStays(x, y, hash);
    ResourceNames.UnderscoreIsNoDash(x, y);
  }

  /** Any two shards disagree whose names differ in an underscore for a dash: both get the name with
      the dash, while their labels tell them apart. */
  lemma UnderscoreCollides(compact: Compact, gate: Option<MonitorConfig>, env: Env, hash: string -> string, x: string,
                           y: string, i: nat, j: nat)
    requires IsStandard(env, hash)
    requires i < |compact.sharding| && compact.sharding[i].shardName == x + "_" + y
    requires j < |compact.sharding| && compact.sharding[j].shardName == x + "-" + y
    requires x != "" && y != "" && ResourceNames.IsDns1123Label(x + "-" + y)
    requires ResourceNames.IsDns1123Label(NAME + "-" + compact.name + "-" + (x + "-" + y))
    ensures !ShardsAgree(OptionsFor(compact, gate), env)
  {
    var options, base := OptionsFor(compact, gate), ToOptions(compact, gate);
    var a, b := ShardOptions(base, compact.sharding[i]), ShardOptions(base, compact.sharding[j]);
    assert options[i] == a && options[j] == b;
    UnderscoreNames(env, hash, a, b, x, y);
    LabelCollision(compact, gate, env, a, b);
  }

  lemma ExampleLabels()
    ensures ResourceNames.IsDns1123Label("a" + "-" + "b")
    ensures ResourceNames.IsDns1123Label(NAME + "-" + "main" + "-" + ("a" + "-" + "b"))
  {
    ResourceNames.LabelConcat("a", "b");
    ResourceNames.LabelConcat(NAME, "main");
    ResourceNames.LabelConcat(NAME + "-" + "main", "a" + "-" + "b");
  }

  /** A resource with two shards whose names collide so: no reconciliation of it ever settles the cluster. */
  lemma CollidingShards(gate: Option<MonitorConfig>, env: Env, hash: string -> string) returns (compact: Compact)
    requires IsStandard(env, hash)
    ensures |compact.sharding| == 2 && compact.sharding[0].shardName != compact.sharding[1].shardName
    ensures forall s | KeysAgree(s) && AllCreated(s) :: !Settled(PlanFor(compact, gate, env), s)
  {
    var shards := [Shard("a" + "_" + "b", []), Shard("a" + "-" + "b", [])];
    compact := Compact("main", "monitoring", "uid", map[], map[], shards);
    ResourceNames.UnderscoreIsNoDash("a", "b");
    ExampleLabels();
    UnderscoreCollides(compact, gate, env, hash, "a", "b", 0, 1);
    forall s | KeysAgree(s) && AllCreated(s) ensures !Settled(PlanFor(compact, gate, env), s) {
      DisagreementNeverSettles(compact, gate, env, s);
    }
  }

  // ---------------------------------------------------------------- the reconciliation

  /** The names of all shards, after as many empty ones. */
  method ExpectedNames(options: seq<Options>, env: Env) returns (expectResources: seq<string>)
    ensures expectResources == ExpectResources(Names(options, env))
  {
    expectResources := seq(|options|, _ => "");
    ghost var names := Names(options, env);
    for i := 0 to |options|
      invariant expectResources == seq(|options|, _ => "") + names[..i]
    {
      expectResources := expectResources + [GeneratedResourceName(options[i], env)];
    }
  }

  /** The kinds a compactor consists of are switched on, one after the other. */
  method NewCompactorPruner() returns (pruner: ResourcePruner)
    ensures fresh(pruner) && pruner.Enabled() == PrunedKinds()
  {
    pruner := new ResourcePruner();
    pruner.WithServiceAccount();
    pruner.WithService();
    pruner.WithStatefulSet();
    pruner.WithServiceMonitor();
  }

  /** `pruneOrphanedResources`. */
  method PruneOrphanedResources(server: Server, namespace: string, owner: string, expectShards: seq<string>, env: Env)
    returns (errCount: nat, ghost removed: seq<Key>)
    requires server.Valid()
    modifies server
    ensures server.Valid()
    ensures var target := KeepTarget(PrunedKinds(), expectShards, ListOptions(namespace, OwnerSelector(owner, env)));
            AllDoomed(old(server.objects), target, removed)
              && (errCount == 0 ==> NoneMissed(old(server.objects), target, removed))
    ensures server.history == DeleteAll(old(server.history), removed)
    ensures server.Reliable() ==> errCount == 0
  {
    var pruner := NewCompactorPruner();
    errCount, removed := pruner.Prune(server, expectShards, ListOptions(namespace, OwnerSelector(owner, env)));
  }

  lemma PreparedBuilt(compact: Compact, opts: Options, env: Env, o: Object)
    requires opts.namespace == compact.namespace && o in Build(opts, env)
    ensures Prepared(o, compact.namespace, OwnerOf(compact)) == Some(Owned(compact.uid)(o))
  {
    BuiltCarryOwnerSelector(opts, env);
  }

  /** What `CreateOrUpdate` reports for the objects of one shard. */
  lemma ShardDone(compact: Compact, opts: Options, env: Env, done: seq<Object>)
    requires opts.namespace == compact.namespace && Picked(done, Build(opts, env), compact.namespace, OwnerOf(compact))
    ensures forall d | d in done :: d in MapSeq(Owned(compact.uid), Build(opts, env))
    ensures |done| == |Build(opts, env)| ==> done == MapSeq(Owned(compact.uid), Build(opts, env))
  {
    var built := Build(opts, env);
    PickedMeaning(done, built, compact.namespace, OwnerOf(compact));
    MapSeqMembers(Owned(compact.uid), built);
    forall o | o in built ensures Prepared(o, compact.namespace, OwnerOf(compact)) == Some(Owned(compact.uid)(o)) {
      PreparedBuilt(compact, opts, env, o);
    }
    if |done| == |built| {
      forall i | 0 <= i < |built| ensures done[i] == Owned(compact.uid)(built[i]) {
        assert built[i] in built;
      }
    }
  }

  /** The cluster knows the kinds that are built, and no generated name is empty. */
  ghost predicate Buildable(installed: set<Kind>, opts: Options, env: Env) {
    && {ServiceAccount, Service, StatefulSet} <= installed
       && (opts.serviceMonitor.Some? ==> ServiceMonitor in installed)
    && GeneratedResourceName(opts, env) != ""
  }

  lemma BuildableIsAcceptable(installed: set<Kind>, compact: Compact, opts: Options, env: Env)
    requires opts.namespace == compact.namespace && Buildable(installed, opts, env)
    ensures AllAcceptable(installed, Build(opts, env), compact.namespace, OwnerOf(compact))
  {
    var built := Build(opts, env);
    BuiltCarryOwnerSelector(opts, env);
    forall i | 0 <= i < |built| ensures Acceptable(installed, built[i], compact.namespace, OwnerOf(compact)) {
      var o := built[i];
      assert o in built;
      assert IsBuilt(o, GeneratedResourceName(opts, env), opts.namespace, OwnerSelector(opts.owner, env),
                     opts.serviceMonitor);
      PreparedBuilt(compact, opts, env, o);
    }
  }

  ghost predicate AllBuildable(installed: set<Kind>, options: seq<Options>, env: Env) {
    forall i | 0 <= i < |options| :: Buildable(installed, options[i], env)
  }

  /** `done` was ensured of what the shard wants, all of it if `clean`. */
  ghost predicate ShardCreated(compact: Compact, opts: Options, env: Env, clean: bool, done: seq<Object>) {
    var wanted := MapSeq(Owned(compact.uid), Build(opts, env));
    (forall d | d in done :: d in wanted) && (clean ==> done == wanted)
  }

  /** The turn of one shard. */
  method CreateShard(server: Server, compact: Compact, opts: Options, env: Env)
    returns (errCount: nat, ghost done: seq<Object>)
    requires server.Valid() && opts.namespace == compact.namespace
    modifies server
    ensures server.Valid()
    ensures ShardCreated(compact, opts, env, errCount == 0, done)
    ensures server.history == EnsureAll(old(server.history), done)
    ensures server.Reliable() && Buildable(server.installed, opts, env) ==> errCount == 0
  {
    errCount, done := CreateOrUpdate(server, compact.namespace, OwnerOf(compact), Build(opts, env));
    ShardDone(compact, opts, env, done);
    if Buildable(server.installed, opts, env) {
      BuildableIsAcceptable(server.installed, compact, opts, env);
    }
  }

  /** The first `i` shards have had their turn: `done` was ensured of what they want, all of it if `clean`. */
  ghost predicate ShardsCreated(start: History, h: History, compact: Compact, options: seq<Options>, i: nat, env: Env,
                                clean: bool, done: seq<Object>)
    requires i <= |options|
  {
    var wanted := Wanted(options[..i], compact.uid, env);
    && (forall d | d in done :: d in wanted)
    && (clean ==> done == wanted)
    && h == EnsureAll(start, done)
  }

  lemma ShardsStep(start: History, h: History, h': History, compact: Compact, options: seq<Options>, i: nat, env: Env,
                   clean: bool, done: seq<Object>, clean': bool, more: seq<Object>, both: bool)
    requires i < |options| && ShardsCreated(start, h, compact, options, i, env, clean, done)
    requires ShardCreated(compact, options[i], env, clean', more) && h' == EnsureAll(h, more)
    requires both ==> clean && clean'
    ensures ShardsCreated(start, h', compact, options, i + 1, env, both, done + more)
  {
    WantedSnoc(options, i, compact.uid, env);
    EnsureAllConcat(start, done, more);
  }

  /** The loop over the shards. */
  method CreateShards(server: Server, compact: Compact, options: seq<Options>, env: Env)
    returns (errCount: nat, ghost done: seq<Object>)
    requires server.Valid()
    requires forall i | 0 <= i < |options| :: options[i].namespace == compact.namespace
    modifies server
    ensures server.Valid()
    ensures forall d | d in done :: d in Wanted(options, compact.uid, env)
    ensures errCount == 0 ==> done == Wanted(options, compact.uid, env)
    ensures server.history == EnsureAll(old(server.history), done)
    ensures server.Reliable() && AllBuildable(server.installed, options, env) ==> errCount == 0
  {
    errCount, done := 0, [];
    ghost var failed := 0;
    for i := 0 to |options|
      invariant server.Valid()
      invariant ShardsCreated(old(server.history), server.history, compact, options, i, env, errCount == 0, done)
      invariant errCount > 0 ==>
                0 <= failed < i && !(server.Reliable() && Buildable(server.installed, options[failed], env))
    {
      ghost var h := server.history;
      var errs, more := CreateShard(server, compact, options[i], env);
      ShardsStep(old(server.history), h, server.history, compact, options, i, env,
                 errCount == 0, done, errs == 0, more, errCount + errs == 0);
      failed := if errs > 0 then i else failed;
      errCount, done := errCount + errs, done + more;
    }
    assert options[..|options|] == options;
  }

  /** `p` is the plan that the options amount to. */
  ghost predicate IsPlan(p: Plan, compact: Compact, gate: Option<MonitorConfig>, options: seq<Options>, env: Env) {
    p == Plan(OwnerOf(compact), OwnerSelector(compact.name, env), Names(options, env),
         Wanted(options, compact.uid, env), gate.None?)
  }

  lemma StopAfterPruning(p: Plan, h: History, pruned: seq<Key>)
    requires AllDoomed(h.Now(), Orphans(p), pruned)
    ensures IsSync(p, h, Sync(pruned, [], []), false) && After(h, Sync(pruned, [], [])) == DeleteAll(h, pruned)
  {
  }

  lemma StopAfterCreating(p: Plan, h: History, pruned: seq<Key>, done: seq<Object>)
    requires AllDoomed(h.Now(), Orphans(p), pruned) && NoneMissed(h.Now(), Orphans(p), pruned)
    requires forall d | d in done :: d in p.wanted
    ensures IsSync(p, h, Sync(pruned, done, []), false)
    ensures done == p.wanted && (p.gated ==> p.owner.uid == "") ==> IsSync(p, h, Sync(pruned, done, []), true)
    ensures After(h, Sync(pruned, done, [])) == EnsureAll(DeleteAll(h, pruned), done)
  {
  }

  lemma StopAfterGate(p: Plan, h: History, pruned: seq<Key>, monitors: seq<Key>, ok: bool)
    requires AllDoomed(h.Now(), Orphans(p), pruned) && NoneMissed(h.Now(), Orphans(p), pruned) && p.gated
    requires var s := EnsureAll(DeleteAll(h, pruned), p.wanted).Now();
             && AllDoomed(s, Monitors(p), monitors) && (p.owner.uid == "" ==> monitors == [])
             && (ok && p.owner.uid != "" ==> NoneMissed(s, Monitors(p), monitors))
    ensures IsSync(p, h, Sync(pruned, p.wanted, monitors), ok)
    ensures After(h, Sync(pruned, p.wanted, monitors)) == DeleteAll(EnsureAll(DeleteAll(h, pruned), p.wanted), monitors)
  {
  }

  method PruneGated(server: Server, compact: Compact) returns (errCount: nat, ghost removed: seq<Key>)
    requires server.Valid()
    modifies server
    ensures server.Valid()
    ensures var target := OwnedTarget({ServiceMonitor}, OwnerOf(compact));
            && AllDoomed(old(server.objects), target, removed)
            && (errCount == 0 && compact.uid != "" ==> NoneMissed(old(server.objects), target, removed))
    ensures compact.uid == "" ==> removed == []
    ensures server.history == DeleteAll(old(server.history), removed)
    ensures server.Reliable() ==> errCount == 0
  {
    var pruner := new ResourcePruner();
    pruner.WithServiceMonitor();
    assert pruner.Enabled() == {ServiceMonitor};
    errCount, removed := pruner.PruneByOwner(server, OwnerOf(compact));
  }

  /** `syncResources`, with the options at hand. */
  method SyncOptions(server: Server, compact: Compact, gate: Option<MonitorConfig>, options: seq<Options>, env: Env,
                     ghost p: Plan)
    returns (ok: bool, ghost run: Sync)
    requires server.Valid()
    requires IsPlan(p, compact, gate, options, env)
    requires forall o | o in options :: o.namespace == compact.namespace
    modifies server
    ensures server.Valid()
    ensures server.history == After(old(server.history), run)
    ensures IsSync(p, old(server.history), run, ok)
    ensures server.Reliable() && AllBuildable(server.installed, options, env) ==> ok
  {
    ghost var h := server.history;
    var expectResources := ExpectedNames(options, env);
    var errCount, pruned := PruneOrphanedResources(server, compact.namespace, compact.name, expectResources, env);
    run := Sync(pruned, [], []);
    StopAfterPruning(p, h, pruned);
    if errCount > 0 {
      return false, run;
    }
    var createErrs, done := CreateShards(server, compact, options, env);
    run := Sync(pruned, done, []);
    StopAfterCreating(p, h, pruned, done);
    if createErrs > 0 {
      return false, run;
    }
    if gate.None? {
      var gateErrs, monitors := PruneGated(server, compact);
      run := Sync(pruned, done, monitors);
      StopAfterGate(p, h, pruned, monitors, gateErrs == 0);
      if gateErrs > 0 {
        return false, run;
      }
    }
    ok := true;
  }

  /** What a reconciliation of the resource may write to: objects of its four kinds in its namespace, if their name
      is a generated one or their labels are those of its owner; and, when they are switched off, the
      ServiceMonitors there that it controls. */
  predicate MayTouch(compact: Compact, gate: Option<MonitorConfig>, env: Env, s: Store, k: Key) {
    && k.namespace == compact.namespace && k.kind in {ServiceAccount, Service, StatefulSet, ServiceMonitor}
    && (|| (exists opts :: opts in OptionsFor(compact, gate) && GeneratedResourceName(opts, env) == k.name)
        || (k in s && BelongsTo(s[k].labels, compact.name, env))
        || (k in s && gate.None? && k.kind.ServiceMonitor? && IsControlledBy(s[k], compact.uid)))
  }

  lemma NamesAreGenerated(options: seq<Options>, env: Env, name: string)
    requires name in Names(options, env)
    ensures exists opts :: opts in options && GeneratedResourceName(opts, env) == name
  {
    MapSeqMembers((o: Options) => GeneratedResourceName(o, env), options);
  }

  lemma WantedNames(compact: Compact, gate: Option<MonitorConfig>, env: Env, k: Key)
    requires compact.namespace != "" && k in Keys(PlanFor(compact, gate, env).wanted)
    ensures k.namespace == compact.namespace && k.kind in {ServiceAccount, Service, StatefulSet, ServiceMonitor}
    ensures exists opts :: opts in OptionsFor(compact, gate) && GeneratedResourceName(opts, env) == k.name
  {
    PlanIsSound(compact, gate, env);
    WantedKeyMeaning(PlanFor(compact, gate, env), k);
    NamesAreGenerated(OptionsFor(compact, gate), env, k.name);
  }

  /** Everything that the plan may touch is the resource's own. */
  lemma TouchedMeaning(compact: Compact, gate: Option<MonitorConfig>, env: Env, s: Store, k: Key)
    requires compact.namespace != "" && KeysAgree(s) && Touched(PlanFor(compact, gate, env), s)(k)
    ensures MayTouch(compact, gate, env, s, k)
  {
    var p := PlanFor(compact, gate, env);
    if k in Keys(p.wanted) {
      WantedNames(compact, gate, env, k);
    } else if Doomed(s, Orphans(p), k) {
      OrphanMeaning(p, s, k);
      OwnerSelectorMeaning(s[k].labels, compact.name, env);
    } else {
      MonitorMeaning(p, s, k);
    }
  }

  /** What every reconciliation of a namespaced resource promises: safety at each write whatever fails, nothing
      that is not its own touched, a settled cluster if it succeeds, exactly when shards agree where their
      names collide, and no write at all to a settled one. */
  ghost predicate Promises(compact: Compact, gate: Option<MonitorConfig>, env: Env, h: History, h': History, ok: bool) {
    var p := PlanFor(compact, gate, env);
    && AllSince(h', h, SafeWrite(p))
    && (forall k | !MayTouch(compact, gate, env, h.Now(), k) :: Agree(h'.Now(), h.Now(), k))
    && (ok ==> (Settled(p, h'.Now()) <==> ShardsAgree(OptionsFor(compact, gate), env)))
    && (Settled(p, h.Now()) ==> h' == h)
  }

  lemma SyncPromises(compact: Compact, gate: Option<MonitorConfig>, env: Env, h: History, run: Sync, ok: bool)
    requires compact.namespace != "" && KeysAgree(h.Now()) && AllCreated(h.Now())
    requires IsSync(PlanFor(compact, gate, env), h, run, ok)
    ensures Promises(compact, gate, env, h, After(h, run), ok)
  {
    var p := PlanFor(compact, gate, env);
    PlanIsSound(compact, gate, env);
    SyncIsSafe(p, h, run, ok);
    SyncFrame(p, h, run, ok);
    forall k | !MayTouch(compact, gate, env, h.Now(), k) ensures Agree(After(h, run).Now(), h.Now(), k) {
      if Touched(p, h.Now())(k) {
        TouchedMeaning(compact, gate, env, h.Now(), k);
      }
    }
    if ok {
      WantedCompatibleExactlyWhen(OptionsFor(compact, gate), compact.uid, env);
      SyncConvergesExactlyWhen(p, h, run);
    }
    if Settled(p, h.Now()) {
      SettledSyncIsIdle(p, h, run, ok);
    }
  }

  /** Two compactors in one namespace: reconciling one leaves what carries the labels of the other as it is, unless
      it wants an object of that very name or controls it as a ServiceMonitor to be switched off. */
  lemma OthersAreLeftAlone(compact: Compact, gate: Option<MonitorConfig>, env: Env, h: History, h': History, ok: bool,
                           other: string, k: Key)
    requires Promises(compact, gate, env, h, h', ok)
    requires k in h.Now() && OwnerLabel in h.Now()[k].labels && h.Now()[k].labels[OwnerLabel] == env.labelValue(other)
    requires env.labelValue(other) != env.labelValue(compact.name)
    requires forall opts | opts in OptionsFor(compact, gate) :: GeneratedResourceName(opts, env) != k.name
    requires k.kind.ServiceMonitor? && gate.None? ==> !IsControlledBy(h.Now()[k], compact.uid)
    ensures k in h'.Now() && h'.Now()[k] == h.Now()[k]
  {
    assert !MayTouch(compact, gate, env, h.Now(), k);
  }

  /** A settled cluster runs every shard as its manifests say: under its generated name there are a ServiceAccount,
      a Service, a StatefulSet and, if switched on, a ServiceMonitor, with the fields rendered for the shard. */
  lemma SettledRunsShards(compact: Compact, gate: Option<MonitorConfig>, env: Env, s: Store, opts: Options, kind: Kind)
    requires compact.namespace != "" && KeysAgree(s) && Settled(PlanFor(compact, gate, env), s)
    requires opts in OptionsFor(compact, gate)
    requires kind in {ServiceAccount, Service, StatefulSet} || (kind.ServiceMonitor? && gate.Some?)
    ensures var k := Key(kind, compact.namespace, GeneratedResourceName(opts, env));
            && k in s && IsControlledBy(s[k], compact.uid) && BelongsTo(s[k].labels, compact.name, env)
            && forall f | f in Followed(kind) :: SameField(s[k].fields, env.render(kind, opts), f)
  {
    var options := OptionsFor(compact, gate);
    OptionsMeaning(compact, gate);
    var o := BuiltOfKind(opts, env, kind);
    var d := Owned(compact.uid)(o);
    WantedMeaning(options, compact.uid, env);
    assert IsBuiltBy(options, env, o) && d in Wanted(options, compact.uid, env);
    InPlaceMeaning(s, d);
    BuiltBelongsToItsOwner(opts, env, o, compact.name);
  }

  const OWN_LABELS := {NameLabel, ComponentLabel, PartOfLabel, ManagedByLabel, InstanceLabel, OwnerLabel, ShardLabel}

  lemma OptionsMetadata(compact: Compact, gate: Option<MonitorConfig>, opts: Options)
    requires opts in OptionsFor(compact, gate)
    ensures opts.labels == compact.labels && opts.annotations == compact.annotations
  {
  }

  lemma BuiltLabels(opts: Options, env: Env, kind: Kind, o: Object)
    requires o.labels == if kind.ServiceAccount? then SelectorLabels(opts, env)
                         else if kind.ServiceMonitor? && opts.serviceMonitor.Some? then
                           opts.serviceMonitor.value.additionalLabels + (opts.labels + SelectorLabels(opts, env))
                         else opts.labels + SelectorLabels(opts, env)
    ensures InstanceLabel in o.labels && o.labels[InstanceLabel] == env.labelValue(GeneratedResourceName(opts, env))
    ensures opts.shardName.Some? ==>
              ShardLabel in o.labels && o.labels[ShardLabel] == env.labelValue(opts.shardName.value)
    ensures !kind.ServiceAccount? ==> forall l | l in opts.labels && l !in OWN_LABELS ::
              l in o.labels && o.labels[l] == opts.labels[l]
  {
  }

  /** Its objects carry the labels that tell shards apart, and whatever labels and annotations the user asks for,
      unless they are names of the operator's own labels. */
  lemma SettledMetadata(compact: Compact, gate: Option<MonitorConfig>, env: Env, s: Store, opts: Options, kind: Kind)
    requires compact.namespace != "" && KeysAgree(s) && Settled(PlanFor(compact, gate, env), s)
    requires opts in OptionsFor(compact, gate)
    requires kind in {ServiceAccount, Service, StatefulSet} || (kind.ServiceMonitor? && gate.Some?)
    ensures Key(kind, compact.namespace, GeneratedResourceName(opts, env)) in s
    ensures var live := s[Key(kind, compact.namespace, GeneratedResourceName(opts, env))];
            && InstanceLabel in live.labels
            && live.labels[InstanceLabel] == env.labelValue(GeneratedResourceName(opts, env))
            && (opts.shardName.Some? ==>
                  ShardLabel in live.labels && live.labels[ShardLabel] == env.labelValue(opts.shardName.value))
            && (!kind.ServiceAccount? ==> forall l | l in compact.labels && l !in OWN_LABELS ::
                  l in live.labels && live.labels[l] == compact.labels[l])
            && (!kind.ServiceMonitor? ==> forall l | l in compact.annotations ::
                  l in live.annotations && live.annotations[l] == compact.annotations[l])
  {
    var options := OptionsFor(compact, gate);
    OptionsMetadata(compact, gate, opts);
    OptionsMeaning(compact, gate);
    var o := BuiltOfKind(opts, env, kind);
    var d := Owned(compact.uid)(o);
    WantedMeaning(options, compact.uid, env);
    assert IsBuiltBy(options, env, o) && d in Wanted(options, compact.uid, env);
    InPlaceMeaning(s, d);
    BuiltLabels(opts, env, kind, o);
  }

  /** In a settled cluster no ServiceMonitor is left of a resource that has them switched off. */
  lemma SettledMonitors(compact: Compact, env: Env, s: Store, k: Key)
    requires compact.namespace != "" && compact.uid != "" && KeysAgree(s) && k in s
    requires Settled(PlanFor(compact, None, env), s)
    requires k.kind.ServiceMonitor? && k.namespace == compact.namespace
    ensures !IsControlledBy(s[k], compact.uid)
  {
    assert !Doomed(s, Monitors(PlanFor(compact, None, env)), k);
  }

  /** `syncResources`. */
  method SyncResources(server: Server, compact: Compact, gate: Option<MonitorConfig>, env: Env)
    returns (ok: bool, ghost run: Sync)
    requires server.Valid()
    modifies server
    ensures server.Valid()
    ensures server.history == After(old(server.history), run)
    ensures IsSync(PlanFor(compact, gate, env), old(server.history), run, ok)
    ensures compact.namespace != "" ==> Promises(compact, gate, env, old(server.history), server.history, ok)
    ensures server.Reliable() && AllBuildable(server.installed, OptionsFor(compact, gate), env) ==> ok
  {
    var options := SpecToOptions(compact, gate);
    OptionsMeaning(compact, gate);
    ok, run := SyncOptions(server, compact, gate, options, env, PlanFor(compact, gate, env));
    if compact.namespace != "" {
      SyncPromises(compact, gate, env, old(server.history), run, ok);
    }
  }
}
