// Creating, updating and pruning objects in the cluster (internal/pkg/handlers/handlers.go).

module Handlers {
  import opened Basics
  import opened Objects
  import opened ApiServer

  datatype Owner = Owner(uid: string, namespace: string, name: string)

  // ---------------------------------------------------------------- ownership

  /** `metav1.GetControllerOf`. */
  function ControllerOf(refs: seq<OwnerRef>): Option<string> {
    if refs == [] then None
    else if refs[0].controller then Some(refs[0].uid)
    else ControllerOf(refs[1..])
  }

  predicate IsControlledBy(o: Object, uid: string) {
    ControllerOf(o.ownerRefs) == Some(uid)
  }

  function WithOwnerRef(refs: seq<OwnerRef>, ref: OwnerRef): seq<OwnerRef> {
    if refs == [] then [ref]
    else if refs[0].uid == ref.uid then [ref] + refs[1..]
    else [refs[0]] + WithOwnerRef(refs[1..], ref)
  }

  /** The object in its namespace and controlled by the owner, unless the owner lives in another namespace
      or something else controls the object. Cluster-scoped objects are left as they are. */
  function Prepared(o: Object, namespace: string, owner: Owner): Option<Object> {
    if !IsNamespaced(o.key.kind) then Some(o)
    else if owner.namespace != "" && owner.namespace != namespace then None
    else if ControllerOf(o.ownerRefs).Some? && ControllerOf(o.ownerRefs) != Some(owner.uid) then None
    else Some(o.(key := Key(o.key.kind, namespace, o.key.name),
                 ownerRefs := WithOwnerRef(o.ownerRefs, OwnerRef(owner.uid, true))))
  }

  lemma {:induction false} WithOwnerRefControls(refs: seq<OwnerRef>, uid: string)
    requires ControllerOf(refs) in {None, Some(uid)}
    ensures ControllerOf(WithOwnerRef(refs, OwnerRef(uid, true))) == Some(uid)
  {
    if refs != [] && refs[0].uid != uid {
      WithOwnerRefControls(refs[1..], uid);
    }
  }

  lemma {:induction false} OtherRefsStay(refs: seq<OwnerRef>, ref: OwnerRef, other: OwnerRef)
    requires other.uid != ref.uid
    ensures other in WithOwnerRef(refs, ref) <==> other in refs
  {
    if refs == [] {
    } else if refs[0].uid == ref.uid {
      assert refs == [refs[0]] + refs[1..];
    } else {
      OtherRefsStay(refs[1..], ref, other);
      assert refs == [refs[0]] + refs[1..];
    }
  }

  lemma {:induction false} ControllerMeaning(refs: seq<OwnerRef>)
    ensures ControllerOf(refs).None? <==> forall r | r in refs :: !r.controller
    ensures ControllerOf(refs).Some? ==> OwnerRef(ControllerOf(refs).value, true) in refs
  {
    if refs == [] {
    } else {
      ControllerMeaning(refs[1..]);
      assert refs == [refs[0]] + refs[1..];
    }
  }

  /** What is prepared is controlled by the owner. */
  lemma PreparedIsControlled(o: Object, namespace: string, owner: Owner)
    requires IsNamespaced(o.key.kind) && Prepared(o, namespace, owner).Some?
    ensures IsControlledBy(Prepared(o, namespace, owner).value, owner.uid)
  {
    WithOwnerRefControls(o.ownerRefs, owner.uid);
  }

  /** When a namespaced object can be prepared, and what becomes of it: the owner lives in the namespace or in
      none, and no one else controls the object. */
  lemma PreparedExactlyWhen(o: Object, namespace: string, owner: Owner)
    requires o.key.kind !in {ClusterRole, ClusterRoleBinding}
    requires forall r, q | r in o.ownerRefs && q in o.ownerRefs && r.controller && q.controller :: r == q
    ensures Prepared(o, namespace, owner).Some? <==>
            && owner.namespace in {"", namespace}
            && forall r | r in o.ownerRefs && r.controller :: r.uid == owner.uid
    ensures Prepared(o, namespace, owner).Some? ==>
              var d := Prepared(o, namespace, owner).value;
              && d == o.(key := Key(o.key.kind, namespace, o.key.name), ownerRefs := d.ownerRefs)
              && ControllerOf(d.ownerRefs) == Some(owner.uid)
              && forall r: OwnerRef | r.uid != owner.uid :: r in d.ownerRefs <==> r in o.ownerRefs
  {
    ControllerMeaning(o.ownerRefs);
    if Prepared(o, namespace, owner).Some? {
      PreparedIsControlled(o, namespace, owner);
      forall r: OwnerRef | r.uid != owner.uid
        ensures r in Prepared(o, namespace, owner).value.ownerRefs <==> r in o.ownerRefs
      {
        OtherRefsStay(o.ownerRefs, OwnerRef(owner.uid, true), r);
      }
    }
  }

  // ---------------------------------------------------------------- what ensuring objects means

  /** The live object needs no update: mutating it towards the desired one changes nothing. */
  predicate InPlace(s: Store, desired: Object) {
    desired.key in s && Mutated(s[desired.key], desired) == s[desired.key]
  }

  function Updated(s: Store, desired: Object): Object {
    if desired.key in s then Mutated(s[desired.key], desired) else desired.(created := true)
  }

  /** The write it takes: none if the object is in place. */
  function Ensured(h: History, desired: Object): History {
    if InPlace(h.Now(), desired) then h else Upserted(h, desired.key, Updated(h.Now(), desired))
  }

  function EnsureAll(h: History, ds: seq<Object>): History {
    if ds == [] then h else Ensured(EnsureAll(h, ds[..|ds| - 1]), ds[|ds| - 1])
  }

  function Keys(ds: seq<Object>): set<Key> {
    set d | d in ds :: d.key
  }

  ghost predicate AllInPlace(s: Store, ds: seq<Object>) {
    forall d | d in ds :: InPlace(s, d)
  }

  lemma EnsureAllSnoc(h: History, ds: seq<Object>, d: Object)
    ensures EnsureAll(h, ds + [d]) == Ensured(EnsureAll(h, ds), d)
  {
    assert (ds + [d])[..|ds|] == ds;
  }

  lemma {:induction false} EnsureAllConcat(h: History, a: seq<Object>, b: seq<Object>)
    ensures EnsureAll(h, a + b) == EnsureAll(EnsureAll(h, a), b)
    decreases |b|
  {
    if b == [] {
      assert a + b == a;
    } else {
      var front, last := b[..|b| - 1], b[|b| - 1];
      assert b == front + [last];
      Assoc(a, front, [last]);
      EnsureAllConcat(h, a, front);
      EnsureAllSnoc(h, a + front, last);
    }
  }

  lemma EnsuredAt(h: History, d: Object)
    ensures KeysAgree(h.Now()) ==> KeysAgree(Ensured(h, d).Now())
    ensures InPlace(Ensured(h, d).Now(), d)
    ensures SameExcept(h.Now(), Ensured(h, d).Now(), {d.key})
  {
    var s := h.Now();
    if d.key in s {
      MutateIdempotent(s[d.key], d);
    } else {
      MutateFresh(d, true);
    }
  }

  /** The write is to one of the keys, and made in a state that agrees with the first one outside them. */
  ghost function UpsertWithin(s: Store, keys: set<Key>): History -> bool {
    (w: History) => w.Upserted? && w.key in keys && SameExcept(s, w.prev.Now(), keys) && KeysAgree(w.prev.Now())
  }

  /** Everything since `start` was written within the keys, and so the state agrees with the first one outside. */
  ghost predicate Framed(start: History, h: History, keys: set<Key>) {
    && KeysAgree(h.Now()) && SameExcept(start.Now(), h.Now(), keys)
    && AllSince(h, start, UpsertWithin(start.Now(), keys))
  }

  lemma FramedStep(start: History, h: History, keys: set<Key>, d: Object)
    requires Framed(start, h, keys) && d.key in keys
    ensures Framed(start, Ensured(h, d), keys)
  {
    EnsuredAt(h, d);
    forall k | k !in keys ensures Agree(start.Now(), Ensured(h, d).Now(), k) {
      assert Agree(start.Now(), h.Now(), k) && Agree(h.Now(), Ensured(h, d).Now(), k);
    }
  }

  /** Ensuring objects touches no others, neither in the end nor on the way. */
  lemma {:induction false} EnsureAllFrame(h: History, ds: seq<Object>, keys: set<Key>)
    requires Keys(ds) <= keys && KeysAgree(h.Now())
    ensures Framed(h, EnsureAll(h, ds), keys)
  {
    if ds == [] {
    } else {
      var front, last := ds[..|ds| - 1], ds[|ds| - 1];
      assert ds == front + [last];
      assert Keys(front) <= Keys(ds) && last.key in Keys(ds);
      EnsureAllFrame(h, front, keys);
      FramedStep(h, EnsureAll(h, front), keys, last);
    }
  }

  /** After ensuring objects with distinct keys all of them are in place. */
  lemma {:induction false} EnsureAllSettles(h: History, ds: seq<Object>)
    requires DistinctKeys(ds)
    ensures AllInPlace(EnsureAll(h, ds).Now(), ds)
  {
    if ds == [] {
    } else {
      var front, last := ds[..|ds| - 1], ds[|ds| - 1];
      assert ds == front + [last];
      EnsureAllSettles(h, front);
      var s, s' := EnsureAll(h, front).Now(), EnsureAll(h, ds).Now();
      EnsuredAt(EnsureAll(h, front), last);
      forall d | d in front ensures InPlace(s', d) {
        assert d.key != last.key && InPlace(s, d);
      }
    }
  }

  /** The live object is as desired in every part that the operator looks after: labels, annotations, owners
      and the fields that follow the desired object. */
  predicate Carries(live: Object, d: Object) {
    && live.key == d.key
    && (forall l | l in d.labels :: l in live.labels && live.labels[l] == d.labels[l])
    && (forall l | l in d.annotations :: l in live.annotations && live.annotations[l] == d.annotations[l])
    && (d.ownerRefs != [] ==> live.ownerRefs == d.ownerRefs)
    && (forall f | f in Followed(d.key.kind) :: SameField(live.fields, d.fields, f))
  }

  /** An object in place is as desired. */
  lemma InPlaceMeaning(s: Store, d: Object)
    requires KeysAgree(s) && InPlace(s, d)
    ensures Carries(s[d.key], d)
  {
    MutatedFollows(s[d.key], d);
  }

  /** No two of the objects under one key ask for different things. */
  ghost predicate AllCompatible(ds: seq<Object>) {
    forall d, e | d in ds && e in ds && d.key == e.key :: Compatible(d, e)
  }

  lemma DistinctKeysCompatible(ds: seq<Object>)
    requires DistinctKeys(ds)
    ensures AllCompatible(ds)
  {
    forall d, e | d in ds && e in ds && d.key == e.key ensures Compatible(d, e) {
      var i :| 0 <= i < |ds| && ds[i] == d;
      var j :| 0 <= j < |ds| && ds[j] == e;
      assert i == j;
      CompatibleWithItself(d);
    }
  }

  /** Two objects under one key can both be in place only if they are compatible. */
  lemma BothInPlaceAgree(s: Store, d: Object, e: Object)
    requires KeysAgree(s) && AllCreated(s) && d.key == e.key && InPlace(s, d) && InPlace(s, e)
    ensures Compatible(d, e)
  {
    UnchangedCompatible(s[d.key], d, e);
  }

  lemma EnsuredCreated(h: History, d: Object)
    requires KeysAgree(h.Now()) && AllCreated(h.Now())
    ensures KeysAgree(Ensured(h, d).Now()) && AllCreated(Ensured(h, d).Now())
  {
  }

  /** Ensuring one more object leaves those in place that are compatible with it. */
  lemma EnsuredKeeps(h: History, d: Object, e: Object)
    requires KeysAgree(h.Now()) && AllCreated(h.Now()) && InPlace(h.Now(), d)
    requires d.key == e.key ==> Compatible(d, e)
    ensures InPlace(Ensured(h, e).Now(), d)
  {
    EnsuredAt(h, e);
    if d.key == e.key {
      CompatibleUnchanged(h.Now()[d.key], d, e);
    } else {
      assert Agree(h.Now(), Ensured(h, e).Now(), d.key);
    }
  }

  lemma {:induction false} EnsureAllCompatible(h: History, ds: seq<Object>)
    requires KeysAgree(h.Now()) && AllCreated(h.Now())
    ensures KeysAgree(EnsureAll(h, ds).Now()) && AllCreated(EnsureAll(h, ds).Now())
    ensures AllCompatible(ds) ==> AllInPlace(EnsureAll(h, ds).Now(), ds)
  {
    if ds == [] {
    } else {
      var front, last := ds[..|ds| - 1], ds[|ds| - 1];
      assert ds == front + [last];
      EnsureAllCompatible(h, front);
      EnsuredCreated(EnsureAll(h, front), last);
      EnsuredAt(EnsureAll(h, front), last);
      if AllCompatible(ds) {
        forall d | d in front ensures InPlace(EnsureAll(h, ds).Now(), d) {
          assert d in ds && last in ds;
          EnsuredKeeps(EnsureAll(h, front), d, last);
        }
      }
    }
  }

  /** Convergence, exactly: after ensuring the objects all of them are in place just when no two of them
      under one key ask for different things. */
  lemma EnsureAllSettlesExactlyWhen(h: History, ds: seq<Object>)
    requires KeysAgree(h.Now()) && AllCreated(h.Now())
    ensures AllInPlace(EnsureAll(h, ds).Now(), ds) <==> AllCompatible(ds)
  {
    EnsureAllCompatible(h, ds);
    if AllInPlace(EnsureAll(h, ds).Now(), ds) {
      forall d, e | d in ds && e in ds && d.key == e.key ensures Compatible(d, e) {
        BothInPlaceAgree(EnsureAll(h, ds).Now(), d, e);
      }
    }
  }

  /** When everything is in place nothing is written. */
  lemma {:induction false} EnsureAllIdle(h: History, ds: seq<Object>)
    requires AllInPlace(h.Now(), ds)
    ensures EnsureAll(h, ds) == h
  {
    if ds == [] {
    } else {
      var front, last := ds[..|ds| - 1], ds[|ds| - 1];
      assert ds == front + [last];
      EnsureAllIdle(h, front);
    }
  }

  /** Ensuring writes something unless everything is in place. */
  lemma {:induction false} EnsureAllWrites(h: History, ds: seq<Object>)
    ensures EnsureAll(h, ds).Writes() >= h.Writes()
    ensures EnsureAll(h, ds).Writes() == h.Writes() ==> EnsureAll(h, ds) == h && AllInPlace(h.Now(), ds)
  {
    if ds == [] {
    } else {
      var front, last := ds[..|ds| - 1], ds[|ds| - 1];
      assert ds == front + [last];
      EnsureAllWrites(h, front);
    }
  }

  // ---------------------------------------------------------------- create or update

  /** `done` are prepared forms of some of the objects, in their order. */
  ghost predicate Picked(done: seq<Object>, objs: seq<Object>, namespace: string, owner: Owner) {
    if objs == [] then done == []
    else
      var front, last := objs[..|objs| - 1], objs[|objs| - 1];
      || Picked(done, front, namespace, owner)
      || (done != [] && Prepared(last, namespace, owner) == Some(done[|done| - 1])
           && Picked(done[..|done| - 1], front, namespace, owner))
  }

  lemma PickedSnoc(done: seq<Object>, objs: seq<Object>, o: Object, namespace: string, owner: Owner)
    requires Picked(done, objs, namespace, owner)
    ensures Picked(done, objs + [o], namespace, owner)
    ensures Prepared(o, namespace, owner).Some? ==>
            Picked(done + [Prepared(o, namespace, owner).value], objs + [o], namespace, owner)
  {
    assert (objs + [o])[..|objs|] == objs;
    if Prepared(o, namespace, owner).Some? {
      assert (done + [Prepared(o, namespace, owner).value])[..|done|] == done;
    }
  }

  lemma {:induction false} PickedMeaning(done: seq<Object>, objs: seq<Object>, namespace: string, owner: Owner)
    requires Picked(done, objs, namespace, owner)
    ensures |done| <= |objs|
    ensures forall d | d in done :: exists o :: o in objs && Prepared(o, namespace, owner) == Some(d)
    ensures |done| == |objs| ==> forall i | 0 <= i < |objs| :: Prepared(objs[i], namespace, owner) == Some(done[i])
    decreases |objs|
  {
    if objs != [] {
      var front, last := objs[..|objs| - 1], objs[|objs| - 1];
      assert objs == front + [last];
      if Picked(done, front, namespace, owner) {
        PickedMeaning(done, front, namespace, owner);
      } else {
        PickedMeaning(done[..|done| - 1], front, namespace, owner);
        assert done == done[..|done| - 1] + [done[|done| - 1]];
      }
    }
  }

  ghost predicate Creatable(installed: set<Kind>, desired: Object) {
    IsSupported(desired.key.kind) && desired.key.kind in installed && desired.key.name != ""
  }

  /** `ctrl.CreateOrUpdate` with the mutator of the object's kind. */
  method EnsureObject(server: Server, desired: Object) returns (ok: bool)
    requires server.Valid()
    modifies server
    ensures server.Valid()
    ensures server.history == if ok then Ensured(old(server.history), desired) else old(server.history)
    ensures server.Reliable() && Creatable(server.installed, desired) ==> ok
  {
    var found := server.Get(desired.key);
    match found
    case GetFailed =>
      ok := false;
    case NotFound =>
      var live := new LiveObject(desired);
      ok := live.Mutate(desired);
      if ok {
        MutateFresh(desired, desired.created);
        ok := server.Put(live.Value());
      }
    case Found(value) =>
      var live := new LiveObject(value);
      ok := live.Mutate(desired);
      if ok && live.Value() != value {
        ok := server.Put(live.Value());
      }
  }

  ghost predicate Acceptable(installed: set<Kind>, o: Object, namespace: string, owner: Owner) {
    Prepared(o, namespace, owner).Some? && Creatable(installed, Prepared(o, namespace, owner).value)
  }

  ghost predicate AllAcceptable(installed: set<Kind>, objs: seq<Object>, namespace: string, owner: Owner) {
    forall i | 0 <= i < |objs| :: Acceptable(installed, objs[i], namespace, owner)
  }

  /** One turn of the loop in `CreateOrUpdate`. */
  method PrepareAndEnsure(server: Server, namespace: string, owner: Owner, o: Object)
    returns (ok: bool, ghost d: Object)
    requires server.Valid()
    modifies server
    ensures server.Valid()
    ensures ok ==> Prepared(o, namespace, owner) == Some(d)
    ensures server.history == if ok then Ensured(old(server.history), d) else old(server.history)
    ensures server.Reliable() && Acceptable(server.installed, o, namespace, owner) ==> ok
  {
    d := o;
    var desired := Prepared(o, namespace, owner);
    if desired.None? {
      return false, d;
    }
    d := desired.value;
    ok := EnsureObject(server, desired.value);
  }

  /** `done` are the prepared forms of those of the first `i` objects that have been ensured, in order. */
  ghost predicate Progress(start: History, h: History, objs: seq<Object>, i: nat, namespace: string, owner: Owner,
                           done: seq<Object>)
    requires i <= |objs|
  {
    Picked(done, objs[..i], namespace, owner) && h == EnsureAll(start, done)
  }

  lemma ProgressSkip(start: History, h: History, objs: seq<Object>, i: nat, namespace: string, owner: Owner,
                     done: seq<Object>)
    requires i < |objs| && Progress(start, h, objs, i, namespace, owner, done)
    ensures Progress(start, h, objs, i + 1, namespace, owner, done)
  {
    assert objs[..i + 1] == objs[..i] + [objs[i]];
    PickedSnoc(done, objs[..i], objs[i], namespace, owner);
  }

  lemma ProgressDone(start: History, h: History, objs: seq<Object>, i: nat, namespace: string, owner: Owner,
                     done: seq<Object>, d: Object)
    requires i < |objs| && Progress(start, h, objs, i, namespace, owner, done)
             && Prepared(objs[i], namespace, owner) == Some(d)
    ensures Progress(start, Ensured(h, d), objs, i + 1, namespace, owner, done + [d])
  {
    assert objs[..i + 1] == objs[..i] + [objs[i]];
    PickedSnoc(done, objs[..i], objs[i], namespace, owner);
    EnsureAllSnoc(start, done, d);
  }

  /** `CreateOrUpdate`. Its effect is that of ensuring the objects it did not count as errors, in order. */
  method CreateOrUpdate(server: Server, namespace: string, owner: Owner, objs: seq<Object>)
    returns (errCount: nat, ghost done: seq<Object>)
    requires server.Valid()
    modifies server
    ensures server.Valid()
    ensures Picked(done, objs, namespace, owner) && errCount + |done| == |objs|
    ensures server.history == EnsureAll(old(server.history), done)
    ensures server.Reliable() && AllAcceptable(server.installed, objs, namespace, owner) ==> errCount == 0
  {
    errCount, done := 0, [];
    ghost var failed := 0;
    for i := 0 to |objs|
      invariant server.Valid() && errCount + |done| == i
      invariant Progress(old(server.history), server.history, objs, i, namespace, owner, done)
      invariant errCount > 0 ==>
                0 <= failed < i && !(server.Reliable() && Acceptable(server.installed, objs[failed], namespace, owner))
    {
      ghost var h := server.history;
      var ok, d := PrepareAndEnsure(server, namespace, owner, objs[i]);
      failed := if ok then failed else i;
      if ok {
        ProgressDone(old(server.history), h, objs, i, namespace, owner, done, d);
        done := done + [d];
      } else {
        ProgressSkip(old(server.history), h, objs, i, namespace, owner, done);
        errCount := errCount + 1;
      }
    }
    assert objs[..|objs|] == objs;
  }

  // ---------------------------------------------------------------- what removing objects means

  function DeleteAll(h: History, ks: seq<Key>): History {
    if ks == [] then h else Deleted(DeleteAll(h, ks[..|ks| - 1]), ks[|ks| - 1])
  }

  lemma {:induction false} DeleteAllAt(h: History, ks: seq<Key>)
    ensures forall k :: k in DeleteAll(h, ks).Now() <==> k in h.Now() && k !in ks
    ensures forall k | k in DeleteAll(h, ks).Now() :: DeleteAll(h, ks).Now()[k] == h.Now()[k]
  {
    if ks == [] {
    } else {
      var front, last := ks[..|ks| - 1], ks[|ks| - 1];
      assert ks == front + [last];
      DeleteAllAt(h, front);
    }
  }

  lemma DeleteAllKeys(h: History, ks: seq<Key>)
    requires KeysAgree(h.Now())
    ensures KeysAgree(DeleteAll(h, ks).Now())
  {
    DeleteAllAt(h, ks);
  }

  lemma DeleteAllCreated(h: History, ks: seq<Key>)
    requires AllCreated(h.Now())
    ensures AllCreated(DeleteAll(h, ks).Now())
  {
    DeleteAllAt(h, ks);
  }

  ghost function DeletionWithin(keys: set<Key>): History -> bool {
    (w: History) => w.Deleted? && w.key in keys
  }

  lemma {:induction false} DeleteAllFrame(h: History, ks: seq<Key>, keys: set<Key>)
    requires forall k | k in ks :: k in keys
    ensures AllSince(DeleteAll(h, ks), h, DeletionWithin(keys))
  {
    if ks == [] {
    } else {
      DeleteAllFrame(h, ks[..|ks| - 1], keys);
    }
  }

  lemma DeleteAllSnoc(h: History, ks: seq<Key>, k: Key)
    ensures DeleteAll(h, ks + [k]) == Deleted(DeleteAll(h, ks), k)
  {
    assert (ks + [k])[..|ks|] == ks;
  }

  lemma {:induction false} DeleteAllConcat(h: History, a: seq<Key>, b: seq<Key>)
    ensures DeleteAll(h, a + b) == DeleteAll(DeleteAll(h, a), b)
    decreases |b|
  {
    if b == [] {
      assert a + b == a;
    } else {
      var front, last := b[..|b| - 1], b[|b| - 1];
      assert b == front + [last];
      Assoc(a, front, [last]);
      DeleteAllConcat(h, a, front);
      DeleteAllSnoc(h, a + front, last);
    }
  }

  lemma {:induction false} DeleteAllWrites(h: History, ks: seq<Key>)
    ensures DeleteAll(h, ks).Writes() == h.Writes() + |ks|
  {
    if ks == [] {
    } else {
      DeleteAllWrites(h, ks[..|ks| - 1]);
    }
  }

  // ---------------------------------------------------------------- pruning

  /** What a prune is after: the listed objects of some kinds that a test condemns. */
  datatype Target = Target(kinds: set<Kind>, opts: ListOptions, shouldDelete: Object -> bool)

  predicate Doomed(s: Store, t: Target, k: Key) {
    k in s && k.kind in t.kinds && Selected(t.opts, s[k]) && t.shouldDelete(s[k])
  }

  ghost predicate AllDoomed(s: Store, t: Target, ks: seq<Key>) {
    Distinct(ks) && forall k | k in ks :: Doomed(s, t, k)
  }

  ghost predicate NoneMissed(s: Store, t: Target, ks: seq<Key>) {
    forall k | Doomed(s, t, k) :: k in ks
  }

  ghost predicate CondemnedItem(s: Store, items: seq<Object>, shouldDelete: Object -> bool, k: Key) {
    k in s && s[k] in items && shouldDelete(s[k])
  }

  ghost predicate ArePresent(s: Store, items: seq<Object>) {
    DistinctKeys(items) && forall o | o in items :: o.key in s && s[o.key] == o
  }

  /** `removed` are condemned ones among the items, all of them if `clean`. */
  ghost predicate Removals(s: Store, items: seq<Object>, shouldDelete: Object -> bool, clean: bool, removed: seq<Key>) {
    && Distinct(removed) && (forall k | k in removed :: CondemnedItem(s, items, shouldDelete, k))
    && (clean ==> forall o | o in items && shouldDelete(o) :: o.key in removed)
  }

  lemma RemovalsStep(s: Store, items: seq<Object>, i: nat, shouldDelete: Object -> bool, clean: bool, removed: seq<Key>)
    requires i < |items| && ArePresent(s, items) && Removals(s, items[..i], shouldDelete, clean, removed)
    ensures Removals(s, items[..i + 1], shouldDelete, clean && !shouldDelete(items[i]), removed)
    ensures items[i].key in s && items[i].key !in removed
    ensures shouldDelete(items[i]) ==> Removals(s, items[..i + 1], shouldDelete, clean, removed + [items[i].key])
  {
    var o, front := items[i], items[..i];
    assert o in items && items[..i + 1] == front + [o] && o !in front;
  }

  /** Deletes the listed objects that are condemned. */
  method DeleteItems(server: Server, items: seq<Object>, shouldDelete: Object -> bool)
    returns (errCount: nat, ghost removed: seq<Key>)
    requires server.Valid() && ArePresent(server.objects, items)
    modifies server
    ensures server.Valid()
    ensures Removals(old(server.objects), items, shouldDelete, errCount == 0, removed)
    ensures server.history == DeleteAll(old(server.history), removed)
    ensures server.Reliable() ==> errCount == 0
  {
    errCount, removed := 0, [];
    for i := 0 to |items|
      invariant server.Valid()
      invariant Removals(old(server.objects), items[..i], shouldDelete, errCount == 0, removed)
      invariant server.history == DeleteAll(old(server.history), removed)
      invariant server.Reliable() ==> errCount == 0
    {
      RemovalsStep(old(server.objects), items, i, shouldDelete, errCount == 0, removed);
      if !shouldDelete(items[i]) {
        continue;
      }
      DeleteAllAt(old(server.history), removed);
      var ok := server.Delete(items[i].key);
      if !ok {
        errCount := errCount + 1;
        continue;
      }
      DeleteAllSnoc(old(server.history), removed, items[i].key);
      removed := removed + [items[i].key];
    }
    assert items[..|items|] == items;
  }

  /** One kind: list, then delete. A kind that is not installed has nothing to prune. */
  method PruneKind(server: Server, kind: Kind, opts: ListOptions, shouldDelete: Object -> bool)
    returns (errCount: nat, ghost removed: seq<Key>)
    requires server.Valid()
    modifies server
    ensures server.Valid()
    ensures AllDoomed(old(server.objects), Target({kind}, opts, shouldDelete), removed)
    ensures errCount == 0 ==> NoneMissed(old(server.objects), Target({kind}, opts, shouldDelete), removed)
    ensures server.history == DeleteAll(old(server.history), removed)
    ensures server.Reliable() ==> errCount == 0
  {
    ghost var s := server.objects;
    var listed := server.List(kind, opts);
    match listed
    case NoMatch =>
      errCount, removed := 0, [];
    case ListFailed =>
      errCount, removed := 1, [];
    case Items(items) =>
      errCount, removed := DeleteItems(server, items, shouldDelete);
      if errCount == 0 {
        forall k | Doomed(s, Target({kind}, opts, shouldDelete), k) ensures k in removed {
          assert s[k] in items;
        }
      }
  }

  function EnabledIn(types: seq<(bool, Kind)>): set<Kind> {
    set p | p in types && p.0 :: p.1
  }

  lemma EnabledSnoc(types: seq<(bool, Kind)>, i: nat)
    requires i < |types|
    ensures EnabledIn(types[..i + 1]) == EnabledIn(types[..i]) + (if types[i].0 then {types[i].1} else {})
  {
    assert types[..i + 1] == types[..i] + [types[i]];
  }

  lemma DistinctConcat<T>(a: seq<T>, b: seq<T>)
    requires Distinct(a) && Distinct(b) && forall x | x in b :: x !in a
    ensures Distinct(a + b)
  {
    forall i, j | 0 <= i < j < |a + b| ensures (a + b)[i] != (a + b)[j] {
      if i < |a| <= j {
        assert (a + b)[j] in b;
      }
    }
  }

  lemma PruneStep(h: History, kinds: set<Kind>, kind: Kind, opts: ListOptions, shouldDelete: Object -> bool,
                  front: seq<Key>, more: seq<Key>, clean: bool)
    requires AllDoomed(h.Now(), Target(kinds, opts, shouldDelete), front)
    requires AllDoomed(DeleteAll(h, front).Now(), Target({kind}, opts, shouldDelete), more)
    requires clean ==> NoneMissed(h.Now(), Target(kinds, opts, shouldDelete), front)
    requires clean ==> NoneMissed(DeleteAll(h, front).Now(), Target({kind}, opts, shouldDelete), more)
    ensures AllDoomed(h.Now(), Target(kinds + {kind}, opts, shouldDelete), front + more)
    ensures clean ==> NoneMissed(h.Now(), Target(kinds + {kind}, opts, shouldDelete), front + more)
  {
    DeleteAllAt(h, front);
    var s, both, rest := h.Now(), Target(kinds + {kind}, opts, shouldDelete), DeleteAll(h, front).Now();
    forall k | k in front + more ensures Doomed(s, both, k) {
      if k in front {
        assert Doomed(s, Target(kinds, opts, shouldDelete), k);
      } else {
        assert Doomed(rest, Target({kind}, opts, shouldDelete), k);
      }
    }
    forall k | k in more ensures k !in front {
      assert Doomed(rest, Target({kind}, opts, shouldDelete), k);
    }
    DistinctConcat(front, more);
    if clean {
      forall k | Doomed(s, both, k) ensures k in front + more {
        if k.kind in kinds {
          assert Doomed(s, Target(kinds, opts, shouldDelete), k);
        } else if k !in front {
          assert Doomed(rest, Target({kind}, opts, shouldDelete), k);
        }
      }
    }
  }

  /** The pruner's loop over its resource types, each with its switch. */
  method PruneTypes(server: Server, types: seq<(bool, Kind)>, opts: ListOptions, shouldDelete: Object -> bool)
    returns (errCount: nat, ghost removed: seq<Key>)
    requires server.Valid()
    modifies server
    ensures server.Valid()
    ensures AllDoomed(old(server.objects), Target(EnabledIn(types), opts, shouldDelete), removed)
    ensures errCount == 0 ==> NoneMissed(old(server.objects), Target(EnabledIn(types), opts, shouldDelete), removed)
    ensures server.history == DeleteAll(old(server.history), removed)
    ensures server.Reliable() ==> errCount == 0
  {
    errCount, removed := 0, [];
    ghost var s := server.objects;
    for i := 0 to |types|
      invariant server.Valid()
      invariant AllDoomed(s, Target(EnabledIn(types[..i]), opts, shouldDelete), removed)
      invariant errCount == 0 ==> NoneMissed(s, Target(EnabledIn(types[..i]), opts, shouldDelete), removed)
      invariant server.history == DeleteAll(old(server.history), removed)
      invariant server.Reliable() ==> errCount == 0
    {
      EnabledSnoc(types, i);
      if types[i].0 {
        ghost var front := removed;
        var errs, more := PruneKind(server, types[i].1, opts, shouldDelete);
        PruneStep(old(server.history), EnabledIn(types[..i]), types[i].1, opts, shouldDelete, front, more,
                  errCount == 0 && errs == 0);
        DeleteAllConcat(old(server.history), front, more);
        errCount, removed := errCount + errs, removed + more;
      }
    }
    assert types[..|types|] == types;
  }

  function NotKept(keep: seq<string>): Object -> bool {
    (o: Object) => o.key.name !in keep
  }

  function ControlledBy(uid: string): Object -> bool {
    (o: Object) => IsControlledBy(o, uid)
  }

  /** What is listed under a name that is not to be kept. */
  function KeepTarget(kinds: set<Kind>, keep: seq<string>, opts: ListOptions): Target {
    Target(kinds, opts, NotKept(keep))
  }

  /** What the owner controls in its namespace. */
  function OwnedTarget(kinds: set<Kind>, owner: Owner): Target {
    Target(kinds, ListOptions(owner.namespace, map[]), ControlledBy(owner.uid))
  }

  /** What pruning by name is after: objects of these kinds with the given labels in the namespace whose names
      are not to be kept. */
  lemma DoomedByName(s: Store, kinds: set<Kind>, keep: seq<string>, opts: ListOptions, k: Key)
    requires KeysAgree(s)
    ensures Doomed(s, KeepTarget(kinds, keep, opts), k) <==>
            && k in s && k.kind in kinds && k.name !in keep
            && (opts.namespace == "" || k.namespace == opts.namespace)
            && forall l | l in opts.matchLabels :: l in s[k].labels && s[k].labels[l] == opts.matchLabels[l]
  {
  }

  /** What pruning by owner is after: objects of these kinds in its namespace that it controls. */
  lemma DoomedByOwner(s: Store, kinds: set<Kind>, owner: Owner, k: Key)
    requires KeysAgree(s) && owner.namespace != ""
    ensures Doomed(s, OwnedTarget(kinds, owner), k) <==>
            k in s && k.kind in kinds && k.namespace == owner.namespace && IsControlledBy(s[k], owner.uid)
  {
  }

  lemma SwitchedOn(before: seq<(bool, Kind)>, after: seq<(bool, Kind)>, i: nat)
    requires i < |before| == |after|
    requires after[i] == (true, before[i].1)
    requires forall j | 0 <= j < |before| && j != i :: after[j] == before[j]
    ensures EnabledIn(after) == EnabledIn(before) + {before[i].1}
  {
    forall k ensures k in EnabledIn(after) <==> k in EnabledIn(before) || k == before[i].1 {
      if k in EnabledIn(before) {
        var p :| p in before && p.0 && p.1 == k;
        var j :| 0 <= j < |before| && before[j] == p;
        assert after[j] in after && after[j].0 && after[j].1 == k;
      }
      if k in EnabledIn(after) {
        var p :| p in after && p.0 && p.1 == k;
        var j :| 0 <= j < |after| && after[j] == p;
        assert j != i ==> before[j] in before;
      }
      if k == before[i].1 {
        assert after[i] in after;
      }
    }
  }

  class ResourcePruner {
    var sa: bool
    var svc: bool
    var sts: bool
    var dep: bool
    var cm: bool
    var secret: bool
    var pdb: bool
    var svcMon: bool

    constructor ()
      ensures Enabled() == {}
    {
      sa, svc, sts, dep, cm, secret, pdb, svcMon := false, false, false, false, false, false, false, false;
    }

    function Types(): seq<(bool, Kind)>
      reads this
    {
      [(sa, ServiceAccount), (svc, Service), (sts, StatefulSet), (dep, Deployment),
       (cm, ConfigMap), (secret, Secret), (pdb, PodDisruptionBudget), (svcMon, ServiceMonitor)]
    }

    function Enabled(): set<Kind>
      reads this
    {
      EnabledIn(Types())
    }

    method WithServiceAccount()
      modifies this
      ensures Enabled() == old(Enabled()) + {ServiceAccount}
    {
      sa := true;
      SwitchedOn(old(Types()), Types(), 0);
    }

    method WithService()
      modifies this
      ensures Enabled() == old(Enabled()) + {Service}
    {
      svc := true;
      SwitchedOn(old(Types()), Types(), 1);
    }

    method WithStatefulSet()
      modifies this
      ensures Enabled() == old(Enabled()) + {StatefulSet}
    {
      sts := true;
      SwitchedOn(old(Types()), Types(), 2);
    }

    method WithServiceMonitor()
      modifies this
      ensures Enabled() == old(Enabled()) + {ServiceMonitor}
    {
      svcMon := true;
      SwitchedOn(old(Types()), Types(), 7);
    }

    /** `Prune`: deletes what is listed under a name that is not to be kept. */
    method Prune(server: Server, keep: seq<string>, opts: ListOptions) returns (errCount: nat, ghost removed: seq<Key>)
      requires server.Valid()
      modifies server
      ensures server.Valid()
      ensures AllDoomed(old(server.objects), KeepTarget(Enabled(), keep, opts), removed)
      ensures errCount == 0 ==> NoneMissed(old(server.objects), KeepTarget(Enabled(), keep, opts), removed)
      ensures server.history == DeleteAll(old(server.history), removed)
      ensures server.Reliable() ==> errCount == 0
    {
      errCount, removed := PruneTypes(server, Types(), opts, NotKept(keep));
    }

    /** `PruneByOwner`: deletes what the owner controls in its namespace, nothing for an owner without a UID. */
    method PruneByOwner(server: Server, owner: Owner) returns (errCount: nat, ghost removed: seq<Key>)
      requires server.Valid()
      modifies server
      ensures server.Valid()
      ensures AllDoomed(old(server.objects), OwnedTarget(Enabled(), owner), removed)
              && (owner.uid == "" ==> removed == [])
      ensures errCount == 0 && owner.uid != "" ==>
              NoneMissed(old(server.objects), OwnedTarget(Enabled(), owner), removed)
      ensures server.history == DeleteAll(old(server.history), removed)
      ensures server.Reliable() ==> errCount == 0
    {
      if owner.uid == "" {
        return 0, [];
      }
      errCount, removed := PruneTypes(server, Types(), ListOptions(owner.namespace, map[]), ControlledBy(owner.uid));
    }
  }
}
