// Growing the volumes of a StatefulSet, as a protocol of two controllers over one cluster
// (internal/controller/volume_resize_controller.go, internal/pkg/manifests/mutations.go,
// internal/controller/transform.go). The resize controller grows the claims and orphan-deletes the
// StatefulSet; the component controller writes the size annotation and recreates the StatefulSet.

module VolumeResize {
  import opened Basics
  import Objects

  // ---------------------------------------------------------------- the cluster

  /** The storage-size annotation of a StatefulSet. Sizes are compared as quantities. */
  datatype Annotation = Missing | Malformed | Requested(size: int)

  datatype StatefulSet = StatefulSet(labels: Objects.Labels, annotation: Annotation, claimTemplate: int)

  /** A claim as it was when it was listed. */
  datatype Claim = Claim(name: string, size: int)

  /** The resize controller: idle, or with the claims of its list that it has still to process. */
  datatype Worker =
    | Idle
    | Processing(annotation: Annotation, listed: set<string>, todo: seq<Claim>, errCount: nat, needsRecreation: bool)

  /** `claims` are the PersistentVolumeClaims carrying the StatefulSet's instance label; `desired` is the
      size in the component's spec; `deletions` counts the StatefulSet's deletions. */
  datatype Cluster = Cluster(
    claims: map<string, int>,
    sts: Option<StatefulSet>,
    desired: int,
    worker: Worker,
    deletions: nat)

  const OPERATOR_LABELS: Objects.Labels :=
    map[Objects.ManagedByLabel := "thanos-operator", Objects.PartOfLabel := "thanos"]

  predicate IsThanosOperatorStatefulSet(sts: StatefulSet) {
    && Objects.ManagedByLabel in sts.labels && sts.labels[Objects.ManagedByLabel] == "thanos-operator"
    && Objects.PartOfLabel in sts.labels && sts.labels[Objects.PartOfLabel] == "thanos"
  }

  // ---------------------------------------------------------------- the steps

  datatype Step =
    | Edit(size: int)                 // the user changes the requested size
    | Sync                            // the component controller creates or updates the StatefulSet
    | Provision(name: string)         // the StatefulSet controller creates a missing claim
    | Begin(listing: seq<Claim>)      // the resize controller lists the claims, in any order
    | Process(ok: bool)               // it processes the next one; `ok` is the outcome of a patch
    | Finish(ok: bool)                // it ends its loop; `ok` is the outcome of a deletion
    | Crash                           // it loses its local state

  ghost predicate IsListing(listing: seq<Claim>, claims: map<string, int>) {
    && (forall i | 0 <= i < |listing| :: listing[i].name in claims && claims[listing[i].name] == listing[i].size)
    && (forall i, j | 0 <= i < j < |listing| :: listing[i].name != listing[j].name)
    && (forall n | n in claims :: Claim(n, claims[n]) in listing)
  }

  ghost predicate Enabled(c: Cluster, s: Step) {
    match s
    case Edit(_) => true
    case Sync => true
    case Provision(name) => c.sts.Some? && name !in c.claims
    case Begin(listing) => c.worker.Idle? && c.sts.Some? && IsThanosOperatorStatefulSet(c.sts.value)
      && IsListing(listing, c.claims)
    case Process(_) => c.worker.Processing? && c.worker.todo != []
    case Finish(_) => c.worker.Processing? && c.worker.todo == []
    case Crash => true
  }

  /** The component's create-or-update: the mutator of a live StatefulSet merges labels and annotations and
      leaves the claim templates alone. */
  function Synced(sts: Option<StatefulSet>, desired: int): StatefulSet {
    if sts.None? then StatefulSet(OPERATOR_LABELS, Requested(desired), desired)
    else StatefulSet(sts.value.labels + OPERATOR_LABELS, Requested(desired), sts.value.claimTemplate)
  }

  function OperatorLabels(labels: Objects.Labels): Objects.Labels {
    map l | l in labels && l in OPERATOR_LABELS :: labels[l]
  }

  const STORAGE_SIZE_ANNOTATION := Objects.OtherLabel("operator.thanos.io/storage-size")

  function AnnotationOf(annotations: Objects.Labels, quantity: string -> Option<int>): Annotation {
    if STORAGE_SIZE_ANNOTATION !in annotations then Missing
    else match quantity(annotations[STORAGE_SIZE_ANNOTATION])
      case None => Malformed
      case Some(size) => Requested(size)
  }

  /** A StatefulSet asks for a size by its storage-size annotation, if that can be read as a quantity. */
  lemma AnnotationMeaning(annotations: Objects.Labels, quantity: string -> Option<int>)
    ensures var key, a := Objects.OtherLabel("operator.thanos.io/storage-size"), AnnotationOf(annotations, quantity);
            && (a.Missing? <==> key !in annotations)
            && (a.Malformed? <==> key in annotations && quantity(annotations[key]).None?)
            && forall size :: a == Requested(size) <==> key in annotations && quantity(annotations[key]) == Some(size)
  {
  }

  /** How a StatefulSet object is seen here: of its labels those that mark it as the operator's, its
      storage-size annotation, and the size in its claim template. Reading sizes is left to `quantity`. */
  function View(o: Objects.Object, quantity: string -> Option<int>): StatefulSet {
    StatefulSet(
      OperatorLabels(o.labels),
      AnnotationOf(o.annotations, quantity),
      if Objects.VolumeClaimTemplates in o.fields && quantity(o.fields[Objects.VolumeClaimTemplates]).Some?
      then quantity(o.fields[Objects.VolumeClaimTemplates]).value else 0)
  }

  /** What the component wants: the operator's labels and the desired size as annotation. */
  predicate Wants(desired: Objects.Object, size: int, quantity: string -> Option<int>) {
    && desired.key.kind == Objects.Kind.StatefulSet
    && (forall l | l in OPERATOR_LABELS :: l in desired.labels && desired.labels[l] == OPERATOR_LABELS[l])
    && AnnotationOf(desired.annotations, quantity) == Requested(size)
  }

  lemma OperatorLabelsMerge(existing: Objects.Labels, desired: Objects.Labels)
    requires forall l | l in OPERATOR_LABELS :: l in desired && desired[l] == OPERATOR_LABELS[l]
    ensures OperatorLabels(existing + desired) == OperatorLabels(existing) + OPERATOR_LABELS
  {
  }

  lemma AnnotationMerges(existing: Objects.Labels, desired: Objects.Labels, quantity: string -> Option<int>)
    requires AnnotationOf(desired, quantity) != Missing
    ensures AnnotationOf(existing + desired, quantity) == AnnotationOf(desired, quantity)
  {
  }

  /** The synchronisation step is what the mutator does to a live StatefulSet. */
  lemma SyncedIsMutated(existing: Objects.Object, desired: Objects.Object, size: int, quantity: string -> Option<int>)
    requires existing.key.kind == Objects.Kind.StatefulSet && existing.created && Wants(desired, size, quantity)
    ensures View(Objects.Mutated(existing, desired), quantity) == Synced(Some(View(existing, quantity)), size)
  {
    Objects.LiveStatefulSetKeepsImmutableFields(existing, desired, Objects.VolumeClaimTemplates);
    OperatorLabelsMerge(existing.labels, desired.labels);
    AnnotationMerges(existing.annotations, desired.annotations, quantity);
  }

  /** Without a StatefulSet it is creating the desired one, whose claim template has the desired size. */
  lemma SyncedIsCreated(desired: Objects.Object, size: int, quantity: string -> Option<int>)
    requires Wants(desired, size, quantity)
    requires Objects.VolumeClaimTemplates in desired.fields
             && quantity(desired.fields[Objects.VolumeClaimTemplates]) == Some(size)
    ensures View(desired.(created := true), quantity) == Synced(None, size)
  {
    assert View(desired, quantity).labels == OPERATOR_LABELS;
  }

  /** The annotation asks for more than `size`. */
  predicate NeedsGrowth(a: Annotation, size: int) {
    a.Requested? && a.size > size
  }

  /** The resize controller has read the StatefulSet and listed the claims. */
  function Started(c: Cluster, listing: seq<Claim>): Cluster
    requires c.sts.Some?
  {
    c.(worker := Processing(c.sts.value.annotation, c.claims.Keys, listing, 0, false))
  }

  /** The resize controller has processed the next claim of its list. */
  function Processed(c: Cluster, ok: bool): Cluster
    requires c.worker.Processing? && c.worker.todo != []
  {
    var w := c.worker;
    var claim, rest := w.todo[0], w.(todo := w.todo[1..]);
    if w.annotation.Malformed? then c.(worker := rest.(errCount := w.errCount + 1))
    else if !NeedsGrowth(w.annotation, claim.size) then c.(worker := rest)
    else if ok then c.(claims := c.claims[claim.name := w.annotation.size], worker := rest.(needsRecreation := true))
    else c.(worker := rest.(errCount := w.errCount + 1))
  }

  /** Finishing now deletes the StatefulSet, which may already be gone. */
  predicate Deletes(c: Cluster, ok: bool) {
    && c.worker.Processing? && c.worker.errCount == 0 && c.worker.needsRecreation
    && ok && c.sts.Some?
  }

  /** The resize controller has ended its loop and, where that is due, called for the deletion. */
  function Finished(c: Cluster, ok: bool): Cluster {
    if Deletes(c, ok) then c.(sts := None, worker := Idle, deletions := c.deletions + 1)
    else c.(worker := Idle)
  }

  function Next(c: Cluster, s: Step): Cluster
    requires Enabled(c, s)
  {
    match s
    case Edit(size) => c.(desired := size)
    case Sync => c.(sts := Some(Synced(c.sts, c.desired)))
    case Provision(name) => c.(claims := c.claims[name := c.sts.value.claimTemplate])
    case Begin(listing) => Started(c, listing)
    case Process(ok) => Processed(c, ok)
    case Finish(ok) => Finished(c, ok)
    case Crash => c.(worker := Idle)
  }

  // ---------------------------------------------------------------- the invariant

  /** The resize controller is the only one to change claim sizes, so what it listed is still true of
      the claims it has not reached, and those it has passed without error are large enough. */
  ghost predicate Inv(c: Cluster) {
    c.worker.Processing? ==>
      var w := c.worker;
      && w.listed <= c.claims.Keys
      && (forall i | 0 <= i < |w.todo| :: w.todo[i].name in w.listed && c.claims[w.todo[i].name] == w.todo[i].size)
      && (forall i, j | 0 <= i < j < |w.todo| :: w.todo[i].name != w.todo[j].name)
      && (w.needsRecreation ==> w.annotation.Requested?)
      && (w.annotation.Requested? && w.errCount == 0 ==>
            forall n | n in w.listed && c.claims[n] < w.annotation.size :: Claim(n, c.claims[n]) in w.todo)
  }

  lemma BeginEstablishesInv(c: Cluster, listing: seq<Claim>)
    requires Enabled(c, Begin(listing))
    ensures Inv(Started(c, listing))
  {
    forall i | 0 <= i < |listing| ensures listing[i].name in c.claims {
      assert listing[i] in listing;
    }
  }

  lemma ProcessKeepsInv(c: Cluster, ok: bool)
    requires Inv(c) && c.worker.Processing? && c.worker.todo != []
    ensures Inv(Processed(c, ok))
  {
    var w, c' := c.worker, Processed(c, ok);
    var w' := c'.worker;
    var claim := w.todo[0];
    assert w.todo == [claim] + w'.todo;
    if w'.annotation.Requested? && w'.errCount == 0 {
      forall n | n in w'.listed && c'.claims[n] < w'.annotation.size ensures Claim(n, c'.claims[n]) in w'.todo {
        assert c'.claims[n] == c.claims[n];
        assert Claim(n, c.claims[n]) in w.todo;
      }
    }
  }

  lemma StepKeepsInv(c: Cluster, s: Step)
    requires Inv(c) && Enabled(c, s)
    ensures Inv(Next(c, s))
  {
    match s
    case Process(ok) => ProcessKeepsInv(c, ok);
    case Begin(listing) => BeginEstablishesInv(c, listing);
    case _ =>
  }

  // ---------------------------------------------------------------- runs

  ghost predicate StepAt(steps: seq<Step>, states: seq<Cluster>, i: nat)
    requires i < |steps| && |states| == |steps| + 1
  {
    Enabled(states[i], steps[i]) && states[i + 1] == Next(states[i], steps[i])
  }

  ghost predicate Run(steps: seq<Step>, states: seq<Cluster>) {
    && |states| == |steps| + 1
    && Inv(states[0])
    && forall i | 0 <= i < |steps| :: StepAt(steps, states, i)
  }

  lemma {:induction false} RunInv(steps: seq<Step>, states: seq<Cluster>, i: nat)
    requires Run(steps, states) && i <= |steps|
    ensures Inv(states[i])
  {
    if i == 0 {
    } else {
      RunInv(steps, states, i - 1);
      assert StepAt(steps, states, i - 1);
      StepKeepsInv(states[i - 1], steps[i - 1]);
    }
  }

  /** No claim is lost or smaller afterwards. */
  ghost predicate NoneShrinks(claims: map<string, int>, claims': map<string, int>) {
    forall n | n in claims :: n in claims' && claims[n] <= claims'[n]
  }

  lemma ProcessNeverShrinks(c: Cluster, ok: bool)
    requires Inv(c) && c.worker.Processing? && c.worker.todo != []
    ensures NoneShrinks(c.claims, Processed(c, ok).claims)
  {
  }

  lemma StepNeverShrinks(c: Cluster, s: Step)
    requires Inv(c) && Enabled(c, s)
    ensures NoneShrinks(c.claims, Next(c, s).claims)
  {
  }

  /** Over any run claims never shrink, whatever interleaves with the resize controller. */
  lemma {:induction false} ClaimsNeverShrink(steps: seq<Step>, states: seq<Cluster>, i: nat, j: nat)
    requires Run(steps, states) && i <= j <= |steps|
    ensures NoneShrinks(states[i].claims, states[j].claims)
    decreases j
  {
    if i == j {
    } else {
      ClaimsNeverShrink(steps, states, i, j - 1);
      RunInv(steps, states, j - 1);
      assert StepAt(steps, states, j - 1);
      StepNeverShrinks(states[j - 1], steps[j - 1]);
    }
  }

  lemma {:induction false} DeletionsGrow(steps: seq<Step>, states: seq<Cluster>, i: nat, j: nat)
    requires Run(steps, states) && i <= j <= |steps|
    ensures states[i].deletions <= states[j].deletions
    decreases j
  {
    if i == j {
    } else {
      DeletionsGrow(steps, states, i, j - 1);
      assert StepAt(steps, states, j - 1);
    }
  }

  /** A live StatefulSet stays live until a deletion is counted. */
  lemma {:induction false} StillLive(steps: seq<Step>, states: seq<Cluster>, i: nat, j: nat)
    requires Run(steps, states) && i <= j <= |steps|
    requires states[i].sts.Some? && states[i].deletions == states[j].deletions
    ensures states[j].sts.Some?
    decreases j
  {
    if i == j {
    } else {
      DeletionsGrow(steps, states, i, j - 1);
      DeletionsGrow(steps, states, j - 1, j);
      StillLive(steps, states, i, j - 1);
      assert StepAt(steps, states, j - 1);
    }
  }

  /** While a StatefulSet lives its claim template never changes; a new one is born with the desired size. */
  lemma {:induction false} TemplateNeverChanges(steps: seq<Step>, states: seq<Cluster>, i: nat, j: nat)
    requires Run(steps, states) && i <= j <= |steps|
    requires states[j].sts.Some? && states[i].sts.Some? && states[i].deletions == states[j].deletions
    ensures states[j].sts.value.claimTemplate == states[i].sts.value.claimTemplate
    decreases j
  {
    if i == j {
    } else {
      assert StepAt(steps, states, j - 1);
      DeletionsGrow(steps, states, i, j - 1);
      DeletionsGrow(steps, states, j - 1, j);
      StillLive(steps, states, i, j - 1);
      TemplateNeverChanges(steps, states, i, j - 1);
    }
  }

  /** The StatefulSet is deleted only when every claim the resize controller listed has reached the size
      that the annotation requested, and only after the controller grew one of them. */
  lemma DeletedOnlyWhenGrown(steps: seq<Step>, states: seq<Cluster>, i: nat)
    requires Run(steps, states) && i < |steps|
    requires states[i + 1].deletions != states[i].deletions
    ensures states[i].worker.Processing? && states[i].worker.annotation.Requested? && states[i].worker.needsRecreation
    ensures forall n | n in states[i].worker.listed ::
              n in states[i].claims && states[i].claims[n] >= states[i].worker.annotation.size
  {
    RunInv(steps, states, i);
    assert StepAt(steps, states, i);
  }

  /** A StatefulSet that does not carry both labels of the operator. */
  predicate IsForeign(sts: StatefulSet) {
    || Objects.ManagedByLabel !in sts.labels || sts.labels[Objects.ManagedByLabel] != "thanos-operator"
    || Objects.PartOfLabel !in sts.labels || sts.labels[Objects.PartOfLabel] != "thanos"
  }

  /** The resize controller leaves such a StatefulSet and its claims alone: until the operator takes it over, it is
      not deleted and no claim grows. */
  lemma {:induction false} ForeignIsLeftAlone(steps: seq<Step>, states: seq<Cluster>, i: nat, j: nat)
    requires Run(steps, states) && i <= j <= |steps|
    requires states[i].sts.Some? && IsForeign(states[i].sts.value) && states[i].worker.Idle?
    requires forall k | i <= k < j :: !steps[k].Sync?
    ensures states[j].sts == states[i].sts && states[j].deletions == states[i].deletions && states[j].worker.Idle?
    ensures forall n | n in states[i].claims :: n in states[j].claims && states[j].claims[n] == states[i].claims[n]
    decreases j
  {
    if i == j {
    } else {
      ForeignIsLeftAlone(steps, states, i, j - 1);
      assert StepAt(steps, states, j - 1) && !steps[j - 1].Sync?;
    }
  }

  // ---------------------------------------------------------------- how many deletions

  /** The population of claims and the requested size are fixed. */
  predicate Settled(s: Step) {
    !s.Edit? && !s.Provision?
  }

  /** Acting on this annotation for all claims would find one to grow. */
  predicate Due(claims: map<string, int>, a: Annotation) {
    exists n | n in claims :: NeedsGrowth(a, claims[n])
  }

  predicate BelowDesired(c: Cluster, a: Annotation) {
    a.Requested? && a.size < c.desired
  }

  /** One of these claims is still to grow. */
  predicate ListedDue(claims: map<string, int>, listed: set<string>, a: Annotation) {
    exists n | n in claims :: n in listed && NeedsGrowth(a, claims[n])
  }

  /** The resize controller has met no error, and has grown a claim or is going to. It knows the claims it
      has listed; others may have been provisioned since. */
  predicate WorkerDue(c: Cluster) {
    && c.worker.Processing? && c.worker.errCount == 0
    && (c.worker.needsRecreation || ListedDue(c.claims, c.worker.listed, c.worker.annotation))
  }

  /** Some claim is below the desired size and will be when the resize controller has done its work: it has
      not listed the claim, or works towards a size that is below the desired one, too. */
  predicate LeavesBelow(c: Cluster)
    requires c.worker.Processing?
  {
    exists n | n in c.claims ::
      c.claims[n] < c.desired && (n !in c.worker.listed || BelowDesired(c, c.worker.annotation))
  }

  /** A reconcile of the StatefulSet as it is would find a claim to grow. */
  predicate StatefulSetDue(c: Cluster) {
    c.sts.Some? && IsThanosOperatorStatefulSet(c.sts.value) && Due(c.claims, c.sts.value.annotation)
  }

  /** Some deletion can still happen. */
  predicate OneDue(c: Cluster) {
    WorkerDue(c) || StatefulSetDue(c) || Due(c.claims, Requested(c.desired))
  }

  /** Two can: after a deletion at the size the resize controller works towards, or at the one the
      StatefulSet is annotated with, some claim is left below the desired size. */
  predicate TwoDue(c: Cluster) {
    || (WorkerDue(c) && LeavesBelow(c))
    || (StatefulSetDue(c) && BelowDesired(c, c.sts.value.annotation))
  }

  /** The number of deletions that can still happen. */
  function Potential(c: Cluster): nat {
    if TwoDue(c) then 2 else if OneDue(c) then 1 else 0
  }

  lemma DueShrinks(claims: map<string, int>, claims': map<string, int>, a: Annotation)
    requires NoneShrinks(claims, claims') && claims'.Keys == claims.Keys
    ensures Due(claims', a) ==> Due(claims, a)
  {
  }

  lemma ProcessedDue(c: Cluster, ok: bool, a: Annotation)
    requires Inv(c) && c.worker.Processing? && c.worker.todo != []
    ensures Due(Processed(c, ok).claims, a) ==> Due(c.claims, a)
  {
    assert c.worker.todo[0].name in c.claims;
    ProcessNeverShrinks(c, ok);
    DueShrinks(c.claims, Processed(c, ok).claims, a);
  }

  lemma ProcessedWorkerDue(c: Cluster, ok: bool)
    requires Inv(c) && c.worker.Processing? && c.worker.todo != []
    ensures WorkerDue(Processed(c, ok)) ==> WorkerDue(c)
  {
    var claim := c.worker.todo[0];
    assert claim.name in c.claims && c.claims[claim.name] == claim.size;
    ProcessNeverShrinks(c, ok);
  }

  lemma ProcessedLeavesBelow(c: Cluster, ok: bool)
    requires Inv(c) && c.worker.Processing? && c.worker.todo != []
    ensures LeavesBelow(Processed(c, ok)) ==> LeavesBelow(c)
  {
    assert c.worker.todo[0].name in c.claims;
    ProcessNeverShrinks(c, ok);
  }

  lemma PotentialProcess(c: Cluster, ok: bool)
    requires Inv(c) && c.worker.Processing? && c.worker.todo != []
    ensures var c' := Processed(c, ok);
            Potential(c') <= Potential(c) && c'.deletions == c.deletions
  {
    ProcessedWorkerDue(c, ok);
    ProcessedLeavesBelow(c, ok);
    ProcessedDue(c, ok, Requested(c.desired));
    if c.sts.Some? {
      ProcessedDue(c, ok, c.sts.value.annotation);
    }
  }

  lemma PotentialFinish(c: Cluster, ok: bool)
    requires Inv(c) && c.worker.Processing? && c.worker.todo == []
    ensures var c' := Finished(c, ok);
            c'.deletions + Potential(c') <= c.deletions + Potential(c)
  {
    var c', w := Finished(c, ok), c.worker;
    if Deletes(c, ok) && Due(c'.claims, Requested(c'.desired)) {
      var n :| n in c'.claims && c'.claims[n] < c'.desired;
      assert n in w.listed ==> c.claims[n] >= w.annotation.size;
      assert LeavesBelow(c);
    }
  }

  lemma PotentialStep(c: Cluster, s: Step)
    requires Inv(c) && Enabled(c, s) && Settled(s)
    ensures var c' := Next(c, s);
            c'.deletions + Potential(c') <= c.deletions + Potential(c)
  {
    match s
    case Process(ok) => PotentialProcess(c, ok);
    case Finish(ok) => PotentialFinish(c, ok);
    case _ =>
  }

  ghost predicate SettledFrom(steps: seq<Step>, i: nat) {
    forall k | i <= k < |steps| :: Settled(steps[k])
  }

  /** From any state on, with the requested size and the claims fixed, the StatefulSet is deleted at most
      `Potential` times: at most twice, and at most once unless a claim is left behind on the way. */
  lemma {:induction false} DeletionsBounded(steps: seq<Step>, states: seq<Cluster>, i: nat, j: nat)
    requires Run(steps, states) && i <= j <= |steps|
    requires SettledFrom(steps, i)
    ensures states[j].deletions + Potential(states[j]) <= states[i].deletions + Potential(states[i])
    decreases j
  {
    if i == j {
    } else {
      DeletionsBounded(steps, states, i, j - 1);
      RunInv(steps, states, j - 1);
      assert StepAt(steps, states, j - 1) && Settled(steps[j - 1]);
      PotentialStep(states[j - 1], steps[j - 1]);
    }
  }

  /** When no deletion is due no later step deletes the StatefulSet, so a live one keeps its claim template for good. */
  lemma NothingLeftToDelete(steps: seq<Step>, states: seq<Cluster>, i: nat, j: nat)
    requires Run(steps, states) && i <= j <= |steps|
    requires SettledFrom(steps, i)
    requires !OneDue(states[i]) && states[i].sts.Some?
    ensures states[j].deletions == states[i].deletions
    ensures states[j].sts.Some? && states[j].sts.value.claimTemplate == states[i].sts.value.claimTemplate
  {
    DeletionsBounded(steps, states, i, j);
    DeletionsGrow(steps, states, i, j);
    StillLive(steps, states, i, j);
    TemplateNeverChanges(steps, states, i, j);
  }

  // ---------------------------------------------------------------- one undisturbed reconcile

  /** The rest of the loop, when `patched(n)` is the outcome of patching claim `n`. */
  function Work(c: Cluster, patched: string -> bool): Cluster
    requires c.worker.Processing?
    decreases |c.worker.todo|
  {
    if c.worker.todo == [] then c else Work(Processed(c, patched(c.worker.todo[0].name)), patched)
  }

  lemma WorkStep(c: Cluster, patched: string -> bool)
    requires c.worker.Processing? && c.worker.todo != []
    ensures Work(c, patched) == Work(Processed(c, patched(c.worker.todo[0].name)), patched)
  {
  }

  /** A whole reconcile with nothing in between. */
  function Reconciled(c: Cluster, listing: seq<Claim>, patched: string -> bool, deleted: bool): Cluster
    requires Enabled(c, Begin(listing))
  {
    Finished(Work(Started(c, listing), patched), deleted)
  }

  lemma {:induction false} WorkEnds(c: Cluster, patched: string -> bool)
    requires c.worker.Processing?
    ensures Work(c, patched).worker.Processing? && Work(c, patched).worker.todo == []
    decreases |c.worker.todo|
  {
    if c.worker.todo == [] {
    } else {
      WorkEnds(Processed(c, patched(c.worker.todo[0].name)), patched);
    }
  }

  /** The size of a claim after the loop. */
  function Grown(a: Annotation, claim: Claim, patched: string -> bool): int {
    if NeedsGrowth(a, claim.size) && patched(claim.name) then a.size else claim.size
  }

  predicate Fails(a: Annotation, claim: Claim, patched: string -> bool) {
    a.Malformed? || (NeedsGrowth(a, claim.size) && !patched(claim.name))
  }

  function PendingNames(todo: seq<Claim>): set<string> {
    if todo == [] then {} else {todo[0].name} + PendingNames(todo[1..])
  }

  /** The loop touches nothing but the claims of its list. */
  lemma {:induction false} WorkFrame(c: Cluster, patched: string -> bool)
    requires Inv(c) && c.worker.Processing?
    ensures var c' := Work(c, patched);
            && c' == c.(claims := c'.claims, worker := c'.worker)
            && c'.claims.Keys == c.claims.Keys
            && (forall n | n in c.claims && n !in PendingNames(c.worker.todo) :: c'.claims[n] == c.claims[n])
    decreases |c.worker.todo|
  {
    if c.worker.todo == [] {
    } else {
      var ok := patched(c.worker.todo[0].name);
      ProcessKeepsInv(c, ok);
      WorkFrame(Processed(c, ok), patched);
    }
  }

  lemma {:induction false} PendingMembers(todo: seq<Claim>)
    ensures forall n :: n in PendingNames(todo) <==> exists i :: 0 <= i < |todo| && todo[i].name == n
  {
    if todo == [] {
    } else {
      PendingMembers(todo[1..]);
      forall n ensures n in PendingNames(todo) <==> exists i :: 0 <= i < |todo| && todo[i].name == n {
        if n in PendingNames(todo[1..]) {
          var i :| 0 <= i < |todo[1..]| && todo[1..][i].name == n;
          assert todo[i + 1].name == n;
        }
      }
    }
  }

  lemma HeadIsDone(c: Cluster)
    requires Inv(c) && c.worker.Processing? && c.worker.todo != []
    ensures c.worker.todo[0].name in c.claims && c.worker.todo[0].name !in PendingNames(c.worker.todo[1..])
  {
    var todo := c.worker.todo;
    PendingMembers(todo[1..]);
    assert forall i | 0 <= i < |todo[1..]| :: todo[1..][i] == todo[i + 1];
  }

  lemma WorkHead(c: Cluster, patched: string -> bool)
    requires Inv(c) && c.worker.Processing? && c.worker.todo != []
    ensures var claim := c.worker.todo[0];
            && claim.name in c.claims && claim.name in Work(c, patched).claims
            && Work(c, patched).claims[claim.name] == Grown(c.worker.annotation, claim, patched)
  {
    var ok := patched(c.worker.todo[0].name);
    ProcessKeepsInv(c, ok);
    HeadIsDone(c);
    WorkFrame(Processed(c, ok), patched);
  }

  /** The work of the loop leaves each claim of its list grown or as it was. */
  lemma {:induction false} WorkClaim(c: Cluster, patched: string -> bool, k: nat)
    requires Inv(c) && c.worker.Processing? && k < |c.worker.todo|
    ensures var claim := c.worker.todo[k];
            && claim.name in c.claims && claim.name in Work(c, patched).claims
            && Work(c, patched).claims[claim.name] == Grown(c.worker.annotation, claim, patched)
    decreases |c.worker.todo|
  {
    if k == 0 {
      WorkHead(c, patched);
    } else {
      var ok := patched(c.worker.todo[0].name);
      ProcessKeepsInv(c, ok);
      assert c.worker.todo[1..][k - 1] == c.worker.todo[k];
      WorkStep(c, patched);
      WorkClaim(Processed(c, ok), patched, k - 1);
    }
  }

  /** What the loop does to its two flags. */
  lemma {:induction false} WorkFlags(c: Cluster, patched: string -> bool)
    requires c.worker.Processing?
    ensures var w, w' := c.worker, Work(c, patched).worker;
            && w'.Processing? && w'.annotation == w.annotation
            && (w'.errCount == 0 <==> w.errCount == 0 && forall x | x in w.todo :: !Fails(w.annotation, x, patched))
            && (w'.needsRecreation <==>
                  w.needsRecreation || exists x :: x in w.todo && NeedsGrowth(w.annotation, x.size) && patched(x.name))
    decreases |c.worker.todo|
  {
    var w := c.worker;
    if w.todo == [] {
    } else {
      var first, rest := w.todo[0], w.todo[1..];
      assert w.todo == [first] + rest;
      assert first in w.todo;
      WorkFlags(Processed(c, patched(first.name)), patched);
      assert (forall x | x in w.todo :: !Fails(w.annotation, x, patched))
        <==> !Fails(w.annotation, first, patched) && forall x | x in rest :: !Fails(w.annotation, x, patched);
    }
  }

  /** The claims after the loop: grown where the annotation asks for more and the patch succeeds. */
  lemma LoopClaims(c: Cluster, listing: seq<Claim>, patched: string -> bool)
    requires Enabled(c, Begin(listing))
    ensures var c1 := Work(Started(c, listing), patched);
            && c1 == c.(claims := c1.claims, worker := c1.worker)
            && c1.claims.Keys == c.claims.Keys
            && (forall n | n in c.claims ::
                 c1.claims[n] == Grown(c.sts.value.annotation, Claim(n, c.claims[n]), patched))
  {
    var c0 := Started(c, listing);
    BeginEstablishesInv(c, listing);
    WorkFrame(c0, patched);
    var c1 := Work(c0, patched);
    forall n | n in c.claims ensures c1.claims[n] == Grown(c.sts.value.annotation, Claim(n, c.claims[n]), patched) {
      var k :| 0 <= k < |listing| && listing[k] == Claim(n, c.claims[n]);
      WorkClaim(c0, patched, k);
    }
  }

  /** A reconcile deletes the StatefulSet exactly when nothing failed, some claim was grown, and the
      deletion itself succeeds. */
  predicate DeletesAfter(c: Cluster, a: Annotation, patched: string -> bool, deleted: bool) {
    && deleted
    && (forall n | n in c.claims :: !Fails(a, Claim(n, c.claims[n]), patched))
    && (exists n | n in c.claims :: NeedsGrowth(a, c.claims[n]) && patched(n))
  }

  lemma LoopOutcome(c: Cluster, listing: seq<Claim>, patched: string -> bool)
    requires Enabled(c, Begin(listing))
    ensures var a, w := c.sts.value.annotation, Work(Started(c, listing), patched).worker;
            && w.Processing?
            && (w.errCount == 0 <==> forall n | n in c.claims :: !Fails(a, Claim(n, c.claims[n]), patched))
            && (w.needsRecreation <==> exists n | n in c.claims :: NeedsGrowth(a, c.claims[n]) && patched(n))
  {
    var c0, a := Started(c, listing), c.sts.value.annotation;
    BeginEstablishesInv(c, listing);
    WorkEnds(c0, patched);
    WorkFlags(c0, patched);
    forall x | x in listing ensures x.name in c.claims && c.claims[x.name] == x.size {
      var i :| 0 <= i < |listing| && listing[i] == x;
    }
    forall n | n in c.claims ensures Claim(n, c.claims[n]) in listing {}
    var w := Work(c0, patched).worker;
    if w.needsRecreation {
      var x :| x in listing && NeedsGrowth(a, x.size) && patched(x.name);
      assert x.name in c.claims;
    }
    if n :| n in c.claims && NeedsGrowth(a, c.claims[n]) && patched(n) {
      assert Claim(n, c.claims[n]) in listing;
    }
    if w.errCount == 0 {
      forall n | n in c.claims ensures !Fails(a, Claim(n, c.claims[n]), patched) {
        assert Claim(n, c.claims[n]) in listing;
      }
    }
  }

  /** What one undisturbed reconcile does, seen from outside: claims grow where the annotation asks for
      more and the patch succeeds, and the StatefulSet goes exactly when `DeletesAfter` says so. */
  lemma ReconcileMeaning(c: Cluster, listing: seq<Claim>, patched: string -> bool, deleted: bool)
    requires Enabled(c, Begin(listing))
    ensures var c' := Reconciled(c, listing, patched, deleted);
            && c'.worker.Idle? && c'.desired == c.desired
            && c'.claims.Keys == c.claims.Keys
            && (forall n | n in c.claims ::
                 c'.claims[n] == Grown(c.sts.value.annotation, Claim(n, c.claims[n]), patched))
            && (if DeletesAfter(c, c.sts.value.annotation, patched, deleted)
                then c'.sts == None && c'.deletions == c.deletions + 1
                else c'.sts == c.sts && c'.deletions == c.deletions)
  {
    LoopClaims(c, listing, patched);
    LoopOutcome(c, listing, patched);
  }

  /** Convergence: if no call fails, syncing, reconciling and syncing again leaves claims at least as
      large as desired and, if any had to grow, a StatefulSet born with the desired claim template. */
  lemma ResizeConverges(c: Cluster, listing: seq<Claim>)
    requires c.worker.Idle? && IsListing(listing, c.claims)
    ensures var c1 := Next(c, Sync);
            && Enabled(c1, Begin(listing))
            && var c2 := Reconciled(c1, listing, _ => true, true);
               var c3 := Next(c2, Sync);
               && c3.claims.Keys == c.claims.Keys
               && (forall n | n in c.claims ::
                    c3.claims[n] == if c.claims[n] < c.desired then c.desired else c.claims[n])
               && c3.sts.Some? && c3.sts.value.annotation == Requested(c.desired)
               && ((exists n | n in c.claims :: c.claims[n] < c.desired) ==> c3.sts.value.claimTemplate == c.desired)
               && ((forall n | n in c.claims :: c.claims[n] >= c.desired) ==>
                    c3.sts.value.claimTemplate == c1.sts.value.claimTemplate)
  {
    var c1 := Next(c, Sync);
    var always: string -> bool := _ => true;
    ReconcileMeaning(c1, listing, always, true);
  }

  lemma RunCons(c: Cluster, s: Step, laterSteps: seq<Step>, laterStates: seq<Cluster>)
    returns (steps: seq<Step>, states: seq<Cluster>)
    requires Inv(c) && Enabled(c, s) && Run(laterSteps, laterStates) && laterStates[0] == Next(c, s)
    ensures Run(steps, states) && states[0] == c
    ensures steps == [s] + laterSteps && states[|steps|] == laterStates[|laterSteps|]
  {
    steps, states := [s] + laterSteps, [c] + laterStates;
    forall i | 0 <= i < |steps| ensures StepAt(steps, states, i) {
      assert i > 0 ==> StepAt(laterSteps, laterStates, i - 1);
    }
  }

  lemma {:induction false} WorkIsRun(c: Cluster, patched: string -> bool)
    returns (steps: seq<Step>, states: seq<Cluster>)
    requires Inv(c) && c.worker.Processing?
    ensures Run(steps, states) && states[0] == c && states[|steps|] == Work(c, patched) && SettledFrom(steps, 0)
    decreases |c.worker.todo|
  {
    if c.worker.todo == [] {
      steps, states := [], [c];
    } else {
      var ok := patched(c.worker.todo[0].name);
      ProcessKeepsInv(c, ok);
      var laterSteps, laterStates := WorkIsRun(Processed(c, ok), patched);
      steps, states := RunCons(c, Process(ok), laterSteps, laterStates);
    }
  }

  lemma RunSnoc(earlierSteps: seq<Step>, earlierStates: seq<Cluster>, s: Step)
    returns (steps: seq<Step>, states: seq<Cluster>)
    requires Run(earlierSteps, earlierStates) && Enabled(earlierStates[|earlierSteps|], s)
    ensures Run(steps, states) && states[0] == earlierStates[0]
    ensures steps == earlierSteps + [s] && states[|steps|] == Next(earlierStates[|earlierSteps|], s)
  {
    steps, states := earlierSteps + [s], earlierStates + [Next(earlierStates[|earlierSteps|], s)];
    forall i | 0 <= i < |steps| ensures StepAt(steps, states, i) {
      assert i < |earlierSteps| ==> StepAt(earlierSteps, earlierStates, i);
    }
  }

  /** An undisturbed reconcile is one of the protocol's runs, so what holds of every run holds of it. */
  lemma ReconcileIsRun(c: Cluster, listing: seq<Claim>, patched: string -> bool, deleted: bool)
    returns (steps: seq<Step>, states: seq<Cluster>)
    requires Enabled(c, Begin(listing))
    ensures Run(steps, states) && states[0] == c && states[|steps|] == Reconciled(c, listing, patched, deleted)
    ensures SettledFrom(steps, 0)
  {
    BeginEstablishesInv(c, listing);
    WorkEnds(Started(c, listing), patched);
    steps, states := WorkIsRun(Started(c, listing), patched);
    steps, states := RunCons(c, Begin(listing), steps, states);
    steps, states := RunSnoc(steps, states, Finish(deleted));
  }

  lemma RunConcat(steps: seq<Step>, states: seq<Cluster>, laterSteps: seq<Step>, laterStates: seq<Cluster>)
    requires Run(steps, states) && Run(laterSteps, laterStates) && states[|steps|] == laterStates[0]
    requires SettledFrom(steps, 0) && SettledFrom(laterSteps, 0)
    ensures Run(steps + laterSteps, states + laterStates[1..]) && SettledFrom(steps + laterSteps, 0)
    ensures (states + laterStates[1..])[|steps + laterSteps|] == laterStates[|laterSteps|]
  {
    var allSteps, allStates := steps + laterSteps, states + laterStates[1..];
    forall i | 0 <= i < |allSteps| ensures StepAt(allSteps, allStates, i) && Settled(allSteps[i]) {
      if i < |steps| {
        assert StepAt(steps, states, i) && Settled(steps[i]);
      } else {
        assert StepAt(laterSteps, laterStates, i - |steps|) && Settled(laterSteps[i - |steps|]);
      }
    }
  }

  lemma ListingSnoc(claims: map<string, int>, rest: seq<Claim>, n: string)
    requires n in claims && IsListing(rest, claims - {n})
    ensures IsListing(rest + [Claim(n, claims[n])], claims)
  {
    var listing, others := rest + [Claim(n, claims[n])], claims - {n};
    forall i | 0 <= i < |rest|
      ensures rest[i].name in claims && rest[i].name != n && claims[rest[i].name] == rest[i].size
    {
      assert rest[i].name in others;
    }
    forall m | m in claims ensures Claim(m, claims[m]) in listing {
      assert m != n ==> Claim(m, others[m]) in rest;
    }
  }

  lemma {:induction false} ListingExists(claims: map<string, int>) returns (listing: seq<Claim>)
    ensures IsListing(listing, claims)
    decreases |claims|
  {
    if claims == map[] {
      listing := [];
    } else {
      var n :| n in claims;
      var rest := ListingExists(claims - {n});
      ListingSnoc(claims, rest, n);
      listing := rest + [Claim(n, claims[n])];
    }
  }

  /** `steps` with these states is a run from `c`, with the requested size and the claims fixed, in which
      the StatefulSet is deleted `n` times or more. */
  ghost predicate DeletesAgain(c: Cluster, n: nat, steps: seq<Step>, states: seq<Cluster>) {
    Run(steps, states) && states[0] == c && SettledFrom(steps, 0) && states[|steps|].deletions >= c.deletions + n
  }

  /** Between the two states lies a run. */
  ghost predicate Reaches(c: Cluster, c': Cluster) {
    exists steps, states :: Run(steps, states) && SettledFrom(steps, 0) && states[0] == c && states[|steps|] == c'
  }

  lemma ReachesOneStep(c: Cluster, s: Step)
    requires Inv(c) && Enabled(c, s) && Settled(s)
    ensures Reaches(c, Next(c, s))
  {
    var steps, states := [s], [c, Next(c, s)];
    assert StepAt(steps, states, 0);
    assert Run(steps, states) && SettledFrom(steps, 0);
  }

  lemma ReachesTransitive(c: Cluster, d: Cluster, e: Cluster)
    requires Reaches(c, d) && Reaches(d, e)
    ensures Reaches(c, e)
  {
    var steps, states :| Run(steps, states) && SettledFrom(steps, 0) && states[0] == c && states[|steps|] == d;
    var laterSteps, laterStates :|
      Run(laterSteps, laterStates) && SettledFrom(laterSteps, 0) && laterStates[0] == d
        && laterStates[|laterSteps|] == e;
    RunConcat(steps, states, laterSteps, laterStates);
    assert Run(steps + laterSteps, states + laterStates[1..]);
  }

  lemma ReachedInv(c: Cluster, d: Cluster)
    requires Reaches(c, d)
    ensures Inv(d)
  {
    var steps, states :| Run(steps, states) && SettledFrom(steps, 0) && states[0] == c && states[|steps|] == d;
    RunInv(steps, states, |steps|);
  }

  /** The listed claims below the annotated size have grown to it. */
  ghost predicate IsGrown(claims: map<string, int>, listed: set<string>, a: Annotation, claims': map<string, int>) {
    && claims'.Keys == claims.Keys
    && forall n | n in claims :: claims'[n] == if n in listed && NeedsGrowth(a, claims[n]) then a.size else claims[n]
  }

  /** An undisturbed, fault-free reconcile of a StatefulSet that is due deletes it and leaves no claim below
      the annotated size and the others as they were. */
  lemma DueReconcile(c: Cluster) returns (c': Cluster)
    requires c.worker.Idle? && StatefulSetDue(c)
    ensures Reaches(c, c')
    ensures c'.worker.Idle? && c'.sts == None && c'.desired == c.desired && c'.deletions == c.deletions + 1
    ensures IsGrown(c.claims, c.claims.Keys, c.sts.value.annotation, c'.claims)
  {
    var listing := ListingExists(c.claims);
    var always: string -> bool := _ => true;
    var steps, states := ReconcileIsRun(c, listing, always, true);
    c' := Reconciled(c, listing, always, true);
    assert Run(steps, states);
    ReconcileMeaning(c, listing, always, true);
  }

  lemma WorkerClaim(c: Cluster, n: string)
    requires Inv(c) && WorkerDue(c) && n in c.claims
    ensures n in Work(c, _ => true).claims
    ensures Work(c, _ => true).claims[n] ==
            if n in c.worker.listed && NeedsGrowth(c.worker.annotation, c.claims[n])
              then c.worker.annotation.size else c.claims[n]
  {
    var always: string -> bool := _ => true;
    var todo := c.worker.todo;
    PendingMembers(todo);
    WorkFrame(c, always);
    if n in PendingNames(todo) {
      var k :| 0 <= k < |todo| && todo[k].name == n;
      WorkClaim(c, always, k);
    } else {
      forall i | 0 <= i < |todo| ensures todo[i] != Claim(n, c.claims[n]) {}
      assert Claim(n, c.claims[n]) !in todo;
    }
  }

  /** The rest of a reconcile that has met no error, if it meets none: it deletes the StatefulSet. */
  lemma DueWorker(c: Cluster) returns (c': Cluster)
    requires Inv(c) && WorkerDue(c) && c.sts.Some?
    ensures Reaches(c, c')
    ensures c'.worker.Idle? && c'.sts == None && c'.desired == c.desired && c'.deletions == c.deletions + 1
    ensures IsGrown(c.claims, c.worker.listed, c.worker.annotation, c'.claims)
  {
    var always: string -> bool := _ => true;
    var c1 := Work(c, always);
    var steps, states := WorkIsRun(c, always);
    assert Run(steps, states);
    WorkEnds(c, always);
    WorkFrame(c, always);
    WorkFlags(c, always);
    forall n | n in c.claims
      ensures c1.claims[n] ==
              if n in c.worker.listed && NeedsGrowth(c.worker.annotation, c.claims[n])
                then c.worker.annotation.size else c.claims[n]
    {
      WorkerClaim(c, n);
    }
    if n :| n in c.claims && n in c.worker.listed && NeedsGrowth(c.worker.annotation, c.claims[n]) {
      assert Claim(n, c.claims[n]) in c.worker.todo;
    }
    ReachedInv(c, c1);
    ReachesOneStep(c1, Finish(true));
    ReachesTransitive(c, c1, Finished(c1, true));
    c' := Finished(c1, true);
  }

  /** A claim that is not listed, or grows to a smaller size, is left to grow to a larger one. */
  lemma StillDue(claims: map<string, int>, listed: set<string>, a: Annotation, claims': map<string, int>, n: string,
                 larger: int)
    requires IsGrown(claims, listed, a, claims') && n in claims && claims[n] < larger
    requires n in listed ==> a.Requested? && a.size < larger
    ensures Due(claims', Requested(larger))
  {
    assert claims'[n] < larger;
  }

  /** From an idle state whose claims are below the desired size, a synchronisation and a reconcile delete the
      StatefulSet. */
  lemma SyncThenDelete(c: Cluster) returns (c': Cluster)
    requires c.worker.Idle? && Due(c.claims, Requested(c.desired))
    ensures Reaches(c, c') && c'.deletions == c.deletions + 1
  {
    var c1 := Next(c, Sync);
    ReachesOneStep(c, Sync);
    assert StatefulSetDue(c1);
    c' := DueReconcile(c1);
    ReachesTransitive(c, c1, c');
  }

  /** A deletion at the size worked towards, and if some claim is left below the desired one, another. */
  lemma WorkerDeletes(c: Cluster) returns (c': Cluster)
    requires Inv(c) && WorkerDue(c)
    ensures Reaches(c, c')
    ensures c'.deletions >= c.deletions + if LeavesBelow(c) then 2 else 1
  {
    var c1 := Next(c, Sync);
    ReachesOneStep(c, Sync);
    StepKeepsInv(c, Sync);
    var c2 := DueWorker(c1);
    ReachesTransitive(c, c1, c2);
    c' := c2;
    if LeavesBelow(c) {
      var below := BelowDesired(c, c.worker.annotation);
      var n :| n in c.claims && c.claims[n] < c.desired && (n !in c.worker.listed || below);
      StillDue(c.claims, c.worker.listed, c.worker.annotation, c2.claims, n, c.desired);
      c' := SyncThenDelete(c2);
      ReachesTransitive(c, c2, c');
    }
  }

  lemma StatefulSetDeletes(c: Cluster) returns (c': Cluster)
    requires Inv(c) && StatefulSetDue(c)
    ensures Reaches(c, c')
    ensures c'.deletions >= c.deletions + if BelowDesired(c, c.sts.value.annotation) then 2 else 1
  {
    var c1, a := Next(c, Crash), c.sts.value.annotation;
    ReachesOneStep(c, Crash);
    var c2 := DueReconcile(c1);
    ReachesTransitive(c, c1, c2);
    c' := c2;
    if BelowDesired(c, a) {
      var n :| n in c.claims && NeedsGrowth(a, c.claims[n]);
      StillDue(c.claims, c.claims.Keys, a, c2.claims, n, c.desired);
      c' := SyncThenDelete(c2);
      ReachesTransitive(c, c2, c');
    }
  }

  /** The bound is reached: from every state some run deletes the StatefulSet `Potential` times. */
  lemma PotentialIsReached(c: Cluster) returns (c': Cluster)
    requires Inv(c)
    ensures Reaches(c, c') && c'.deletions >= c.deletions + Potential(c)
  {
    c' := Next(c, Crash);
    ReachesOneStep(c, Crash);
    if WorkerDue(c) && (TwoDue(c) ==> LeavesBelow(c)) {
      c' := WorkerDeletes(c);
    } else if StatefulSetDue(c) {
      c' := StatefulSetDeletes(c);
    } else if Due(c.claims, Requested(c.desired)) {
      var c1 := c';
      c' := SyncThenDelete(c1);
      ReachesTransitive(c, c1, c');
    }
  }

  /** Exactly: `n` more deletions are possible, with the requested size and the claims fixed, just when the
      potential is that high. */
  lemma DeletionsExactlyWhen(c: Cluster, n: nat)
    requires Inv(c)
    ensures n <= Potential(c) <==> exists steps, states :: DeletesAgain(c, n, steps, states)
  {
    if n <= Potential(c) {
      var c' := PotentialIsReached(c);
      var steps, states :| Run(steps, states) && SettledFrom(steps, 0) && states[0] == c && states[|steps|] == c';
      assert DeletesAgain(c, n, steps, states);
    }
    if steps, states :| DeletesAgain(c, n, steps, states) {
      DeletionsBounded(steps, states, 0, |steps|);
    }
  }

  /** More than one deletion is possible exactly when the first leaves some claim below the desired size: the
      StatefulSet is annotated with a smaller one that some claim has not reached, or a reconcile is under
      way that has met no error, has grown a claim or is going to, and works towards a smaller size or has
      not listed the claim. */
  lemma TwoDeletionsExactlyWhen(c: Cluster)
    requires Inv(c)
    ensures TwoDue(c) <==> exists steps, states :: DeletesAgain(c, 2, steps, states)
  {
    DeletionsExactlyWhen(c, 2);
  }

  lemma TwoDueIsDue(c: Cluster)
    ensures TwoDue(c) ==> OneDue(c)
  {
  }

  /** Any deletion is possible exactly when one is due. */
  lemma OneDeletionExactlyWhen(c: Cluster)
    requires Inv(c)
    ensures OneDue(c) <==> exists steps, states :: DeletesAgain(c, 1, steps, states)
  {
    DeletionsExactlyWhen(c, 1);
    TwoDueIsDue(c);
  }

  /** After a failed deletion a later one is possible exactly when the StatefulSet is annotated with, or its
      owner wants, a size above that of some claim; the failure itself is no reason to try again. */
  lemma DeletionRetriedExactlyWhen(c: Cluster)
    requires Inv(c) && Enabled(c, Finish(false)) && Deletes(c, true)
    ensures var c' := Next(c, Finish(false));
            && c' == c.(worker := Idle)
            && ((exists steps, states :: DeletesAgain(c', 1, steps, states))
                <==> StatefulSetDue(c) || Due(c.claims, Requested(c.desired)))
  {
    OneDeletionExactlyWhen(Next(c, Finish(false)));
  }

  /** After a failed deletion none follows while the size stays as it was read and no smaller claim has come
      since: the claims have grown to it, and the StatefulSet keeps its old claim template in every later state. */
  lemma FailedDeletionIsForgotten(steps: seq<Step>, states: seq<Cluster>, i: nat, j: nat)
    requires Run(steps, states) && i < j <= |steps|
    requires SettledFrom(steps, i)
    requires steps[i] == Finish(false) && Deletes(states[i], true)
    requires states[i].worker.annotation == states[i].sts.value.annotation == Requested(states[i].desired)
    requires forall n | n in states[i].claims && n !in states[i].worker.listed ::
             states[i].claims[n] >= states[i].desired
    ensures states[j].sts.Some?
    ensures states[j].sts.value.claimTemplate == states[i].sts.value.claimTemplate
    ensures states[j].deletions == states[i].deletions
  {
    RunInv(steps, states, i);
    assert StepAt(steps, states, i);
    var w, c' := states[i].worker, states[i + 1];
    assert !Due(c'.claims, Requested(c'.desired)) by {
      forall n | n in c'.claims ensures c'.claims[n] >= c'.desired {
        assert n in w.listed ==> c'.claims[n] >= w.annotation.size;
      }
    }
    NothingLeftToDelete(steps, states, i + 1, j);
  }

  // ---------------------------------------------------------------- runs from an empty cluster

  /** Before anything has been created, with a requested size of one. */
  const NOTHING := Cluster(map[], None, 1, Idle, 0)

  ghost predicate Reachable(c: Cluster) {
    exists steps, states :: Run(steps, states) && states[0] == NOTHING && states[|steps|] == c
  }

  lemma NothingIsReachable()
    ensures Reachable(NOTHING)
  {
    var steps: seq<Step>, states := [], [NOTHING];
    assert Run(steps, states);
  }

  lemma ReachableStep(c: Cluster, s: Step)
    requires Reachable(c) && Enabled(c, s)
    ensures Reachable(Next(c, s))
  {
    var earlierSteps, earlierStates :|
      Run(earlierSteps, earlierStates) && earlierStates[0] == NOTHING && earlierStates[|earlierSteps|] == c;
    var steps, states := RunSnoc(earlierSteps, earlierStates, s);
  }

  lemma ReachableInv(c: Cluster)
    requires Reachable(c)
    ensures Inv(c)
  {
    var steps, states :| Run(steps, states) && states[0] == NOTHING && states[|steps|] == c;
    RunInv(steps, states, |steps|);
  }

  /** A StatefulSet made for claims of size one. */
  function MadeForOne(claims: map<string, int>, annotated: int, desired: int, worker: Worker): Cluster {
    Cluster(claims, Some(StatefulSet(OPERATOR_LABELS, Requested(annotated), 1)), desired, worker, 0)
  }

  lemma SyncMade(claims: map<string, int>, annotated: int, desired: int, worker: Worker)
    ensures Next(MadeForOne(claims, annotated, desired, worker), Sync) == MadeForOne(claims, desired, desired, worker)
  {
    assert OPERATOR_LABELS + OPERATOR_LABELS == OPERATOR_LABELS;
  }

  /** A claim of size one, and the size requested for it raised to two. */
  lemma RaisedToTwo() returns (c: Cluster)
    ensures Reachable(c) && c == MadeForOne(map["a" := 1], 2, 2, Idle)
  {
    var c1 := Next(NOTHING, Sync);
    var c2 := Next(c1, Provision("a"));
    var c3 := Next(c2, Edit(2));
    NothingIsReachable();
    ReachableStep(NOTHING, Sync);
    ReachableStep(c1, Provision("a"));
    ReachableStep(c2, Edit(2));
    ReachableStep(c3, Sync);
    assert c2.claims == map["a" := 1];
    assert c3 == MadeForOne(map["a" := 1], 1, 2, Idle);
    SyncMade(map["a" := 1], 1, 2, Idle);
    c := Next(c3, Sync);
  }

  lemma OnlyClaim(n: string, size: int)
    ensures IsListing([Claim(n, size)], map[n := size]) && map[n := size].Keys == {n}
  {
    assert [Claim(n, size)][0] == Claim(n, size);
  }

  /** The resize controller has begun to raise the claim to two. */
  lemma RaisingToTwo() returns (c: Cluster)
    ensures Reachable(c)
    ensures c == MadeForOne(map["a" := 1], 2, 2, Processing(Requested(2), {"a"}, [Claim("a", 1)], 0, false))
  {
    var c0 := RaisedToTwo();
    OnlyClaim("a", 1);
    ReachableStep(c0, Begin([Claim("a", 1)]));
    c := Next(c0, Begin([Claim("a", 1)]));
  }

  /** One deletion is not the limit: when the size is raised again before the first resize, the StatefulSet
      can be deleted at either size. */
  lemma DeletedAtTwoSizes() returns (c: Cluster)
    ensures Reachable(c) && c.worker.Idle?
    ensures exists steps, states :: DeletesAgain(c, 2, steps, states)
  {
    var c0 := RaisedToTwo();
    ReachableStep(c0, Edit(3));
    c := Next(c0, Edit(3));
    ReachableInv(c);
    assert "a" in c.claims && c.claims["a"] == 1;
    assert StatefulSetDue(c) && BelowDesired(c, c.sts.value.annotation);
    TwoDeletionsExactlyWhen(c);
  }

  /** Nor is it when there is one size alone: a claim provisioned while the resize controller works, from the
      template that is still the old one, is left behind. */
  lemma DeletedTwiceAtOneSize() returns (c: Cluster)
    ensures Reachable(c) && c.worker.Processing? && c.sts.Some?
    ensures c.worker.annotation == c.sts.value.annotation == Requested(c.desired)
    ensures exists steps, states :: DeletesAgain(c, 2, steps, states)
  {
    var c0 := RaisingToTwo();
    ReachableStep(c0, Provision("b"));
    c := Next(c0, Provision("b"));
    ReachableInv(c);
    assert "a" in c.claims && c.claims["a"] == 1 && "a" in c.worker.listed;
    assert "b" in c.claims && c.claims["b"] == 1 && "b" !in c.worker.listed;
    assert WorkerDue(c) && LeavesBelow(c);
    TwoDeletionsExactlyWhen(c);
  }

  /** A failed deletion that is never made up for: the claim has the desired size, and the StatefulSet keeps
      the smaller template. */
  lemma FailedDeletionIsNotRetried() returns (c: Cluster)
    ensures Reachable(c) && Enabled(c, Finish(false)) && Deletes(c, true)
    ensures var c' := Next(c, Finish(false));
            && Reachable(c') && c'.sts.Some? && c'.sts.value.claimTemplate < c'.desired
            && !exists steps, states :: DeletesAgain(c', 1, steps, states)
  {
    var c0 := RaisingToTwo();
    ReachableStep(c0, Process(true));
    c := Next(c0, Process(true));
    ReachableStep(c, Finish(false));
    ReachableInv(c);
    assert c.claims == map["a" := 2];
    DeletionRetriedExactlyWhen(c);
  }

  // ---------------------------------------------------------------- the controller

  /** The protocol state when the loop is about to process claim `i` of its list. */
  ghost function InLoop(c: Cluster, a: Annotation, claims: map<string, int>, listing: seq<Claim>, i: nat,
                        errCount: nat, needsRecreation: bool): Cluster
    requires i <= |listing|
  {
    c.(claims := claims,
       worker := Processing(a, c.claims.Keys, listing[i..], errCount, needsRecreation))
  }

  /** The resize controller, with what it sees of the cluster. */
  class VolumeResizeReconciler {
    var claims: map<string, int>
    var sts: Option<StatefulSet>
    var deletions: nat

    /** The patch of one claim; it fails when the server says so. */
    method PatchClaim(name: string, size: int, ok: bool)
      modifies this`claims
      ensures claims == if ok then old(claims)[name := size] else old(claims)
    {
      if ok {
        claims := claims[name := size];
      }
    }

    method ProcessPVC(claim: Claim, a: Annotation, ok: bool) returns (grown: bool, err: bool)
      modifies this`claims
      ensures err == (a.Malformed? || (NeedsGrowth(a, claim.size) && !ok))
      ensures grown == (NeedsGrowth(a, claim.size) && ok)
      ensures claims == if grown then old(claims)[claim.name := a.size] else old(claims)
    {
      if a.Missing? {
        return false, false;
      }
      if a.Malformed? {
        return false, true;
      }
      if a.size <= claim.size {
        return false, false;
      }
      PatchClaim(claim.name, a.size, ok);
      if !ok {
        return false, true;
      }
      return true, false;
    }

    method OrphanAndDeleteStatefulSet(ok: bool) returns (err: bool)
      modifies this`sts, this`deletions
      ensures err <==> !ok && old(sts).Some?
      ensures sts == if ok then None else old(sts)
      ensures deletions == old(deletions) + if ok && old(sts).Some? then 1 else 0
    {
      if sts.None? {
        return false;
      }
      if !ok {
        return true;
      }
      sts := None;
      deletions := deletions + 1;
      err := false;
    }

    /** One turn of the loop over the listed claims. */
    method ProcessNext(listing: seq<Claim>, i: nat, patched: string -> bool, a: Annotation, errCount: nat,
                       needsRecreation: bool, ghost c: Cluster)
      returns (errCount': nat, needsRecreation': bool)
      requires i < |listing|
      modifies this`claims
      ensures InLoop(c, a, claims, listing, i + 1, errCount', needsRecreation')
           == Processed(InLoop(c, a, old(claims), listing, i, errCount, needsRecreation), patched(listing[i].name))
    {
      errCount', needsRecreation' := errCount, needsRecreation;
      var ok, failed := ProcessPVC(listing[i], a, patched(listing[i].name));
      assert listing[i..][1..] == listing[i + 1..];
      if failed {
        errCount' := errCount + 1;
      } else if !needsRecreation && ok {
        needsRecreation' := true;
      }
    }

    /** The loop over the listed claims. */
    method ProcessAll(listing: seq<Claim>, patched: string -> bool, ghost c: Cluster)
      returns (errCount: nat, needsRecreation: bool)
      requires c.claims == claims && c.sts == sts && Enabled(c, Begin(listing))
      modifies this`claims
      ensures var c1 := Work(Started(c, listing), patched);
              c1.worker.Processing? && claims == c1.claims && errCount == c1.worker.errCount
                && needsRecreation == c1.worker.needsRecreation
    {
      var a := sts.value.annotation;
      errCount, needsRecreation := 0, false;
      ghost var end := Work(Started(c, listing), patched);
      assert listing[0..] == listing;
      for i := 0 to |listing|
        invariant Work(InLoop(c, a, claims, listing, i, errCount, needsRecreation), patched) == end
      {
        WorkStep(InLoop(c, a, claims, listing, i, errCount, needsRecreation), patched);
        errCount, needsRecreation := ProcessNext(listing, i, patched, a, errCount, needsRecreation, c);
      }
    }

    /** `processPVCs` after a successful list call, with `patched` and `deleted` as the outcomes of the
        later calls. It is one run of the protocol's steps. */
    method ProcessPVCs(listing: seq<Claim>, patched: string -> bool, deleted: bool, ghost c: Cluster)
      returns (err: bool)
      requires c.claims == claims && c.sts == sts && c.deletions == deletions
      requires Enabled(c, Begin(listing))
      modifies this
      ensures var c' := Reconciled(c, listing, patched, deleted);
              claims == c'.claims && sts == c'.sts && deletions == c'.deletions
      ensures err <==> (exists n | n in c.claims :: Fails(c.sts.value.annotation, Claim(n, c.claims[n]), patched))
                       || (!deleted && DeletesAfter(c, c.sts.value.annotation, patched, true))
    {
      LoopOutcome(c, listing, patched);
      LoopClaims(c, listing, patched);
      WorkEnds(Started(c, listing), patched);
      var errCount, needsRecreation := ProcessAll(listing, patched, c);
      if errCount > 0 {
        return true;
      }
      err := false;
      if needsRecreation {
        err := OrphanAndDeleteStatefulSet(deleted);
      }
    }
  }
}
