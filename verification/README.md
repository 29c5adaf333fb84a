# Verified model of the Thanos operator's reconciliation algorithms

The Thanos operator turns custom resources into Kubernetes objects. Most of it assembles manifests; this
project models the parts that are algorithms or protocols and proves what they promise. `dafny verify
dfyconfig.toml` checks everything.

| file | modules | part of the operator |
|---|---|---|
| `Basics.dfy` | `Basics`, `Ordering` | optional values, Go's string order, `sort.Slice` and `sort.Strings` |
| `EndpointExtraction.dfy` | `EndpointExtraction` | EndpointSlices to a sorted, duplicate-free endpoint list |
| `Hashrings.dfy` | `Hashrings` | static and dynamic merge of published and ready hashrings |
| `ReceiveReconcile.dfy` | `ReceiveReconcile` | load, merge, store, and runs of that state machine |
| `RulePacking.dfy` | `RulePacking` | packing rule files into ConfigMaps |
| `VolumeResize.dfy` | `VolumeResize` | volume growth as a protocol of two controllers |
| `Args.dfy` | `Pruning`, `FlagMerge`, `Args`, `ThanosArgs` | pruning and merging command-line arguments |
| `Cluster.dfy` | `Objects`, `ApiServer` | objects, their mutators, a cluster with failing calls and a history of writes |
| `Handlers.dfy` | `Handlers` | create-or-update, prune, prune by owner |
| `Compactor.dfy` | `CompactorManifests`, `PruneThenCreate`, `Compactor` | the compactor's reconciliation |
| `ResourceNames.dfy` | `ResourceNames` | the name and label sanitisers |
| `StoreSharding.dfy` | `Relabelling`, `StoreSharding` | hashmod sharding of store gateways |

## How the code is modelled

- Go maps have no order: a `for range` over one is an arbitrary enumeration, and results are stated for
  every enumeration. `sort.Slice` is known only by its contract, so ties may fall either way.
- Loops are methods with loops, and each method is proved against a specification function or predicate. The
  theorems are lemmas about those specifications, so they hold of whatever the methods return.
- The cluster is a map from (kind, namespace, name) to object with one client. Each call may fail, as an
  arbitrary oracle decides, and the server keeps a ghost history of its writes, so that a statement about
  "every write" or "every state on the way" is one about that history. A stretch of `syncResources` that
  fails half-way is part of the model.
- Where the code has no promise on arbitrary inputs, the condition is the one the API enforces:
  `replicas >= replicationFactor >= 1` for hashrings.
- `Endpoint.UnmarshalJSON` restores only the address and the zone, so the codec of the hashring list is a
  projection: a kept hashring has lost its Cap'n Proto addresses.
- SHA-256 is any function to 16 hex digits, the hash behind `hashmod` is any function,
  and so is the matching of regular expressions in relabelling rules, but for plain digits; the spec of a
  built object is any function of its options.

## What the code does that its documentation does not say

- `MakeRulesConfigMaps` is documented as first-fit. It looks only at the last bucket, which is next-fit. The two
  packings are equal exactly when no file is placed while an earlier bucket still has room for it
  (`FirstFitExactlyWhen`, with `NotFirstFit` as an input, at the operator's limit, where one does). Next-fit's
  `2m - 1` ConfigMaps where `m` would do are reached exactly for one and for every `m` up to the capacity in
  bytes (`BoundIsTightExactlyWhen`), so for every number of ConfigMaps up to 524288.
- Bootstrapping a hashring neither sorts nor trims, and asks for all members, while the static merge that
  follows sorts and trims. So the reconcile after a bootstrap may change the document
  (`OneReconcileIsNotEnough`); `BootstrapIsFinalExactlyWhen` says exactly when it does not, and `StableAfterTwo`
  that the third never does.
- Raising the replication factor can leave a published hashring below it
  (`RaisingReplicationFactorBreaksInvariant`). A reconcile meets its factor exactly when the hashrings it is
  going to keep already do (`FactorIsMetExactlyWhen`), so the size bound over a run is the least of its factors.
- `buildHashringConfig` treats a missing policy as dynamic, with another outcome than the documented default
  (`MissingPolicyIsNotTheDefault`). The API server never lets it see one: it fills in that default, static
  (`api/v1alpha1/thanosreceive_types.go:78`).
- The comparison `sort.Slice` is given is no order on arbitrary endpoints (`EndpointLessIsNoOrder`); it is one
  on the endpoints that a single converter produces (`EndpointLessIsOrder`).
- With the requested size and the claims fixed, one deletion of the StatefulSet is not always the limit.
  `TwoDeletionsExactlyWhen` says, in every state, when two are possible: the first leaves some claim below the
  desired size. That is so when the size is raised again before the first resize (`DeletedAtTwoSizes`), and for a
  single size when a claim is provisioned from the old template while a resize is at work
  (`DeletedTwiceAtOneSize`). A failed deletion is in itself no reason to try again (`FailedDeletionIsNotRetried`):
  `DeletionRetriedExactlyWhen` says when a later one is possible.
- `MergeArgs` prunes its arguments in place, so it writes into the caller's slices; `Pruning.StaleClosedForm`
  says what they hold afterwards, and `Pruning.UntouchedExactlyWhen` that they are left alone exactly when all that
  is dropped is at their end.
- An argument whose value ends in `=` is dropped along with flags without a value (`IsEmptyArgExactlyWhen`).
- Two compactors in one namespace leave each other's objects alone (`OthersAreLeftAlone`), but for a name they
  share: a shard `y` of the owner `x` and an unsharded owner `x-y` get one generated name (`OwnersCanCollide`).
- Shard names that the sanitiser maps to one name, such as `a_b` and `a-b`, make the compactor's reconciliation
  overwrite its own objects every time (`UnderscoreCollides`, `CollidingShards`). An error-free reconciliation
  settles the cluster exactly when shards under one generated name ask for nothing different (`SyncPromises`).

## Model

| member | source | states |
|---|---|---|
| EndpointExtraction.ApplyFilter | internal/pkg/receive/hashrings.go:93-119 | a filter keeps exactly the members that pass it: all or none by owner name, the ready ones by condition |
| Ordering.BeforeExactlyWhen | internal/pkg/receive/hashrings.go:162-164 | Go's order on strings: at the first difference one ends or has the smaller character |
| EndpointExtraction.ConvertMeaning | internal/pkg/receive/hashrings.go:126-144 | a converter yields the address made of hostname, Service, namespace and `svc:10901`, between dots, and for Cap'n Proto the same with `svc:19391`; nothing without a hostname |
| EndpointExtraction.AddressParts | internal/pkg/receive/hashrings.go:126-144 | read at its dots, such an address names the member, its Service and its namespace, in this order, and the port |
| EndpointExtraction.ConvertedByAddress | internal/pkg/receive/hashrings.go:126-144 | among endpoints of one converter the address is never empty and identifies the endpoint |
| EndpointExtraction.EndpointLessIsOrder | internal/pkg/receive/hashrings.go:162-170 | the comparison is a strict weak order on the endpoints of a single converter |
| EndpointExtraction.EndpointLessIsNoOrder | internal/pkg/receive/hashrings.go:162-170 | three endpoints on which it is none |
| EndpointExtraction.EndpointSliceListToEndpoints | internal/pkg/receive/hashrings.go:149-172 | fails exactly when a surviving endpoint has no hostname; otherwise strictly increasing by address, and exactly the endpoints where some member that passes every filter listens |
| EndpointExtraction.ReadyMembersServe | internal/controller/thanosreceive_controller.go:286-309 | with the filter that the hashrings use: exactly the endpoints of the members whose ready condition is true |
| EndpointExtraction.ExtractionIsCanonical | internal/pkg/receive/hashrings.go:149-172 | the result is determined by the set of surviving namespace, service and hostname triples |
| EndpointExtraction.RearrangementKeepsSurvivors | internal/pkg/receive/hashrings.go:149-161 | reordering, repeating or splitting slices and permuting filters leaves that set, and the failures, unchanged |
| Hashrings.HandleUnseenHashrings | internal/pkg/receive/hashrings.go:235-258 | bootstrap publishes exactly the hashrings with as many ready members as desired, with tenants, matcher, algorithm and labels as fetched, in the order of enumeration |
| Hashrings.BootstrapCounts | internal/pkg/receive/hashrings.go:178-244 | either merge bootstraps so while nothing is published |
| Hashrings.DynamicMerge | internal/pkg/receive/hashrings.go:178-206 | the outcome of a dynamic merge under some enumeration of the map; in counts of members, what `DynamicMergeCounts` says; with unique previous names it is unique by name, sorted, and exactly the entries to publish |
| Hashrings.DynamicMergeCounts | internal/pkg/receive/hashrings.go:178-206 | once something is published, a hashring is published with its ready members if they are at least the replication factor and at least one less than desired; with fewer its previous entries stay |
| Hashrings.StaticMerge | internal/pkg/receive/hashrings.go:208-233 | the same for a static merge, which also trims |
| Hashrings.StaticMergeCounts | internal/pkg/receive/hashrings.go:208-233 | the same without a tolerated missing member, and with the first of the ready members, as many as are desired |
| Hashrings.MergeIsPointwise | internal/pkg/receive/hashrings.go:183-205 | names are unique, an entry is published exactly when its own threshold or its previous entry says so, and a non-bootstrap result strictly increases by name |
| Hashrings.MergePermuted | internal/pkg/receive/hashrings.go:183-244 | any two enumerations of the fetched map give the same list up to permutation, whatever was published before |
| Hashrings.MergeIgnoresMapOrder | internal/pkg/receive/hashrings.go:183-244 | and the very same list once something is published under unique names |
| Hashrings.StaticSizeIsExact | internal/pkg/receive/hashrings.go:215-217 | once something is published, a hashring the static merge does not merely keep has exactly the desired number of endpoints |
| ReceiveReconcile.MarshalRoundTrip | internal/pkg/receive/hashrings.go:266-282 | decoding an encoded hashring gives it back without Cap'n Proto addresses, and doing so again changes nothing |
| ReceiveReconcile.PlainAddressesAreRead | internal/pkg/receive/hashrings.go:266-271 | endpoints stored as plain strings are read as addresses |
| ReceiveReconcile.StoreLoadRoundTrip | internal/pkg/manifests/receive/builder.go:587-592 | a stored list is read back as that projection, and the `[{}]` stored for an empty one as one hashring without name and endpoints, which counts as empty |
| ReceiveReconcile.DescribeHashring | internal/controller/thanosreceive_controller.go:285-321 | what is fetched for one hashring: extracted endpoints, algorithm, tenancy; fails on a failed listing or a missing hostname |
| ReceiveReconcile.FetchReadyState | internal/controller/thanosreceive_controller.go:284-321 | the fetched map, in which a later hashring of the same name wins; fails exactly when some hashring does |
| ReceiveReconcile.FetchedMeaning | internal/controller/thanosreceive_controller.go:284-321 | what is fetched for a hashring, the last one of its name: the endpoints of its ready members, with Cap'n Proto addresses exactly for that protocol, `hashmod` exactly if asked for and otherwise `ketama`, and its tenants |
| ReceiveReconcile.BuildHashringConfig | internal/controller/thanosreceive_controller.go:267-347 | errors exactly on an unreadable or corrupt ConfigMap or a failed fetch; otherwise the text stores a merge of what was loaded and fetched |
| ReceiveReconcile.RouterConfigMap.Reconcile | internal/controller/thanosreceive_controller.go:267-347 | a successful reconcile moves the ConfigMap by one merge step, a failed one leaves it alone |
| ReceiveReconcile.AdmissibleSpec | api/v1alpha1/thanosreceive_types.go:197 | the API's validation rule makes the fetched state admissible, and its names are those of the spec |
| ReceiveReconcile.MissingPolicyIsNotTheDefault | internal/controller/thanosreceive_controller.go:323-328 | a spec without a policy, and EndpointSlices, for which the document differs from that under the default policy |
| ReceiveReconcile.StepEntries | internal/pkg/receive/hashrings.go:178-263 | from any document without empty hashrings, a successful reconcile publishes exactly the entries it should, under unique names, and any size that the stored entries and the replication factor reach is reached by all of them |
| ReceiveReconcile.PublishedExactlyWhen | internal/pkg/receive/hashrings.go:183-243 | from any such document, a name is published exactly when the spec has it and it was published before or has reached its threshold |
| ReceiveReconcile.ReconcileCounts | internal/pkg/receive/hashrings.go:178-263 | a whole reconcile from one document to the next, in counts of ready and desired members and by the policy of the spec: an entry is published exactly if it is what is ready and that is enough, or was published before and too little is ready |
| ReceiveReconcile.FullyReadyIsAdmitted | internal/pkg/receive/hashrings.go:188-239 | the bootstrap threshold implies both merge thresholds |
| ReceiveReconcile.StableAfterOne | internal/pkg/receive/hashrings.go:178-233 | with something published, whatever its size, one reconcile of an unchanging world reaches the fixpoint |
| ReceiveReconcile.StableAfterTwo | internal/pkg/receive/hashrings.go:178-263 | from any document without empty hashrings, the sentinel included, the fixpoint is reached after at most two reconciles, under either policy |
| ReceiveReconcile.OneReconcileIsNotEnough | internal/pkg/receive/hashrings.go:208-244 | a spec and EndpointSlices for which the second reconcile changes the document of the first |
| ReceiveReconcile.BootstrapIsFinalExactlyWhen | internal/pkg/receive/hashrings.go:178-244 | with nothing published, the second reconcile changes nothing exactly when nothing is fully ready, or the bootstrapped list is sorted and whatever the merge would admit is fully ready and, under the static policy, of the desired size |
| ReceiveReconcile.RunNames | internal/pkg/receive/hashrings.go:183-243 | over any run the published names belong to the spec reconciled last |
| ReceiveReconcile.RunInvariant | internal/pkg/receive/hashrings.go:183-243 | over any run of admissible specs, policy switches, ready sets and failures, published names are unique, belong to the latest spec, and have as many endpoints as the initial entries and all replication factors of the run, so the factor itself if it is fixed |
| ReceiveReconcile.Stickiness | internal/pkg/receive/hashrings.go:195-227 | once published, published in every later state as long as the spec keeps the name, though replication factor, policy and everything else may change |
| ReceiveReconcile.OutageFreezesEntry | internal/pkg/receive/hashrings.go:195-227 | below the threshold of the moment, for however long, the published entry stays exactly what it was, under changing replication factors and policies |
| ReceiveReconcile.LastAdmittedAddressesStay | internal/pkg/receive/hashrings.go:188-227 | after an admission, at bootstrap or later, and an outage of any length the published addresses are those last admitted, in any run |
| ReceiveReconcile.OneLossShrinksFurtherFreeze | internal/pkg/receive/hashrings.go:183-205 | over runs under the dynamic policy: when all desired members but one are ready, and at least the replication factor, the ring shrinks to them; while more are missing, for however long, it stays there |
| ReceiveReconcile.FactorIsMetExactlyWhen | internal/pkg/receive/hashrings.go:188-243 | after a reconcile every hashring has at least the replication factor of endpoints exactly when those that are published already, still in the spec and below their threshold have |
| ReceiveReconcile.RaisingReplicationFactorBreaksInvariant | internal/pkg/receive/hashrings.go:215-227 | two specs and EndpointSlices for which it is not met after the factor is raised |
| RulePacking.BucketSize | internal/pkg/manifests/ruler/builder.go:676-683 | the total size of a bucket's files, whatever the enumeration |
| RulePacking.MakeRulesConfigMaps | internal/pkg/manifests/ruler/builder.go:622-674 | fails exactly on a file above 524288 bytes; otherwise the next-fit packing of the files in name order: a partition of them, ordered by name, of ConfigMaps up to that size |
| RulePacking.PackRuleFiles | internal/pkg/manifests/ruler/builder.go:631-674 | the same for any limit |
| RulePacking.PlaceFile | internal/pkg/manifests/ruler/builder.go:655-662 | one iteration keeps the buckets equal to the packing of the files placed so far |
| RulePacking.ListingUnique | internal/pkg/manifests/ruler/builder.go:647-653 | the ConfigMaps depend on the rule-file map alone |
| RulePacking.PackFlattens | internal/pkg/manifests/ruler/builder.go:655-662 | read in order the buckets are the input |
| RulePacking.PackShape | internal/pkg/manifests/ruler/builder.go:655-662 | buckets are within capacity, and a bucket was opened only because its first file did not fit the previous one |
| RulePacking.PackingConserves | internal/pkg/manifests/ruler/builder.go:631-674 | every file in exactly one bucket with its content and nothing else, buckets within capacity, none empty for a non-empty input, and ordered by name |
| RulePacking.PairsExceed | internal/pkg/manifests/ruler/builder.go:657-660 | any two consecutive buckets together exceed the capacity, and so do disjoint pairs in sum |
| RulePacking.NextFitBound | internal/pkg/manifests/ruler/builder.go:642-674 | at most `2m - 1` ConfigMaps, for the size `m` of any packing within the same capacity |
| RulePacking.BoundIsTight | internal/pkg/manifests/ruler/builder.go:642-674 | at any capacity, for every `m` up to it, an input that fits `m` bins and is given `2m - 1` ConfigMaps |
| RulePacking.BoundIsTightExactlyWhen | internal/pkg/manifests/ruler/builder.go:642-674 | there is such an input exactly if `m` is one or at most the capacity |
| RulePacking.FirstFitExactlyWhen | internal/pkg/manifests/ruler/builder.go:623-660 | the packing is the documented first-fit exactly when, for every file, no bucket but the last of the packing before it has room for the file |
| RulePacking.NotFirstFit | internal/pkg/manifests/ruler/builder.go:623-660 | a map of rule files, none above the operator's size limit, whose packing at that limit is not first-fit |
| RulePacking.PrefixStable | internal/pkg/manifests/ruler/builder.go:647-662 | inputs that agree below a name have identical buckets up to the one open when that name is reached |
| VolumeResize.SyncedIsMutated | internal/pkg/manifests/mutations.go:157-168 | the protocol's synchronisation step is what the StatefulSet mutator of `Objects` does to a live object |
| VolumeResize.SyncedIsCreated | internal/pkg/handlers/handlers.go:71-79 | without a live object it is the creation of the desired one |
| VolumeResize.AnnotationMeaning | internal/controller/volume_resize_controller.go:166-174 | the requested size is that of the annotation `operator.thanos.io/storage-size`, missing or malformed if that is |
| VolumeResize.StepKeepsInv | internal/controller/volume_resize_controller.go:120-234 | every step of either controller keeps: listed claims not yet reached are as listed, those passed without error are large enough |
| VolumeResize.ClaimsNeverShrink | internal/controller/volume_resize_controller.go:177-207 | over any interleaving no claim is lost or shrinks |
| VolumeResize.TemplateNeverChanges | internal/pkg/manifests/mutations.go:157-168 | while a StatefulSet lives its claim template stays the same |
| VolumeResize.ForeignIsLeftAlone | internal/controller/volume_resize_controller.go:76-118 | a StatefulSet without both labels of the operator is not deleted and its claims do not grow, over any run until the operator takes it over |
| VolumeResize.DeletedOnlyWhenGrown | internal/controller/volume_resize_controller.go:134-157 | the StatefulSet is deleted only when every listed claim is at least the annotated size and one was grown |
| VolumeResize.DeletionsBounded | internal/controller/volume_resize_controller.go:120-160 | for a fixed requested size and fixed claims, the deletions that still happen are at most those due: two, one or none, whatever was provisioned while a resize was at work |
| VolumeResize.DeletionsExactlyWhen | internal/controller/volume_resize_controller.go:120-160 | that bound is exact: from every state of the protocol so many further deletions are possible and no more |
| VolumeResize.TwoDeletionsExactlyWhen | internal/controller/volume_resize_controller.go:120-160 | two more are possible exactly when the live StatefulSet is annotated with a size below the desired one that some claim has not reached, or a resize without errors has grown a claim or will and leaves some claim below the desired size, as it works towards a smaller one or has not listed the claim |
| VolumeResize.OneDeletionExactlyWhen | internal/controller/volume_resize_controller.go:120-160 | one more is possible exactly when some claim is below the desired size or the annotated one, or a resize without errors has grown a claim or will grow one it has listed |
| VolumeResize.DeletedAtTwoSizes | internal/controller/volume_resize_controller.go:120-160 | from an empty cluster a state is reached, with the resize controller idle, from which two deletions are possible |
| VolumeResize.DeletedTwiceAtOneSize | internal/controller/volume_resize_controller.go:120-160 | so is one where the size the resize works towards, the annotated one and the desired one are the same |
| VolumeResize.NothingLeftToDelete | internal/controller/volume_resize_controller.go:152-157 | when no deletion is due none happens, and the claim template stays for good |
| VolumeResize.DeletionRetriedExactlyWhen | internal/controller/volume_resize_controller.go:152-181 | after a failed deletion a later one is possible exactly when some claim is below the annotated or the desired size |
| VolumeResize.FailedDeletionIsForgotten | internal/controller/volume_resize_controller.go:152-181 | in particular, if the size is the one the resize read and no smaller claim was provisioned meanwhile, no later reconcile deletes and the old claim template stays |
| VolumeResize.FailedDeletionIsNotRetried | internal/controller/volume_resize_controller.go:152-181 | from an empty cluster a state is reached in which a deletion fails, no later one is possible, and the claim template is below the desired size |
| VolumeResize.ReconcileMeaning | internal/controller/volume_resize_controller.go:120-160 | an undisturbed reconcile grows exactly the claims that need it and whose patch succeeds, and deletes exactly when nothing failed and something grew |
| VolumeResize.ResizeConverges | internal/controller/volume_resize_controller.go:120-234 | without failures sync, reconcile and sync leave all claims large enough and a StatefulSet born with the desired claim template if any had to grow |
| VolumeResize.ReconcileIsRun | internal/controller/volume_resize_controller.go:120-160 | an undisturbed reconcile is one of the protocol's runs |
| VolumeResize.VolumeResizeReconciler.ProcessPVC | internal/controller/volume_resize_controller.go:163-194 | grows the claim when the annotation asks for more and the patch succeeds; errors on a malformed annotation or a failed patch |
| VolumeResize.VolumeResizeReconciler.OrphanAndDeleteStatefulSet | internal/controller/volume_resize_controller.go:220-234 | deletes the StatefulSet; one already gone is no error |
| VolumeResize.VolumeResizeReconciler.ProcessAll | internal/controller/volume_resize_controller.go:134-146 | the loop computes what the protocol's steps do |
| VolumeResize.VolumeResizeReconciler.ProcessPVCs | internal/controller/volume_resize_controller.go:120-160 | claims, StatefulSet and error are those of the protocol's reconcile |
| Pruning.PruneStep | internal/pkg/manifests/util.go:34-38 | deleting one element in place, or keeping it, turns the array pruned from the next index into the one pruned from this index |
| Pruning.StaleClosedForm | internal/pkg/manifests/util.go:33-41 | behind the kept elements: the last kept one once per element deleted before it, then the trailing deleted ones untouched |
| Pruning.UntouchedExactlyWhen | internal/pkg/manifests/util.go:33-41 | the slice is left as it was exactly when nothing is kept behind a deleted element |
| Args.ExtractFlagExactlyWhen | internal/pkg/manifests/util.go:175-184 | the flag of an argument is a given name exactly when the argument is that name, or the name, `=` and a value |
| Args.IsEmptyArgExactlyWhen | internal/pkg/manifests/util.go:35 | pruned is exactly what is empty or ends in `=` |
| Args.PruneEmptyArgs | internal/pkg/manifests/util.go:33-41 | in place: the order-preserving filter of the slice in front, its stale elements behind, the rest of the backing array untouched |
| Args.PrunedSliceMeaning | internal/pkg/manifests/util.go:33-41 | nothing outside the slice changes, and the returned slice holds what is kept of it |
| FlagMerge.ReadExisting | internal/pkg/manifests/util.go:112-128 | one iteration over an existing argument keeps the two maps and the key list in step with the arguments read |
| FlagMerge.ReadAdditional | internal/pkg/manifests/util.go:131-148 | the same for an additional argument |
| FlagMerge.Rebuild | internal/pkg/manifests/util.go:151-167 | the rebuilt list is the normal form of all arguments read |
| FlagMerge.OrderIsFirstAppearance | internal/pkg/manifests/util.go:117-144 | the key list is exactly the flags in the order of their first arguments |
| FlagMerge.NormalisedMeaning | internal/pkg/manifests/util.go:159-167 | normalising keeps the flags and their order, per flag the chosen instances, and nothing that is no flag |
| FlagMerge.NormalisedAppend | internal/pkg/manifests/util.go:104-167 | normalising early does not matter when more arguments follow |
| Args.MergeArgs | internal/pkg/manifests/util.go:84-171 | for two slices of any arrays, shared ones included: both are pruned in place, one after the other, and the result merges what they then hold; unless they overlap that is the merge of the two lists as values |
| Args.MergedIsPruned | internal/pkg/manifests/util.go:169-170 | the final prune is the identity |
| Args.MergeMeaning | internal/pkg/manifests/util.go:93-170 | when an additional argument survives: command name first, then flags in first-appearance order, every instance of a repeatable flag, the last of any other, and nothing else |
| Args.MergedByName | internal/pkg/manifests/util.go:84-171 | flag by flag, on the arguments as written: of a flag that may repeat all arguments that pruning keeps, the existing ones first; of any other the last one |
| Args.AdditionalWins | internal/pkg/manifests/util.go:141-146 | of a flag that may not repeat and that the user gives, the result has a single argument, the last one of the user, whatever there was before |
| Args.OverriddenInPlace | internal/pkg/manifests/util.go:93-170 | merging a command with `name=u` and then `name=v` gives the command with `name=v` |
| Args.MergeComposition | internal/pkg/manifests/util.go:84-171 | merging twice is merging once with the additional arguments concatenated |
| ThanosArgs.CheckRepeatableFlag | internal/pkg/manifests/util.go:43-77 | exactly nineteen flags, of the querier, the ruler, the receiver and the query frontend, may repeat |
| ThanosArgs.UserThenTracing | internal/pkg/manifests/options.go:332-364 | merging the user's arguments and then the tracing flag is one merge |
| Objects.LiveObject.Mutate | internal/pkg/manifests/mutations.go:33-109 | the live object becomes the mutated value, and so follows the desired one as `MutatedFollows` says; fails for a kind without a mutator |
| Objects.MutatedFollows | internal/pkg/manifests/mutations.go:33-215 | kind by kind: of a StatefulSet replicas, its three policies and all twelve parts of the pod template are as desired, of a Deployment replicas, strategy and the template, of the others the parts they consist of; all other fields stay, labels and annotations are merged or replaced |
| Objects.AssignAllAt | internal/pkg/manifests/mutations.go:119-215 | an assigned field takes the desired value, present or absent, any other stays |
| Objects.MutateIdempotent | internal/pkg/manifests/mutations.go:33-109 | mutating twice is mutating once |
| Objects.MutateFresh | internal/pkg/manifests/mutations.go:146-168 | an object created from the desired one needs no mutation |
| Objects.UnchangedCompatible | internal/pkg/manifests/mutations.go:119-215 | if a live object is as two desired ones want it, these ask for the same where the mutator replaces and for nothing different where it merges |
| Objects.CompatibleUnchanged | internal/pkg/manifests/mutations.go:119-215 | conversely, mutating towards one of two such objects leaves the live one as the other wants it |
| Objects.LiveStatefulSetKeepsImmutableFields | internal/pkg/manifests/mutations.go:157-168 | claim templates, service name and selector of a live StatefulSet are never touched |
| Handlers.PreparedIsControlled | internal/pkg/handlers/handlers.go:61-68 | a prepared object is controlled by the owner |
| Handlers.PreparedExactlyWhen | internal/pkg/handlers/handlers.go:61-68 | an object can be prepared exactly when the owner lives in its namespace or in none and nobody else controls it; then it is in that namespace, controlled by the owner, and keeps its other owners |
| Handlers.EnsureObject | internal/pkg/handlers/handlers.go:71-79 | creates, updates or leaves the object, with at most one write; succeeds when no call fails |
| Handlers.CreateOrUpdate | internal/pkg/handlers/handlers.go:57-83 | its writes are those of ensuring, in order, the objects not counted as errors; the count is exact |
| Handlers.EnsureAllFrame | internal/pkg/handlers/handlers.go:57-83 | no other object is touched, in the end or on the way |
| Handlers.EnsureAllSettles | internal/pkg/handlers/handlers.go:57-83 | afterwards all objects with distinct keys are in place |
| Handlers.EnsureAllSettlesExactlyWhen | internal/pkg/handlers/handlers.go:57-83 | afterwards all objects are in place exactly when no two of them under one key ask for different labels, annotations, owners or assigned fields |
| Handlers.EnsureAllIdle | internal/pkg/handlers/handlers.go:57-83 | nothing is written when all are in place |
| Handlers.InPlaceMeaning | internal/pkg/manifests/mutations.go:33-215 | an object in place carries the desired labels, annotations and owners, and all fields that follow the desired object |
| Handlers.EnsureAllConcat | internal/controller/thanoscompact_controller.go:166-169 | ensuring shard by shard is ensuring all objects |
| Handlers.BothInPlaceAgree | internal/pkg/manifests/mutations.go:119-215 | two desired objects under one key can both be in place only if they agree in all of these |
| Handlers.DeleteItems | internal/pkg/handlers/handlers.go:251-259 | deletes condemned listed objects only, and all of them if no error is counted |
| Handlers.PruneKind | internal/pkg/handlers/handlers.go:236-260 | the same for one listed kind; a kind that is not installed is skipped without error |
| Handlers.PruneTypes | internal/pkg/handlers/handlers.go:218-263 | the same for all enabled kinds |
| Handlers.DoomedByName | internal/pkg/handlers/handlers.go:200-204 | pruning by name is after exactly the objects of the kinds, labels and namespace whose name is not to be kept |
| Handlers.DoomedByOwner | internal/pkg/handlers/handlers.go:208-216 | pruning by owner is after exactly the objects of the kinds in its namespace that it controls |
| Handlers.ResourcePruner.Prune | internal/pkg/handlers/handlers.go:200-204 | deletes only listed objects of enabled kinds under names not to be kept, all of them if it returns zero |
| Handlers.ResourcePruner.PruneByOwner | internal/pkg/handlers/handlers.go:208-216 | deletes only objects of enabled kinds the owner controls in its namespace, all of them if it returns zero; nothing for an owner without UID |
| Handlers.ResourcePruner.WithStatefulSet | internal/pkg/handlers/handlers.go:167-170 | enables exactly one more kind |
| Handlers.ResourcePruner.WithService | internal/pkg/handlers/handlers.go:161-164 | enables exactly one more kind |
| Handlers.ResourcePruner.WithServiceAccount | internal/pkg/handlers/handlers.go:185-188 | enables exactly one more kind |
| Handlers.ResourcePruner.WithServiceMonitor | internal/pkg/handlers/handlers.go:179-182 | enables exactly one more kind |
| CompactorManifests.SelectorCoversOwner | internal/pkg/manifests/options.go:65-78 | the selector labels of any shard include the owner's selector |
| CompactorManifests.OwnerSelectorMeaning | internal/pkg/manifests/options.go:65-78 | the owner's selector asks for exactly five labels: name, component, part-of, managed-by and its own label value |
| CompactorManifests.BuiltBelongsToItsOwner | internal/pkg/manifests/compact/builder.go:316-335 | no object built for an owner is found by the selector of one with another label value |
| CompactorManifests.BuiltCarryOwnerSelector | internal/pkg/manifests/compact/builder.go:54-69 | whatever the user's labels, every built object carries the owner's selector, in its namespace and under the generated name |
| CompactorManifests.GeneratedNameNotEmpty | internal/pkg/manifests/compact/builder.go:81-87 | no generated name is empty |
| CompactorManifests.GeneratedNameMeaning | internal/pkg/manifests/compact/builder.go:81-87 | the generated name is `thanos-compact`, the owner and the shard joined by dashes, if that is valid |
| CompactorManifests.OwnersCanCollide | internal/pkg/manifests/compact/builder.go:81-87 | the shard of one owner and another owner can get one name |
| PruneThenCreate.SyncIsSafe | internal/controller/thanoscompact_controller.go:154-169 | whatever calls fail, every creation or update happens in a state without objects under the owner's selector outside the expected names |
| PruneThenCreate.SyncFrame | internal/controller/thanoscompact_controller.go:149-183 | whatever calls fail, nothing is written but orphans under the selector, expected objects and ServiceMonitors the owner controls |
| PruneThenCreate.GenerationStep | internal/controller/thanoscompact_controller.go:149-183 | the old expected names hold until the first creation, the new ones from then on |
| PruneThenCreate.RunHasOneGeneration | internal/controller/thanoscompact_controller.go:149-183 | over any run with changing shards and failing calls, in every state all objects under the selector belong to one generation of shards |
| PruneThenCreate.SyncConverges | internal/controller/thanoscompact_controller.go:149-183 | an error-free reconciliation from any state settles the cluster if no two wanted objects share a key |
| PruneThenCreate.SyncConvergesExactlyWhen | internal/controller/thanoscompact_controller.go:149-183 | it settles the cluster exactly if no two wanted objects under one key ask for different things |
| PruneThenCreate.IncompatibleNeverSettles | internal/controller/thanoscompact_controller.go:149-183 | if two do, no state of the cluster is settled |
| PruneThenCreate.SettledSyncIsIdle | internal/controller/thanoscompact_controller.go:149-183 | once settled a reconciliation writes nothing, whatever calls fail |
| PruneThenCreate.IdleSyncIsSettled | internal/controller/thanoscompact_controller.go:149-183 | conversely, an error-free reconciliation that writes nothing finds the cluster settled |
| PruneThenCreate.ConvergesThenIdle | internal/controller/thanoscompact_controller.go:149-183 | after an error-free reconciliation the next one is a no-op, whatever calls fail, if no two wanted objects under one key ask for different things; if two do, an error-free one is none |
| PruneThenCreate.SettledMeansExactly | internal/controller/thanoscompact_controller.go:149-183 | settled means: under the selector exactly one ServiceAccount, Service and StatefulSet per expected name, each controlled by the owner |
| Compactor.SpecToOptions | internal/controller/thanoscompact_controller.go:193-221 | one set of options without sharding, otherwise one per shard with its name and keep rules |
| Compactor.ShardKeepsExactly | internal/controller/thanoscompact_controller.go:201-220 | a shard compacts exactly the blocks whose external labels match all the values it is given |
| Compactor.PlanIsSound | internal/pkg/manifests/compact/builder.go:54-69 | what is built for a resource meets the demands of the safety and convergence theorems |
| Compactor.DistinctNamesSuffice | internal/pkg/manifests/compact/builder.go:81-87 | shards with different generated names share no object |
| Compactor.DistinctNamesAgree | internal/pkg/manifests/compact/builder.go:81-87 | so such shards meet the condition under which a reconciliation settles the cluster |
| Compactor.WantedCompatibleExactlyWhen | internal/pkg/manifests/compact/builder.go:81-87 | what is wanted for a resource is free of such conflicts exactly when shards under one generated name build nothing different |
| Compactor.SettledRunsShards | internal/controller/thanoscompact_controller.go:149-183 | in a settled cluster every shard has its ServiceAccount, Service, StatefulSet and, if switched on, ServiceMonitor under its generated name, with the owner's labels and control and the containers and other fields rendered for it |
| Compactor.SettledMetadata | internal/pkg/manifests/compact/builder.go:54-69 | they carry the instance and shard labels, and the user's own labels and annotations |
| Compactor.SettledMonitors | internal/controller/thanoscompact_controller.go:176-180 | and no ServiceMonitor is left that the owner controls once they are switched off |
| Compactor.DisagreementNeverSettles | internal/pkg/manifests/compact/builder.go:81-87 | shards under one generated name that disagree can never be settled |
| Compactor.CollisionNeverSettles | internal/pkg/manifests/compact/builder.go:81-87 | in particular if their StatefulSets differ in an assigned field |
| Compactor.LabelCollision | internal/pkg/manifests/compact/builder.go:81-87 | they do disagree if their shard labels differ |
| Compactor.UnderscoreCollides | internal/pkg/manifests/compact/builder.go:81-87 | with the operator's sanitisers, shard names that differ in an underscore for a dash get one generated name and different labels |
| Compactor.CollidingShards | internal/controller/thanoscompact_controller.go:193-221 | a resource with two shards of different names that no reconciliation ever settles |
| Compactor.ExpectedNames | internal/controller/thanoscompact_controller.go:156-159 | the names to keep, behind as many empty ones |
| Compactor.PruneOrphanedResources | internal/controller/thanoscompact_controller.go:185-191 | prunes ServiceAccounts, Services, StatefulSets and ServiceMonitors under the owner's selector outside the expected names |
| Compactor.CreateShards | internal/controller/thanoscompact_controller.go:166-169 | brings wanted objects in place shard by shard; all of them if no error is counted |
| Compactor.SyncPromises | internal/controller/thanoscompact_controller.go:149-183 | for every resource, cluster and pattern of failures: each write is safe, nothing is touched but objects of four kinds in the namespace that have a generated name or the owner's labels, or are ServiceMonitors it controls and has switched off; a settled cluster is left alone, and success settles the cluster exactly when shards under one generated name build nothing different |
| Compactor.OthersAreLeftAlone | internal/controller/thanoscompact_controller.go:149-183 | reconciling one compactor leaves what carries the owner label of another as it is, unless it wants that very name or controls the ServiceMonitor |
| Compactor.SyncResources | internal/controller/thanoscompact_controller.go:149-183 | its writes are those of a prune-then-create reconciliation of the resource's plan, so it keeps all promises of `SyncPromises`; succeeds when no call fails |
| ResourceNames.ReplacementsAreImages | internal/pkg/manifests/options.go:163-174 | the eleven replacements act character by character |
| ResourceNames.SubdomainExactlyWhen | internal/pkg/manifests/options.go:132-135 | a valid name is one of at most 253 characters that consists of labels between dots, as in section 2.1 of RFC 1123 |
| ResourceNames.LabelValueMeaning | internal/pkg/manifests/options.go:143-149 | what is valid as a label value stays, everything else is trimmed, replaced, shortened and put in lower case |
| ResourceNames.TrimMeaning | internal/pkg/manifests/options.go:151-161 | trimming leaves a part that starts and ends with a lower-case letter or digit, or nothing if there is none |
| ResourceNames.SanitizeTrimmed | internal/pkg/manifests/options.go:163-186 | the sanitised form: at most 63 characters, trimmed, free of replaced characters, in lower case |
| ResourceNames.SanitizersIdempotent | internal/pkg/manifests/options.go:132-186 | both sanitisers are idempotent on all ASCII names |
| ResourceNames.SanitizedIsLabel | internal/pkg/manifests/options.go:132-186 | the result is a DNS label as in section 2.1 of RFC 1123 exactly when the name has a lower-case letter or digit and only letters, digits and dashes reach the result |
| ResourceNames.SanitizableBecomesLabel | internal/pkg/manifests/options.go:132-186 | every name of letters, digits, dashes and replaced characters with a lower-case letter or digit becomes a subdomain, and a label unless it was a subdomain |
| ResourceNames.UnderscoreBecomesDash | internal/pkg/manifests/options.go:132-174 | a label with an underscore for a dash is sanitised to that label, which itself stays |
| ResourceNames.UnderscoreLabelStays | internal/pkg/manifests/options.go:143-149 | as label values both stay as they are |
| Relabelling.DecimalInjective | internal/controller/thanosstore_controller.go:199-203 | different shard indices are rendered differently |
| StoreSharding.SpecToOptions | internal/controller/thanosstore_controller.go:178-211 | one store without rules for zero or one shard, otherwise one per shard with its hashmod and keep rules |
| StoreSharding.ShardingPartitions | internal/controller/thanosstore_controller.go:178-211 | whatever the hash function, exactly one store keeps a block, the one that the hash of its block id selects |

## Left out

- Kubernetes client, caches, watches, events, metrics, logging, status conditions and finalizers.
- JSON and YAML bytes: the stored hashring document is a value with optional keys; unknown keys and the byte syntax are not modelled.
- ReceiveReconcile.BuildHashringConfig: external labels and tenants are copied as values; the metrics it sets are left out.
- ReceiveReconcile.LastAdmittedAddressesStay: about addresses only, because a reload drops Cap'n Proto addresses; and the static trim keeps the first addresses in string order, not the lowest pod ordinals.
- EndpointExtraction.EndpointSliceListToEndpoints: a missing hostname, a nil dereference in Go, is an error result.
- VolumeResize.VolumeResizeReconciler.ProcessPVCs: a claim without any storage request, on which `resizePVC` may write to a nil map, is not modelled; sizes are integers, and a Quantity's text form is well formed or not. A failed list call ends the reconcile before it changes anything and has no step.
- VolumeResize.StepKeepsInv: reading the StatefulSet and listing its claims is one step, as nothing that can happen in between changes both; other writers of claims, such as a user shrinking or deleting one, are not steps.
- Args.MergeArgs: the result is a value, not a slice. For slices that overlap in one array it is stated in terms of what they hold after both were pruned.
- Args.PruneEmptyArgs: strings are sequences of characters; byte-level encodings are not modelled.
- FlagMerge.ReadExisting: which flags repeat is a parameter; `ThanosArgs` supplies the operator's list.
- Objects.LiveObject.Mutate: `mergo` is map union in which the desired value wins, also when it is empty; defaults that the API server fills in after a write are not modelled, so a real second update may differ from the first.
- Handlers.CreateOrUpdate: owner references are compared by UID, a failed call has no effect, and nobody else writes between its calls. `DeleteResource` and `GetEndpointSlices` are left out.
- Handlers.ResourcePruner: the switches for Deployments, ConfigMaps, Secrets and PodDisruptionBudgets are fields without a method of their own; each would set one more of them.
- CompactorManifests.BuiltCarryOwnerSelector: ports, containers, volumes and arguments of the built objects are an arbitrary function of their options.
- PruneThenCreate.SyncConverges: for wanted objects with distinct keys; `SyncConvergesExactlyWhen` and `WantedCompatibleExactlyWhen` say exactly what is asked of the shards.
- PruneThenCreate.SyncIsSafe: about what the API server holds; a StatefulSet's pods may outlive its deletion for a while.
- The receive, ruler, query, query-frontend and store reconciliations: they use the same handler, and some of them render arguments in map order, so a second reconciliation need not be a no-op.
- ResourceNames.SanitizersIdempotent: on ASCII names, where a character is a byte; `SanitizeName` is left out.
- StoreSharding.ShardingPartitions: on the rules as values; their YAML rendering is left out.
- RulePacking.MakeRulesConfigMaps: naming and metadata of the ConfigMaps, and how rule files get their names before packing.
- PromQL rewriting, tenancy enforcement, feature-gate flags, manifest builders of the other components, CRD deep copies, generators and the website.
