# Verified model of the load-balancer operator

The operator installs AKO (the AVI Kubernetes Operator) into workload clusters, manages its
AVI credentials and networks, and takes all of it down again when a cluster or its
AKODeploymentConfig (ADC) goes away. Its controllers coordinate only through shared
Kubernetes state: finalizers, two clean-up conditions, an owning label, a machine
pre-terminate hook, secrets and a remote `delete_config` flag.

The project models these controllers and proves properties of every run. Code that updates
objects step by step is modelled by classes and methods with loops. Each such method is proved
equal to a specification function on values, and the theorems are about those functions and
about runs built from them. Every remote call gets its answer from a parameter, so failures,
refused writes and lost replies are all covered; a write is `Done`, `Rejected` or `ReplyLost`.

| file | content |
|---|---|
| Objects, Store | the objects, the answers of remote calls, the mutable copies |
| Selection, Ownership | which ADC owns a cluster, forward and reverse |
| ClusterCleanup, AviUser, Phases, AdcPass, Controllers | the reconcilers and their nested folds |
| Protocol, Outcomes, PassRefinement, Progress, Credentials | runs: safety, what passes bring about, refinement of whole passes, progress, crash safety |
| Semver, RoleTable, RoleSync | the AKO role and its permissions |
| Addresses, DataNetwork, Webhook | address arithmetic and admission |
| AviNetwork, HaEndpoints, ControlPlane, Bootstrap | edits that converge on a desired state |

Where the code and its comments disagree the model follows the code. The static ranges of a
subnet are replaced, not extended or filled up. Reconciling an ADC goes on after its finalizer
is added instead of returning at once. Syncing an Endpoints entry ignores the IP family.
A failed per-cluster patch is logged and not returned, so claims about stored clusters name the
fate of the patch.

Some promises turn out not to hold. Each comes with a concrete input and with the exact
condition under which the code does meet it:

- a deletion that loses one call to the AVI user or its secret cannot be retried;
- an ADC can go while a cluster it manages keeps the finalizer;
- the two directions of selection disagree on some selectors that mention the avi label;
- AVI user names can collide;
- an update that changes only the pools is not checked;
- an accepted IPv6 pool can contain addresses the containment test refuses;
- an Endpoints entry can leave the requested IP family;
- a legacy cluster's annotation hides its host.

`dafny verify dfyconfig.toml` checks the project.

## Model

| member | source | states |
|---|---|---|
| Protocol.DeletionIsSafe | controllers/akodeploymentconfig/cluster/cluster_controller.go:59-90 | In every run of ADC visits, Cluster passes, Machine passes and environment steps, with any API call failing: a step that takes the finalizer off a deleting, still selected workload cluster leaves both clean-up conditions true, and user clean-up always implies resource clean-up. |
| Protocol.ConditionsNeverRevert | controllers/akodeploymentconfig/user/user_controller.go:70-154 | Over every run, while a cluster exists, neither clean-up condition goes back from true and a deleting cluster stays deleting. |
| Protocol.CleanupHasEvidence | controllers/akodeploymentconfig/cluster/cluster_controller.go:92-175 | If resource clean-up became true during a run, one iteration on that cluster found the remote data-values secret absent, or delete_config "true" written and AKO's StatefulSet absent or annotated Done or Timeout. |
| Outcomes.UserCleanupHasEvidence | controllers/akodeploymentconfig/user/user_controller.go:99-154 | If user clean-up of a workload cluster became true during a run, one visit to that cluster worked for an ADC with customer credentials, or found its secret and AVI user and left exactly these two deleted. |
| Outcomes.CleanupVisitAsks | controllers/akodeploymentconfig/cluster/cluster_controller.go:92-175 | A cluster-stage visit to a deleting AVI cluster with the finalizer, still waiting for its resources, leaves delete_config "true" in the workload cluster whenever the secret can be read, parsed and updated, whatever AKO is doing. |
| Outcomes.AkoStaysAsked | controllers/akodeploymentconfig/cluster/cluster_controller.go:145-160 | Once AKO is asked, it stays asked in every later state of every run until the data values are changed from outside. |
| Protocol.HookOutlivesCleanup | controllers/machine/machine_controller.go:118-206 | A machine holding the pre-terminate hook while its labelled, selected cluster deletes with the finalizer keeps it, over every run, until a state where the finalizer is gone and both clean-ups succeeded. |
| Protocol.StepSafe | controllers/akodeploymentconfig/cluster/cluster_controller.go:59-175 | What any single step may do to a cluster: no condition reverts, the finalizer of a selected deleting cluster goes only with both clean-ups done, the label stays, and resource clean-up turns true only with evidence. |
| Protocol.RunKeepsInv | controllers/akodeploymentconfig/user/user_controller.go:70-94 | Every reachable state keeps the invariant: the stored ADCs are admissible and user clean-up implies resource clean-up on every cluster. |
| PassRefinement.PassIsRun | controllers/akodeploymentconfig/akodeploymentconfig_controller.go:74-160 | A whole ADC reconcile, in either mode and with any failures, is a run of the step relation (one visit per listed cluster and stage, then the ADC patch), so the run theorems cover real passes. |
| PassRefinement.PassIsSafe | controllers/akodeploymentconfig/akodeploymentconfig_controller.go:123-160 | Over one whole ADC reconcile a deleting, selected cluster loses its finalizer only with both clean-ups true, and no clean-up condition reverts. |
| Progress.PassProgress | controllers/akodeploymentconfig/akodeploymentconfig_controller.go:123-160 | A failure-free pass of either ADC mode strictly lowers the rank of a deletable cluster with the finalizer and leaves the finalizer of a cluster that is not deletable. |
| Progress.TwoPassesSuffice | controllers/akodeploymentconfig/akodeploymentconfig_controller.go:123-160 | Two failure-free passes, in either phase order, remove a deleting cluster's finalizer if and only if its AVI user could still be deleted (secret and user both present, or customer credentials, or management cluster, or already recorded). |
| Progress.StrandedForever | controllers/akodeploymentconfig/user/user_controller.go:126-149 | User deletion is not retry-safe: once secret or user is gone without the condition recorded, no run of all controllers and their environment, however long and with whatever answers, removes the finalizer, unless the cluster is no longer selected, a new cluster shares its user, an ADC turns to customer credentials, or secrets or users are changed from outside. |
| Progress.OneLostCallStrands | controllers/akodeploymentconfig/user/user_controller.go:126-149 | One visit is enough: the AVI user is deleted and that reply, or the secret's deletion after it, is lost, whatever becomes of the patch. |
| Progress.LostCallStrandsForever | controllers/akodeploymentconfig/user/user_controller.go:126-149 | From such a visit on, the cluster keeps its finalizer in every later state of every such run. |
| Progress.LostCallInput | controllers/akodeploymentconfig/user/user_controller.go:144-149 | A concrete admitted world and an enabled visit, with only the secret's deletion failing, that strand the cluster. |
| ClusterCleanup.CleanupSpec | controllers/akodeploymentconfig/cluster/cluster_controller.go:92-175 | The contract of one clean-up attempt: resource clean-up turns true only on evidence, only this cluster's remote state changes, AKO itself is never touched. |
| ClusterCleanup.CleanupOutcome | controllers/akodeploymentconfig/cluster/cluster_controller.go:92-175 | An attempt that is not over yet writes delete_config "true" exactly when it can and changes nothing else; it ends if and only if the data values are absent, or AKO was asked with an acknowledged write and its StatefulSet is absent, Done or Timeout; it errs exactly when it could not find that out. |
| ClusterCleanup.Cleanup | controllers/akodeploymentconfig/cluster/cluster_controller.go:92-175 | The imperative clean-up, with its order of condition, remote read, delete_config write and StatefulSet read, computes exactly CleanupSpec. |
| ClusterCleanup.ReconcileDeleteSpec | controllers/akodeploymentconfig/cluster/cluster_controller.go:59-90 | The finalizer goes only with both conditions true, and the answer is quiet (no error, no requeue) exactly when the finalizer is off. |
| ClusterCleanup.ReconcileDelete | controllers/akodeploymentconfig/cluster/cluster_controller.go:59-90 | The imperative phase computes exactly ReconcileDeleteSpec. |
| Phases.LowestNonZero | controllers/akodeploymentconfig/phases/phases.go:113-124 | The contract the folds need of Cluster API's LowestNonZeroResult: zero is the identity, the result is an argument, a requeue wins, and otherwise the shorter delay does. |
| Phases.PhaseFoldSound | controllers/akodeploymentconfig/phases/phases.go:30-51 | The fold over one cluster's phases errs exactly when some phase erred and, without error, asks for requeue exactly when some phase did. |
| Phases.IterateAllSound | controllers/akodeploymentconfig/phases/phases.go:59-143 | The nested fold over every listed cluster reports an error exactly when some phase on some cluster, some patch helper or a provider check failed, and a requeue exactly when some phase asked for it, as read off an explicit log of the pass. |
| Phases.ReconcileClustersPhases | controllers/akodeploymentconfig/phases/phases.go:59-143 | The imperative listing, per-cluster loop, phase selection and patch (whose failure is only logged) leave the API server and the answer as ClustersPass says. |
| Phases.ReconcileListed | controllers/akodeploymentconfig/phases/phases.go:81-142 | The loop over the listed clusters computes IterateAll, early return included. |
| Phases.ReconcileCluster | controllers/akodeploymentconfig/phases/phases.go:84-140 | One iteration computes Iterate: provider check, patch helper, label, phases by deletion state, patch. |
| Phases.RunClusterPhases | controllers/akodeploymentconfig/phases/phases.go:109-124 | Running a list of phases on one in-memory cluster computes RunPhases. |
| Outcomes.NormalVisitTakes | controllers/akodeploymentconfig/akodeploymentconfig_controller_cluster_phase.go:31-91 | A failure-free cluster visit of a normal ADC to a live AVI cluster writes the ADC's name into the label, puts the finalizer on unless it is in the system namespace, creates the add-on secret, and changes nothing else. |
| Outcomes.DeletingVisitReleases | controllers/akodeploymentconfig/akodeploymentconfig_controller_cluster_phase.go:53-105 | A failure-free cluster visit of a deleting ADC to a live AVI cluster takes finalizer and add-on secret away and changes nothing else but the label. |
| Outcomes.VisitSkips | controllers/akodeploymentconfig/phases/phases.go:89-97 | A cluster that uses kube-vip or whose provider cannot be decoded is left alone, the latter with an error. |
| AdcPass.AdcFinalizerTheorem | controllers/akodeploymentconfig/akodeploymentconfig_controller.go:139-160 | A deleting ADC loses its finalizer if and only if the patch was applied and no phase on any cluster erred or asked for requeue. Then every cluster in the world keeps its finalizer, except, exactly, those listed in either listing of the pass that use AVI, deleting or not, whose patch was applied and that the cluster stage did not miss (left out by the API server, or owned by another ADC while the default ADC could not be read). |
| AdcPass.ListedUnlessMissed | pkg/ako-operator/akodeploymentconfig_cluster_mapping_helper.go:42-60 | A cluster listed by either stage of a deletion pass is listed by the cluster stage if and only if that stage did not miss it. |
| AdcPass.MissedClusterKeepsFinalizer | pkg/ako-operator/akodeploymentconfig_cluster_mapping_helper.go:120-132 | A concrete world in which one failed read of the default ADC, whose error is swallowed, lets an ADC go while a cluster it has just labelled keeps the finalizer. |
| AdcPass.AdcPhasesSound | controllers/akodeploymentconfig/phases/phases.go:30-51 | The outer fold over the ADC's nested phases (AVI phases inside, cluster stages inside those) errs or requeues exactly when its flattened log does. |
| AdcPass.PassAnswers | controllers/akodeploymentconfig/akodeploymentconfig_controller.go:74-160 | A pass returns an error if and only if some report of its phases is one or the patch failed, and without reported errors asks for requeue if and only if some report does; a deleting ADC without finalizer is left alone. |
| AdcPass.NormalPassAddsFinalizer | controllers/akodeploymentconfig/akodeploymentconfig_controller.go:123-137 | Whatever its phases report, a normal pass puts the ADC's finalizer on, if the patch is applied, and changes no other ADC. |
| AdcPass.Reconcile | controllers/akodeploymentconfig/akodeploymentconfig_controller.go:74-121 | The imperative reconcile computes Pass: normal or deletion phases, ADC finalizer, patch. |
| AdcPass.ReconcilePhases | controllers/akodeploymentconfig/phases/phases.go:30-51 | The loop over ADC phases computes RunAdcPhases. |
| AdcPass.DoAdcPhase | controllers/akodeploymentconfig/akodeploymentconfig_controller_avi_phase.go:123-180 | One ADC phase, the nested AVI phases included, computes RunAdcPhase. |
| AdcPass.QuietLoopDropsFinalizers | controllers/akodeploymentconfig/akodeploymentconfig_controller_cluster_phase.go:53-73 | In a loop of the deletion stage that ends without error and requeue, every AVI cluster whose patch was applied has lost its finalizer. |
| Controllers.ReconcileCluster | controllers/cluster/cluster_controller.go:52-124 | The Cluster controller's pass computes ClusterSpec on the stored cluster, subject to the fate of its patch. |
| Outcomes.ClusterPassWrites | controllers/cluster/cluster_controller.go:106-124 | A Cluster pass that looks up the owner and whose patch is applied writes exactly the owner's name into the label; without an owner label and finalizer are gone; nothing else changes. |
| Outcomes.ClusterPassElse | controllers/cluster/cluster_controller.go:80-110 | Any other Cluster pass leaves the world as it is. |
| Outcomes.PassAgreesIff | controllers/cluster/cluster_controller.go:106-124 | After such a pass the listing of an ADC agrees with what the lookup returned if and only if the ADC's requirements on the label allow it. |
| Outcomes.PassAgrees | controllers/cluster/cluster_controller.go:106-124 | In particular, with selectors that do not mention the label, the ADC controller can visit the cluster for exactly the ADC the lookup returned. |
| Controllers.ReconcileMachine | controllers/machine/machine_controller.go:48-147 | The Machine controller's pass computes MachineSpec on the stored machine, subject to the fate of its patch, and returns an error exactly when the patch fails or a named cluster, its provider variables or its HA endpoints fail. |
| Controllers.ReconcileAnnotations | controllers/machine/machine_controller.go:149-206 | The hook is added, kept or removed according to the machine's and the cluster's deletion state, label and finalizer. |
| Outcomes.HookAfterPass | controllers/machine/machine_controller.go:118-206 | After a Machine pass that gets past its AVI cluster the hook is there if and only if the cluster is labelled and, when it deletes, the finalizer is on and the hook was there, or, when it lives, the machine is not deleting and had the hook or may get it (outside the system namespace, no bare hook prefix); nothing else changes. |
| Outcomes.OtherMachinePass | controllers/machine/machine_controller.go:77-116 | Any other Machine pass leaves the world as it is. |
| Selection.ListClusters | pkg/ako-operator/akodeploymentconfig_cluster_mapping_helper.go:20-63 | The reverse listing returns, in order, exactly the clusters that match, are admissible and are not owned by another ADC; a malformed selector or a failed list is an error. |
| Selection.ListedMeans | pkg/ako-operator/akodeploymentconfig_cluster_mapping_helper.go:36-60 | Of the clusters its selector matches an ADC lists its own and the unlabelled ones, deleting ones even if not ready; not a live one that is not ready outside a bootstrap cluster, not one in the system namespace unless it is the management ADC, and another ADC's only if that is the readable default with an empty selector. |
| Selection.GetAdcForCluster | pkg/ako-operator/akodeploymentconfig_cluster_mapping_helper.go:67-99 | The forward lookup returns the first ADC selecting by a non-empty selector, otherwise the empty-selector default, otherwise nothing, for any order of the API server's list. |
| Selection.OwnerExistsIffSelected | pkg/ako-operator/akodeploymentconfig_cluster_mapping_helper.go:67-99 | Some owner is returned exactly when some stored ADC selects the cluster, whatever the list order. |
| Selection.SelectionAgreesIff | pkg/ako-operator/akodeploymentconfig_cluster_mapping_helper.go:20-99 | After the Cluster controller wrote the label, listing and lookup agree about an ADC if and only if: for the ADC returned, its avi-label requirements hold of its own name; for another one, when nothing or the readable empty default was returned, its other requirements on the cluster and its avi-label requirements on the written value do not both hold; otherwise always. |
| Selection.SelectionAgrees | pkg/ako-operator/akodeploymentconfig_cluster_mapping_helper.go:20-99 | In particular, for every admitted set of ADCs whose selectors do not mention the avi label, an ADC lists a non-skipped workload cluster if and only if it is the one the lookup returned, even when several match. |
| Selection.SelectionDisagreesOnAviLabel | pkg/ako-operator/akodeploymentconfig_cluster_mapping_helper.go:42-60 | A concrete ADC and cluster on which the two directions disagree. |
| Ownership.OwnerChangesAtMostTwice | controllers/akodeploymentconfig/phases/phases.go:84-140 | Over any run of the ADC controller alone a cluster's owning label changes at most twice: each change strictly lowers a rank (none, overridable default, settled). |
| Ownership.SettledOwnerIsSole | pkg/ako-operator/akodeploymentconfig_cluster_mapping_helper.go:42-60 | A cluster owned by a custom ADC, or by a default ADC with a non-empty selector, is listed by no other ADC. |
| Credentials.RunIsUserRun | controllers/akodeploymentconfig/user/user_controller.go:52-254 | Every stretch of a protocol run in which nobody else touches secrets and AVI users is, on these, a run of user passes, each the work of one visit. |
| Credentials.UsersAlwaysBacked | controllers/akodeploymentconfig/user/user_controller.go:99-254 | In every such run, with any call failing or its reply lost, an AVI user the operator created never exists without its management secret. |
| Credentials.SecretIsStable | controllers/akodeploymentconfig/user/user_controller.go:157-254 | In every such run, once a workload cluster's secret exists, its user name and password stay as long as no visit finds the cluster being deleted. |
| Credentials.CredentialsStayInSync | controllers/akodeploymentconfig/user/user_controller.go:157-333 | In every such run, from a successful visit until the cluster's own deletion, the AVI user exists with exactly the password the secret records, whatever other visits fail, provided no other cluster uses the same user name. |
| Credentials.SuccessfulPassSyncs | controllers/akodeploymentconfig/user/user_controller.go:157-333 | A normal pass that reports success leaves the AVI user with exactly the secret's password, whatever was there before. |
| Credentials.UsernamesCanCollide | controllers/akodeploymentconfig/user/user_controller.go:208 | The dash-joined user names of two different clusters can be equal. |
| Credentials.UsernamesCollideIff | controllers/akodeploymentconfig/user/user_controller.go:208 | Two different clusters share a user name if and only if one name is the other, a dash and some part, and the shorter-named cluster's namespace is that part, a dash and the other namespace. |
| Credentials.UsernamesDistinct | controllers/akodeploymentconfig/user/user_controller.go:208 | So they differ for clusters of one namespace, and for cluster names without a dash. |
| AviUser.CreateOrUpdateAviUser | controllers/akodeploymentconfig/user/user_controller.go:267-333 | The imperative create-or-update of the AVI user computes CreateOrUpdateSpec on the set of users. |
| AviUser.CreateOrUpdateOutcome | controllers/akodeploymentconfig/user/user_controller.go:267-333 | On success the AVI user has the password wanted, no other user ever changes, and the call fails exactly when a call it needs fails. |
| AviUser.ReconcileAviUserNormal | controllers/akodeploymentconfig/user/user_controller.go:157-254 | The imperative normal pass (CA, secret, management secret, AVI user, in that order) computes ReconcileNormalSpec. |
| AviUser.NormalPassOutcome | controllers/akodeploymentconfig/user/user_controller.go:157-254 | A workload cluster's pass fails exactly when a call it needs does; otherwise the secret keeps or gets its user name and password and carries the controller's CA, the AVI user has that password, and nothing else is touched. |
| AviUser.OtherNormalPasses | controllers/akodeploymentconfig/user/user_controller.go:176-196 | The management cluster gets the administrator's credentials with the controller's CA; with customer credentials nothing is written. |
| AviUser.DeleteCredentials | controllers/akodeploymentconfig/user/user_controller.go:99-154 | The imperative deletion of user and secret computes DeleteCredentialsSpec, including the error when either is already gone. |
| AviUser.UserDeletionOutcome | controllers/akodeploymentconfig/user/user_controller.go:70-154 | User clean-up turns true if and only if resource clean-up is true and there is nothing to delete, or secret and AVI user exist and both deletions are acknowledged; then exactly these two are gone. Otherwise the pass errs. |
| AviUser.ReconcileAviUserDelete | controllers/akodeploymentconfig/user/user_controller.go:70-94 | The deletion phase sets the user condition exactly as ReconcileUserDeleteSpec says. |
| RoleSync.SyncAkoUserRole | controllers/akodeploymentconfig/user/user_controller.go:378-420 | For every map iteration order the new privileges are related to the old by Synced (old entries in place, only managed ones retyped, new distinct managed ones appended), and the flag is true exactly when the role changed. |
| RoleSync.AddMissing | controllers/akodeploymentconfig/user/user_controller.go:402-417 | The second loop appends each missing, non-deprecated managed resource once, in whatever order the map is visited. |
| RoleSync.SyncReachesDesired | controllers/akodeploymentconfig/user/user_controller.go:378-420 | After a sync every managed entry has its desired type, every non-deprecated managed resource is present, and unmanaged entries keep place and value. |
| RoleSync.FixedPointIffDesired | controllers/akodeploymentconfig/user/user_controller.go:378-420 | Sync leaves a role alone if and only if it is as desired. |
| RoleSync.SyncIsIdempotent | controllers/akodeploymentconfig/user/user_controller.go:378-420 | A second sync changes nothing, whatever the two iteration orders. |
| RoleSync.FilterByVersion | controllers/akodeploymentconfig/user/ako_role.go:330-343 | The creation filter keeps, in order, the permissions not deprecated at the version. |
| RoleSync.CreatedRoleHolds | controllers/akodeploymentconfig/user/ako_role.go:326-343 | With the real tables a new role holds PINGACCESSAGENT exactly at versions below 30.2.1 and every other listed permission at every version. |
| RoleSync.SyncAddsPingAccessAgent | controllers/akodeploymentconfig/user/user_controller.go:402-417 | With the real tables a sync adds a missing PINGACCESSAGENT exactly at versions below 30.2.1. |
| RoleSync.FilteredAppend | controllers/akodeploymentconfig/user/ako_role.go:330-343 | Filtering goes entry by entry, so the order is kept. |
| RoleSync.CreatedRoleIsFixedPoint | controllers/akodeploymentconfig/user/user_controller.go:336-420 | A role created at a version is left alone by a sync at that version and at every later one. |
| RoleSync.DeprecationIsMonotone | controllers/akodeploymentconfig/user/ako_role.go:326-343 | What is deprecated at a version is deprecated at every later one. |
| RoleTable.TablesAgree | controllers/akodeploymentconfig/user/ako_role.go:13-324 | The 61-entry permission list and the permission map hold exactly the same resource and type pairs. |
| Semver.PrecedenceIsTotalOrder | controllers/akodeploymentconfig/user/ako_role.go:330-343 | The version comparison used for deprecation, as in section 11 of Semantic Versioning 2.0.0, is a total order. |
| Semver.PrecedenceMeaning | controllers/akodeploymentconfig/user/ako_role.go:330-343 | A version compares above another exactly when section 11 of Semantic Versioning 2.0.0 puts it higher: major, minor, patch, then releases above their pre-releases, numeric below alphanumeric identifiers, longer lists above their prefixes; invalid text is lowest. |
| Addresses.ByteOrderIsNumeric | api/v1alpha1/akodeploymentconfig_webhook.go:379-383 | Byte-wise comparison of equally long addresses is numeric comparison. |
| Addresses.PrefixIsInterval | api/v1alpha1/akodeploymentconfig_webhook.go:374-378 | The addresses that agree with a network number under its mask are exactly the numbers of one interval (section 3.1 of RFC 4632). |
| DataNetwork.ValidateDataNetwork | api/v1alpha1/akodeploymentconfig_webhook.go:338-391 | Validation reports no error if and only if the network exists, the CIDR parses and every pool is accepted; it is a nil dereference if and only if the CIDR does not parse and there is a pool. |
| DataNetwork.ValidatePools | api/v1alpha1/akodeploymentconfig_webhook.go:361-389 | The pool loop, which ends at the first pool of another type, counts no error exactly when every pool is accepted. |
| DataNetwork.PoolInsideBlock | api/v1alpha1/akodeploymentconfig_webhook.go:338-391 | Of an accepted pool, every address between start and end lies in the CIDR's block. |
| DataNetwork.AcceptedMeans | api/v1alpha1/akodeploymentconfig_webhook.go:361-389 | A pool of parsed addresses is accepted if and only if both ends lie in the CIDR's block, are of the network's kind, stand in numeric order, and the pool's type is the kind the CIDR was written in. |
| DataNetwork.BlockAsWritten | api/v1alpha1/akodeploymentconfig_webhook.go:347-378 | Containment's reading of a mapped network by its last four bytes gives the block of the network and prefix length as written, cut down to the mapped addresses. |
| DataNetwork.PoolContainedIffNotStraddling | api/v1alpha1/akodeploymentconfig_webhook.go:374-378 | The Go containment test accepts every address of an accepted pool if and only if the pool does not reach across the IPv4-mapped block of an IPv6 network. |
| DataNetwork.StraddlingPoolIsAccepted | api/v1alpha1/akodeploymentconfig_webhook.go:374-378 | Such a pool exists: under ::/0 the pool over all addresses is accepted, and ::ffff:0:0 in its middle is not contained. |
| DataNetwork.MappedIsBlock | api/v1alpha1/akodeploymentconfig_webhook.go:374-378 | The addresses with an IPv4 form are exactly the block ::ffff:0:0/96 (section 2.5.5.2 of RFC 4291). |
| DataNetwork.MaskTail | api/v1alpha1/akodeploymentconfig_webhook.go:374-378 | Containment's 4-byte mask of an IPv4-mapped network is the tail of its 16-byte mask. |
| Webhook.Validate | api/v1alpha1/akodeploymentconfig_webhook.go:48-76 | Create and update validation admit exactly the Accepted objects, despite the early returns. |
| Webhook.AcceptedMeaning | api/v1alpha1/akodeploymentconfig_webhook.go:48-241 | An object is accepted if and only if secrets, version, account and replica count are in order, the selector parses, is unchanged and is empty for the default ADC only, the control-plane network is checked once and unchanged, and cloud, service engine group and data network with its pools are checked at creation and whenever they change. |
| Webhook.ValidateClusterSelector | api/v1alpha1/akodeploymentconfig_webhook.go:93-118 | No error and no panic exactly when the selector is accepted: unchanged on update, well formed, and empty only for the default ADC. |
| Webhook.ValidateAvi | api/v1alpha1/akodeploymentconfig_webhook.go:129-228 | The accumulated errors are empty exactly when the AVI part is accepted; the object's controller version is filled in from the AVI controller on the accepted paths. |
| Webhook.ImmutableFields | api/v1alpha1/akodeploymentconfig_webhook.go:93-241 | Across any chain of accepted creates and updates the selector, as formatted, and the control-plane network equal those at creation, the selector parses, only install-ako-for-all has an empty one, and a replica count is one or two. |
| Webhook.SelectorNeverChanges | api/v1alpha1/akodeploymentconfig_webhook.go:93-118 | If formatting tells selectors apart, the selector itself never changes. |
| Webhook.ChainsAreAdmitted | api/v1alpha1/akodeploymentconfig_webhook.go:48-118 | Objects that live by accepted changes form an admitted set, which is what the selection and run theorems assume. |
| Webhook.PoolOnlyUpdateIsUnchecked | api/v1alpha1/akodeploymentconfig_webhook.go:220-225 | An update that leaves the data network's name and CIDR alone is accepted with any pools whatever. |
| Webhook.PoolsCheckedIff | api/v1alpha1/akodeploymentconfig_webhook.go:199-228 | For an otherwise accepted update, admission vouches for the pools if and only if the data network's name or CIDR changes; otherwise a pool without addresses is let in. |
| Webhook.PoolsStayInside | api/v1alpha1/akodeploymentconfig_webhook.go:129-228 | Over any chain of accepted changes in which the pools change only together with the data network's name or CIDR, the stored pools are accepted by the stored CIDR at every point. |
| Webhook.StoredPoolsLieInBlock | api/v1alpha1/akodeploymentconfig_webhook.go:338-391 | So in such a chain every address of every stored pool lies in the stored CIDR's block. |
| AviNetwork.EnsureAviNetwork | controllers/akodeploymentconfig/akodeploymentconfig_controller_avi_phase.go:394-423 | Afterwards the first subnet with the address and mask exists and holds a permutation of the pools' (begin, end) pairs; no other subnet object is touched or moved; a missing one is appended with the pools' ranges; and with distinct start addresses the answer is true exactly when the network was not already up to date. |
| AviNetwork.EnsureTwice | controllers/akodeploymentconfig/akodeploymentconfig_controller_avi_phase.go:394-441 | A second call answers false, for distinct start addresses or no pools. |
| AviNetwork.EnsureStaticRanges | controllers/akodeploymentconfig/akodeploymentconfig_controller_avi_phase.go:425-441 | Without pools nothing changes; otherwise the ranges are a permutation of the pools' or, when the pairs were equal already, of the old ones. |
| AviNetwork.IsStaticRangeEqual | controllers/akodeploymentconfig/akodeploymentconfig_controller_avi_phase.go:443-455 | The answer implies equal multisets of pairs and, with distinct starts, is equivalent to it; both lists are only reordered. |
| AviNetwork.SortStaticRanges | controllers/akodeploymentconfig/akodeploymentconfig_controller_avi_phase.go:457-467 | Sorted by parsed start in byte order, and the same ranges. |
| AviNetwork.OrderIsNumeric | controllers/akodeploymentconfig/akodeploymentconfig_controller_avi_phase.go:463-467 | On parsed addresses that order is the numeric one, lowest first. |
| AviNetwork.SortedOrderIsUnique | controllers/akodeploymentconfig/akodeploymentconfig_controller_avi_phase.go:443-461 | With distinct starts two sorted orders of the same pairs are the same list, so comparing them pair by pair compares multisets. |
| AviNetwork.ContainsSubnet | controllers/akodeploymentconfig/akodeploymentconfig_controller_avi_phase.go:469-476 | Finds the first subnet with that address and mask. |
| AviNetwork.CreateStaticRanges | controllers/akodeploymentconfig/akodeploymentconfig_controller_avi_phase.go:478-489 | One range per pool, in order. |
| HaEndpoints.CreateOrUpdateHaEndpoints | pkg/haprovider/haprovider.go:387-432 | One reconcile of a machine leaves the stored Endpoints and the error as Reconciled says, for every failing call. |
| HaEndpoints.AddMachineIp | pkg/haprovider/haprovider.go:337-385 | The loops of adding compute Added: sync the machine's entry if it has one, otherwise append its first external address of the family, creating the subset with port 6443/TCP if there is none. |
| HaEndpoints.RemoveMachineIp | pkg/haprovider/haprovider.go:317-335 | The loop of removing computes Removed: all entries of the machine go, the rest keep their order, an empty subset is dropped. |
| HaEndpoints.SyncEndpointMachineIp | pkg/haprovider/haprovider.go:287-315 | The two loops compute SyncIp: a still valid address stays, otherwise the entry moves to the last valid external address. |
| HaEndpoints.FindEntry | pkg/haprovider/haprovider.go:357-384 | The search for a new machine's address finds the first valid external address of the requested family. |
| HaEndpoints.EnsureEndpoints | pkg/haprovider/haprovider.go:434-461 | Gets or creates the object; what is stored and returned under each failure. |
| HaEndpoints.EditSound | pkg/haprovider/haprovider.go:287-385 | One edit keeps at most one subset and one address per node name, changes nobody else's entry or their order, and makes of the machine's own entry what NextEntry says. |
| HaEndpoints.ReconcileSound | pkg/haprovider/haprovider.go:387-432 | The same for a whole reconcile, whichever of its calls fail. |
| HaEndpoints.RunTidy | pkg/haprovider/haprovider.go:387-432 | Over any sequence of machine reconciles: at most one subset, at most one address per node name, and addresses of machines not reconciled keep value and order. |
| HaEndpoints.MachinesDoNotInterfere | pkg/haprovider/haprovider.go:387-432 | A machine's entry after any run is the entry after the run of its own reconciles alone. |
| HaEndpoints.EntryFollowsMachine | pkg/haprovider/haprovider.go:387-432 | After any run in which the machine's last reconcile succeeded, it has no entry if it was deleting, and otherwise its entry is a valid external address of the machine as last seen whenever it had one. |
| HaEndpoints.NextEntry | pkg/haprovider/haprovider.go:287-385 | A deleting machine has no entry, an existing entry survives, and an entry is one of the machine's valid external addresses whenever there is one. |
| HaEndpoints.NewEntryIsFirst | pkg/haprovider/haprovider.go:357-411 | A machine without an entry gets the first of its external addresses that parses and is of the requested family, IPv4 when the ADC is absent or names none. |
| HaEndpoints.EntryIsSynced | pkg/haprovider/haprovider.go:287-315 | An entry stays while it is among the machine's valid external addresses and otherwise moves to the last of them, if there is one. |
| HaEndpoints.EditKeepsPlaces | pkg/haprovider/haprovider.go:337-385 | A new entry goes to the end, and an existing one and all the others keep their places. |
| HaEndpoints.SyncCanLeaveFamily | pkg/haprovider/haprovider.go:287-315 | Syncing ignores the requested family: a stale IPv4 entry under family V4 moves to an IPv6 address. |
| HaEndpoints.FamilyKeptIff | pkg/haprovider/haprovider.go:287-432 | Over every run under one requested family, a machine's entry is of that family in every state if and only if each reconcile that finds the stored address stale and writes finds the machine's last external address of that family; new entries always are. |
| ControlPlane.UpdateClusterControlPlaneEndpoint | pkg/haprovider/haprovider.go:248-264 | The imperative update computes Updated on host, port and topology variables. |
| ControlPlane.GetControlPlaneEndpoint | pkg/ako-operator/lib.go:102-119 | The loop computes Endpoint: first endpoint variable over annotation over host, with the decoding error path. |
| ControlPlane.SetControlPlaneEndpoint | pkg/ako-operator/lib.go:122-138 | The loop computes WithEndpoint: first endpoint variable overwritten or one appended, on topology-based clusters only. |
| ControlPlane.GetControlPlaneEndpointPort | pkg/ako-operator/lib.go:147-177 | The loop computes Port from the variable or the environment. |
| ControlPlane.Port | pkg/ako-operator/lib.go:141-177 | The port lies in [1, 65535] on every path, and is 6443 on every error. |
| ControlPlane.ConfiguredPort | pkg/ako-operator/lib.go:147-177 | The number in the first port variable, or without topology in the environment, is the port if it lies in [1, 65535], and an error with 6443 if not; with nothing configured it is 6443. |
| ControlPlane.EndpointPrecedence | pkg/ako-operator/lib.go:102-119 | Text in the first endpoint variable decides; any other value leaves the annotation, with an error unless it is null; without the variable the annotation comes before the host. |
| ControlPlane.SetThenGet | pkg/ako-operator/lib.go:102-138 | Setting then getting gives the value back, every other variable keeps value and position, and setting again changes nothing. |
| ControlPlane.UpdateSound | pkg/haprovider/haprovider.go:248-264 | One update: not ready means no change and an error; otherwise host and port are as configured, no other variable changes or moves, and reading the endpoint gives the host if and only if the cluster is topology-based or its annotation is empty, a name, or the ingress address. |
| ControlPlane.UpdateIsIdempotent | pkg/haprovider/haprovider.go:248-264 | Repeating the update with the same service status changes nothing and answers the same. |
| ControlPlane.LegacyAnnotationWins | pkg/haprovider/haprovider.go:248-264 | A legacy cluster whose annotation is another address reads back the annotation, not the host. |
| ControlPlane.RunSound | pkg/haprovider/haprovider.go:248-264 | Over any sequence of service statuses with a valid ingress: a name given as endpoint is kept for good, an address follows the service, reading the endpoint gives the host, the port is the configured one, and no other variable changes or moves. |
| Bootstrap.PatchAkoPackageRef | controllers/akodeploymentconfig/cluster/cluster_controller_addon_secret.go:236-289 | One pass leaves the stored ClusterBootstrap and the error as Pass says, for every failing call. |
| Bootstrap.EditBootstrap | controllers/akodeploymentconfig/cluster/cluster_controller_addon_secret.go:252-286 | The imperative edit of package list and annotation computes Patched. |
| Bootstrap.GetAkoPackageRefName | controllers/akodeploymentconfig/cluster/cluster_controller_addon_secret.go:336-344 | The first release package with the AKO prefix, or the error. |
| Bootstrap.GetAkoPackageIndex | controllers/akodeploymentconfig/cluster/cluster_controller_addon_secret.go:346-354 | The first additional package with the AKO prefix, or -1. |
| Bootstrap.PatchSound | controllers/akodeploymentconfig/cluster/cluster_controller_addon_secret.go:236-289 | After a patch the first AKO package is the release's with this cluster's secret, every other package keeps position and value, the AKO name is appended after a comma to the skip-delete annotation exactly when it was not in it, other annotations stay, and patching again changes nothing. |
| Bootstrap.ExactlyOne | controllers/akodeploymentconfig/cluster/cluster_controller_addon_secret.go:259-274 | If at most one package had the AKO prefix, exactly one has it afterwards. |
| Bootstrap.RunSound | controllers/akodeploymentconfig/cluster/cluster_controller_addon_secret.go:236-289 | Over any sequence of passes, with failures and changing releases: nothing changes until a patch is applied, and then package and annotation are those of the last release patched in, with everything else in place. |

## Left out

- Progress.TwoPassesSuffice: assumes passes without failures and fresh reads, and a user name shared with no other cluster.
- Credentials.CredentialsStayInSync: assumes that no other cluster uses the same AVI user name, which the code does not ensure.
- AviNetwork.EnsureAviNetwork: without distinct start addresses only "false means up to date" is stated, because the library sort promises no order among equals.
- AviNetwork.SortStaticRanges: sorts a sequence value by insertion and stands for the library's in-place sort; sharing of one slice between subnets is not modelled.
- HaEndpoints.AddMachineIp: a nil and an empty subset list are one value, as after a trip through the API server; the code would panic on a non-nil empty list.
- Webhook.ImmutableFields: the webhook compares formatted selectors, so the statement is about the formatted text; SelectorNeverChanges adds what is needed for the selector itself.
- Caches that lag behind the API server, merge patches and conflicts: each visit to a cluster and each patch is one atomic step on current state.
- Owner references and garbage collection: secrets go only when the operator deletes them.
- Finalizers other than the operator's own: a cluster can disappear once the modelled finalizer is off.
- Rendering of AKO data values: only `delete_config` of the remote secret and the presence of the add-on secret are kept.
- Decoding of text (addresses, CIDRs, selectors, versions, JSON): models start from the parsed value or take the parser as a parameter.
- The AVI REST client, TLS, DNS lookup, the password generator and the lazily created client with its lock: answers are parameters.
- The code lets a 410 answer to deleting the management secret pass; such an answer counts as a write that is `Done`.
- Usable networks, AVIInfraSetting and controller version phases: they touch no cluster, so only their outcome enters the folds.
- Creating the HA service and copying the endpoint to it: the service's own fields are written and never read back by the modelled controllers, so only the outcome of these calls enters.
- Cluster IP family checks: they compare two CIDR lists of one cluster with one ADC field and only decide whether the add-on secret phase fails, which is an answer here.
- Removing the AKO package reference from a ClusterBootstrap: the code does not call it.
- Event handlers, watches and metrics.
