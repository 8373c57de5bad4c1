/** The deletion protocol: every interleaving of the controllers' passes with the
    environment. One step is one per-cluster iteration of the ADC controller, one pass of
    the Cluster or Machine controller, or one environment action. */
module Protocol {
  import opened Objects
  import opened Selection
  import opened Phases
  import opened Controllers
  import ClusterCleanup

  datatype Action =
    // the operator
    | AdcVisit(adc: string, stage: Stage, k: Key, f: Faults)
    | AdcPatch(adc: string, finalizer: bool)
    | ClusterPass(k: Key, ca: ClusterAnswers, owner: Option<Adc>)
    | MachinePass(mk: Key, ma: MachineAnswers)
    // users, Cluster API, AKO and everything else
    | CreateCluster(k: Key, c: Cluster)
    | DeleteCluster(k: Key)
    | ClusterGone(k: Key)
    | EditCluster(k: Key, labels: Labels, ready: Condition, lb: LbProvider)
    | CreateMachine(mk: Key, m: Machine)
    | DeleteMachine(mk: Key)
    | MachineGone(mk: Key)
    | AnnotateMachine(mk: Key, annotations: map<string, string>)
    | CreateAdc(newAdc: Adc)
    | EditAdc(adc: string, customerCredentials: bool)
    | DeleteAdc(adc: string)
    | AdcGone(adc: string)
    | Outside(e: Ext)

  /** The stages an ADC runs, depending on whether it is being deleted. */
  predicate StageOf(adc: Adc, stage: Stage) {
    if adc.deleting then stage == CLUSTERS_DELETE || stage == USERS_DELETE else stage == USERS || stage == CLUSTERS
  }

  predicate SameAviLabel(a: Labels, b: Labels) {
    (AVI_LABEL in a <==> AVI_LABEL in b) && (AVI_LABEL in a ==> a[AVI_LABEL] == b[AVI_LABEL])
  }

  ghost predicate Enabled(w: World, a: Action) {
    match a
    case AdcVisit(n, stage, k, f) =>
      && n in w.adcs && StageOf(w.adcs[n], stage) && k in w.clusters
      && Listed(k, w.clusters[k], w.adcs[n], w.adcs, w.bootstrap, f.defaultAdcGet)
    case AdcPatch(n, finalizer) => n in w.adcs
    case ClusterPass(k, ca, owner) =>
      && k in w.clusters
      && (ReachesLookup(w.clusters[k], ca) ==>
            Enumerates(ca.listing, w.adcs) && IsOwner(ca.listing, w.clusters[k].labels, owner))
    case MachinePass(mk, ma) => mk in w.machines
    case CreateCluster(k, c) =>
      k !in w.clusters && !c.deleting && !c.finalizer && c.resourceCleanup.Unset? && c.userCleanup.Unset?
    case DeleteCluster(k) => k in w.clusters
    case ClusterGone(k) => k in w.clusters && w.clusters[k].deleting && !w.clusters[k].finalizer
    case EditCluster(k, labels, ready, lb) => k in w.clusters && SameAviLabel(labels, w.clusters[k].labels)
    case CreateMachine(mk, m) => mk !in w.machines
    case DeleteMachine(mk) => mk in w.machines
    case MachineGone(mk) => mk in w.machines && w.machines[mk].deleting && !HasHook(w.machines[mk])
    case AnnotateMachine(mk, annotations) =>
      mk in w.machines && (PRE_TERMINATE_HOOK in annotations <==> HasHook(w.machines[mk]))
    case CreateAdc(x) => x.name !in w.adcs && (EmptySelector(x.selector) ==> x.name == DEFAULT_ADC)
    case EditAdc(n, _) => n in w.adcs
    case DeleteAdc(n) => n in w.adcs
    case AdcGone(n) => n in w.adcs && w.adcs[n].deleting && !w.adcs[n].finalizer
    case Outside(e) => true
  }

  function Store(w: World, k: Key, c: Cluster, p: Write): World {
    if p.Applied() then w.(clusters := w.clusters[k := c]) else w
  }

  ghost function Do(w: World, a: Action): World
    requires Enabled(w, a)
  {
    match a
    case AdcVisit(n, stage, k, f) => Iterate(w, k, w.adcs[n], stage, f, ZERO).w
    case AdcPatch(n, finalizer) => w.(adcs := w.adcs[n := w.adcs[n].(finalizer := finalizer)])
    case ClusterPass(k, ca, owner) => Store(w, k, ClusterSpec(w.clusters[k], ca, owner), ca.patch)
    case MachinePass(mk, ma) =>
      if ma.patch.Applied()
      then w.(machines := w.machines[mk := MachineSpec(w.machines[mk], mk.ns, w.clusters, ma)]) else w
    case CreateCluster(k, c) => w.(clusters := w.clusters[k := c])
    case DeleteCluster(k) => w.(clusters := w.clusters[k := w.clusters[k].(deleting := true)])
    case ClusterGone(k) => w.(clusters := w.clusters - {k})
    case EditCluster(k, labels, ready, lb) =>
      w.(clusters := w.clusters[k := w.clusters[k].(labels := labels, ready := ready, lb := lb)])
    case CreateMachine(mk, m) => w.(machines := w.machines[mk := m])
    case DeleteMachine(mk) => w.(machines := w.machines[mk := w.machines[mk].(deleting := true)])
    case MachineGone(mk) => w.(machines := w.machines - {mk})
    case AnnotateMachine(mk, annotations) =>
      w.(machines := w.machines[mk := w.machines[mk].(annotations := annotations)])
    case CreateAdc(x) => w.(adcs := w.adcs[x.name := x])
    case EditAdc(n, cc) => w.(adcs := w.adcs[n := w.adcs[n].(customerCredentials := cc)])
    case DeleteAdc(n) => w.(adcs := w.adcs[n := w.adcs[n].(deleting := true)])
    case AdcGone(n) => w.(adcs := w.adcs - {n})
    case Outside(e) => w.(ext := e)
  }

  /** `ws` is a run whose steps are `acts`. */
  ghost predicate Run(ws: seq<World>, acts: seq<Action>) {
    && |ws| == |acts| + 1
    && forall i :: 0 <= i < |acts| ==> Enabled(ws[i], acts[i]) && ws[i + 1] == Do(ws[i], acts[i])
  }

  // ---------------------------------------------------------------- one visit

  ghost predicate UserAfterResource(c: Cluster) {
    c.userCleanup.IsTrue? ==> c.resourceCleanup.IsTrue?
  }

  ghost predicate NoRevert(c: Cluster, c': Cluster) {
    && (c.resourceCleanup.IsTrue? ==> c'.resourceCleanup.IsTrue?)
    && (c.userCleanup.IsTrue? ==> c'.userCleanup.IsTrue?)
  }

  ghost predicate BothCleaned(c: Cluster) {
    c.resourceCleanup.IsTrue? && c.userCleanup.IsTrue?
  }

  /** What a deleting cluster's phases leave of the workload cluster's state. */
  ghost predicate RemoteFrame(k: Key, e: Ext, e': Ext) {
    && (k in e.remotes <==> k in e'.remotes)
    && (k in e.remotes ==> && e'.remotes[k].ako == e.remotes[k].ako
                           && (e'.remotes[k].dataValues.None? <==> e.remotes[k].dataValues.None?))
  }

  lemma {:induction false} PhasesSafe(ps: seq<ClusterPhase>, k: Key, adc: Adc, s: Fold, f: Faults)
    requires UserAfterResource(s.c)
    ensures var o := RunPhases(ps, k, adc, s, f);
            && UserAfterResource(o.c) && NoRevert(s.c, o.c)
            && o.c.deleting == s.c.deleting && o.c.labels == s.c.labels
            && RemoteFrame(k, s.e, o.e)
            && (s.c.resourceCleanup.IsTrue? ==> o.e.remotes == s.e.remotes)
            && (!s.c.resourceCleanup.IsTrue? && o.c.resourceCleanup.IsTrue? ==> ClusterCleanup.Evidence(k, s.e, o.e))
            && (RemoveClusterFinalizer !in ps && s.c.finalizer && !o.c.finalizer ==> BothCleaned(o.c))
  {
    if ps != [] {
      var o := RunPhase(ps[0], k, adc, s.c, s.e, f);
      assert ps[0] in ps;
      PhaseSafe(ps[0], k, adc, s.c, s.e, f);
      var err := s.err || o.report.err;
      PhasesSafe(ps[1..], k, adc,
        Fold(o.c, o.e, if err then s.res else LowestNonZero(s.res, o.report.res), err), f);
    }
  }

  lemma PhaseSafe(p: ClusterPhase, k: Key, adc: Adc, c: Cluster, e: Ext, f: Faults)
    requires UserAfterResource(c)
    ensures var o := RunPhase(p, k, adc, c, e, f);
            && UserAfterResource(o.c) && NoRevert(c, o.c)
            && o.c.deleting == c.deleting && o.c.labels == c.labels
            && RemoteFrame(k, e, o.e)
            && (c.resourceCleanup.IsTrue? ==> o.e.remotes == e.remotes)
            && (!c.resourceCleanup.IsTrue? && o.c.resourceCleanup.IsTrue? ==> ClusterCleanup.Evidence(k, e, o.e))
            && (p != RemoveClusterFinalizer && c.finalizer && !o.c.finalizer ==> BothCleaned(o.c))
  {
    if p.ReconcileDelete? {
      CleanupSafe(k, c, e, f);
    }
  }

  lemma CleanupSafe(k: Key, c: Cluster, e: Ext, f: Faults)
    requires UserAfterResource(c)
    ensures var o := ClusterCleanup.ReconcileDeleteSpec(k, c, e, f);
            && UserAfterResource(o.c) && NoRevert(c, o.c)
            && o.c.deleting == c.deleting && o.c.labels == c.labels
            && RemoteFrame(k, e, o.e)
            && (c.resourceCleanup.IsTrue? ==> o.e.remotes == e.remotes)
            && (!c.resourceCleanup.IsTrue? && o.c.resourceCleanup.IsTrue? ==> ClusterCleanup.Evidence(k, e, o.e))
  {
  }

  // ---------------------------------------------------------------- one step

  ghost predicate Inv(w: World) {
    && Admitted(w.adcs)
    && forall k :: k in w.clusters ==> UserAfterResource(w.clusters[k])
  }

  ghost predicate StillSelected(w: World, k: Key) {
    k in w.clusters && Selected(w.adcs, w.clusters[k].labels)
  }

  lemma VisitSafe(w: World, a: Action)
    requires Inv(w) && a.AdcVisit? && Enabled(w, a)
    ensures var c, c' := w.clusters[a.k], Do(w, a).clusters[a.k];
            && UserAfterResource(c') && NoRevert(c, c') && c'.deleting == c.deleting
            && (AVI_LABEL in c.labels ==> AVI_LABEL in c'.labels)
            && (c.deleting && c.finalizer && !c'.finalizer ==> BothCleaned(c'))
            && (!c.resourceCleanup.IsTrue? && c'.resourceCleanup.IsTrue? ==>
                  ClusterCleanup.Evidence(a.k, w.ext, Do(w, a).ext))
  {
    var c := w.clusters[a.k];
    PhasesSafe(PhasesFor(a.stage, c), a.k, w.adcs[a.adc],
               Fold(ApplyLabel(c, w.adcs[a.adc].name), w.ext, ZERO, false), a.f);
  }

  lemma StepKeepsInv(w: World, a: Action)
    requires Inv(w) && Enabled(w, a)
    ensures Inv(Do(w, a))
  {
    if a.AdcVisit? {
      VisitSafe(w, a);
    }
  }

  /** What a step other than an ADC visit does to a cluster. */
  lemma OtherStepSafe(w: World, a: Action, k: Key)
    requires Inv(w) && Enabled(w, a) && !a.AdcVisit? && k in w.clusters && k in Do(w, a).clusters
    ensures var c, c' := w.clusters[k], Do(w, a).clusters[k];
            && c'.resourceCleanup == c.resourceCleanup && c'.userCleanup == c.userCleanup
            && (c.deleting ==> c'.deleting)
            && (c.deleting && StillSelected(w, k) ==>
                  (c.finalizer ==> c'.finalizer) && (AVI_LABEL in c.labels ==> AVI_LABEL in c'.labels))
  {
    if a.ClusterPass? && a.k == k && ReachesLookup(w.clusters[k], a.ca) {
      OwnerExistsIffSelected(w.adcs, a.ca.listing, w.clusters[k].labels, a.owner);
    }
  }

  /** What every step does to a cluster that exists before and after it. */
  lemma StepSafe(w: World, a: Action, k: Key)
    requires Inv(w) && Enabled(w, a) && k in w.clusters && k in Do(w, a).clusters
    ensures var c, c' := w.clusters[k], Do(w, a).clusters[k];
            && NoRevert(c, c')
            && (c.deleting ==> c'.deleting)
            && (c.deleting && c.finalizer && !c'.finalizer && StillSelected(w, k) ==> BothCleaned(c'))
            && (c.deleting && StillSelected(w, k) && AVI_LABEL in c.labels ==> AVI_LABEL in c'.labels)
            && (!c.resourceCleanup.IsTrue? && c'.resourceCleanup.IsTrue? ==>
                  a.AdcVisit? && a.k == k && ClusterCleanup.Evidence(k, w.ext, Do(w, a).ext))
  {
    if a.AdcVisit? {
      VisitSafe(w, a);
    } else {
      OtherStepSafe(w, a, k);
    }
  }

  // ---------------------------------------------------------------- every run

  lemma {:induction false} RunKeepsInv(ws: seq<World>, acts: seq<Action>, i: nat)
    requires Run(ws, acts) && Inv(ws[0]) && i < |ws|
    ensures Inv(ws[i])
  {
    if i > 0 {
      RunKeepsInv(ws, acts, i - 1);
      StepKeepsInv(ws[i - 1], acts[i - 1]);
    }
  }

  /** In every run: user clean-up implies resource clean-up; a step that takes the finalizer
      off a deleting, still selected cluster leaves both clean-up conditions true. */
  lemma DeletionIsSafe(ws: seq<World>, acts: seq<Action>, i: nat, k: Key)
    requires Run(ws, acts) && Inv(ws[0]) && i < |acts| && k in ws[i].clusters && k in ws[i + 1].clusters
    ensures ws[i].clusters[k].userCleanup.IsTrue? ==> ws[i].clusters[k].resourceCleanup.IsTrue?
    ensures (&& ws[i].clusters[k].deleting && ws[i].clusters[k].finalizer && !ws[i + 1].clusters[k].finalizer
             && StillSelected(ws[i], k)) ==> BothCleaned(ws[i + 1].clusters[k])
  {
    RunKeepsInv(ws, acts, i);
    StepSafe(ws[i], acts[i], k);
  }

  /** Cluster `k` exists in every state from `i` to `j`. */
  ghost predicate Lives(ws: seq<World>, k: Key, i: nat, j: nat) {
    i <= j < |ws| && forall t :: i <= t <= j ==> k in ws[t].clusters
  }

  /** Neither clean-up condition ever reverts during the life of a cluster. */
  lemma {:induction false} ConditionsNeverRevert(ws: seq<World>, acts: seq<Action>, k: Key, i: nat, j: nat)
    requires Run(ws, acts) && Inv(ws[0]) && Lives(ws, k, i, j)
    ensures NoRevert(ws[i].clusters[k], ws[j].clusters[k])
    ensures ws[i].clusters[k].deleting ==> ws[j].clusters[k].deleting
    decreases j - i
  {
    if i < j {
      RunKeepsInv(ws, acts, i);
      assert k in ws[i + 1].clusters;
      StepSafe(ws[i], acts[i], k);
      ConditionsNeverRevert(ws, acts, k, i + 1, j);
    }
  }

  lemma EvidenceStep(w: World, a: Action, k: Key)
    requires Inv(w) && Enabled(w, a) && k in w.clusters && k in Do(w, a).clusters
    requires !w.clusters[k].resourceCleanup.IsTrue? && Do(w, a).clusters[k].resourceCleanup.IsTrue?
    ensures a.AdcVisit? && a.k == k && ClusterCleanup.Evidence(k, w.ext, Do(w, a).ext)
  {
    StepSafe(w, a, k);
  }

  /** If resource clean-up turned true during a run, some iteration on that very cluster saw
      the evidence for it. */
  lemma {:induction false} CleanupHasEvidence(ws: seq<World>, acts: seq<Action>, k: Key, i: nat, j: nat)
    requires Run(ws, acts) && Inv(ws[0]) && Lives(ws, k, i, j)
    requires !ws[i].clusters[k].resourceCleanup.IsTrue? && ws[j].clusters[k].resourceCleanup.IsTrue?
    ensures exists t :: i <= t < j && acts[t].AdcVisit? && acts[t].k == k
                        && ClusterCleanup.Evidence(k, ws[t].ext, ws[t + 1].ext)
    decreases j - i
  {
    assert k in ws[i + 1].clusters;
    if !ws[i + 1].clusters[k].resourceCleanup.IsTrue? {
      CleanupHasEvidence(ws, acts, k, i + 1, j);
    } else {
      RunKeepsInv(ws, acts, i);
      EvidenceStep(ws[i], acts[i], k);
    }
  }

  // ---------------------------------------------------------------- machines

  /** Machine `mk` belongs to cluster `k` and holds the hook; the cluster is labelled,
      deleting, and still carries the finalizer. */
  ghost predicate Guarded(w: World, mk: Key, k: Key) {
    && mk in w.machines && w.machines[mk].clusterName == Some(k.name) && mk.ns == k.ns
    && HasHook(w.machines[mk])
    && k in w.clusters && w.clusters[k].deleting && w.clusters[k].finalizer && AVI_LABEL in w.clusters[k].labels
  }

  lemma GuardedStep(w: World, a: Action, mk: Key, k: Key)
    requires Inv(w) && Enabled(w, a) && Guarded(w, mk, k) && StillSelected(w, k)
    ensures var w' := Do(w, a);
            && k in w'.clusters
            && mk in w'.machines && HasHook(w'.machines[mk])
            && (Guarded(w', mk, k) || (!w'.clusters[k].finalizer && BothCleaned(w'.clusters[k])))
  {
    StepSafe(w, a, k);
  }

  /** A machine that holds the pre-terminate hook when its labelled cluster, with the
      finalizer, is deleting, loses it only after a state in which the finalizer is gone and
      both clean-ups have succeeded; before such a state neither object can disappear. */
  lemma {:induction false} HookOutlivesCleanup(ws: seq<World>, acts: seq<Action>, mk: Key, k: Key, i: nat, j: nat)
    requires Run(ws, acts) && Inv(ws[0]) && i <= j < |ws| && Guarded(ws[i], mk, k)
    requires forall t :: i <= t < j ==> StillSelected(ws[t], k)
    ensures || Guarded(ws[j], mk, k)
            || exists t :: i < t <= j && k in ws[t].clusters && !ws[t].clusters[k].finalizer
                           && BothCleaned(ws[t].clusters[k]) && mk in ws[t].machines && HasHook(ws[t].machines[mk])
    decreases j - i
  {
    if i < j {
      RunKeepsInv(ws, acts, i);
      GuardedStep(ws[i], acts[i], mk, k);
      if Guarded(ws[i + 1], mk, k) {
        HookOutlivesCleanup(ws, acts, mk, k, i + 1, j);
      }
    }
  }
}
