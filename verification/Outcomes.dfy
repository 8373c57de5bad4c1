/** What single passes bring about in the protocol, and what runs therefore prove: the requests to
    AKO, the credentials that are gone, the label, the finalizer and the hook. */
module Outcomes {
  import opened Objects
  import opened Selection
  import opened Phases
  import opened Controllers
  import opened Protocol
  import ClusterCleanup
  import AviUser

  // ---------------------------------------------------------------- AKO is asked

  /** The data values of the workload cluster ask AKO to release its resources. */
  predicate Asked(w: World, k: Key) {
    k in w.ext.remotes && w.ext.remotes[k].dataValues == Some(Values("true"))
  }

  /** A visit of a cluster stage to a deleting AVI cluster that waits for its resources. */
  predicate CleansUp(w: World, a: Action) {
    && a.AdcVisit? && a.stage.delete == [ReconcileAddonSecretDelete, ReconcileDelete]
    && a.k in w.clusters && !a.f.patchHelper
    && (var c := w.clusters[a.k];
        c.deleting && c.finalizer && c.lb.Avi? && !c.resourceCleanup.IsTrue?)
  }

  /** The phases of such a visit. */
  lemma CleanupPhasesAsk(k: Key, adc: Adc, c: Cluster, e: Ext, f: Faults)
    requires c.finalizer && !c.resourceCleanup.IsTrue? && ClusterCleanup.CanAsk(k, e, f)
    ensures var o0 := RunPhase(ReconcileAddonSecretDelete, k, adc, c, e, f);
      RunPhase(ReconcileDelete, k, adc, o0.c, o0.e, f).e.remotes
      == e.remotes[k := Remote(Some(Values("true")), e.remotes[k].ako)]
  {
    var o0 := RunPhase(ReconcileAddonSecretDelete, k, adc, c, e, f);
    assert o0.c == c && o0.e.remotes == e.remotes;
    ClusterCleanup.CleanupOutcome(k, c, o0.e, f);
  }

  /** Such a visit asks AKO whenever it can, whatever AKO is doing and whatever becomes of the
      patch. */
  lemma CleanupVisitAsks(w: World, a: Action)
    requires Enabled(w, a) && CleansUp(w, a) && ClusterCleanup.CanAsk(a.k, w.ext, a.f)
    ensures Asked(Do(w, a), a.k) && Do(w, a).ext.remotes[a.k].ako == w.ext.remotes[a.k].ako
  {
    var c, adc := ApplyLabel(w.clusters[a.k], w.adcs[a.adc].name), w.adcs[a.adc];
    RunTwoPhases(ReconcileAddonSecretDelete, ReconcileDelete, a.k, adc, Fold(c, w.ext, ZERO, false), a.f);
    CleanupPhasesAsk(a.k, adc, c, w.ext, a.f);
  }

  /** Every phase leaves a request standing. */
  lemma {:induction false} PhasesKeepAsking(ps: seq<ClusterPhase>, h: Key, adc: Adc, s: Fold, f: Faults, k: Key)
    requires k in s.e.remotes && s.e.remotes[k].dataValues == Some(Values("true"))
    ensures var e := RunPhases(ps, h, adc, s, f).e; k in e.remotes && e.remotes[k].dataValues == Some(Values("true"))
  {
    if ps != [] {
      var o := RunPhase(ps[0], h, adc, s.c, s.e, f);
      PhaseKeepsAsking(ps[0], h, adc, s.c, s.e, f, k);
      var err := s.err || o.report.err;
      PhasesKeepAsking(ps[1..], h, adc,
        Fold(o.c, o.e, if err then s.res else LowestNonZero(s.res, o.report.res), err), f, k);
    }
  }

  lemma PhaseKeepsAsking(p: ClusterPhase, h: Key, adc: Adc, c: Cluster, e: Ext, f: Faults, k: Key)
    requires k in e.remotes && e.remotes[k].dataValues == Some(Values("true"))
    ensures var e' := RunPhase(p, h, adc, c, e, f).e; k in e'.remotes && e'.remotes[k].dataValues == Some(Values("true"))
  {
    if p.ReconcileDelete? && c.finalizer && !c.resourceCleanup.IsTrue? {
      ClusterCleanup.CleanupOutcome(h, c, e, f);
    }
  }

  /** If somebody else acts, the data values of `k` stay. */
  predicate LeavesRequest(w: World, a: Action, k: Key) {
    a.Outside? ==> k in w.ext.remotes && k in a.e.remotes && a.e.remotes[k].dataValues == w.ext.remotes[k].dataValues
  }

  /** Once asked, AKO stays asked in every later state, until the workload cluster's data values
      are changed from outside. */
  lemma {:induction false} AkoStaysAsked(ws: seq<World>, acts: seq<Action>, k: Key, i: nat, j: nat)
    requires Run(ws, acts) && i <= j < |ws| && Asked(ws[i], k)
    requires forall t :: i <= t < j ==> LeavesRequest(ws[t], acts[t], k)
    ensures Asked(ws[j], k)
    decreases j - i
  {
    if i < j {
      AkoStaysAsked(ws, acts, k, i, j - 1);
      AskedStep(ws[j - 1], acts[j - 1], k);
    }
  }

  lemma AskedStep(w: World, a: Action, k: Key)
    requires Enabled(w, a) && Asked(w, k) && LeavesRequest(w, a, k)
    ensures Asked(Do(w, a), k)
  {
    if a.AdcVisit? {
      var c, adc := w.clusters[a.k], w.adcs[a.adc];
      PhasesKeepAsking(PhasesFor(a.stage, c), a.k, adc, Fold(ApplyLabel(c, adc.name), w.ext, ZERO, false), a.f, k);
    }
  }

  // ---------------------------------------------------------------- the credentials are gone

  /** A visit that turns user clean-up true works for a customer's ADC, or leaves the AVI user and
      the secret deleted. */
  lemma UserEvidenceStep(w: World, a: Action, k: Key)
    requires Inv(w) && Enabled(w, a) && k.ns != SYSTEM_NAMESPACE && k in w.clusters && k in Do(w, a).clusters
    requires !w.clusters[k].userCleanup.IsTrue? && Do(w, a).clusters[k].userCleanup.IsTrue?
    ensures a.AdcVisit? && a.k == k
    ensures w.adcs[a.adc].customerCredentials || AviUser.CredentialsGone(k, w.ext, Do(w, a).ext)
  {
    if a.AdcVisit? && a.k == k {
      UserEvidenceVisit(w, a);
    } else if !a.AdcVisit? {
      OtherStepSafe(w, a, k);
    }
  }

  lemma UserEvidenceVisit(w: World, a: Action)
    requires Enabled(w, a) && a.AdcVisit? && a.k.ns != SYSTEM_NAMESPACE
    requires !w.clusters[a.k].userCleanup.IsTrue? && Do(w, a).clusters[a.k].userCleanup.IsTrue?
    ensures w.adcs[a.adc].customerCredentials || AviUser.CredentialsGone(a.k, w.ext, Do(w, a).ext)
  {
    var c, adc := w.clusters[a.k], w.adcs[a.adc];
    var s := Fold(ApplyLabel(c, adc.name), w.ext, ZERO, false);
    var ps := PhasesFor(a.stage, c);
    if a.stage == USERS || a.stage == USERS_DELETE {
      assert ps == [ps[0]];
      RunOnePhase(ps[0], a.k, adc, s, a.f);
      if c.deleting {
        AviUser.UserDeletionOutcome(a.k, s.c, adc, w.ext, a.f);
      }
    } else {
      assert ps == [ps[0], ps[1]];
      ClusterStageKeepsUserCleanup(ps[0], ps[1], a.k, adc, s, a.f);
    }
  }

  lemma ClusterStageKeepsUserCleanup(p0: ClusterPhase, p1: ClusterPhase, k: Key, adc: Adc, s: Fold, f: Faults)
    requires !p0.ReconcileAviUser? && !p0.ReconcileAviUserDelete? && !p1.ReconcileAviUser? && !p1.ReconcileAviUserDelete?
    ensures RunPhases([p0, p1], k, adc, s, f).c.userCleanup == s.c.userCleanup
  {
    RunTwoPhases(p0, p1, k, adc, s, f);
  }

  /** If user clean-up turned true during a run, some visit to that very cluster left its AVI user
      and its secret deleted, or worked for an ADC with credentials of the customer. */
  lemma {:induction false} UserCleanupHasEvidence(ws: seq<World>, acts: seq<Action>, k: Key, i: nat, j: nat)
    requires Run(ws, acts) && Inv(ws[0]) && Lives(ws, k, i, j) && k.ns != SYSTEM_NAMESPACE
    requires !ws[i].clusters[k].userCleanup.IsTrue? && ws[j].clusters[k].userCleanup.IsTrue?
    ensures exists t :: i <= t < j && acts[t].AdcVisit? && acts[t].k == k && acts[t].adc in ws[t].adcs
                        && (|| ws[t].adcs[acts[t].adc].customerCredentials
                            || AviUser.CredentialsGone(k, ws[t].ext, ws[t + 1].ext))
    decreases j - i
  {
    assert k in ws[i + 1].clusters;
    if !ws[i + 1].clusters[k].userCleanup.IsTrue? {
      UserCleanupHasEvidence(ws, acts, k, i + 1, j);
    } else {
      RunKeepsInv(ws, acts, i);
      UserEvidenceStep(ws[i], acts[i], k);
    }
  }

  // ---------------------------------------------------------------- label and finalizer

  /** A Cluster pass that looks up the owner and whose patch is applied writes the owner's name
      into the label and nothing else; without an owner label and finalizer are gone. */
  lemma ClusterPassWrites(w: World, a: Action)
    requires Enabled(w, a) && a.ClusterPass? && ReachesLookup(w.clusters[a.k], a.ca) && a.ca.patch.Applied()
    ensures var c, c' := w.clusters[a.k], Do(w, a).clusters[a.k];
      && c'.labels == Labelled(c, a.owner).labels
      && c'.labels - {AVI_LABEL} == c.labels - {AVI_LABEL}
      && (a.owner.Some? ==>
            AVI_LABEL in c'.labels && c'.labels[AVI_LABEL] == a.owner.value.name && c'.finalizer == c.finalizer)
      && (a.owner.None? ==> AVI_LABEL !in c'.labels && !c'.finalizer)
      && c'.(labels := c.labels, finalizer := c.finalizer) == c
      && Do(w, a) == w.(clusters := w.clusters[a.k := c'])
  {
    var c := w.clusters[a.k];
    assert Labelled(c, a.owner).labels - {AVI_LABEL} == c.labels - {AVI_LABEL};
  }

  /** Any other Cluster pass leaves the world as it is. */
  lemma ClusterPassElse(w: World, a: Action)
    requires Enabled(w, a) && a.ClusterPass? && !(ReachesLookup(w.clusters[a.k], a.ca) && a.ca.patch.Applied())
    ensures Do(w, a) == w
  {
    assert w.clusters[a.k := w.clusters[a.k]] == w.clusters;
  }

  /** After such a pass the ADC controller lists the cluster for an ADC exactly when the lookup
      returned that ADC, if and only if the ADC's requirements on the label allow it. */
  lemma PassAgreesIff(w: World, a: Action, n: string, getFails: bool)
    requires Inv(w) && Enabled(w, a) && a.ClusterPass? && ReachesLookup(w.clusters[a.k], a.ca) && a.ca.patch.Applied()
    requires a.k.ns != SYSTEM_NAMESPACE && !SkipCluster(w.clusters[a.k], w.bootstrap) && n in w.adcs
    ensures var w' := Do(w, a);
      (Listed(a.k, w'.clusters[a.k], w'.adcs[n], w'.adcs, w'.bootstrap, getFails) <==> a.owner == Some(w.adcs[n]))
      <==> Agreeable(w.adcs[n], w.clusters[a.k], a.owner, getFails)
  {
    ClusterPassWrites(w, a);
    ListedByLabels(a.k, Do(w, a).clusters[a.k], Labelled(w.clusters[a.k], a.owner), w.adcs[n], w.adcs, w.bootstrap, getFails);
    SelectionAgreesIff(a.k, w.clusters[a.k], w.adcs, a.ca.listing, a.owner, w.bootstrap, getFails, n);
  }

  lemma ListedByLabels(k: Key, c: Cluster, c': Cluster, adc: Adc, adcs: map<string, Adc>, bootstrap: bool, getFails: bool)
    requires c.labels == c'.labels && c.ready == c'.ready && c.deleting == c'.deleting
    ensures Listed(k, c, adc, adcs, bootstrap, getFails) <==> Listed(k, c', adc, adcs, bootstrap, getFails)
  {
  }

  /** With selectors that do not mention the label the ADC controller can visit the cluster for
      exactly the ADC the lookup returned. */
  lemma PassAgrees(w: World, a: Action, n: string, stage: Stage, f: Faults)
    requires Inv(w) && Enabled(w, a) && a.ClusterPass? && ReachesLookup(w.clusters[a.k], a.ca) && a.ca.patch.Applied()
    requires a.k.ns != SYSTEM_NAMESPACE && !SkipCluster(w.clusters[a.k], w.bootstrap)
    requires n in w.adcs && StageOf(w.adcs[n], stage)
    requires forall m :: m in w.adcs ==> !MentionsAviLabel(w.adcs[m].selector)
    ensures Enabled(Do(w, a), AdcVisit(n, stage, a.k, f)) <==> a.owner == Some(w.adcs[n])
  {
    ClusterPassWrites(w, a);
    ListedByLabels(a.k, Do(w, a).clusters[a.k], Labelled(w.clusters[a.k], a.owner), w.adcs[n], w.adcs, w.bootstrap,
                   f.defaultAdcGet);
    SelectionAgrees(a.k, w.clusters[a.k], w.adcs, a.ca.listing, a.owner, w.bootstrap, f.defaultAdcGet, n);
  }

  /** A failure-free cluster visit of a normal ADC takes possession of a live AVI cluster: the label
      names the ADC, a workload cluster gets the finalizer, the add-on secret exists, and nothing
      else changes. */
  lemma NormalVisitTakes(w: World, a: Action)
    requires Enabled(w, a) && a.AdcVisit? && a.stage == CLUSTERS && FaultFree(a.f)
    requires w.clusters[a.k].lb.Avi? && !w.clusters[a.k].deleting
    ensures var c := w.clusters[a.k];
      var taken := c.(labels := c.labels[AVI_LABEL := w.adcs[a.adc].name],
                      finalizer := c.finalizer || a.k.ns != SYSTEM_NAMESPACE);
      Do(w, a) == w.(clusters := w.clusters[a.k := taken], ext := w.ext.(addons := w.ext.addons + {a.k}))
  {
    var c, adc := w.clusters[a.k], w.adcs[a.adc];
    RunTwoPhases(AddClusterFinalizer, ReconcileAddonSecret, a.k, adc, Fold(ApplyLabel(c, adc.name), w.ext, ZERO, false), a.f);
  }

  /** A failure-free cluster visit of a deleting ADC gives a live AVI cluster up: finalizer and
      add-on secret are gone. */
  lemma DeletingVisitReleases(w: World, a: Action)
    requires Enabled(w, a) && a.AdcVisit? && a.stage == CLUSTERS_DELETE && FaultFree(a.f)
    requires w.clusters[a.k].lb.Avi? && !w.clusters[a.k].deleting
    ensures var c := w.clusters[a.k];
      var released := c.(labels := c.labels[AVI_LABEL := w.adcs[a.adc].name], finalizer := false);
      Do(w, a) == w.(clusters := w.clusters[a.k := released], ext := w.ext.(addons := w.ext.addons - {a.k}))
  {
    var c, adc := w.clusters[a.k], w.adcs[a.adc];
    RunTwoPhases(RemoveClusterFinalizer, ReconcileAddonSecretDelete, a.k, adc,
                 Fold(ApplyLabel(c, adc.name), w.ext, ZERO, false), a.f);
    if a.k !in w.ext.addons {
      assert w.ext.addons - {a.k} == w.ext.addons;
    }
  }

  /** A cluster whose load balancer is kube-vip, or whose provider cannot be decoded, is left
      alone; the latter is an error. */
  lemma VisitSkips(w: World, k: Key, adc: Adc, stage: Stage, f: Faults, res: Result)
    requires k in w.clusters && !w.clusters[k].lb.Avi?
    ensures Iterate(w, k, adc, stage, f, res) == PassOut(w, res, w.clusters[k].lb.Unreadable?, false)
  {
  }

  // ---------------------------------------------------------------- the hook

  /** The machine's pass gets past its cluster, which uses AVI, and its patch is applied. */
  predicate Decides(w: World, a: Action) {
    && a.MachinePass? && a.mk in w.machines && a.ma.patch.Applied()
    && !MachineFails(w.machines[a.mk], a.mk.ns, w.clusters, a.ma)
    && w.machines[a.mk].clusterName.Some? && w.clusters[Key(a.mk.ns, w.machines[a.mk].clusterName.value)].lb.Avi?
  }

  /** When the hook is there after such a pass: never without the label; on a deleting cluster if
      it was there and the finalizer still is; on a live one if the machine is not being deleted
      and it was there or may be set. Nothing else changes. */
  lemma HookAfterPass(w: World, a: Action)
    requires Decides(w, a)
    ensures var m, m' := w.machines[a.mk], Do(w, a).machines[a.mk];
      var c := w.clusters[Key(a.mk.ns, m.clusterName.value)];
      && (HasHook(m') <==>
            && AVI_LABEL in c.labels
            && if c.deleting then c.finalizer && HasHook(m)
               else !m.deleting && (HasHook(m) || (HOOK_PREFIX !in m.annotations && a.mk.ns != SYSTEM_NAMESPACE)))
      && m'.annotations - {PRE_TERMINATE_HOOK} == m.annotations - {PRE_TERMINATE_HOOK}
      && m'.(annotations := m.annotations) == m
  {
  }

  /** Any other Machine pass leaves the machine alone. */
  lemma OtherMachinePass(w: World, a: Action)
    requires a.MachinePass? && a.mk in w.machines && !Decides(w, a)
    ensures Do(w, a) == w
  {
    assert w.machines[a.mk := w.machines[a.mk]] == w.machines;
  }
}
