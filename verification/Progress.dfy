/** Bounded progress of a deletion: once AKO is done, two failure-free passes take the
    finalizer off a deleting cluster exactly when its AVI user can still be deleted. */
module Progress {
  import opened Objects
  import opened Selection
  import opened Phases
  import opened AdcPass
  import ClusterCleanup
  import AviUser
  import P = Protocol

  /** AKO has finished, or there is nothing for it to do. */
  ghost predicate AkoReady(k: Key, e: Ext) {
    && k in e.remotes
    && match e.remotes[k].dataValues
       case None => true
       case Some(Unparsable) => false
       case Some(Values(_)) => ClusterCleanup.CleanupFinished(e.remotes[k].ako)
  }

  /** The user step can succeed: already done, nothing to do, or the secret and the user it
      names both still exist. */
  ghost predicate Deletable(k: Key, c: Cluster, adc: Adc, e: Ext) {
    || c.userCleanup.IsTrue? || k.ns == SYSTEM_NAMESPACE || adc.customerCredentials
    || (k in e.secrets && e.secrets[k].username in e.users)
  }

  // ---------------------------------------------------------------- other clusters do not interfere

  /** The two agree on everything the passes read for `k`. */
  ghost predicate SameFor(k: Key, e: Ext, e': Ext) {
    && (k in e.secrets <==> k in e'.secrets)
    && (k in e.secrets ==> && e'.secrets[k] == e.secrets[k]
                           && (e.secrets[k].username in e.users <==> e.secrets[k].username in e'.users))
    && (k in e.remotes <==> k in e'.remotes)
    && (k in e.remotes ==> e'.remotes[k] == e.remotes[k])
  }

  lemma CleanupFrame(h: Key, c: Cluster, e: Ext, f: Faults, k: Key, ks: set<Key>)
    requires h != k && AviUser.NoClash(k, e, ks)
    ensures var o := ClusterCleanup.ReconcileDeleteSpec(h, c, e, f); SameFor(k, e, o.e) && AviUser.NoClash(k, o.e, ks)
  {
    var o := ClusterCleanup.CleanupSpec(h, c, e, f);
    assert k in e.remotes <==> k in e.remotes - {h};
    assert k in o.e.remotes <==> k in o.e.remotes - {h};
    assert k in e.remotes ==> (e.remotes - {h})[k] == e.remotes[k] && (o.e.remotes - {h})[k] == o.e.remotes[k];
  }

  lemma UserNormalFrame(h: Key, adc: Adc, e: Ext, f: Faults, k: Key, ks: set<Key>)
    requires h != k && h in ks && AviUser.NoClash(k, e, ks)
    ensures var o := AviUser.ReconcileNormalSpec(h, adc, e, f); SameFor(k, e, o.e) && AviUser.NoClash(k, o.e, ks)
  {
  }

  lemma UserDeleteFrame(h: Key, c: Cluster, adc: Adc, e: Ext, f: Faults, k: Key, ks: set<Key>)
    requires h != k && h in ks && AviUser.NoClash(k, e, ks)
    ensures var o := AviUser.ReconcileUserDeleteSpec(h, c, adc, e, f);
            SameFor(k, e, o.e) && AviUser.NoClash(k, o.e, ks)
  {
  }

  lemma PhaseFrame(p: ClusterPhase, h: Key, adc: Adc, c: Cluster, e: Ext, f: Faults, k: Key, ks: set<Key>)
    requires h != k && h in ks && AviUser.NoClash(k, e, ks)
    ensures var o := RunPhase(p, h, adc, c, e, f); SameFor(k, e, o.e) && AviUser.NoClash(k, o.e, ks)
  {
    match p {
      case ReconcileDelete => CleanupFrame(h, c, e, f, k, ks);
      case ReconcileAviUser =>
        UserNormalFrame(h, adc, e, f, k, ks);
        UserDeleteFrame(h, c, adc, e, f, k, ks);
      case ReconcileAviUserDelete => UserDeleteFrame(h, c, adc, e, f, k, ks);
      case _ =>
    }
  }

  lemma {:induction false} PhasesFrame(ps: seq<ClusterPhase>, h: Key, adc: Adc, s: Fold, f: Faults, k: Key, ks: set<Key>)
    requires h != k && h in ks && AviUser.NoClash(k, s.e, ks)
    ensures var o := RunPhases(ps, h, adc, s, f); SameFor(k, s.e, o.e) && AviUser.NoClash(k, o.e, ks)
  {
    if ps != [] {
      var o := RunPhase(ps[0], h, adc, s.c, s.e, f);
      PhaseFrame(ps[0], h, adc, s.c, s.e, f, k, ks);
      var err := s.err || o.report.err;
      PhasesFrame(ps[1..], h, adc,
        Fold(o.c, o.e, if err then s.res else LowestNonZero(s.res, o.report.res), err), f, k, ks);
    }
  }

  lemma IterateFrame(w: World, h: Key, adc: Adc, stage: Stage, f: Faults, res: Result, k: Key)
    requires h in w.clusters && h != k && AviUser.NoClash(k, w.ext, w.clusters.Keys)
    ensures var o := Iterate(w, h, adc, stage, f, res); SameFor(k, w.ext, o.w.ext) && AviUser.NoClash(k, o.w.ext, w.clusters.Keys)
  {
    var c := w.clusters[h];
    PhasesFrame(PhasesFor(stage, c), h, adc, Fold(ApplyLabel(c, adc.name), w.ext, res, false), f, k, w.clusters.Keys);
  }

  lemma {:induction false} LoopFrame(ks: seq<Key>, w: World, adc: Adc, stage: Stage, fs: Key -> Faults,
                                     res: Result, err: bool, k: Key)
    requires k !in ks && (forall h <- ks :: h in w.clusters) && AviUser.NoClash(k, w.ext, w.clusters.Keys)
    ensures var o := IterateAll(ks, w, adc, stage, fs, res, err);
            SameFor(k, w.ext, o.w.ext) && AviUser.NoClash(k, o.w.ext, w.clusters.Keys)
  {
    if ks != [] {
      var h := ks[0];
      assert h in ks;
      IterateFrame(w, h, adc, stage, fs(h), res, k);
      var o := Iterate(w, h, adc, stage, fs(h), res);
      if !o.aborted {
        LoopFrame(ks[1..], o.w, adc, stage, fs, o.res, err || o.err, k);
      }
    }
  }

  // ---------------------------------------------------------------- the visit to one cluster

  /** The world is ready for the deletion of `k` by ADC `n` to make progress. */
  ghost predicate Ready(w: World, n: string, k: Key) {
    && n in w.adcs && w.adcs[n].name == n
    && k in w.clusters && w.clusters[k].deleting && w.clusters[k].lb.Avi?
    && Listed(k, w.clusters[k], w.adcs[n], w.adcs, w.bootstrap, false)
    && Matches(w.adcs[n].selector, w.clusters[k].labels[AVI_LABEL := n])
    && AkoReady(k, w.ext) && AviUser.NoClash(k, w.ext, w.clusters.Keys)
  }

  /** The phases a deleting cluster gets from the user stages and from the cluster stages. */
  function DeletePhases(users: bool): seq<ClusterPhase> {
    if users then [ReconcileAviUserDelete] else [ReconcileAddonSecretDelete, ReconcileDelete]
  }

  /** What a visit of the user stage, or of the cluster stage, does to the deleting `k`. */
  ghost predicate Visited(k: Key, adc: Adc, users: bool, c: Cluster, e: Ext, c': Cluster, e': Ext) {
    && c' == c.(labels := c.labels[AVI_LABEL := adc.name], finalizer := c'.finalizer,
                resourceCleanup := c'.resourceCleanup, userCleanup := c'.userCleanup)
    && AkoReady(k, e')
    && (Deletable(k, c, adc, e) <==> Deletable(k, c', adc, e'))
    && (if users then
          && c'.resourceCleanup == c.resourceCleanup && c'.finalizer == c.finalizer
          && (c'.userCleanup.IsTrue? <==>
                c.userCleanup.IsTrue? || (c.resourceCleanup.IsTrue? && Deletable(k, c, adc, e)))
        else
          && (c'.userCleanup.IsTrue? <==> c.userCleanup.IsTrue?)
          && (c.finalizer ==> c'.resourceCleanup.IsTrue?)
          && (!c.finalizer ==> c'.resourceCleanup == c.resourceCleanup)
          && (c'.finalizer <==> c.finalizer && !c.userCleanup.IsTrue?))
  }

  lemma UserPhase(k: Key, adc: Adc, c: Cluster, e: Ext, f: Faults, ks: set<Key>)
    requires c.deleting && FaultFree(f) && AkoReady(k, e) && AviUser.NoClash(k, e, ks)
    ensures var o := AviUser.ReconcileUserDeleteSpec(k, ApplyLabel(c, adc.name), adc, e, f);
            Visited(k, adc, true, c, e, o.c, o.e) && AviUser.NoClash(k, o.e, ks)
  {
  }

  /** The clean-up phase; the add-on secrets, which may differ, play no part. */
  lemma CleanupPhase(k: Key, adc: Adc, c: Cluster, e: Ext, addons: set<Key>, f: Faults, ks: set<Key>)
    requires c.deleting && FaultFree(f) && AkoReady(k, e) && AviUser.NoClash(k, e, ks)
    ensures var o := ClusterCleanup.ReconcileDeleteSpec(k, ApplyLabel(c, adc.name), e.(addons := addons), f);
            Visited(k, adc, false, c, e, o.c, o.e) && AviUser.NoClash(k, o.e, ks)
  {
  }

  lemma ClusterPhases(k: Key, adc: Adc, c: Cluster, e: Ext, f: Faults, ks: set<Key>)
    requires c.deleting && FaultFree(f) && AkoReady(k, e) && AviUser.NoClash(k, e, ks)
    ensures var o0 := RunPhase(ReconcileAddonSecretDelete, k, adc, ApplyLabel(c, adc.name), e, f);
            var o := ClusterCleanup.ReconcileDeleteSpec(k, o0.c, o0.e, f);
            Visited(k, adc, false, c, e, o.c, o.e) && AviUser.NoClash(k, o.e, ks)
  {
    var o0 := RunPhase(ReconcileAddonSecretDelete, k, adc, ApplyLabel(c, adc.name), e, f);
    assert o0.c == ApplyLabel(c, adc.name) && o0.e == e.(addons := o0.e.addons);
    CleanupPhase(k, adc, c, e, o0.e.addons, f, ks);
  }

  lemma VisitOne(w: World, k: Key, adc: Adc, stage: Stage, users: bool, f: Faults, res: Result)
    requires k in w.clusters && w.clusters[k].deleting && w.clusters[k].lb.Avi?
    requires stage.delete == DeletePhases(users)
    requires FaultFree(f) && AkoReady(k, w.ext) && AviUser.NoClash(k, w.ext, w.clusters.Keys)
    ensures var o := Iterate(w, k, adc, stage, f, res);
            && Visited(k, adc, users, w.clusters[k], w.ext, o.w.clusters[k], o.w.ext)
            && AviUser.NoClash(k, o.w.ext, w.clusters.Keys)
  {
    var c := w.clusters[k];
    var s := Fold(ApplyLabel(c, adc.name), w.ext, res, false);
    if users {
      RunOnePhase(ReconcileAviUserDelete, k, adc, s, f);
      UserPhase(k, adc, c, w.ext, f, w.clusters.Keys);
    } else {
      RunTwoPhases(ReconcileAddonSecretDelete, ReconcileDelete, k, adc, s, f);
      ClusterPhases(k, adc, c, w.ext, f, w.clusters.Keys);
    }
  }

  lemma VisitedCongruence(k: Key, adc: Adc, users: bool, c: Cluster, e: Ext, e1: Ext, c': Cluster, e1': Ext, e': Ext)
    requires SameFor(k, e, e1) && SameFor(k, e1', e') && Visited(k, adc, users, c, e1, c', e1')
    ensures Visited(k, adc, users, c, e, c', e')
  {
    assert Deletable(k, c, adc, e) <==> Deletable(k, c, adc, e1);
    assert Deletable(k, c', adc, e1') <==> Deletable(k, c', adc, e');
  }

  /** The whole loop does to `k` what a single visit does. */
  lemma {:induction false} LoopVisits(ks: seq<Key>, w: World, adc: Adc, stage: Stage, users: bool, fs: Key -> Faults,
                                      res: Result, err: bool, k: Key)
    requires Distinct(ks) && (forall h <- ks :: h in w.clusters) && k in ks
    requires w.clusters[k].deleting && w.clusters[k].lb.Avi?
    requires stage.delete == DeletePhases(users) && (forall h :: FaultFree(fs(h)))
    requires AkoReady(k, w.ext) && AviUser.NoClash(k, w.ext, w.clusters.Keys)
    ensures var o := IterateAll(ks, w, adc, stage, fs, res, err);
            && Visited(k, adc, users, w.clusters[k], w.ext, o.w.clusters[k], o.w.ext)
            && AviUser.NoClash(k, o.w.ext, w.clusters.Keys)
  {
    var h := ks[0];
    assert h in ks;
    var o := Iterate(w, h, adc, stage, fs(h), res);
    assert FaultFree(fs(h));
    if h == k {
      VisitOne(w, k, adc, stage, users, fs(k), res);
      LoopFrame(ks[1..], o.w, adc, stage, fs, o.res, err || o.err, k);
      var end := IterateAll(ks[1..], o.w, adc, stage, fs, o.res, err || o.err).w;
      VisitedCongruence(k, adc, users, w.clusters[k], w.ext, w.ext, o.w.clusters[k], o.w.ext, end.ext);
    } else {
      IterateFrame(w, h, adc, stage, fs(h), res, k);
      LoopVisits(ks[1..], o.w, adc, stage, users, fs, o.res, err || o.err, k);
      var end := IterateAll(ks[1..], o.w, adc, stage, fs, o.res, err || o.err).w;
      VisitedCongruence(k, adc, users, w.clusters[k], w.ext, o.w.ext, end.clusters[k], end.ext, end.ext);
    }
  }

  // ---------------------------------------------------------------- whole passes

  /** No call of the pass fails, and every listing returns every cluster. */
  ghost predicate FailureFree(g: AdcAnswers, ks: set<Key>) {
    && !g.initAvi && g.patch.Done? && OrdersDistinct(g) && (forall p :: !g.fails(p))
    && forall s :: !g.of(s).listFails && (forall k :: FaultFree(g.of(s).of(k)))
                   && (forall k <- ks :: k in g.of(s).order)
  }

  /** Being ready does not depend on what a visit changes. */
  lemma ReadyAfterVisit(w: World, w': World, n: string, users: bool, k: Key)
    requires Ready(w, n, k) && w'.adcs == w.adcs && w'.bootstrap == w.bootstrap && w'.clusters.Keys == w.clusters.Keys
    requires Visited(k, w.adcs[n], users, w.clusters[k], w.ext, w'.clusters[k], w'.ext)
    requires AviUser.NoClash(k, w'.ext, w.clusters.Keys)
    ensures Ready(w', n, k)
  {
    var l := w.clusters[k].labels;
    assert w'.clusters[k].labels == l[AVI_LABEL := n];
    assert l[AVI_LABEL := n][AVI_LABEL := n] == l[AVI_LABEL := n];
  }

  lemma StageVisits(w: World, n: string, stage: Stage, users: bool, g: AdcAnswers, k: Key)
    requires Ready(w, n, k) && stage.delete == DeletePhases(users) && FailureFree(g, w.clusters.Keys)
    ensures var o := ClustersPass(w, w.adcs[n], stage, g.of(stage));
            && Visited(k, w.adcs[n], users, w.clusters[k], w.ext, o.w.clusters[k], o.w.ext)
            && Ready(o.w, n, k)
  {
    var a := g.of(stage);
    var adc := w.adcs[n];
    assert FaultFree(a.of(k));
    ListedKeysDistinct(a.order, w, adc, k => a.of(k).defaultAdcGet);
    var ks := ListOf(w, adc, a);
    assert k in ks by {
      assert k in a.order;
    }
    LoopVisits(ks, w, adc, stage, users, a.of, ZERO, false, k);
    ReadyAfterVisit(w, IterateAll(ks, w, adc, stage, a.of, ZERO, false).w, n, users, k);
  }

  /** The clusters' view of a normal pass: users first, then clusters. */
  lemma NormalStages(w: World, adc: Adc, g: AdcAnswers)
    requires !g.initAvi
    ensures var w1 := ClustersPass(w, adc, USERS, g.of(USERS)).w;
            RunAdcPhases(NORMAL, AdcOut(w, ZERO, false), adc, g).w
              == ClustersPass(w1, adc, CLUSTERS, g.of(CLUSTERS)).w
  {
    var singles := [NetworkSubnets, CloudUsableNetwork, AviInfraSetting, ControllerVersion];
    SinglesThen(singles, ForClusters(USERS), AdcOut(w, ZERO, false), adc, g);
    var avi := WithAvi(singles + [ForClusters(USERS)]);
    assert singles + [ForClusters(USERS)]
        == [NetworkSubnets, CloudUsableNetwork, AviInfraSetting, ControllerVersion, ForClusters(USERS)];
    assert NORMAL == [avi, ForClusters(CLUSTERS)];
    LastTwo(avi, ForClusters(CLUSTERS), AdcOut(w, ZERO, false), adc, g);
  }

  /** The clusters' view of a deletion pass: clusters first, then users. */
  lemma DeleteStages(w: World, adc: Adc, g: AdcAnswers)
    requires !g.initAvi
    ensures var w1 := ClustersPass(w, adc, CLUSTERS_DELETE, g.of(CLUSTERS_DELETE)).w;
            RunAdcPhases(DELETE, AdcOut(w, ZERO, false), adc, g).w
              == ClustersPass(w1, adc, USERS_DELETE, g.of(USERS_DELETE)).w
  {
    var w1 := ClustersPass(w, adc, CLUSTERS_DELETE, g.of(CLUSTERS_DELETE)).w;
    var singles := [AviInfraSettingDelete];
    SinglesThen(singles, ForClusters(USERS_DELETE), AdcOut(w1, ZERO, false), adc, g);
    var avi := WithAvi(singles + [ForClusters(USERS_DELETE)]);
    assert singles + [ForClusters(USERS_DELETE)] == [AviInfraSettingDelete, ForClusters(USERS_DELETE)];
    assert DELETE == [ForClusters(CLUSTERS_DELETE), avi];
    LastTwo(ForClusters(CLUSTERS_DELETE), avi, AdcOut(w, ZERO, false), adc, g);
  }

  lemma LastTwo(p: AdcPhase, q: AdcPhase, s: AdcOut, adc: Adc, g: AdcAnswers)
    ensures RunAdcPhases([p, q], s, adc, g).w == RunAdcPhase(q, RunAdcPhase(p, s.w, adc, g).w, adc, g).w
  {
    assert [p, q][1..] == [q] && [q][1..] == [];
    var o := RunAdcPhase(p, s.w, adc, g);
    var err := s.err || o.err;
    var s1 := AdcOut(o.w, if err then s.res else LowestNonZero(s.res, o.res), err);
    assert RunAdcPhases([p, q], s, adc, g) == RunAdcPhases([q], s1, adc, g);
    var o1 := RunAdcPhase(q, s1.w, adc, g);
    var err1 := s1.err || o1.err;
    assert RunAdcPhases([q], s1, adc, g)
        == RunAdcPhases([], AdcOut(o1.w, if err1 then s1.res else LowestNonZero(s1.res, o1.res), err1), adc, g);
  }

  /** Phases that touch no cluster, then one that does. */
  lemma {:induction false} SinglesThen(ps: seq<AdcPhase>, q: AdcPhase, s: AdcOut, adc: Adc, g: AdcAnswers)
    requires forall p <- ps :: !p.ForClusters? && !p.WithAvi?
    ensures RunAdcPhases(ps + [q], s, adc, g).w == RunAdcPhase(q, s.w, adc, g).w
  {
    if ps == [] {
      assert ps + [q] == [q] && [q][1..] == [];
      var o := RunAdcPhase(q, s.w, adc, g);
      var err := s.err || o.err;
      assert RunAdcPhases([q], s, adc, g)
          == RunAdcPhases([], AdcOut(o.w, if err then s.res else LowestNonZero(s.res, o.res), err), adc, g);
    } else {
      assert ps[0] in ps;
      assert (ps + [q])[0] == ps[0] && (ps + [q])[1..] == ps[1..] + [q];
      var o := RunAdcPhase(ps[0], s.w, adc, g);
      var err := s.err || o.err;
      SinglesThen(ps[1..], q, AdcOut(o.w, if err then s.res else LowestNonZero(s.res, o.res), err), adc, g);
    }
  }

  /** How far the deletion of a cluster still has to go. */
  function Rank(c: Cluster): nat {
    if !c.finalizer then 0
    else 1 + (if c.resourceCleanup.IsTrue? then 0 else 1) + (if c.userCleanup.IsTrue? then 0 else 1)
  }

  /** The ADC is set up to clean its clusters: a deleting ADC still carries its finalizer. */
  ghost predicate Cleaning(w: World, n: string) {
    n in w.adcs && (w.adcs[n].deleting ==> w.adcs[n].finalizer)
  }

  /** A deletable cluster in this state loses its finalizer in the next pass. */
  predicate LastPass(c: Cluster, deleting: bool) {
    if deleting then c.userCleanup.IsTrue? else c.resourceCleanup.IsTrue?
  }

  /** What a failure-free pass does to cluster `k`: it moves a deletable one strictly closer
      and never moves the finalizer of one that is not. */
  ghost predicate Moved(k: Key, adc: Adc, c: Cluster, e: Ext, c': Cluster, e': Ext) {
    && (Deletable(k, c, adc, e) <==> Deletable(k, c', adc, e'))
    && (!c.finalizer ==> !c'.finalizer)
    && (if Deletable(k, c, adc, e) then
          && (c.finalizer ==> Rank(c') < Rank(c))
          && (c'.finalizer ==> !LastPass(c, adc.deleting) && LastPass(c', adc.deleting))
        else c'.finalizer == c.finalizer)
  }

  lemma VisitsMove(k: Key, adc: Adc, usersFirst: bool, c: Cluster, e: Ext, c1: Cluster, e1: Ext, c2: Cluster, e2: Ext)
    requires Visited(k, adc, usersFirst, c, e, c1, e1) && Visited(k, adc, !usersFirst, c1, e1, c2, e2)
    requires usersFirst == !adc.deleting
    ensures Moved(k, adc, c, e, c2, e2)
  {
  }

  /** The two stages of a pass, one after the other. */
  lemma BothStages(w: World, n: string, s1: Stage, s2: Stage, usersFirst: bool, g: AdcAnswers, k: Key)
    requires Ready(w, n, k) && FailureFree(g, w.clusters.Keys) && usersFirst == !w.adcs[n].deleting
    requires s1.delete == DeletePhases(usersFirst) && s2.delete == DeletePhases(!usersFirst)
    ensures var adc := w.adcs[n];
            var w1 := ClustersPass(w, adc, s1, g.of(s1)).w;
            var w2 := ClustersPass(w1, adc, s2, g.of(s2)).w;
            && Ready(w2, n, k) && w2.adcs == w.adcs && w2.clusters.Keys == w.clusters.Keys
            && Moved(k, adc, w.clusters[k], w.ext, w2.clusters[k], w2.ext)
  {
    var adc := w.adcs[n];
    StageVisits(w, n, s1, usersFirst, g, k);
    var w1 := ClustersPass(w, adc, s1, g.of(s1)).w;
    StageVisits(w1, n, s2, !usersFirst, g, k);
    var w2 := ClustersPass(w1, adc, s2, g.of(s2)).w;
    VisitsMove(k, adc, usersFirst, w.clusters[k], w.ext, w1.clusters[k], w1.ext, w2.clusters[k], w2.ext);
  }

  lemma ReadyAfterPatch(w: World, n: string, finalizer: bool, k: Key)
    requires Ready(w, n, k)
    ensures Ready(WithFinalizer(w, n, finalizer), n, k)
  {
  }

  lemma NormalProgress(w: World, n: string, g: AdcAnswers, k: Key)
    requires Ready(w, n, k) && !w.adcs[n].deleting && FailureFree(g, w.clusters.Keys)
    ensures var w' := NormalPass(w, n, g).w;
            && Ready(w', n, k) && w'.adcs[n] == w.adcs[n].(finalizer := true) && w'.clusters.Keys == w.clusters.Keys
            && Moved(k, w.adcs[n], w.clusters[k], w.ext, w'.clusters[k], w'.ext)
  {
    var adc := w.adcs[n];
    NormalStages(w, adc, g);
    BothStages(w, n, USERS, CLUSTERS, true, g, k);
    var w1 := ClustersPass(w, adc, USERS, g.of(USERS)).w;
    var w2 := ClustersPass(w1, adc, CLUSTERS, g.of(CLUSTERS)).w;
    ReadyAfterPatch(w2, n, true, k);
  }

  lemma DeleteProgress(w: World, n: string, g: AdcAnswers, k: Key)
    requires Ready(w, n, k) && w.adcs[n].deleting && w.adcs[n].finalizer && FailureFree(g, w.clusters.Keys)
    ensures var w' := DeletePass(w, n, g).w;
            && Ready(w', n, k) && w'.adcs[n] == w.adcs[n].(finalizer := w'.adcs[n].finalizer)
            && w'.clusters.Keys == w.clusters.Keys
            && (w'.clusters[k].finalizer ==> w'.adcs[n].finalizer)
            && Moved(k, w.adcs[n], w.clusters[k], w.ext, w'.clusters[k], w'.ext)
  {
    var adc := w.adcs[n];
    DeleteStages(w, adc, g);
    BothStages(w, n, CLUSTERS_DELETE, USERS_DELETE, false, g, k);
    var w1 := ClustersPass(w, adc, CLUSTERS_DELETE, g.of(CLUSTERS_DELETE)).w;
    var w2 := ClustersPass(w1, adc, USERS_DELETE, g.of(USERS_DELETE)).w;
    ReadyAfterPatch(w2, n, false, k);
    LeavesNoFinalizer(w, n, g, k);
  }

  /** An ADC does not go before the clusters it can see. */
  lemma LeavesNoFinalizer(w: World, n: string, g: AdcAnswers, k: Key)
    requires Ready(w, n, k) && w.adcs[n].deleting && w.adcs[n].finalizer && FailureFree(g, w.clusters.Keys)
    ensures var w' := DeletePass(w, n, g).w; w'.clusters[k].finalizer ==> w'.adcs[n].finalizer
  {
    var a := g.of(CLUSTERS_DELETE);
    assert k in a.order && FaultFree(a.of(k));
    assert k in ListOf(w, w.adcs[n], a);
    AdcFinalizerTheorem(w, n, g);
  }

  /** One failure-free pass, in either mode of the ADC. */
  lemma PassProgress(w: World, n: string, g: AdcAnswers, k: Key)
    requires Ready(w, n, k) && Cleaning(w, n) && FailureFree(g, w.clusters.Keys)
    ensures var w' := Pass(w, n, g).w;
            && Ready(w', n, k) && w'.adcs[n] == w.adcs[n].(finalizer := w'.adcs[n].finalizer)
            && w'.clusters.Keys == w.clusters.Keys
            && (w'.clusters[k].finalizer ==> Cleaning(w', n))
            && Moved(k, w.adcs[n], w.clusters[k], w.ext, w'.clusters[k], w'.ext)
  {
    if w.adcs[n].deleting {
      DeleteProgress(w, n, g, k);
    } else {
      NormalProgress(w, n, g, k);
    }
  }

  /** Two failure-free passes, in either mode of the ADC, take the finalizer off a deleting
      cluster exactly when its AVI user could still be deleted. */
  lemma TwoPassesSuffice(w: World, n: string, g1: AdcAnswers, g2: AdcAnswers, k: Key)
    requires Ready(w, n, k) && Cleaning(w, n) && w.clusters[k].finalizer
    requires FailureFree(g1, w.clusters.Keys) && FailureFree(g2, w.clusters.Keys)
    ensures var w1 := Pass(w, n, g1).w;
            var w2 := Pass(w1, n, g2).w;
            !w2.clusters[k].finalizer <==> Deletable(k, w.clusters[k], w.adcs[n], w.ext)
  {
    PassProgress(w, n, g1, k);
    var w1 := Pass(w, n, g1).w;
    if Cleaning(w1, n) {
      PassProgress(w1, n, g2, k);
    }
  }

  // ---------------------------------------------------------------- no progress without the user

  /** A deleting cluster whose AVI user can no longer be deleted. */
  ghost predicate Stranded(w: World, k: Key) {
    && k in w.clusters && w.clusters[k].deleting && w.clusters[k].finalizer && k.ns != SYSTEM_NAMESPACE
    && (forall n :: n in w.adcs ==> !w.adcs[n].customerCredentials && !Deletable(k, w.clusters[k], w.adcs[n], w.ext))
    && !w.clusters[k].userCleanup.IsTrue? && !(k in w.ext.secrets && w.ext.secrets[k].username in w.ext.users)
    && AviUser.NoClash(k, w.ext, w.clusters.Keys)
  }

  /** The user cannot be deleted, and its clean-up is not recorded as done. */
  ghost predicate Blocked(k: Key, c: Cluster, e: Ext) {
    && c.deleting && !c.userCleanup.IsTrue? && !(k in e.secrets && e.secrets[k].username in e.users)
  }

  lemma {:induction false} PhasesStayBlocked(ps: seq<ClusterPhase>, k: Key, adc: Adc, s: Fold, f: Faults, ks: set<Key>)
    requires Blocked(k, s.c, s.e) && AviUser.NoClash(k, s.e, ks) && k.ns != SYSTEM_NAMESPACE && !adc.customerCredentials
    requires RemoveClusterFinalizer !in ps && s.c.finalizer
    ensures var o := RunPhases(ps, k, adc, s, f); Blocked(k, o.c, o.e) && AviUser.NoClash(k, o.e, ks) && o.c.finalizer
  {
    if ps != [] {
      assert ps[0] in ps;
      var o := RunPhase(ps[0], k, adc, s.c, s.e, f);
      assert Blocked(k, o.c, o.e) && AviUser.NoClash(k, o.e, ks) && o.c.finalizer;
      var err := s.err || o.report.err;
      PhasesStayBlocked(ps[1..], k, adc,
        Fold(o.c, o.e, if err then s.res else LowestNonZero(s.res, o.report.res), err), f, ks);
    }
  }

  lemma StrandedVisit(w: World, a: P.Action, k: Key)
    requires P.Enabled(w, a) && a.AdcVisit? && Stranded(w, k)
    ensures Stranded(P.Do(w, a), k)
  {
    var adc := w.adcs[a.adc];
    if a.k == k {
      var c := w.clusters[k];
      assert RemoveClusterFinalizer !in PhasesFor(a.stage, c);
      PhasesStayBlocked(PhasesFor(a.stage, c), k, adc, Fold(ApplyLabel(c, adc.name), w.ext, ZERO, false), a.f,
                        w.clusters.Keys);
    } else {
      IterateFrame(w, a.k, adc, a.stage, a.f, ZERO, k);
    }
  }

  /** Every step but these can happen without helping a stranded cluster: the Cluster controller
      finds that no ADC selects it any more, a cluster is created that would use the same AVI
      user, an ADC turns to credentials of the customer, or somebody changes the secrets or the
      AVI users by hand. */
  ghost predicate Unhelpful(w: World, a: P.Action, k: Key) {
    match a
    case ClusterPass(h, _, _) => h == k ==> P.StillSelected(w, k)
    case CreateCluster(h, _) => AviUser.NoClash(k, w.ext, w.clusters.Keys + {h})
    case CreateAdc(x) => !x.customerCredentials
    case EditAdc(_, customer) => !customer
    case Outside(e) => e.secrets == w.ext.secrets && e.users == w.ext.users
    case _ => true
  }

  lemma UnhelpfulKeepsAccounts(w: World, a: P.Action, k: Key)
    requires P.Enabled(w, a) && !a.AdcVisit? && Unhelpful(w, a, k) && AviUser.NoClash(k, w.ext, w.clusters.Keys)
    ensures var w' := P.Do(w, a);
            && w'.ext.secrets == w.ext.secrets && w'.ext.users == w.ext.users
            && AviUser.NoClash(k, w'.ext, w'.clusters.Keys)
  {
  }

  lemma UnhelpfulKeepsAdcs(w: World, a: P.Action, k: Key)
    requires P.Enabled(w, a) && Unhelpful(w, a, k) && forall n :: n in w.adcs ==> !w.adcs[n].customerCredentials
    ensures forall n :: n in P.Do(w, a).adcs ==> !P.Do(w, a).adcs[n].customerCredentials
  {
  }

  lemma StrandedStep(w: World, a: P.Action, k: Key)
    requires P.Inv(w) && P.Enabled(w, a) && Stranded(w, k) && Unhelpful(w, a, k)
    ensures Stranded(P.Do(w, a), k)
  {
    if a.AdcVisit? {
      StrandedVisit(w, a, k);
    } else {
      UnhelpfulKeepsAccounts(w, a, k);
      UnhelpfulKeepsAdcs(w, a, k);
      StrandedClusterStays(w, a, k);
    }
  }

  lemma StrandedClusterStays(w: World, a: P.Action, k: Key)
    requires P.Inv(w) && P.Enabled(w, a) && !a.AdcVisit? && Unhelpful(w, a, k)
    requires k in w.clusters && w.clusters[k].deleting && w.clusters[k].finalizer && !w.clusters[k].userCleanup.IsTrue?
    ensures var w' := P.Do(w, a);
      k in w'.clusters && w'.clusters[k].deleting && w'.clusters[k].finalizer && !w'.clusters[k].userCleanup.IsTrue?
  {
    assert k in P.Do(w, a).clusters;
    P.OtherStepSafe(w, a, k);
  }

  /** User deletion is not retry-safe: from a stranded state no run of all controllers and of
      everything around them, however long and with whatever answers, takes the finalizer off,
      unless one of the steps above comes to help. */
  lemma {:induction false} StrandedForever(ws: seq<World>, acts: seq<P.Action>, k: Key, i: nat, j: nat)
    requires P.Run(ws, acts) && P.Inv(ws[0]) && i <= j < |ws| && Stranded(ws[i], k)
    requires forall t :: i <= t < j ==> Unhelpful(ws[t], acts[t], k)
    ensures Stranded(ws[j], k)
    decreases j - i
  {
    if i < j {
      P.RunKeepsInv(ws, acts, j - 1);
      StrandedForever(ws, acts, k, i, j - 1);
      StrandedStep(ws[j - 1], acts[j - 1], k);
    }
  }

  /** The cluster's AVI user is about to be deleted, and the call that deletes it takes effect,
      but its reply, or the deletion of the secret after it, is lost. */
  ghost predicate LosesCall(w: World, a: P.Action, k: Key) {
    && a.AdcVisit? && a.k == k && a.stage.delete == DeletePhases(true)
    && k in w.clusters && k.ns != SYSTEM_NAMESPACE
    && (var c := w.clusters[k];
        && c.deleting && c.finalizer && c.lb.Avi? && c.resourceCleanup.IsTrue? && !c.userCleanup.IsTrue?)
    && (forall n :: n in w.adcs ==> !w.adcs[n].customerCredentials)
    && k in w.ext.secrets && w.ext.secrets[k].username in w.ext.users && AviUser.NoClash(k, w.ext, w.clusters.Keys)
    && !a.f.patchHelper && !a.f.secretGet && a.f.userDelete.Applied()
    && (a.f.userDelete.Failed() || a.f.secretDelete.Failed())
  }

  /** One lost call strands the cluster. */
  lemma OneLostCallStrands(w: World, a: P.Action, k: Key)
    requires P.Enabled(w, a) && LosesCall(w, a, k)
    ensures Stranded(P.Do(w, a), k)
  {
    var c := w.clusters[k];
    RunOnePhase(ReconcileAviUserDelete, k, w.adcs[a.adc],
                Fold(ApplyLabel(c, w.adcs[a.adc].name), w.ext, ZERO, false), a.f);
  }

  /** From the lost call on, the finalizer stays. */
  lemma LostCallStrandsForever(ws: seq<World>, acts: seq<P.Action>, k: Key, i: nat, j: nat)
    requires P.Run(ws, acts) && P.Inv(ws[0]) && i < j < |ws| && LosesCall(ws[i], acts[i], k)
    requires forall t :: i < t < j ==> Unhelpful(ws[t], acts[t], k)
    ensures k in ws[j].clusters && ws[j].clusters[k].deleting && ws[j].clusters[k].finalizer
  {
    OneLostCallStrands(ws[i], acts[i], k);
    StrandedForever(ws, acts, k, i + 1, j);
  }

  /** Such a world and such a step exist: only the deletion of the secret fails. */
  lemma LostCallInput(f: Faults)
    requires FaultFree(f)
    ensures
      var k := Key("ns", "c");
      var adc := Adc("x", Parsed([Exists("team")]), false, true, false);
      var c := Cluster(map["team" := "a", AVI_LABEL := "x"], true, true, IsTrue, Avi, IsTrue, IsFalse);
      var w := World(false, map[k := c], map[], map["x" := adc],
                     Ext(map[k := Secret("u", "p", "ca")], map["u" := "p"], map[], {}));
      var a := P.AdcVisit("x", USERS, k, f.(secretDelete := Rejected));
      P.Inv(w) && P.Enabled(w, a) && LosesCall(w, a, k) && Stranded(P.Do(w, a), k)
  {
    var k := Key("ns", "c");
    var adc := Adc("x", Parsed([Exists("team")]), false, true, false);
    var c := Cluster(map["team" := "a", AVI_LABEL := "x"], true, true, IsTrue, Avi, IsTrue, IsFalse);
    var w := World(false, map[k := c], map[], map["x" := adc],
                   Ext(map[k := Secret("u", "p", "ca")], map["u" := "p"], map[], {}));
    var a := P.AdcVisit("x", USERS, k, f.(secretDelete := Rejected));
    assert adc.selector.requirements[0] in adc.selector.requirements;
    assert P.Enabled(w, a);
    OneLostCallStrands(w, a, k);
  }
}
