/** The AKODeploymentConfig controller: its nested phases and its finalizer
    (controllers/akodeploymentconfig/akodeploymentconfig_controller*.go). */
module AdcPass {
  import opened Objects
  import opened Store
  import opened Selection
  import opened Phases

  /** A phase of the controller. `WithAvi` sets up the AVI client before its own phases. */
  datatype AdcPhase =
    | NetworkSubnets
    | CloudUsableNetwork
    | AviInfraSetting
    | ControllerVersion
    | AviInfraSettingDelete
    | ForClusters(stage: Stage)
    | WithAvi(phases: seq<AdcPhase>)

  const NORMAL := [
    WithAvi([NetworkSubnets, CloudUsableNetwork, AviInfraSetting, ControllerVersion, ForClusters(USERS)]),
    ForClusters(CLUSTERS)]

  const DELETE := [
    ForClusters(CLUSTERS_DELETE),
    WithAvi([AviInfraSettingDelete, ForClusters(USERS_DELETE)])]

  /** The answers one pass gets: which single phases fail, and those of each cluster loop. */
  datatype AdcAnswers = AdcAnswers(initAvi: bool, fails: AdcPhase -> bool, of: Stage -> Answers, patch: Write)

  ghost predicate OrdersDistinct(g: AdcAnswers) {
    forall s :: Distinct(g.of(s).order)
  }

  datatype AdcOut = AdcOut(w: World, res: Result, err: bool)

  function RunAdcPhase(p: AdcPhase, w: World, adc: Adc, g: AdcAnswers): (o: AdcOut)
    ensures o.w.adcs == w.adcs && o.w.machines == w.machines && o.w.clusters.Keys == w.clusters.Keys
    decreases p, 1
  {
    match p
    case ForClusters(stage) =>
      var o := ClustersPass(w, adc, stage, g.of(stage));
      AdcOut(o.w, o.res, o.err)
    case WithAvi(phases) =>
      if g.initAvi then AdcOut(w, ZERO, true) else RunAdcPhases(phases, AdcOut(w, ZERO, false), adc, g)
    case _ =>
      AdcOut(w, ZERO, g.fails(p))
  }

  /** `ReconcilePhases`: every phase runs; results count only while no phase has failed. */
  function RunAdcPhases(ps: seq<AdcPhase>, s: AdcOut, adc: Adc, g: AdcAnswers): (o: AdcOut)
    ensures o.w.adcs == s.w.adcs && o.w.machines == s.w.machines && o.w.clusters.Keys == s.w.clusters.Keys
    decreases ps, 0
  {
    if ps == [] then s
    else
      var o := RunAdcPhase(ps[0], s.w, adc, g);
      var err := s.err || o.err;
      RunAdcPhases(ps[1..], AdcOut(o.w, if err then s.res else LowestNonZero(s.res, o.res), err), adc, g)
  }

  method DoAdcPhase(p: AdcPhase, api: ApiServer, adc: Adc, g: AdcAnswers) returns (res: Result, err: bool)
    requires OrdersDistinct(g)
    modifies api`clusters, api.backend
    ensures AdcOut(api.Value(), res, err) == RunAdcPhase(p, old(api.Value()), adc, g)
    decreases p, 1
  {
    match p
    case ForClusters(stage) =>
      res, err := ReconcileClustersPhases(api, adc, stage, g.of(stage));
    case WithAvi(phases) =>
      if g.initAvi {
        return ZERO, true;
      }
      res, err := ReconcilePhases(phases, api, adc, g);
    case _ =>
      return ZERO, g.fails(p);
  }

  method ReconcilePhases(phases: seq<AdcPhase>, api: ApiServer, adc: Adc, g: AdcAnswers)
    returns (res: Result, err: bool)
    requires OrdersDistinct(g)
    modifies api`clusters, api.backend
    ensures AdcOut(api.Value(), res, err) == RunAdcPhases(phases, AdcOut(old(api.Value()), ZERO, false), adc, g)
    decreases phases, 0
  {
    ghost var w0 := api.Value();
    res, err := ZERO, false;
    for n := 0 to |phases|
      invariant RunAdcPhases(phases, AdcOut(w0, ZERO, false), adc, g)
             == RunAdcPhases(phases[n..], AdcOut(api.Value(), res, err), adc, g)
    {
      ghost var rest := phases[n..];
      assert rest[0] == phases[n] && rest[1..] == phases[n + 1..];
      var phaseResult, phaseErr := DoAdcPhase(phases[n], api, adc, g);
      if phaseErr {
        err := true;
      }
      if err {
        continue;
      }
      res := LowestNonZero(res, phaseResult);
    }
  }

  // ---------------------------------------------------------------- whole passes

  function WithFinalizer(w: World, n: string, finalizer: bool): World
    requires n in w.adcs
  {
    w.(adcs := w.adcs[n := w.adcs[n].(finalizer := finalizer)])
  }

  /** A pass over an ADC that is not being deleted. */
  function NormalPass(w: World, n: string, g: AdcAnswers): AdcOut
    requires n in w.adcs
  {
    var o := RunAdcPhases(NORMAL, AdcOut(w, ZERO, false), w.adcs[n], g);
    AdcOut(if g.patch.Applied() then WithFinalizer(o.w, n, true) else o.w, o.res, o.err || g.patch.Failed())
  }

  /** A pass over an ADC that is being deleted. */
  function DeletePass(w: World, n: string, g: AdcAnswers): AdcOut
    requires n in w.adcs
  {
    if !w.adcs[n].finalizer then AdcOut(w, ZERO, g.patch.Failed())
    else
      var o := RunAdcPhases(DELETE, AdcOut(w, ZERO, false), w.adcs[n], g);
      AdcOut(if !o.err && !o.res.requeue && g.patch.Applied() then WithFinalizer(o.w, n, false) else o.w,
             o.res, o.err || g.patch.Failed())
  }

  function Pass(w: World, n: string, g: AdcAnswers): AdcOut
    requires n in w.adcs
  {
    if w.adcs[n].deleting then DeletePass(w, n, g) else NormalPass(w, n, g)
  }

  /** `Reconcile`: the ADC object is edited in memory and patched on the way out. */
  method Reconcile(api: ApiServer, n: string, g: AdcAnswers) returns (res: Result, err: bool)
    requires OrdersDistinct(g)
    modifies api`clusters, api`adcs, api.backend
    ensures AdcOut(api.Value(), res, err)
         == if n in old(api.adcs) then Pass(old(api.Value()), n, g) else AdcOut(old(api.Value()), ZERO, false)
  {
    if n !in api.adcs {
      return ZERO, false;
    }
    var obj := api.adcs[n];
    if obj.deleting {
      res, err := ZERO, false;
      if obj.finalizer {
        res, err := ReconcilePhases(DELETE, api, obj, g);
        if !err && !res.requeue {
          obj := obj.(finalizer := false);
        }
      }
    } else {
      if !obj.finalizer {
        obj := obj.(finalizer := true);
      }
      res, err := ReconcilePhases(NORMAL, api, api.adcs[n], g);
    }
    if g.patch.Applied() {
      api.adcs := api.adcs[n := obj];
      assert obj == old(api.adcs)[n] ==> api.adcs == old(api.adcs);
    }
    err := err || g.patch.Failed();
  }

  // ---------------------------------------------------------------- the ADC finalizer

  ghost function AdcPhaseLog(p: AdcPhase, w: World, adc: Adc, g: AdcAnswers): seq<Report>
    decreases p, 1
  {
    match p
    case ForClusters(stage) =>
      var a := g.of(stage);
      if a.listFails || adc.selector.Malformed? then [Report(ZERO, true)]
      else IterateAllLog(ListOf(w, adc, a), w, adc, stage, a.of)
    case WithAvi(phases) =>
      if g.initAvi then [Report(ZERO, true)] else AdcLog(phases, w, adc, g)
    case _ =>
      [Report(ZERO, g.fails(p))]
  }

  /** Every report made during the phases `ps`, down to the single phases on single clusters. */
  ghost function AdcLog(ps: seq<AdcPhase>, w: World, adc: Adc, g: AdcAnswers): seq<Report>
    decreases ps, 0
  {
    if ps == [] then []
    else AdcPhaseLog(ps[0], w, adc, g) + AdcLog(ps[1..], RunAdcPhase(ps[0], w, adc, g).w, adc, g)
  }

  lemma {:induction false} AdcPhaseSound(p: AdcPhase, w: World, adc: Adc, g: AdcAnswers)
    ensures var o := RunAdcPhase(p, w, adc, g);
            var log := AdcPhaseLog(p, w, adc, g);
            && (o.err <==> AnyError(log))
            && (!o.err ==> (o.res.requeue <==> AnyRequeue(log)))
    decreases p, 1
  {
    assert forall b :: [Report(ZERO, b)][0] in [Report(ZERO, b)];
    match p
    case ForClusters(stage) =>
      var a := g.of(stage);
      if !(a.listFails || adc.selector.Malformed?) {
        IterateAllSound(ListOf(w, adc, a), w, adc, stage, a.of, ZERO, false);
      }
    case WithAvi(phases) =>
      if !g.initAvi {
        AdcPhasesSound(phases, AdcOut(w, ZERO, false), adc, g);
      }
    case _ =>
  }

  /** The nested folds lose no error and, without errors, no request to requeue. */
  lemma {:induction false} AdcPhasesSound(ps: seq<AdcPhase>, s: AdcOut, adc: Adc, g: AdcAnswers)
    ensures var o := RunAdcPhases(ps, s, adc, g);
            var log := AdcLog(ps, s.w, adc, g);
            && (o.err <==> s.err || AnyError(log))
            && (!o.err ==> (o.res.requeue <==> s.res.requeue || AnyRequeue(log)))
    decreases ps, 0
  {
    if ps != [] {
      var o := RunAdcPhase(ps[0], s.w, adc, g);
      var err := s.err || o.err;
      AdcPhaseSound(ps[0], s.w, adc, g);
      AdcPhasesSound(ps[1..], AdcOut(o.w, if err then s.res else LowestNonZero(s.res, o.res), err), adc, g);
      LogConcat(AdcPhaseLog(ps[0], s.w, adc, g), AdcLog(ps[1..], o.w, adc, g));
    }
  }

  /** What a pass answers: an error exactly when some report of it was one or the patch failed,
      and, without errors, a requeue exactly when some report asked for it. A deleting ADC that
      has lost its finalizer does nothing. */
  lemma PassAnswers(w: World, n: string, g: AdcAnswers)
    requires n in w.adcs
    ensures var o, adc := Pass(w, n, g), w.adcs[n];
      var log := if !adc.deleting then AdcLog(NORMAL, w, adc, g)
                 else if adc.finalizer then AdcLog(DELETE, w, adc, g) else [];
      && (o.err <==> AnyError(log) || g.patch.Failed())
      && (!AnyError(log) ==> (o.res.requeue <==> AnyRequeue(log)))
      && (adc.deleting && !adc.finalizer ==> o.w == w)
  {
    var s := AdcOut(w, ZERO, false);
    AdcPhasesSound(NORMAL, s, w.adcs[n], g);
    AdcPhasesSound(DELETE, s, w.adcs[n], g);
  }

  /** Whatever its phases report, a normal pass puts the ADC's finalizer on. */
  lemma NormalPassAddsFinalizer(w: World, n: string, g: AdcAnswers)
    requires n in w.adcs && !w.adcs[n].deleting
    ensures Pass(w, n, g).w.adcs
         == if g.patch.Applied() then w.adcs[n := w.adcs[n].(finalizer := true)] else w.adcs
  {
  }

  /** No phase of these stages sets the finalizer. */
  predicate NeverAdds(ps: seq<ClusterPhase>) {
    AddClusterFinalizer !in ps
  }

  lemma {:induction false} PhasesKeepFinalizerOff(ps: seq<ClusterPhase>, k: Key, adc: Adc, s: Fold, f: Faults)
    requires NeverAdds(ps) && !s.c.finalizer
    ensures !RunPhases(ps, k, adc, s, f).c.finalizer
  {
    if ps != [] {
      assert ps[0] in ps;
      var o := RunPhase(ps[0], k, adc, s.c, s.e, f);
      var err := s.err || o.report.err;
      PhasesKeepFinalizerOff(ps[1..], k, adc,
        Fold(o.c, o.e, if err then s.res else LowestNonZero(s.res, o.report.res), err), f);
    }
  }

  lemma {:induction false} PassKeepsFinalizerOff(ks: seq<Key>, w: World, adc: Adc, stage: Stage, fs: Key -> Faults,
                                                 res: Result, err: bool, k: Key)
    requires NeverAdds(stage.normal) && NeverAdds(stage.delete)
    requires forall k' <- ks :: k' in w.clusters
    requires k in w.clusters && !w.clusters[k].finalizer
    ensures !IterateAll(ks, w, adc, stage, fs, res, err).w.clusters[k].finalizer
  {
    if ks != [] {
      var h := ks[0];
      var c := w.clusters[h];
      var o := Iterate(w, h, adc, stage, fs(h), res);
      if h == k {
        PhasesKeepFinalizerOff(PhasesFor(stage, c), k, adc, Fold(ApplyLabel(c, adc.name), w.ext, res, false), fs(k));
      }
      if !o.aborted {
        PassKeepsFinalizerOff(ks[1..], o.w, adc, stage, fs, o.res, err || o.err, k);
      }
    }
  }

  /** One quiet iteration of the deletion stage takes the finalizer off. */
  lemma QuietIterationDropsFinalizer(w: World, k: Key, adc: Adc, f: Faults, res: Result)
    requires k in w.clusters && w.clusters[k].lb.Avi?
    requires var o := Iterate(w, k, adc, CLUSTERS_DELETE, f, res); !o.err && !o.res.requeue
    requires f.patch.Applied()
    ensures !Iterate(w, k, adc, CLUSTERS_DELETE, f, res).w.clusters[k].finalizer
  {
    var c := w.clusters[k];
    var s := Fold(ApplyLabel(c, adc.name), w.ext, res, false);
    var ps := PhasesFor(CLUSTERS_DELETE, c);
    assert ps == [ps[0], ps[1]];
    RunTwoPhases(ps[0], ps[1], k, adc, s, f);
  }

  /** A quiet loop of the deletion stage takes the finalizer off every cluster it handles. */
  lemma {:induction false} QuietLoopDropsFinalizers(ks: seq<Key>, w: World, adc: Adc, fs: Key -> Faults,
                                                    res: Result, err: bool, k: Key)
    requires Distinct(ks) && forall k' <- ks :: k' in w.clusters
    requires var o := IterateAll(ks, w, adc, CLUSTERS_DELETE, fs, res, err); !o.err && !o.res.requeue
    requires k in ks && w.clusters[k].lb.Avi? && fs(k).patch.Applied()
    ensures !IterateAll(ks, w, adc, CLUSTERS_DELETE, fs, res, err).w.clusters[k].finalizer
  {
    var h := ks[0];
    var o := Iterate(w, h, adc, CLUSTERS_DELETE, fs(h), res);
    IterateAllSound(ks[1..], o.w, adc, CLUSTERS_DELETE, fs, o.res, err || o.err);
    if h == k {
      QuietIterationDropsFinalizer(w, k, adc, fs(k), res);
      PassKeepsFinalizerOff(ks[1..], o.w, adc, CLUSTERS_DELETE, fs, o.res, err || o.err, k);
    } else {
      QuietLoopDropsFinalizers(ks[1..], o.w, adc, fs, o.res, err || o.err, k);
    }
  }

  /** A cluster that is skipped, or whose patch is not applied, stays as it was. */
  lemma {:induction false} UnpatchedStays(ks: seq<Key>, w: World, adc: Adc, stage: Stage, fs: Key -> Faults,
                                          res: Result, err: bool, k: Key)
    requires forall k' <- ks :: k' in w.clusters
    requires k in w.clusters && !(w.clusters[k].lb.Avi? && fs(k).patch.Applied())
    ensures IterateAll(ks, w, adc, stage, fs, res, err).w.clusters[k] == w.clusters[k]
  {
    if ks != [] {
      var o := Iterate(w, ks[0], adc, stage, fs(ks[0]), res);
      if !o.aborted {
        UnpatchedStays(ks[1..], o.w, adc, stage, fs, o.res, err || o.err, k);
      }
    }
  }

  lemma UserVisitKeepsFinalizer(w: World, h: Key, adc: Adc, f: Faults, res: Result)
    requires h in w.clusters
    ensures Iterate(w, h, adc, USERS_DELETE, f, res).w.clusters[h].finalizer == w.clusters[h].finalizer
  {
    var c := w.clusters[h];
    assert PhasesFor(USERS_DELETE, c) == [ReconcileAviUserDelete];
    RunOnePhase(ReconcileAviUserDelete, h, adc, Fold(ApplyLabel(c, adc.name), w.ext, res, false), f);
  }

  /** The user phases leave the finalizer as it is. */
  lemma {:induction false} UserStageKeepsFinalizer(ks: seq<Key>, w: World, adc: Adc, fs: Key -> Faults,
                                                   res: Result, err: bool, k: Key)
    requires forall k' <- ks :: k' in w.clusters
    requires k in w.clusters
    ensures IterateAll(ks, w, adc, USERS_DELETE, fs, res, err).w.clusters[k].finalizer == w.clusters[k].finalizer
  {
    if ks != [] {
      var o := Iterate(w, ks[0], adc, USERS_DELETE, fs(ks[0]), res);
      UserVisitKeepsFinalizer(w, ks[0], adc, fs(ks[0]), res);
      if !o.aborted {
        UserStageKeepsFinalizer(ks[1..], o.w, adc, fs, o.res, err || o.err, k);
      }
    }
  }

  /** What the second half of a deletion pass does to the world. */
  lemma AviPhasesWorld(s: AdcOut, adc: Adc, g: AdcAnswers)
    ensures RunAdcPhases([WithAvi([AviInfraSettingDelete, ForClusters(USERS_DELETE)])], s, adc, g).w
         == if g.initAvi then s.w else ClustersPass(s.w, adc, USERS_DELETE, g.of(USERS_DELETE)).w
  {
    var inner := [AviInfraSettingDelete, ForClusters(USERS_DELETE)];
    var outer := [WithAvi(inner)];
    assert outer[1..] == [] && inner[1..] == [inner[1]] && [inner[1]][1..] == [];
    var s1 := AdcOut(s.w, ZERO, g.fails(inner[0]));
    assert RunAdcPhases(inner, AdcOut(s.w, ZERO, false), adc, g) == RunAdcPhases([inner[1]], s1, adc, g);
    assert RunAdcPhases([inner[1]], s1, adc, g).w == RunAdcPhase(inner[1], s.w, adc, g).w;
    assert RunAdcPhases(outer, s, adc, g).w == RunAdcPhase(outer[0], s.w, adc, g).w;
  }

  /** It leaves every cluster finalizer as it is. */
  lemma AviPhasesKeepFinalizer(s: AdcOut, adc: Adc, g: AdcAnswers, k: Key)
    requires k in s.w.clusters
    ensures RunAdcPhases([WithAvi([AviInfraSettingDelete, ForClusters(USERS_DELETE)])], s, adc, g).w.clusters[k].finalizer
         == s.w.clusters[k].finalizer
  {
    var a := g.of(USERS_DELETE);
    AviPhasesWorld(s, adc, g);
    if !(a.listFails || adc.selector.Malformed?) {
      UserStageKeepsFinalizer(ListOf(s.w, adc, a), s.w, adc, a.of, ZERO, false, k);
    }
  }

  /** A deletion pass lists twice: for the cluster stage, and again, in the world that stage
      left, for the user stage. */
  predicate ListedInPass(w: World, adc: Adc, g: AdcAnswers, k: Key) {
    || k in ListOf(w, adc, g.of(CLUSTERS_DELETE))
    || k in ListOf(ClustersPass(w, adc, CLUSTERS_DELETE, g.of(CLUSTERS_DELETE)).w, adc, g.of(USERS_DELETE))
  }

  /** The cluster stage does not get to see the cluster: the API server leaves it out, or it
      belongs to another ADC and the lookup of the default ADC, whose error is swallowed, fails. */
  predicate Missed(w: World, adc: Adc, a: Answers, k: Key)
    requires k in w.clusters
  {
    var labels := w.clusters[k].labels;
    k !in a.order || (AVI_LABEL in labels && labels[AVI_LABEL] != adc.name && a.of(k).defaultAdcGet)
  }

  /** A cluster listed anywhere in the pass is listed by the cluster stage unless missed there. */
  lemma ListedUnlessMissed(w: World, adc: Adc, g: AdcAnswers, k: Key)
    requires ListedInPass(w, adc, g, k)
    ensures k in w.clusters
    ensures k in ListOf(w, adc, g.of(CLUSTERS_DELETE)) <==> !Missed(w, adc, g.of(CLUSTERS_DELETE), k)
  {
    var a := g.of(CLUSTERS_DELETE);
    var first := ClustersPass(w, adc, CLUSTERS_DELETE, a);
    if k !in ListOf(w, adc, a) {
      assert k in w.clusters && first.w.clusters[k] == w.clusters[k];
    }
  }

  /** In a quiet deletion pass exactly the clusters that the cluster stage listed, that use AVI
      and whose patch was applied lose their finalizer. */
  lemma QuietPassFinalizers(w: World, adc: Adc, g: AdcAnswers, k: Key)
    requires OrdersDistinct(g) && k in w.clusters
    requires var o := RunAdcPhases(DELETE, AdcOut(w, ZERO, false), adc, g); !o.err && !o.res.requeue
    ensures var a := g.of(CLUSTERS_DELETE);
            RunAdcPhases(DELETE, AdcOut(w, ZERO, false), adc, g).w.clusters[k].finalizer <==>
            w.clusters[k].finalizer
            && !(k in ListOf(w, adc, a) && w.clusters[k].lb.Avi? && a.of(k).patch.Applied())
  {
    var a := g.of(CLUSTERS_DELETE);
    var o := RunAdcPhases(DELETE, AdcOut(w, ZERO, false), adc, g);
    var first := ClustersPass(w, adc, CLUSTERS_DELETE, a);
    var rest := [WithAvi([AviInfraSettingDelete, ForClusters(USERS_DELETE)])];
    assert DELETE[0] == ForClusters(CLUSTERS_DELETE) && DELETE[1..] == rest;
    assert RunAdcPhase(DELETE[0], w, adc, g) == AdcOut(first.w, first.res, first.err);
    var s1 := AdcOut(first.w, if first.err then ZERO else LowestNonZero(ZERO, first.res), first.err);
    assert o == RunAdcPhases(rest, s1, adc, g);
    AdcPhasesSound(rest, s1, adc, g);
    AviPhasesKeepFinalizer(s1, adc, g, k);
    var ks := ListOf(w, adc, a);
    if w.clusters[k].lb.Avi? && a.of(k).patch.Applied() {
      if k in ks {
        ListedKeysDistinct(a.order, w, adc, k => a.of(k).defaultAdcGet);
        QuietLoopDropsFinalizers(ks, w, adc, a.of, ZERO, false, k);
      }
    } else {
      UnpatchedStays(ks, w, adc, CLUSTERS_DELETE, a.of, ZERO, false, k);
    }
  }

  /** A deleting ADC loses its finalizer exactly in a pass whose patch is applied and in which
      nothing failed and nothing asked for a requeue, on any cluster and in any phase. Then a
      cluster listed anywhere in that pass that uses AVI, deleting or not, still carries the
      cluster finalizer exactly when it did before and its patch was not applied or the cluster
      stage missed it. Every other cluster keeps its finalizer. */
  lemma AdcFinalizerTheorem(w: World, n: string, g: AdcAnswers)
    requires n in w.adcs && w.adcs[n].finalizer && OrdersDistinct(g)
    ensures var w' := DeletePass(w, n, g).w;
            var log := AdcLog(DELETE, w, w.adcs[n], g);
            !w'.adcs[n].finalizer <==> g.patch.Applied() && !AnyError(log) && !AnyRequeue(log)
    ensures var w' := DeletePass(w, n, g).w;
            var a := g.of(CLUSTERS_DELETE);
            !w'.adcs[n].finalizer ==>
              forall k :: k in w.clusters ==>
                (w'.clusters[k].finalizer <==>
                 w.clusters[k].finalizer
                 && !(&& ListedInPass(w, w.adcs[n], g, k) && w.clusters[k].lb.Avi?
                      && a.of(k).patch.Applied() && !Missed(w, w.adcs[n], a, k)))
  {
    var adc := w.adcs[n];
    var s0 := AdcOut(w, ZERO, false);
    AdcPhasesSound(DELETE, s0, adc, g);
    var o := RunAdcPhases(DELETE, s0, adc, g);
    if !o.err && !o.res.requeue {
      forall k | k in w.clusters
        ensures o.w.clusters[k].finalizer <==>
          w.clusters[k].finalizer
          && !(&& ListedInPass(w, adc, g, k) && w.clusters[k].lb.Avi?
               && g.of(CLUSTERS_DELETE).of(k).patch.Applied() && !Missed(w, adc, g.of(CLUSTERS_DELETE), k))
      {
        QuietPassFinalizers(w, adc, g, k);
        if ListedInPass(w, adc, g, k) {
          ListedUnlessMissed(w, adc, g, k);
        }
      }
    }
  }

  /** A deletion pass whose cluster stage has nothing to do and whose other phases succeed. */
  lemma UserStageOnly(w: World, adc: Adc, g: AdcAnswers)
    requires !g.initAvi && !g.fails(AviInfraSettingDelete)
    requires ClustersPass(w, adc, CLUSTERS_DELETE, g.of(CLUSTERS_DELETE)) == PassOut(w, ZERO, false, false)
    requires var o := ClustersPass(w, adc, USERS_DELETE, g.of(USERS_DELETE)); !o.err && o.res == ZERO
    ensures RunAdcPhases(DELETE, AdcOut(w, ZERO, false), adc, g)
         == AdcOut(ClustersPass(w, adc, USERS_DELETE, g.of(USERS_DELETE)).w, ZERO, false)
  {
    var s := AdcOut(w, ZERO, false);
    var inner := [AviInfraSettingDelete, ForClusters(USERS_DELETE)];
    var rest := [WithAvi(inner)];
    var end := AdcOut(ClustersPass(w, adc, USERS_DELETE, g.of(USERS_DELETE)).w, ZERO, false);
    assert DELETE[0] == ForClusters(CLUSTERS_DELETE) && DELETE[1..] == rest && rest[1..] == [];
    assert inner[1..] == [ForClusters(USERS_DELETE)] && [ForClusters(USERS_DELETE)][1..] == [];
    assert RunAdcPhases([ForClusters(USERS_DELETE)], s, adc, g) == RunAdcPhases([], end, adc, g);
    assert RunAdcPhases(inner, s, adc, g) == RunAdcPhases([ForClusters(USERS_DELETE)], s, adc, g);
    assert RunAdcPhases(rest, s, adc, g) == RunAdcPhases([], end, adc, g);
  }

  /** A user visit to a cluster that is not being deleted only labels it. */
  lemma UserVisitRelabels(w: World, k: Key, adc: Adc, f: Faults)
    requires k in w.clusters && !w.clusters[k].deleting && w.clusters[k].lb.Avi? && FaultFree(f)
    ensures Iterate(w, k, adc, USERS_DELETE, f, ZERO)
         == PassOut(w.(clusters := w.clusters[k := ApplyLabel(w.clusters[k], adc.name)]), ZERO, false, false)
  {
    var s := Fold(ApplyLabel(w.clusters[k], adc.name), w.ext, ZERO, false);
    var ps := [ReconcileAviUserDelete];
    assert PhasesFor(USERS_DELETE, w.clusters[k]) == ps && ps[1..] == [];
    assert RunPhases(ps, k, adc, s, f) == RunPhases([], k, adc, s, f);
  }

  /** An ADC "custom" that is being deleted, the empty-selector default, and a cluster that the
      default owns and both select. */
  function MissedWorld(): World {
    var selector := Parsed([Exists("team")]);
    World(false,
          map[Key("ns", "c") := Cluster(map["team" := "a", AVI_LABEL := DEFAULT_ADC], false, true, IsTrue, Avi, Unset, Unset)],
          map[],
          map["custom" := Adc("custom", selector, true, true, false),
              DEFAULT_ADC := Adc(DEFAULT_ADC, Parsed([]), false, true, false)],
          Ext(map[], map[], map[], {}))
  }

  lemma MissedListing(a: Answers)
    requires a.order == [Key("ns", "c")]
    ensures Admitted(MissedWorld().adcs)
    ensures ListOf(MissedWorld(), MissedWorld().adcs["custom"], a)
         == if a.of(Key("ns", "c")).defaultAdcGet then [] else [Key("ns", "c")]
  {
    var w, k := MissedWorld(), Key("ns", "c");
    var adc := w.adcs["custom"];
    assert a.order[1..] == [];
    assert adc.selector.requirements[0] in adc.selector.requirements;
    assert Matches(adc.selector, w.clusters[k].labels);
    assert w.clusters[k].labels[AVI_LABEL] == DEFAULT_ADC != adc.name && k.ns != SYSTEM_NAMESPACE;
    assert w.adcs[DEFAULT_ADC].selector == Parsed([]);
    var fails := a.of(k).defaultAdcGet;
    assert Listed(k, w.clusters[k], adc, w.adcs, w.bootstrap, fails) <==> !fails;
    assert ListedKeys([], w, adc, k => a.of(k).defaultAdcGet) == [];
  }

  /** One failed lookup of the default ADC in the cluster stage is enough: "custom" is gone, and
      the cluster, now labelled with its name, keeps its finalizer. */
  lemma MissedClusterKeepsFinalizer(g: AdcAnswers, f: Faults)
    requires !g.initAvi && g.patch.Done? && (forall p :: !g.fails(p)) && FaultFree(f)
    requires var a := g.of(CLUSTERS_DELETE);
             !a.listFails && a.order == [Key("ns", "c")] && a.of(Key("ns", "c")) == f.(defaultAdcGet := true)
    requires var u := g.of(USERS_DELETE);
             !u.listFails && u.order == [Key("ns", "c")] && u.of(Key("ns", "c")) == f
    ensures var w, k := MissedWorld(), Key("ns", "c");
            var w' := DeletePass(w, "custom", g).w;
            && !w'.adcs["custom"].finalizer
            && w.clusters[k].finalizer && w'.clusters[k] == ApplyLabel(w.clusters[k], "custom")
  {
    var w, k := MissedWorld(), Key("ns", "c");
    var adc := w.adcs["custom"];
    var a, u := g.of(CLUSTERS_DELETE), g.of(USERS_DELETE);
    MissedListing(a);
    MissedListing(u);
    assert ClustersPass(w, adc, CLUSTERS_DELETE, a) == PassOut(w, ZERO, false, false);
    UserVisitRelabels(w, k, adc, f);
    var o := Iterate(w, k, adc, USERS_DELETE, f, ZERO);
    assert [k][1..] == [];
    assert IterateAll([k], w, adc, USERS_DELETE, u.of, ZERO, false) == IterateAll([], o.w, adc, USERS_DELETE, u.of, ZERO, false);
    UserStageOnly(w, adc, g);
  }
}
