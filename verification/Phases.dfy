/** The phase combinators (controllers/akodeploymentconfig/phases/phases.go) and the
    per-cluster phases they run. */
module Phases {
  import opened Objects
  import opened Store
  import opened Selection
  import ClusterCleanup
  import AviUser

  // ---------------------------------------------------------------- results

  /** Cluster API's `LowestNonZeroResult`. */
  function LowestNonZero(i: Result, j: Result): (r: Result)
    ensures i.IsZero() ==> r == j
    ensures j.IsZero() ==> r == i
    ensures r == i || r == j
    ensures r.requeue <==> i.requeue || j.requeue
    ensures !i.IsZero() && !j.IsZero() && !r.requeue ==> r.after <= i.after && r.after <= j.after
  {
    if i.IsZero() then j
    else if j.IsZero() then i
    else if i.requeue then i
    else if j.requeue then j
    else if i.after < j.after then i
    else j
  }

  /** What one phase reported. */
  datatype Report = Report(res: Result, err: bool)

  /** Some phase failed. */
  ghost predicate AnyError(log: seq<Report>) {
    exists r <- log :: r.err
  }

  /** Some phase asked to be run again. */
  ghost predicate AnyRequeue(log: seq<Report>) {
    exists r <- log :: r.res.requeue
  }

  // ---------------------------------------------------------------- per-cluster phases

  datatype ClusterPhase =
    | AddClusterFinalizer
    | RemoveClusterFinalizer
    | ReconcileAddonSecret
    | ReconcileAddonSecretDelete
    | ReconcileDelete
    | ReconcileAviUser
    | ReconcileAviUserDelete

  datatype PhaseOut = PhaseOut(c: Cluster, e: Ext, report: Report)

  /** One phase on the in-memory cluster `c`. Writing the add-on secret is kept only as an
      effect on `addons`. */
  function RunPhase(p: ClusterPhase, k: Key, adc: Adc, c: Cluster, e: Ext, f: Faults): PhaseOut {
    match p
    case AddClusterFinalizer =>
      PhaseOut(if k.ns != SYSTEM_NAMESPACE then c.(finalizer := true) else c, e, Report(ZERO, false))
    case RemoveClusterFinalizer =>
      PhaseOut(c.(finalizer := false), e, Report(ZERO, false))
    case ReconcileAddonSecret =>
      if f.addonGet then PhaseOut(c, e, Report(ZERO, true))
      else PhaseOut(c, if f.addonWrite.Applied() then e.(addons := e.addons + {k}) else e,
                    Report(ZERO, f.addonWrite.Failed()))
    case ReconcileAddonSecretDelete =>
      if f.addonGet then PhaseOut(c, e, Report(ZERO, true))
      else if k !in e.addons then PhaseOut(c, e, Report(ZERO, false))
      else PhaseOut(c, if f.addonWrite.Applied() then e.(addons := e.addons - {k}) else e,
                    Report(ZERO, f.addonWrite.Failed()))
    case ReconcileDelete =>
      var o := ClusterCleanup.ReconcileDeleteSpec(k, c, e, f);
      PhaseOut(o.c, o.e, Report(o.res, o.err))
    case ReconcileAviUser =>
      if c.deleting then
        var o := AviUser.ReconcileUserDeleteSpec(k, c, adc, e, f);
        PhaseOut(o.c, o.e, Report(ZERO, o.err))
      else
        var o := AviUser.ReconcileNormalSpec(k, adc, e, f);
        PhaseOut(c, o.e, Report(ZERO, o.err))
    case ReconcileAviUserDelete =>
      var o := AviUser.ReconcileUserDeleteSpec(k, c, adc, e, f);
      PhaseOut(o.c, o.e, Report(ZERO, o.err))
  }

  method DoPhase(p: ClusterPhase, obj: ClusterObject, adc: Adc, b: Backend, f: Faults) returns (res: Result, err: bool)
    modifies obj, b
    ensures PhaseOut(obj.Value(), b.Value(), Report(res, err))
         == RunPhase(p, obj.key, adc, old(obj.Value()), old(b.Value()), f)
  {
    res, err := ZERO, false;
    match p
    case AddClusterFinalizer =>
      if !obj.finalizer && obj.key.ns != SYSTEM_NAMESPACE {
        obj.finalizer := true;
      }
    case RemoveClusterFinalizer =>
      obj.finalizer := false;
    case ReconcileAddonSecret =>
      if f.addonGet {
        return ZERO, true;
      }
      if f.addonWrite.Applied() {
        b.addons := b.addons + {obj.key};
      }
      err := f.addonWrite.Failed();
    case ReconcileAddonSecretDelete =>
      if f.addonGet {
        return ZERO, true;
      }
      if obj.key in b.addons {
        if f.addonWrite.Applied() {
          b.addons := b.addons - {obj.key};
        }
        err := f.addonWrite.Failed();
      }
    case ReconcileDelete =>
      res, err := ClusterCleanup.ReconcileDelete(obj, b, f);
    case ReconcileAviUser =>
      if obj.deleting {
        err := AviUser.ReconcileAviUserDelete(obj, adc, b, f);
      } else {
        err := AviUser.ReconcileAviUserNormal(obj, adc, b, f);
      }
    case ReconcileAviUserDelete =>
      err := AviUser.ReconcileAviUserDelete(obj, adc, b, f);
  }

  // ---------------------------------------------------------------- the inner fold

  /** State of the inner loop: the cluster, the outside, the result so far, and whether some
      phase of this cluster has failed. */
  datatype Fold = Fold(c: Cluster, e: Ext, res: Result, err: bool)

  function RunPhases(ps: seq<ClusterPhase>, k: Key, adc: Adc, s: Fold, f: Faults): Fold {
    if ps == [] then s
    else
      var o := RunPhase(ps[0], k, adc, s.c, s.e, f);
      var err := s.err || o.report.err;
      RunPhases(ps[1..], k, adc,
                Fold(o.c, o.e, if err then s.res else LowestNonZero(s.res, o.report.res), err), f)
  }

  lemma RunOnePhase(p: ClusterPhase, k: Key, adc: Adc, s: Fold, f: Faults)
    ensures var o0 := RunPhase(p, k, adc, s.c, s.e, f);
            var o := RunPhases([p], k, adc, s, f);
            o.c == o0.c && o.e == o0.e
  {
    var ps := [p];
    assert ps[1..] == [];
    var o0 := RunPhase(p, k, adc, s.c, s.e, f);
    var err := s.err || o0.report.err;
    assert RunPhases(ps, k, adc, s, f)
        == RunPhases([], k, adc, Fold(o0.c, o0.e, if err then s.res else LowestNonZero(s.res, o0.report.res), err), f);
  }

  lemma RunTwoPhases(p0: ClusterPhase, p1: ClusterPhase, k: Key, adc: Adc, s: Fold, f: Faults)
    ensures var o0 := RunPhase(p0, k, adc, s.c, s.e, f);
            var o1 := RunPhase(p1, k, adc, o0.c, o0.e, f);
            var o := RunPhases([p0, p1], k, adc, s, f);
            && o.c == o1.c && o.e == o1.e
            && o.err == (s.err || o0.report.err || o1.report.err)
            && (!o.err ==> o.res == LowestNonZero(LowestNonZero(s.res, o0.report.res), o1.report.res))
  {
    var ps := [p0, p1];
    assert ps[1..] == [p1] && [p1][1..] == [];
    var o0 := RunPhase(p0, k, adc, s.c, s.e, f);
    var err0 := s.err || o0.report.err;
    var s1 := Fold(o0.c, o0.e, if err0 then s.res else LowestNonZero(s.res, o0.report.res), err0);
    assert RunPhases(ps, k, adc, s, f) == RunPhases([p1], k, adc, s1, f);
    var o1 := RunPhase(p1, k, adc, s1.c, s1.e, f);
    var err1 := err0 || o1.report.err;
    var s2 := Fold(o1.c, o1.e, if err1 then s1.res else LowestNonZero(s1.res, o1.report.res), err1);
    assert RunPhases([p1], k, adc, s1, f) == RunPhases([], k, adc, s2, f);
  }

  /** What each phase of the loop reported. */
  ghost function PhaseLog(ps: seq<ClusterPhase>, k: Key, adc: Adc, c: Cluster, e: Ext, f: Faults): seq<Report> {
    if ps == [] then []
    else
      var o := RunPhase(ps[0], k, adc, c, e, f);
      [o.report] + PhaseLog(ps[1..], k, adc, o.c, o.e, f)
  }

  /** Every phase runs, whatever failed before it; an error of any phase survives; without
      errors a request to requeue survives. */
  lemma {:induction false} PhaseFoldSound(ps: seq<ClusterPhase>, k: Key, adc: Adc, s: Fold, f: Faults)
    ensures var o := RunPhases(ps, k, adc, s, f);
            var log := PhaseLog(ps, k, adc, s.c, s.e, f);
            && |log| == |ps|
            && (o.err <==> s.err || AnyError(log))
            && (!o.err ==> (o.res.requeue <==> s.res.requeue || AnyRequeue(log)))
  {
    if ps != [] {
      var o := RunPhase(ps[0], k, adc, s.c, s.e, f);
      var err := s.err || o.report.err;
      var s1 := Fold(o.c, o.e, if err then s.res else LowestNonZero(s.res, o.report.res), err);
      PhaseFoldSound(ps[1..], k, adc, s1, f);
      var rest := PhaseLog(ps[1..], k, adc, o.c, o.e, f);
      var log := PhaseLog(ps, k, adc, s.c, s.e, f);
      assert log == [o.report] + rest;
      assert forall r :: r in log <==> r == o.report || r in rest;
    }
  }

  // ---------------------------------------------------------------- the outer loop

  /** The phase lists of one pass over the clusters of an ADC. */
  datatype Stage = Stage(normal: seq<ClusterPhase>, delete: seq<ClusterPhase>)

  const USERS := Stage([ReconcileAviUser], [ReconcileAviUserDelete])
  const USERS_DELETE := Stage([ReconcileAviUserDelete], [ReconcileAviUserDelete])
  const CLUSTERS := Stage([AddClusterFinalizer, ReconcileAddonSecret], [ReconcileAddonSecretDelete, ReconcileDelete])
  const CLUSTERS_DELETE :=
    Stage([RemoveClusterFinalizer, ReconcileAddonSecretDelete], [ReconcileAddonSecretDelete, ReconcileDelete])

  /** Result of a loop over clusters; `aborted` when it returned early. */
  datatype PassOut = PassOut(w: World, res: Result, err: bool, aborted: bool)

  /** The phases of `stage` that run on `c`. */
  function PhasesFor(stage: Stage, c: Cluster): seq<ClusterPhase> {
    if c.deleting then stage.delete else stage.normal
  }

  /** The in-memory outcome of the phases on cluster `k`. */
  function Worked(w: World, k: Key, adc: Adc, stage: Stage, f: Faults, res: Result): Fold
    requires k in w.clusters
  {
    var c := w.clusters[k];
    RunPhases(PhasesFor(stage, c), k, adc, Fold(ApplyLabel(c, adc.name), w.ext, res, false), f)
  }

  /** One iteration of the loop over clusters: label, phases, patch. A failing patch is only
      logged. */
  function Iterate(w: World, k: Key, adc: Adc, stage: Stage, f: Faults, res: Result): (o: PassOut)
    requires k in w.clusters
    ensures o.w.adcs == w.adcs && o.w.machines == w.machines && o.w.bootstrap == w.bootstrap
    ensures o.w.clusters.Keys == w.clusters.Keys
    ensures forall k' :: k' in w.clusters && k' != k ==> o.w.clusters[k'] == w.clusters[k']
  {
    var c := w.clusters[k];
    if c.lb.Unreadable? then PassOut(w, res, true, false)
    else if c.lb.KubeVip? then PassOut(w, res, false, false)
    else if f.patchHelper then PassOut(w, res, true, true)
    else
      var s := Worked(w, k, adc, stage, f, res);
      PassOut(w.(ext := s.e, clusters := if f.patch.Applied() then w.clusters[k := s.c] else w.clusters),
              s.res, s.err, false)
  }

  /** The loop over the listed clusters. */
  function IterateAll(ks: seq<Key>, w: World, adc: Adc, stage: Stage, fs: Key -> Faults, res: Result, err: bool)
    : (o: PassOut)
    requires forall k <- ks :: k in w.clusters
    ensures o.w.adcs == w.adcs && o.w.machines == w.machines && o.w.bootstrap == w.bootstrap
    ensures o.w.clusters.Keys == w.clusters.Keys
    ensures forall k :: k in w.clusters && k !in ks ==> o.w.clusters[k] == w.clusters[k]
  {
    if ks == [] then PassOut(w, res, err, false)
    else
      var o := Iterate(w, ks[0], adc, stage, fs(ks[0]), res);
      if o.aborted then PassOut(o.w, o.res, true, true)
      else IterateAll(ks[1..], o.w, adc, stage, fs, o.res, err || o.err)
  }

  /** The answers one listing and the loop over it get. */
  datatype Answers = Answers(listFails: bool, order: seq<Key>, of: Key -> Faults)

  function ListOf(w: World, adc: Adc, a: Answers): seq<Key> {
    ListedKeys(a.order, w, adc, k => a.of(k).defaultAdcGet)
  }

  function ClustersPass(w: World, adc: Adc, stage: Stage, a: Answers): PassOut {
    if a.listFails || adc.selector.Malformed? then PassOut(w, ZERO, true, true)
    else IterateAll(ListOf(w, adc, a), w, adc, stage, a.of, ZERO, false)
  }

  method ReconcileClustersPhases(api: ApiServer, adc: Adc, stage: Stage, a: Answers) returns (res: Result, err: bool)
    requires Distinct(a.order)
    modifies api`clusters, api.backend
    ensures var o := ClustersPass(old(api.Value()), adc, stage, a);
            api.Value() == o.w && res == o.res && err == o.err
  {
    var w := api.Value();
    var items := ListClusters(a.order, w, adc, a.listFails, k => a.of(k).defaultAdcGet);
    if items.None? {
      return ZERO, true;
    }
    var keys := items.value;
    assert keys == ListOf(w, adc, a);
    ListedKeysDistinct(a.order, w, adc, k => a.of(k).defaultAdcGet);
    if |keys| == 0 {
      return ZERO, false;
    }
    res, err := ReconcileListed(api, keys, adc, stage, a.of);
  }

  /** The loop over the clusters as they were listed, before any of them is patched. */
  method ReconcileListed(api: ApiServer, keys: seq<Key>, adc: Adc, stage: Stage, fs: Key -> Faults)
    returns (res: Result, err: bool)
    requires Distinct(keys) && forall k <- keys :: k in api.clusters
    modifies api`clusters, api.backend
    ensures var o := IterateAll(keys, old(api.Value()), adc, stage, fs, ZERO, false);
            api.Value() == o.w && res == o.res && err == o.err
  {
    ghost var w0 := api.Value();
    res, err := ZERO, false;
    var copies := seq(|keys|, i requires 0 <= i < |keys| && keys[i] in api.clusters reads api => api.clusters[keys[i]]);
    for n := 0 to |keys|
      invariant forall i :: 0 <= i < |keys| ==> keys[i] in api.clusters
      invariant forall i :: n <= i < |keys| ==> api.clusters[keys[i]] == copies[i]
      invariant IterateAll(keys, w0, adc, stage, fs, ZERO, false)
             == IterateAll(keys[n..], api.Value(), adc, stage, fs, res, err)
    {
      ghost var rest := keys[n..];
      assert rest[0] == keys[n] && rest[1..] == keys[n + 1..];
      var clusterErr, aborted: bool;
      res, clusterErr, aborted := ReconcileCluster(api, keys[n], copies[n], adc, stage, fs(keys[n]), res);
      if aborted {
        return res, true;
      }
      err := err || clusterErr;
    }
  }

  /** The body of the loop: label the listed copy, run its phases, patch it back. */
  method ReconcileCluster(api: ApiServer, k: Key, copy: Cluster, adc: Adc, stage: Stage, f: Faults, res0: Result)
    returns (res: Result, err: bool, aborted: bool)
    requires k in api.clusters && api.clusters[k] == copy
    modifies api`clusters, api.backend
    ensures PassOut(api.Value(), res, err, aborted) == Iterate(old(api.Value()), k, adc, stage, f, res0)
  {
    if copy.lb.Unreadable? {
      return res0, true, false;
    } else if copy.lb.KubeVip? {
      return res0, false, false;
    }
    if f.patchHelper {
      return res0, true, true;
    }
    var obj := new ClusterObject(k, copy);
    obj.labels := obj.labels[AVI_LABEL := adc.name];
    var phases := stage.normal;
    if obj.deleting {
      phases := stage.delete;
    }
    res, err := RunClusterPhases(phases, obj, adc, api.backend, f, res0);
    if f.patch.Applied() {
      api.clusters := api.clusters[k := obj.Value()];
    }
    aborted := false;
  }

  /** The inner loop: every phase runs; results count only while no phase has failed. */
  method RunClusterPhases(phases: seq<ClusterPhase>, obj: ClusterObject, adc: Adc, b: Backend, f: Faults, res0: Result)
    returns (res: Result, err: bool)
    modifies obj, b
    ensures Fold(obj.Value(), b.Value(), res, err)
         == RunPhases(phases, obj.key, adc, Fold(old(obj.Value()), old(b.Value()), res0, false), f)
  {
    ghost var s0 := Fold(obj.Value(), b.Value(), res0, false);
    res, err := res0, false;
    for n := 0 to |phases|
      invariant RunPhases(phases, obj.key, adc, s0, f)
             == RunPhases(phases[n..], obj.key, adc, Fold(obj.Value(), b.Value(), res, err), f)
    {
      var phaseResult, phaseErr := DoPhase(phases[n], obj, adc, b, f);
      if phaseErr {
        err := true;
      }
      if err {
        continue;
      }
      res := LowestNonZero(res, phaseResult);
    }
  }

  // ---------------------------------------------------------------- what a pass reported

  ghost function IterateLog(w: World, k: Key, adc: Adc, stage: Stage, f: Faults): seq<Report>
    requires k in w.clusters
  {
    var c := w.clusters[k];
    if c.lb.Unreadable? then [Report(ZERO, true)]
    else if c.lb.KubeVip? then []
    else if f.patchHelper then [Report(ZERO, true)]
    else PhaseLog(PhasesFor(stage, c), k, adc, ApplyLabel(c, adc.name), w.ext, f)
  }

  ghost function IterateAllLog(ks: seq<Key>, w: World, adc: Adc, stage: Stage, fs: Key -> Faults): seq<Report>
    requires forall k <- ks :: k in w.clusters
  {
    if ks == [] then []
    else
      var o := Iterate(w, ks[0], adc, stage, fs(ks[0]), ZERO);
      IterateLog(w, ks[0], adc, stage, fs(ks[0]))
      + if o.aborted then [] else IterateAllLog(ks[1..], o.w, adc, stage, fs)
  }

  /** The world a cluster iteration leaves does not depend on the result carried into it. */
  lemma {:induction false} PhasesIgnoreResult(ps: seq<ClusterPhase>, k: Key, adc: Adc, s: Fold, f: Faults, res: Result)
    ensures var o, o' := RunPhases(ps, k, adc, s, f), RunPhases(ps, k, adc, s.(res := res), f);
            o.c == o'.c && o.e == o'.e && o.err == o'.err
  {
    if ps != [] {
      var o := RunPhase(ps[0], k, adc, s.c, s.e, f);
      var err := s.err || o.report.err;
      PhasesIgnoreResult(ps[1..], k, adc,
        Fold(o.c, o.e, if err then s.res else LowestNonZero(s.res, o.report.res), err), f,
        if err then res else LowestNonZero(res, o.report.res));
    }
  }

  lemma IterateIgnoresResult(w: World, k: Key, adc: Adc, stage: Stage, f: Faults, res: Result)
    requires k in w.clusters
    ensures var o, o' := Iterate(w, k, adc, stage, f, res), Iterate(w, k, adc, stage, f, ZERO);
            o.w == o'.w && o.err == o'.err && o.aborted == o'.aborted
  {
    var c := w.clusters[k];
    PhasesIgnoreResult(PhasesFor(stage, c), k, adc, Fold(ApplyLabel(c, adc.name), w.ext, res, false), f, ZERO);
  }

  lemma LogConcat(a: seq<Report>, b: seq<Report>)
    ensures AnyError(a + b) <==> AnyError(a) || AnyError(b)
    ensures AnyRequeue(a + b) <==> AnyRequeue(a) || AnyRequeue(b)
  {
    assert forall r :: r in a + b <==> r in a || r in b;
  }

  /** The outer loop loses no error and, without errors, no request to requeue. */
  lemma {:induction false} IterateAllSound(ks: seq<Key>, w: World, adc: Adc, stage: Stage, fs: Key -> Faults,
                                           res: Result, err: bool)
    requires forall k <- ks :: k in w.clusters
    ensures var o := IterateAll(ks, w, adc, stage, fs, res, err);
            var log := IterateAllLog(ks, w, adc, stage, fs);
            && (o.err <==> err || AnyError(log))
            && (!o.err ==> (o.res.requeue <==> res.requeue || AnyRequeue(log)))
  {
    if ks != [] {
      var k := ks[0];
      var c := w.clusters[k];
      var o := Iterate(w, k, adc, stage, fs(k), res);
      IterateIgnoresResult(w, k, adc, stage, fs(k), res);
      PhaseFoldSound(PhasesFor(stage, c), k, adc, Fold(ApplyLabel(c, adc.name), w.ext, res, false), fs(k));
      var here := IterateLog(w, k, adc, stage, fs(k));
      assert [Report(ZERO, true)][0].err;
      assert o.err <==> AnyError(here);
      assert !o.err ==> (o.res.requeue <==> res.requeue || AnyRequeue(here));
      if !o.aborted {
        IterateAllSound(ks[1..], o.w, adc, stage, fs, o.res, err || o.err);
        LogConcat(here, IterateAllLog(ks[1..], o.w, adc, stage, fs));
      } else {
        LogConcat(here, []);
      }
    }
  }
}
