/** A whole pass of the ADC controller is a run of the protocol's steps, so what holds of
    every run holds across whole passes. */
module PassRefinement {
  import opened Objects
  import opened Selection
  import opened Phases
  import opened AdcPass
  import opened Protocol

  /** `ws` leads from `w` to `w'` by steps `acts` of the ADC controller alone. */
  ghost predicate Leads(w: World, w': World, ws: seq<World>, acts: seq<Action>) {
    && Run(ws, acts) && ws[0] == w && ws[|ws| - 1] == w'
    && forall a <- acts :: a.AdcVisit? || a.AdcPatch?
  }

  lemma LeadsConcat(w: World, w1: World, w2: World, ws: seq<World>, acts: seq<Action>,
                    ws': seq<World>, acts': seq<Action>)
    requires Leads(w, w1, ws, acts) && Leads(w1, w2, ws', acts')
    ensures Leads(w, w2, ws + ws'[1..], acts + acts')
  {
    var vs, bs := ws + ws'[1..], acts + acts';
    forall i | 0 <= i < |bs| ensures Enabled(vs[i], bs[i]) && vs[i + 1] == Do(vs[i], bs[i]) {
      if i >= |acts| {
        var j := i - |acts|;
        assert vs[i] == ws'[j] && vs[i + 1] == ws'[j + 1] && bs[i] == acts'[j];
      } else {
        assert vs[i] == ws[i] && vs[i + 1] == ws[i + 1] && bs[i] == acts[i];
      }
    }
  }

  /** The loop over the listed clusters, each read afresh, is a run of visits. */
  lemma {:induction false} LoopIsRun(ks: seq<Key>, w: World, n: string, stage: Stage, fs: Key -> Faults,
                                     res: Result, err: bool)
    returns (ws: seq<World>, acts: seq<Action>)
    requires n in w.adcs && StageOf(w.adcs[n], stage) && Distinct(ks)
    requires forall k <- ks :: k in w.clusters
               && Listed(k, w.clusters[k], w.adcs[n], w.adcs, w.bootstrap, fs(k).defaultAdcGet)
    ensures Leads(w, IterateAll(ks, w, w.adcs[n], stage, fs, res, err).w, ws, acts)
  {
    if ks == [] {
      return [w], [];
    }
    var k := ks[0];
    assert k in ks;
    var o := Iterate(w, k, w.adcs[n], stage, fs(k), res);
    IterateIgnoresResult(w, k, w.adcs[n], stage, fs(k), res);
    var a := AdcVisit(n, stage, k, fs(k));
    var ws1, acts1 := [w, o.w], [a];
    if o.aborted {
      return ws1, acts1;
    }
    forall k' | k' in ks[1..]
      ensures k' in o.w.clusters && o.w.clusters[k'] == w.clusters[k']
    {
      assert k' in ks && k' != k;
    }
    var ws2, acts2 := LoopIsRun(ks[1..], o.w, n, stage, fs, o.res, err || o.err);
    var end := IterateAll(ks, w, w.adcs[n], stage, fs, res, err).w;
    LeadsConcat(w, o.w, end, ws1, acts1, ws2, acts2);
    return ws1 + ws2[1..], acts1 + acts2;
  }

  /** Every cluster loop in the phase belongs to the ADC's current mode. */
  ghost predicate InMode(p: AdcPhase, adc: Adc) {
    match p
    case ForClusters(stage) => StageOf(adc, stage)
    case WithAvi(phases) => forall q <- phases :: InMode(q, adc)
    case _ => true
  }

  lemma {:induction false} PhaseIsRun(p: AdcPhase, w: World, n: string, g: AdcAnswers)
    returns (ws: seq<World>, acts: seq<Action>)
    requires n in w.adcs && OrdersDistinct(g) && InMode(p, w.adcs[n])
    ensures Leads(w, RunAdcPhase(p, w, w.adcs[n], g).w, ws, acts)
    decreases p, 1
  {
    var adc := w.adcs[n];
    match p
    case ForClusters(stage) =>
      var a := g.of(stage);
      if a.listFails || adc.selector.Malformed? {
        return [w], [];
      }
      ListedKeysDistinct(a.order, w, adc, k => a.of(k).defaultAdcGet);
      ws, acts := LoopIsRun(ListOf(w, adc, a), w, n, stage, a.of, ZERO, false);
    case WithAvi(phases) =>
      if g.initAvi {
        return [w], [];
      }
      ws, acts := PhasesAreRun(phases, AdcOut(w, ZERO, false), n, g);
    case _ =>
      return [w], [];
  }

  lemma {:induction false} PhasesAreRun(ps: seq<AdcPhase>, s: AdcOut, n: string, g: AdcAnswers)
    returns (ws: seq<World>, acts: seq<Action>)
    requires n in s.w.adcs && OrdersDistinct(g) && forall p <- ps :: InMode(p, s.w.adcs[n])
    ensures Leads(s.w, RunAdcPhases(ps, s, s.w.adcs[n], g).w, ws, acts)
    decreases ps, 0
  {
    if ps == [] {
      return [s.w], [];
    }
    assert ps[0] in ps;
    var adc := s.w.adcs[n];
    var o := RunAdcPhase(ps[0], s.w, adc, g);
    var err := s.err || o.err;
    var s1 := AdcOut(o.w, if err then s.res else LowestNonZero(s.res, o.res), err);
    var ws1, acts1 := PhaseIsRun(ps[0], s.w, n, g);
    var ws2, acts2 := PhasesAreRun(ps[1..], s1, n, g);
    LeadsConcat(s.w, s1.w, RunAdcPhases(ps, s, adc, g).w, ws1, acts1, ws2, acts2);
    return ws1 + ws2[1..], acts1 + acts2;
  }

  lemma ModesMatch(adc: Adc)
    ensures forall p <- if adc.deleting then DELETE else NORMAL :: InMode(p, adc)
  {
    forall p | p in (if adc.deleting then DELETE else NORMAL) ensures InMode(p, adc) {
      if p.WithAvi? {
        forall q | q in p.phases ensures InMode(q, adc) {}
      }
    }
  }

  /** A whole ADC pass, with any calls failing, is a run of protocol steps. */
  lemma PassIsRun(w: World, n: string, g: AdcAnswers) returns (ws: seq<World>, acts: seq<Action>)
    requires n in w.adcs && OrdersDistinct(g)
    ensures Leads(w, Pass(w, n, g).w, ws, acts)
  {
    var adc := w.adcs[n];
    ModesMatch(adc);
    var end := Pass(w, n, g).w;
    if adc.deleting && !adc.finalizer {
      return [w], [];
    }
    var ps := if adc.deleting then DELETE else NORMAL;
    ws, acts := PhasesAreRun(ps, AdcOut(w, ZERO, false), n, g);
    var mid := RunAdcPhases(ps, AdcOut(w, ZERO, false), adc, g).w;
    if end != mid {
      LeadsConcat(w, mid, end, ws, acts, [mid, end], [AdcPatch(n, !adc.deleting)]);
      ws, acts := ws + [mid, end][1..], acts + [AdcPatch(n, !adc.deleting)];
    }
  }

  /** So a whole pass keeps the protocol's invariant, and takes the finalizer off a deleting
      cluster only with both clean-ups done. */
  lemma PassIsSafe(w: World, n: string, g: AdcAnswers, k: Key)
    requires n in w.adcs && OrdersDistinct(g) && Inv(w) && k in w.clusters
    ensures var w' := Pass(w, n, g).w;
            && Inv(w') && NoRevert(w.clusters[k], w'.clusters[k])
            && (w.clusters[k].deleting && w.clusters[k].finalizer && !w'.clusters[k].finalizer ==>
                  BothCleaned(w'.clusters[k]))
  {
    var ws, acts := PassIsRun(w, n, g);
    RunKeepsInv(ws, acts, |acts|);
    RunWithoutLosingCluster(ws, acts, k, 0);
  }

  /** Visits and ADC patches neither remove a cluster nor, on a deleting one, take the
      finalizer off early. */
  lemma {:induction false} RunWithoutLosingCluster(ws: seq<World>, acts: seq<Action>, k: Key, i: nat)
    requires Run(ws, acts) && Inv(ws[0]) && i < |ws| && k in ws[i].clusters
    requires forall a <- acts :: a.AdcVisit? || a.AdcPatch?
    ensures k in ws[|acts|].clusters
    ensures var c, c' := ws[i].clusters[k], ws[|acts|].clusters[k];
            && NoRevert(c, c')
            && (c.deleting && c.finalizer && !c'.finalizer ==> BothCleaned(c'))
    decreases |acts| - i
  {
    if i < |acts| {
      assert acts[i] in acts;
      RunKeepsInv(ws, acts, i);
      StepSafe(ws[i], acts[i], k);
      if acts[i].AdcVisit? {
        VisitSafe(ws[i], acts[i]);
      }
      RunWithoutLosingCluster(ws, acts, k, i + 1);
    }
  }
}
