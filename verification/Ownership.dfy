/** How a cluster's owning label evolves under the ADC controller alone. */
module Ownership {
  import opened Objects
  import opened Selection
  import opened Phases
  import opened Protocol

  /** The owning ADC can be overridden: it is the default one, with an empty selector. */
  predicate Overridable(labels: Labels, adcs: map<string, Adc>) {
    AVI_LABEL in labels && labels[AVI_LABEL] == DEFAULT_ADC && DefaultAdcHasEmptySelector(adcs, false)
  }

  /** No owner yet, an overridable owner, a settled owner. */
  function OwnerRank(labels: Labels, adcs: map<string, Adc>): nat {
    if AVI_LABEL !in labels then 2 else if Overridable(labels, adcs) then 1 else 0
  }

  function OwnerOf(labels: Labels): Option<string> {
    if AVI_LABEL in labels then Some(labels[AVI_LABEL]) else None
  }

  /** How often the owner of `k` changes along `ws` up to state `i`. */
  ghost function Changes(ws: seq<World>, k: Key, i: nat): nat
    requires Lives(ws, k, 0, i)
  {
    if i == 0 then 0
    else
      Changes(ws, k, i - 1)
      + if OwnerOf(ws[i - 1].clusters[k].labels) != OwnerOf(ws[i].clusters[k].labels) then 1 else 0
  }

  lemma VisitLabels(w: World, a: Action)
    requires Inv(w) && a.AdcVisit? && Enabled(w, a)
    ensures var c, c' := w.clusters[a.k], Do(w, a).clusters[a.k];
            c'.labels == c.labels || c'.labels == c.labels[AVI_LABEL := a.adc]
  {
    var c := w.clusters[a.k];
    PhasesSafe(PhasesFor(a.stage, c), a.k, w.adcs[a.adc],
               Fold(ApplyLabel(c, w.adcs[a.adc].name), w.ext, ZERO, false), a.f);
  }

  lemma OwnerStep(w: World, a: Action, k: Key)
    requires Inv(w) && Enabled(w, a) && (a.AdcVisit? || a.AdcPatch?) && k in w.clusters
    ensures k in Do(w, a).clusters
    ensures var l, l' := w.clusters[k].labels, Do(w, a).clusters[k].labels;
            && OwnerRank(l', Do(w, a).adcs) <= OwnerRank(l, w.adcs)
            && (OwnerOf(l) != OwnerOf(l') ==> OwnerRank(l', Do(w, a).adcs) < OwnerRank(l, w.adcs))
  {
    if a.AdcVisit? && a.k == k {
      VisitLabels(w, a);
    }
  }

  /** Only the ADC controller acts. */
  ghost predicate AdcOnly(acts: seq<Action>) {
    forall a <- acts :: a.AdcVisit? || a.AdcPatch?
  }

  lemma {:induction false} AdcOnlyKeepsCluster(ws: seq<World>, acts: seq<Action>, k: Key, i: nat)
    requires Run(ws, acts) && AdcOnly(acts) && Inv(ws[0]) && k in ws[0].clusters && i < |ws|
    ensures Lives(ws, k, 0, i)
  {
    if i > 0 {
      AdcOnlyKeepsCluster(ws, acts, k, i - 1);
      RunKeepsInv(ws, acts, i - 1);
      assert acts[i - 1] in acts;
      OwnerStep(ws[i - 1], acts[i - 1], k);
    }
  }

  /** Under the ADC controller alone the owner changes at most twice, from none to the
      empty-selector default and from there to another ADC, and a settled owner stays. */
  lemma {:induction false} OwnerChangesAtMostTwice(ws: seq<World>, acts: seq<Action>, k: Key, i: nat)
    requires Run(ws, acts) && AdcOnly(acts) && Inv(ws[0]) && k in ws[0].clusters && i < |ws|
    ensures Lives(ws, k, 0, i)
    ensures Changes(ws, k, i) + OwnerRank(ws[i].clusters[k].labels, ws[i].adcs)
            <= OwnerRank(ws[0].clusters[k].labels, ws[0].adcs)
    ensures Changes(ws, k, i) <= 2
  {
    AdcOnlyKeepsCluster(ws, acts, k, i);
    if i > 0 {
      OwnerChangesAtMostTwice(ws, acts, k, i - 1);
      RunKeepsInv(ws, acts, i - 1);
      assert acts[i - 1] in acts;
      OwnerStep(ws[i - 1], acts[i - 1], k);
    }
  }

  /** A cluster with a settled owner is listed by no other ADC. */
  lemma SettledOwnerIsSole(w: World, k: Key, n: string, getFails: bool)
    requires Inv(w) && k in w.clusters && n in w.adcs
    requires OwnerRank(w.clusters[k].labels, w.adcs) == 0
    requires Listed(k, w.clusters[k], w.adcs[n], w.adcs, w.bootstrap, getFails)
    ensures OwnerOf(w.clusters[k].labels) == Some(n)
  {
  }
}
