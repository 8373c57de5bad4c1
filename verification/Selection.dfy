/** Which AKODeploymentConfig (ADC) owns a cluster: the forward lookup used by the Cluster
    controller and the reverse listing used by the ADC controller
    (pkg/ako-operator/akodeploymentconfig_cluster_mapping_helper.go). */
module Selection {
  import opened Objects

  predicate Satisfies(labels: Labels, r: Requirement) {
    match r
    case In(key, values) => key in labels && labels[key] in values
    case NotIn(key, values) => key !in labels || labels[key] !in values
    case Exists(key) => key in labels
    case DoesNotExist(key) => key !in labels
  }

  predicate Matches(s: Selector, labels: Labels) {
    s.Parsed? && forall r <- s.requirements :: Satisfies(labels, r)
  }

  predicate EmptySelector(s: Selector) {
    s.Parsed? && s.requirements == []
  }

  /** A not-ready cluster that is not going away is left alone outside a bootstrap cluster. */
  predicate SkipCluster(c: Cluster, bootstrap: bool) {
    c.ready.IsFalse? && !c.deleting && !bootstrap
  }

  predicate DefaultAdcHasEmptySelector(adcs: map<string, Adc>, getFails: bool) {
    !getFails && DEFAULT_ADC in adcs && EmptySelector(adcs[DEFAULT_ADC].selector)
  }

  /** The filter of the listing loop. */
  predicate Admissible(k: Key, c: Cluster, adc: string, adcs: map<string, Adc>, bootstrap: bool, getFails: bool) {
    && !SkipCluster(c, bootstrap)
    && !(k.ns == SYSTEM_NAMESPACE && adc != MANAGEMENT_ADC)
    && (AVI_LABEL in c.labels && c.labels[AVI_LABEL] != adc ==>
          c.labels[AVI_LABEL] == DEFAULT_ADC && DefaultAdcHasEmptySelector(adcs, getFails))
  }

  /** `adc` lists cluster `k` whose current state is `c`. */
  predicate Listed(k: Key, c: Cluster, adc: Adc, adcs: map<string, Adc>, bootstrap: bool, getFails: bool) {
    Matches(adc.selector, c.labels) && Admissible(k, c, adc.name, adcs, bootstrap, getFails)
  }

  function ApplyLabel(c: Cluster, adc: string): Cluster {
    c.(labels := c.labels[AVI_LABEL := adc])
  }

  function RemoveLabel(c: Cluster): Cluster {
    c.(labels := c.labels - {AVI_LABEL})
  }

  // ---------------------------------------------------------------- reverse listing

  /** The keys of `order` that `adc` lists, in order. `getFails(k)` is the fate of the
      lookup of the default ADC while cluster `k` is filtered. */
  function ListedKeys(order: seq<Key>, w: World, adc: Adc, getFails: Key -> bool): (r: seq<Key>)
    ensures forall k :: k in r <==>
      k in order && k in w.clusters && Listed(k, w.clusters[k], adc, w.adcs, w.bootstrap, getFails(k))
  {
    if order == [] then []
    else
      var k := order[0];
      var rest := ListedKeys(order[1..], w, adc, getFails);
      if k in w.clusters && Listed(k, w.clusters[k], adc, w.adcs, w.bootstrap, getFails(k))
      then [k] + rest else rest
  }

  lemma {:induction false} ListedKeysDistinct(order: seq<Key>, w: World, adc: Adc, getFails: Key -> bool)
    requires Distinct(order)
    ensures Distinct(ListedKeys(order, w, adc, getFails))
  {
    if order != [] {
      ListedKeysDistinct(order[1..], w, adc, getFails);
      var rest := ListedKeys(order[1..], w, adc, getFails);
      forall j | 0 <= j < |rest| ensures rest[j] != order[0] {
        assert rest[j] in order[1..];
      }
    }
  }

  lemma {:induction false} ListedKeysAppend(order: seq<Key>, k: Key, w: World, adc: Adc, getFails: Key -> bool)
    ensures ListedKeys(order + [k], w, adc, getFails) ==
            ListedKeys(order, w, adc, getFails) + ListedKeys([k], w, adc, getFails)
  {
    if order == [] {
      assert order + [k] == [k];
    } else {
      assert (order + [k])[1..] == order[1..] + [k];
      ListedKeysAppend(order[1..], k, w, adc, getFails);
    }
  }

  /** Lists the clusters an ADC manages. The API server returns the clusters its selector
      matches, in the order of `order`; the loop drops the ones it must not touch. */
  method ListClusters(order: seq<Key>, w: World, adc: Adc, listFails: bool, getFails: Key -> bool)
    returns (items: Option<seq<Key>>)
    ensures items == if listFails || adc.selector.Malformed? then None
                     else Some(ListedKeys(order, w, adc, getFails))
  {
    if adc.selector.Malformed? || listFails {
      return None;
    }
    var newItems := [];
    for n := 0 to |order|
      invariant newItems == ListedKeys(order[..n], w, adc, getFails)
    {
      assert order[..n + 1] == order[..n] + [order[n]];
      ListedKeysAppend(order[..n], order[n], w, adc, getFails);
      var k := order[n];
      if k in w.clusters && Matches(adc.selector, w.clusters[k].labels) {
        var c := w.clusters[k];
        if !SkipCluster(c, w.bootstrap) {
          if k.ns == SYSTEM_NAMESPACE && adc.name != MANAGEMENT_ADC {
            continue;
          }
          if AVI_LABEL in c.labels && c.labels[AVI_LABEL] != adc.name {
            if c.labels[AVI_LABEL] != DEFAULT_ADC || !DefaultAdcHasEmptySelector(w.adcs, getFails(k)) {
              continue;
            }
          }
          newItems := newItems + [k];
        }
      }
    }
    assert order[..|order|] == order;
    return Some(newItems);
  }

  /** Which clusters an ADC lists, of those its selector matches: being ready matters only to a
      cluster that stays, outside a bootstrap cluster; a cluster of the system namespace belongs
      to the management ADC alone; and one that is labelled for another ADC is left to it, unless
      that is the default with an empty selector. */
  lemma ListedMeans(k: Key, c: Cluster, adc: Adc, adcs: map<string, Adc>, bootstrap: bool, getFails: bool)
    requires Matches(adc.selector, c.labels)
    ensures c.ready.IsFalse? && !c.deleting && !bootstrap ==> !Listed(k, c, adc, adcs, bootstrap, getFails)
    ensures k.ns == SYSTEM_NAMESPACE && adc.name != MANAGEMENT_ADC ==> !Listed(k, c, adc, adcs, bootstrap, getFails)
    ensures (c.deleting || bootstrap || !c.ready.IsFalse?) && (k.ns == SYSTEM_NAMESPACE ==> adc.name == MANAGEMENT_ADC) ==>
      (&& (AVI_LABEL !in c.labels || c.labels[AVI_LABEL] == adc.name ==> Listed(k, c, adc, adcs, bootstrap, getFails))
       && (AVI_LABEL in c.labels && c.labels[AVI_LABEL] !in {adc.name, DEFAULT_ADC} ==>
             !Listed(k, c, adc, adcs, bootstrap, getFails))
       && (AVI_LABEL in c.labels && c.labels[AVI_LABEL] == DEFAULT_ADC != adc.name ==>
             (Listed(k, c, adc, adcs, bootstrap, getFails) <==>
              !getFails && DEFAULT_ADC in adcs && adcs[DEFAULT_ADC].selector == Parsed([]))))
  {
  }

  // ---------------------------------------------------------------- forward lookup

  /** `a` selects by a non-empty, well-formed, matching selector. */
  predicate SelectsByLabels(a: Adc, labels: Labels) {
    !EmptySelector(a.selector) && Matches(a.selector, labels)
  }

  predicate IsEmptyDefault(a: Adc) {
    a.name == DEFAULT_ADC && EmptySelector(a.selector)
  }

  /** `owner` is what the forward lookup returns on this listing: the first ADC selecting by
      labels, else the last empty-selector default, else nothing. */
  predicate IsOwner(listing: seq<Adc>, labels: Labels, owner: Option<Adc>) {
    if exists a <- listing :: SelectsByLabels(a, labels) then
      exists i :: 0 <= i < |listing| && owner == Some(listing[i]) && SelectsByLabels(listing[i], labels)
                  && forall j :: 0 <= j < i ==> !SelectsByLabels(listing[j], labels)
    else if exists a <- listing :: IsEmptyDefault(a) then
      exists i :: 0 <= i < |listing| && owner == Some(listing[i]) && IsEmptyDefault(listing[i])
                  && forall j :: i < j < |listing| ==> !IsEmptyDefault(listing[j])
    else owner == None
  }

  method GetAdcForCluster(listing: seq<Adc>, labels: Labels) returns (owner: Option<Adc>)
    ensures IsOwner(listing, labels, owner)
  {
    var defaultAdc: Option<Adc> := None;
    for n := 0 to |listing|
      invariant forall j :: 0 <= j < n ==> !SelectsByLabels(listing[j], labels)
      invariant defaultAdc.None? ==> forall j :: 0 <= j < n ==> !IsEmptyDefault(listing[j])
      invariant defaultAdc.Some? ==>
        exists i :: 0 <= i < n && defaultAdc == Some(listing[i]) && IsEmptyDefault(listing[i])
                    && forall j :: i < j < n ==> !IsEmptyDefault(listing[j])
    {
      var a := listing[n];
      if a.selector.Malformed? {
        // the conversion error is logged and the ADC passed over
      } else if EmptySelector(a.selector) {
        if a.name == DEFAULT_ADC {
          defaultAdc := Some(a);
        }
      } else if Matches(a.selector, labels) {
        assert a in listing;
        return Some(a);
      }
    }
    return defaultAdc;
  }

  /** The API server's ADC list, each object once, in some order. */
  ghost predicate Enumerates(listing: seq<Adc>, adcs: map<string, Adc>) {
    && (forall a :: a in listing <==> a.name in adcs && adcs[a.name] == a)
    && (forall i, j :: 0 <= i < j < |listing| ==> listing[i].name != listing[j].name)
  }

  /** What admission guarantees of the stored ADCs. */
  ghost predicate Admitted(adcs: map<string, Adc>) {
    forall n :: n in adcs ==> adcs[n].name == n && (EmptySelector(adcs[n].selector) ==> n == DEFAULT_ADC)
  }

  /** The cluster is still selected by some ADC. */
  ghost predicate Selected(adcs: map<string, Adc>, labels: Labels) {
    exists n :: n in adcs && (SelectsByLabels(adcs[n], labels) || IsEmptyDefault(adcs[n]))
  }

  /** The forward lookup returns nothing exactly when no ADC selects the cluster, whatever
      order the API server lists the ADCs in. */
  lemma OwnerExistsIffSelected(adcs: map<string, Adc>, listing: seq<Adc>, labels: Labels, owner: Option<Adc>)
    requires Enumerates(listing, adcs) && Admitted(adcs) && IsOwner(listing, labels, owner)
    ensures owner.Some? <==> Selected(adcs, labels)
    ensures owner.Some? ==> owner.value in listing
  {
    forall n | n in adcs ensures adcs[n] in listing {
      var a := adcs[n];
      assert a.name in adcs && adcs[a.name] == a;
    }
    if owner.Some? {
      assert owner.value in listing;
      var n := owner.value.name;
      assert n in adcs && adcs[n] == owner.value;
    }
  }

  // ---------------------------------------------------------------- agreement

  predicate MentionsAviLabel(s: Selector) {
    s.Parsed? && exists r <- s.requirements :: r.key == AVI_LABEL
  }

  /** The Cluster controller's write after the lookup. */
  function Labelled(c: Cluster, owner: Option<Adc>): Cluster {
    if owner.Some? then ApplyLabel(c, owner.value.name) else RemoveLabel(c)
  }

  /** The requirements on other labels hold. */
  predicate MatchesOthers(s: Selector, labels: Labels) {
    s.Parsed? && forall r <- s.requirements :: r.key != AVI_LABEL ==> Satisfies(labels, r)
  }

  /** The requirements on the avi label hold of the owner written into it. */
  predicate MatchesOwner(s: Selector, owner: Option<Adc>) {
    var written := if owner.Some? then map[AVI_LABEL := owner.value.name] else map[];
    s.Parsed? && forall r <- s.requirements :: r.key == AVI_LABEL ==> Satisfies(written, r)
  }

  /** After the write a selector matches if its two parts do. */
  lemma MatchSplits(s: Selector, c: Cluster, owner: Option<Adc>)
    ensures Matches(s, Labelled(c, owner).labels) <==> MatchesOthers(s, c.labels) && MatchesOwner(s, owner)
  {
    if s.Parsed? {
      var after := Labelled(c, owner).labels;
      var written := if owner.Some? then map[AVI_LABEL := owner.value.name] else map[];
      forall r | r in s.requirements
        ensures Satisfies(after, r) <==> Satisfies(if r.key == AVI_LABEL then written else c.labels, r)
      {
      }
    }
  }

  /** The exact condition for agreement about ADC `y`. What the returned ADC asks of the avi label
      has to hold of its own name. Another ADC must not match the written label when the lookup
      returned nothing, or the empty default while that default can be read. A settled owner
      shuts every other ADC out. */
  predicate Agreeable(y: Adc, c: Cluster, owner: Option<Adc>, getFails: bool) {
    if owner == Some(y) then MatchesOwner(y.selector, owner)
    else if owner.None? || (IsEmptyDefault(owner.value) && !getFails) then
      !(MatchesOthers(y.selector, c.labels) && MatchesOwner(y.selector, owner))
    else true
  }

  /** Forward and reverse selection agree about an ADC, once the Cluster controller has written
      the label, exactly when its requirements on that label allow it. */
  lemma SelectionAgreesIff(k: Key, c: Cluster, adcs: map<string, Adc>, listing: seq<Adc>, owner: Option<Adc>,
                           bootstrap: bool, getFails: bool, n: string)
    requires Admitted(adcs) && Enumerates(listing, adcs) && IsOwner(listing, c.labels, owner)
    requires k.ns != SYSTEM_NAMESPACE && !SkipCluster(c, bootstrap)
    requires n in adcs
    ensures (Listed(k, Labelled(c, owner), adcs[n], adcs, bootstrap, getFails) <==> owner == Some(adcs[n]))
            <==> Agreeable(adcs[n], c, owner, getFails)
  {
    var y := adcs[n];
    MatchSplits(y.selector, c, owner);
    OwnerExistsIffSelected(adcs, listing, c.labels, owner);
    if owner.Some? {
      var x := owner.value;
      assert x in listing && x.name in adcs && adcs[x.name] == x;
      assert x == y <==> x.name == n;
    }
  }

  /** Selectors that do not mention the avi label always agree: a cluster is listed by exactly
      the ADC the lookup returned, and by nobody when it returned nothing, even when several
      selectors match. */
  lemma SelectionAgrees(k: Key, c: Cluster, adcs: map<string, Adc>, listing: seq<Adc>, owner: Option<Adc>,
                        bootstrap: bool, getFails: bool, n: string)
    requires Admitted(adcs) && Enumerates(listing, adcs) && IsOwner(listing, c.labels, owner)
    requires forall m :: m in adcs ==> !MentionsAviLabel(adcs[m].selector)
    requires k.ns != SYSTEM_NAMESPACE && !SkipCluster(c, bootstrap)
    requires n in adcs
    ensures Listed(k, Labelled(c, owner), adcs[n], adcs, bootstrap, getFails) <==> owner == Some(adcs[n])
  {
    var y := adcs[n];
    SelectionAgreesIff(k, c, adcs, listing, owner, bootstrap, getFails, n);
    assert y.name in adcs && adcs[y.name] == y;
    assert y in listing;
    OwnerExistsIffSelected(adcs, listing, c.labels, owner);
    assert MatchesOthers(y.selector, c.labels) <==> Matches(y.selector, c.labels);
    if owner.Some? {
      assert owner.value in listing;
      assert adcs[owner.value.name] == owner.value;
    }
  }

  /** Without the restriction on selectors the two directions disagree: an ADC that asks for
      clusters without the label loses each cluster it is given. */
  lemma SelectionDisagreesOnAviLabel()
    ensures
      var x := Adc("x", Parsed([DoesNotExist(AVI_LABEL)]), false, true, false);
      var c := Cluster(map[], false, true, IsTrue, Avi, Unset, Unset);
      && Admitted(map["x" := x]) && Enumerates([x], map["x" := x]) && IsOwner([x], c.labels, Some(x))
      && !Listed(Key("ns", "c"), Labelled(c, Some(x)), x, map["x" := x], false, false)
  {
    var x := Adc("x", Parsed([DoesNotExist(AVI_LABEL)]), false, true, false);
    var c := Cluster(map[], false, true, IsTrue, Avi, Unset, Unset);
    assert x.selector.requirements[0] in x.selector.requirements;
    assert [x][0] in [x] && SelectsByLabels([x][0], c.labels);
    assert DoesNotExist(AVI_LABEL) in x.selector.requirements;
    assert !Satisfies(Labelled(c, Some(x)).labels, DoesNotExist(AVI_LABEL));
  }
}
