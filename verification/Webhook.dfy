/** Admission of AKODeploymentConfig objects (api/v1alpha1/akodeploymentconfig_webhook.go).
    `S` is the selector as written; `show` is its textual form and `parse` its conversion. */
module Webhook {
  import opened Objects
  import opened Selection
  import opened DataNetwork
  import opened Addresses

  datatype Spec<S> = Spec(
    name: string,
    clusterSelector: S,
    cloudName: string,
    serviceEngineGroup: string,
    controlPlaneNetwork: (string, string),
    dataNetworkName: string,
    dataNetworkCidr: string,
    ipPools: seq<Pool>,
    replicaCount: Option<int>)

  /** What the management cluster, the AVI controller and the parsers answer about an object. */
  datatype Answers = Answers(
    adminSecret: bool,
    caSecret: bool,
    versionFormat: bool,
    runTest: bool,
    account: bool,
    version: Option<string>,
    accountWithVersion: bool,
    cloud: bool,
    serviceEngineGroup: bool,
    controlPlaneNetworks: bool,
    dataNetworkFound: bool,
    dataNetworkCidr: Option<Cidr>)

  predicate AnswersOk(a: Answers) {
    a.dataNetworkCidr.Some? ==> ParsedCidr(a.dataNetworkCidr.value)
  }

  datatype FieldError =
    | SelectorChanged | SelectorInvalid | SelectorEmpty | SecretMissing | VersionFormat | AccountRejected
    | VersionUnknown | ReplicaCount | CloudInvalid | ServiceEngineGroupInvalid | ControlPlaneNetworkInvalid
    | ControlPlaneNetworkChanged | DataNetworkInvalid

  /** The object under review; the webhook overwrites its controller version. */
  class Candidate<S> {
    const spec: Spec<S>
    var controllerVersion: string

    constructor (spec: Spec<S>, version: string)
      ensures this.spec == spec && controllerVersion == version
    {
      this.spec, controllerVersion := spec, version;
    }
  }

  // ---------------------------------------------------------------- the selector

  predicate SelectorAccepted<S>(prior: Option<Spec<S>>, r: Spec<S>, show: S -> string, parse: S -> Selector) {
    && (prior.Some? ==> show(prior.value.clusterSelector) == show(r.clusterSelector))
    && parse(r.clusterSelector).Parsed?
    && (r.name != DEFAULT_ADC ==> !EmptySelector(parse(r.clusterSelector)))
  }

  /** A malformed selector of a non-default ADC is a nil dereference after its error. */
  method ValidateClusterSelector<S>(prior: Option<Spec<S>>, r: Spec<S>, show: S -> string, parse: S -> Selector)
    returns (errs: seq<FieldError>, panic: bool)
    ensures errs == [] && !panic <==> SelectorAccepted(prior, r, show, parse)
  {
    errs, panic := [], false;
    if prior.Some? {
      if show(prior.value.clusterSelector) != show(r.clusterSelector) {
        return [SelectorChanged], false;
      }
    }
    var selector := parse(r.clusterSelector);
    if selector.Malformed? {
      errs := errs + [SelectorInvalid];
    }
    if r.name != DEFAULT_ADC {
      if selector.Malformed? {
        return errs, true;
      }
      if EmptySelector(selector) {
        errs := errs + [SelectorEmpty];
      }
    }
  }

  // ---------------------------------------------------------------- the AVI fields

  predicate ReplicaCountAccepted(n: Option<int>) {
    n.Some? ==> 1 <= n.value <= 2
  }

  ghost predicate DataNetworkAccepted<S>(r: Spec<S>, a: Answers)
    requires AnswersOk(a)
  {
    a.dataNetworkFound && a.dataNetworkCidr.Some? && PoolsAccepted(a.dataNetworkCidr.value, r.ipPools)
  }

  predicate DataNetworkChanged<S>(o: Spec<S>, r: Spec<S>) {
    o.dataNetworkName != r.dataNetworkName || o.dataNetworkCidr != r.dataNetworkCidr
  }

  /** The checks that differ between creation and update: an update repeats only those of the
      fields it changes, and may not change the control-plane network. */
  ghost predicate FieldsAccepted<S>(prior: Option<Spec<S>>, r: Spec<S>, a: Answers)
    requires AnswersOk(a)
  {
    match prior
    case None => a.cloud && a.serviceEngineGroup && a.controlPlaneNetworks && DataNetworkAccepted(r, a)
    case Some(o) =>
      && (o.cloudName != r.cloudName ==> a.cloud)
      && (o.serviceEngineGroup != r.serviceEngineGroup ==> a.serviceEngineGroup)
      && o.controlPlaneNetwork == r.controlPlaneNetwork
      && (DataNetworkChanged(o, r) ==> DataNetworkAccepted(r, a))
  }

  ghost predicate AviAccepted<S>(prior: Option<Spec<S>>, r: Spec<S>, a: Answers)
    requires AnswersOk(a)
  {
    && a.adminSecret && a.caSecret && a.versionFormat && ReplicaCountAccepted(r.replicaCount)
    && (a.runTest || (a.account && a.version.Some? && a.accountWithVersion))
    && FieldsAccepted(prior, r, a)
  }

  /** The accumulation of errors, with all its early returns. */
  method ValidateAvi<S>(prior: Option<Spec<S>>, c: Candidate<S>, a: Answers)
    returns (errs: seq<FieldError>, panic: bool)
    requires AnswersOk(a)
    modifies c
    ensures errs == [] && !panic <==> AviAccepted(prior, c.spec, a)
    ensures c.controllerVersion
         == if a.adminSecret && a.caSecret && !a.runTest && a.account && a.version.Some? then a.version.value
            else old(c.controllerVersion)
  {
    errs, panic := [], false;
    if !a.adminSecret {
      errs := errs + [SecretMissing];
    }
    if !a.caSecret {
      errs := errs + [SecretMissing];
    }
    if errs != [] {
      return;
    }
    if !a.versionFormat {
      errs := errs + [VersionFormat];
    }
    if !a.runTest {
      if !a.account {
        return errs + [AccountRejected], false;
      }
      if a.version.None? {
        return errs + [VersionUnknown], false;
      }
      c.controllerVersion := a.version.value;
      if !a.accountWithVersion {
        return errs + [AccountRejected], false;
      }
    }
    if !ReplicaCountAccepted(c.spec.replicaCount) {
      errs := errs + [ReplicaCount];
    }
    var more;
    more, panic := ValidateAviFields(prior, c.spec, a);
    errs := errs + more;
  }

  method ValidateAviFields<S>(prior: Option<Spec<S>>, r: Spec<S>, a: Answers)
    returns (errs: seq<FieldError>, panic: bool)
    requires AnswersOk(a)
    ensures errs == [] && !panic <==> FieldsAccepted(prior, r, a)
  {
    errs, panic := [], false;
    var checkData := true;
    if prior.None? {
      if !a.cloud {
        errs := errs + [CloudInvalid];
      }
      if !a.serviceEngineGroup {
        errs := errs + [ServiceEngineGroupInvalid];
      }
      if !a.controlPlaneNetworks {
        errs := errs + [ControlPlaneNetworkInvalid];
      }
    } else {
      var o := prior.value;
      if o.cloudName != r.cloudName && !a.cloud {
        errs := errs + [CloudInvalid];
      }
      if o.serviceEngineGroup != r.serviceEngineGroup && !a.serviceEngineGroup {
        errs := errs + [ServiceEngineGroupInvalid];
      }
      if o.controlPlaneNetwork.0 != r.controlPlaneNetwork.0 || o.controlPlaneNetwork.1 != r.controlPlaneNetwork.1 {
        errs := errs + [ControlPlaneNetworkChanged];
      }
      checkData := DataNetworkChanged(o, r);
    }
    if checkData {
      var v := ValidateDataNetwork(a.dataNetworkFound, a.dataNetworkCidr, r.ipPools);
      if v.Panic? {
        panic := true;
      } else if v.n > 0 {
        errs := errs + [DataNetworkInvalid];
      }
    }
  }

  // ---------------------------------------------------------------- admission

  ghost predicate Accepted<S>(prior: Option<Spec<S>>, r: Spec<S>, a: Answers, show: S -> string, parse: S -> Selector)
    requires AnswersOk(a)
  {
    SelectorAccepted(prior, r, show, parse) && AviAccepted(prior, r, a)
  }

  /** `ValidateCreate` when there is no old object, `ValidateUpdate` otherwise. */
  method Validate<S>(prior: Option<Spec<S>>, c: Candidate<S>, a: Answers, show: S -> string, parse: S -> Selector)
    returns (admitted: bool)
    requires AnswersOk(a)
    modifies c
    ensures admitted <==> Accepted(prior, c.spec, a, show, parse)
  {
    var errs, panic := ValidateClusterSelector(prior, c.spec, show, parse);
    if panic {
      return false;
    }
    var more, panic' := ValidateAvi(prior, c, a);
    if panic' {
      return false;
    }
    return |errs + more| == 0;
  }

  /** A life of one object: an accepted creation followed by accepted updates. */
  ghost predicate Chain<S>(specs: seq<Spec<S>>, answers: seq<Answers>, show: S -> string, parse: S -> Selector) {
    && |specs| == |answers| > 0 && (forall a <- answers :: AnswersOk(a))
    && (forall i :: 0 <= i < |specs| ==> specs[i].name == specs[0].name)
    && Accepted(None, specs[0], answers[0], show, parse)
    && forall i :: 0 < i < |specs| ==> Accepted(Some(specs[i - 1]), specs[i], answers[i], show, parse)
  }

  /** Over any chain of accepted changes the cluster selector, as shown, and the control-plane
      network stay those of the creation, and only the default ADC may select everything. */
  lemma {:induction false} ImmutableFields<S>(specs: seq<Spec<S>>, answers: seq<Answers>, show: S -> string,
                                              parse: S -> Selector, i: nat)
    requires Chain(specs, answers, show, parse) && i < |specs|
    ensures show(specs[i].clusterSelector) == show(specs[0].clusterSelector)
    ensures specs[i].controlPlaneNetwork == specs[0].controlPlaneNetwork
    ensures parse(specs[i].clusterSelector).Parsed?
    ensures EmptySelector(parse(specs[i].clusterSelector)) ==> specs[i].name == DEFAULT_ADC
    ensures specs[i].replicaCount.Some? ==> specs[i].replicaCount.value in {1, 2}
  {
    if i > 0 {
      ImmutableFields(specs, answers, show, parse, i - 1);
      assert Accepted(Some(specs[i - 1]), specs[i], answers[i], show, parse);
    }
    assert ReplicaCountAccepted(specs[i].replicaCount);
  }

  /** If two selectors never show alike, the selector itself never changes. */
  lemma SelectorNeverChanges<S(!new)>(specs: seq<Spec<S>>, answers: seq<Answers>, show: S -> string,
                                      parse: S -> Selector, i: nat)
    requires Chain(specs, answers, show, parse) && i < |specs|
    requires forall s, t :: show(s) == show(t) ==> s == t
    ensures specs[i].clusterSelector == specs[0].clusterSelector
  {
    ImmutableFields(specs, answers, show, parse, i);
  }

  /** The objects admission lets into the cluster satisfy what selection relies on. */
  lemma ChainsAreAdmitted<S>(adcs: map<string, Adc>, lives: map<string, seq<Spec<S>>>, answers: map<string, seq<Answers>>,
                             show: S -> string, parse: S -> Selector)
    requires lives.Keys == adcs.Keys == answers.Keys
    requires forall n <- adcs :: adcs[n].name == n && Chain(lives[n], answers[n], show, parse)
               && lives[n][0].name == n && adcs[n].selector == parse(lives[n][|lives[n]| - 1].clusterSelector)
    ensures Admitted(adcs)
  {
    forall n | n in adcs ensures EmptySelector(adcs[n].selector) ==> n == DEFAULT_ADC {
      ImmutableFields(lives[n], answers[n], show, parse, |lives[n]| - 1);
    }
  }

  /** The check `passed` is needed: at creation, and when an update changes the field. */
  ghost predicate Checked<T(!new)>(before: Option<T>, now: T, passed: bool) {
    before != Some(now) ==> passed
  }

  ghost function Before<S, T>(prior: Option<Spec<S>>, field: Spec<S> -> T): Option<T> {
    if prior.None? then None else Some(field(prior.value))
  }

  /** An object is accepted exactly when the secrets and the version are in good form, the AVI
      controller takes the account (unless that is switched off), the replica count is absent or
      one or two, the selector parses, is as it was and is empty for the default ADC only, the
      control-plane network is checked once and never changes, and cloud, service engine group
      and data network with its pools are checked at creation and whenever they change. */
  lemma AcceptedMeaning<S>(prior: Option<Spec<S>>, r: Spec<S>, a: Answers, show: S -> string, parse: S -> Selector)
    requires AnswersOk(a)
    ensures Accepted(prior, r, a, show, parse) <==>
      && a.adminSecret && a.caSecret && a.versionFormat
      && (a.runTest || (a.account && a.version.Some? && a.accountWithVersion))
      && (r.replicaCount.None? || r.replicaCount.value == 1 || r.replicaCount.value == 2)
      && parse(r.clusterSelector).Parsed?
      && (parse(r.clusterSelector).requirements == [] ==> r.name == DEFAULT_ADC)
      && (prior.Some? ==> show(r.clusterSelector) == show(prior.value.clusterSelector)
                          && r.controlPlaneNetwork == prior.value.controlPlaneNetwork)
      && Checked(Before(prior, (o: Spec<S>) => o.cloudName), r.cloudName, a.cloud)
      && Checked(Before(prior, (o: Spec<S>) => o.serviceEngineGroup), r.serviceEngineGroup, a.serviceEngineGroup)
      && (prior.None? ==> a.controlPlaneNetworks)
      && Checked(Before(prior, (o: Spec<S>) => (o.dataNetworkName, o.dataNetworkCidr)),
                 (r.dataNetworkName, r.dataNetworkCidr),
                 a.dataNetworkFound && a.dataNetworkCidr.Some? && PoolsAccepted(a.dataNetworkCidr.value, r.ipPools))
  {
  }

  // ---------------------------------------------------------------- the pools

  /** The pools lie in the parsed CIDR, as the validation of the data network asks. */
  ghost predicate PoolsInside(cidr: Option<Cidr>, pools: seq<Pool>)
    requires cidr.Some? ==> ParsedCidr(cidr.value)
  {
    cidr.Some? && PoolsAccepted(cidr.value, pools)
  }

  /** An update that changes only the pools is accepted whatever they are. */
  lemma PoolOnlyUpdateIsUnchecked<S>(o: Spec<S>, r: Spec<S>, pools: seq<Pool>, a: Answers,
                                     show: S -> string, parse: S -> Selector)
    requires AnswersOk(a) && Accepted(Some(o), r, a, show, parse) && !DataNetworkChanged(o, r)
    ensures Accepted(Some(o), r.(ipPools := pools), a, show, parse)
  {
    assert !DataNetworkChanged(o, r.(ipPools := pools));
  }

  /** For an otherwise accepted update, admission vouches for the pools exactly when the data
      network's name or CIDR changes: otherwise a pool without addresses is let in. */
  lemma PoolsCheckedIff<S>(o: Spec<S>, r: Spec<S>, a: Answers, show: S -> string, parse: S -> Selector)
    requires AnswersOk(a) && Accepted(Some(o), r, a, show, parse)
    ensures (forall pools :: Accepted(Some(o), r.(ipPools := pools), a, show, parse)
                             ==> PoolsInside(a.dataNetworkCidr, pools))
            <==> DataNetworkChanged(o, r)
  {
    if DataNetworkChanged(o, r) {
      forall pools | Accepted(Some(o), r.(ipPools := pools), a, show, parse)
        ensures PoolsInside(a.dataNetworkCidr, pools)
      {
        assert DataNetworkChanged(o, r.(ipPools := pools));
      }
    } else {
      var bad := [Pool([], [], "")];
      PoolOnlyUpdateIsUnchecked(o, r, bad, a, show, parse);
      assert bad[0] in bad && !PoolsInside(a.dataNetworkCidr, bad);
    }
  }

  /** The answers come from one CIDR parser. */
  ghost predicate ParsedBy<S>(specs: seq<Spec<S>>, answers: seq<Answers>, cidrOf: string -> Option<Cidr>) {
    |specs| == |answers| && forall i :: 0 <= i < |specs| ==> answers[i].dataNetworkCidr == cidrOf(specs[i].dataNetworkCidr)
  }

  /** No update touches the pools without also changing the data network's name or CIDR. */
  ghost predicate PoolsMoveWithNetwork<S>(specs: seq<Spec<S>>) {
    forall i :: 0 < i < |specs| && specs[i].ipPools != specs[i - 1].ipPools ==> DataNetworkChanged(specs[i - 1], specs[i])
  }

  /** In such a chain the stored pools are accepted by the stored CIDR at every point. */
  lemma {:induction false} PoolsStayInside<S>(specs: seq<Spec<S>>, answers: seq<Answers>, show: S -> string,
                                              parse: S -> Selector, cidrOf: string -> Option<Cidr>, i: nat)
    requires Chain(specs, answers, show, parse) && ParsedBy(specs, answers, cidrOf) && PoolsMoveWithNetwork(specs)
    requires i < |specs|
    ensures AnswersOk(answers[i]) && PoolsInside(cidrOf(specs[i].dataNetworkCidr), specs[i].ipPools)
  {
    assert answers[i] in answers;
    if i > 0 {
      PoolsStayInside(specs, answers, show, parse, cidrOf, i - 1);
      assert Accepted(Some(specs[i - 1]), specs[i], answers[i], show, parse);
    }
  }

  /** So every address of every stored pool lies in the stored CIDR's block. */
  lemma StoredPoolsLieInBlock<S>(specs: seq<Spec<S>>, answers: seq<Answers>, show: S -> string, parse: S -> Selector,
                                 cidrOf: string -> Option<Cidr>, i: nat, pool: Pool, x: Ip)
    requires Chain(specs, answers, show, parse) && ParsedBy(specs, answers, cidrOf) && PoolsMoveWithNetwork(specs)
    requires i < |specs| && pool in specs[i].ipPools && Between(pool.start, x, pool.end)
    ensures var cidr := cidrOf(specs[i].dataNetworkCidr); cidr.Some? && ParsedCidr(cidr.value) && InCidr(cidr.value, x)
  {
    PoolsStayInside(specs, answers, show, parse, cidrOf, i);
    PoolInsideBlock(cidrOf(specs[i].dataNetworkCidr).value, pool, x);
  }
}
