/** The AKO package reference in a cluster's ClusterBootstrap
    (controllers/akodeploymentconfig/cluster/cluster_controller_addon_secret.go). */
module Bootstrap {
  import opened Objects

  const AKO_REF_PREFIX := "load-balancer-and-ingress-service.tanzu.vmware.com"
  const AKO_PACKAGE := "load-balancer-and-ingress-service"
  const SKIP_DELETE_KEY := "run.tanzu.vmware.com/skip-packageinstall-deletion"

  datatype ValuesFrom = NoValues | SecretRef(name: string) | OtherValues

  datatype Package = Package(refName: string, valuesFrom: ValuesFrom)

  datatype BootstrapValue = BootstrapValue(
    packages: seq<Package>, annotations: map<string, string>, resolvedTkr: string)

  /** The in-memory copy that one pass edits. */
  class ClusterBootstrap {
    var packages: seq<Package>
    var annotations: map<string, string>
    const resolvedTkr: string

    constructor (b: BootstrapValue)
      ensures Value() == b
    {
      packages, annotations, resolvedTkr := b.packages, b.annotations, b.resolvedTkr;
    }

    function Value(): BootstrapValue
      reads this
    {
      BootstrapValue(packages, annotations, resolvedTkr)
    }
  }

  /** What the API server stores; `None` when there is no ClusterBootstrap. */
  class BootstrapStore {
    var stored: Option<BootstrapValue>
  }

  /** The answers one pass gets; `packages` are the release's package names, absent when the
      release could not be read. */
  datatype Replies = Replies(getFails: bool, helperFails: bool, packages: Option<seq<string>>, patch: Write)

  // ---------------------------------------------------------------- searching

  predicate IsAko(refName: string) {
    AKO_REF_PREFIX <= refName
  }

  /** The position of the first AKO name; past the end when there is none. */
  function AkoIndex(names: seq<string>): (i: nat)
    ensures i <= |names| && (i < |names| ==> IsAko(names[i]))
    ensures forall j :: 0 <= j < i ==> !IsAko(names[j])
  {
    if names == [] || IsAko(names[0]) then 0 else 1 + AkoIndex(names[1..])
  }

  function Names(packages: seq<Package>): (names: seq<string>)
    ensures |names| == |packages| && forall i :: 0 <= i < |packages| ==> names[i] == packages[i].refName
  {
    seq(|packages|, i requires 0 <= i < |packages| => packages[i].refName)
  }

  function AkoNameOf(names: seq<string>): (r: Option<string>)
    ensures r.Some? ==> IsAko(r.value) && r.value in names
    ensures r.Some? ==> exists i :: 0 <= i < |names| && names[i] == r.value && forall j :: 0 <= j < i ==> !IsAko(names[j])
    ensures r.None? <==> forall n <- names :: !IsAko(n)
  {
    var i := AkoIndex(names);
    if i < |names| then Some(names[i]) else None
  }

  /** `GetAKOPackageRefNameFromTKR`; `None` is its error. */
  method GetAkoPackageRefName(names: seq<string>) returns (r: Option<string>)
    ensures r == AkoNameOf(names)
  {
    for i := 0 to |names|
      invariant i <= AkoIndex(names)
    {
      if AKO_REF_PREFIX <= names[i] {
        return Some(names[i]);
      }
      assert !IsAko(names[i]);
    }
    return None;
  }

  /** `getAKOPackageRefFromClusterBootstrap`; -1 when there is none. */
  method GetAkoPackageIndex(packages: seq<Package>) returns (index: int)
    ensures index == if AkoIndex(Names(packages)) < |packages| then AkoIndex(Names(packages)) else -1
  {
    for i := 0 to |packages|
      invariant i <= AkoIndex(Names(packages))
    {
      if AKO_REF_PREFIX <= packages[i].refName {
        assert IsAko(Names(packages)[i]);
        return i;
      }
      assert !IsAko(Names(packages)[i]);
    }
    return -1;
  }

  predicate OccursAt(part: string, s: string, i: int) {
    0 <= i <= |s| - |part| && s[i..i + |part|] == part
  }

  /** `strings.Contains`. */
  predicate Contains(s: string, part: string) {
    exists i | 0 <= i <= |s| :: OccursAt(part, s, i)
  }

  // ---------------------------------------------------------------- patching

  function Expected(name: string, cluster: string): Package {
    Package(name, SecretRef(cluster + "-load-balancer-and-ingress-service-addon"))
  }

  function WithPackage(packages: seq<Package>, p: Package): seq<Package> {
    var i := AkoIndex(Names(packages));
    if i < |packages| then packages[i := p] else packages + [p]
  }

  function WithSkipDelete(annotations: map<string, string>): map<string, string> {
    if SKIP_DELETE_KEY !in annotations then annotations[SKIP_DELETE_KEY := "," + AKO_PACKAGE]
    else if Contains(annotations[SKIP_DELETE_KEY], AKO_PACKAGE) then annotations
    else annotations[SKIP_DELETE_KEY := annotations[SKIP_DELETE_KEY] + "," + AKO_PACKAGE]
  }

  function Patched(b: BootstrapValue, name: string, cluster: string): BootstrapValue {
    b.(packages := WithPackage(b.packages, Expected(name, cluster)), annotations := WithSkipDelete(b.annotations))
  }

  /** The release's AKO package name, when everything needed to patch can be read. */
  function ReleaseName(stored: Option<BootstrapValue>, r: Replies): Option<string> {
    if stored.None? || r.getFails || r.helperFails || stored.value.resolvedTkr == "" || r.packages.None? then None
    else AkoNameOf(r.packages.value)
  }

  /** What one pass leaves stored, and whether it failed. */
  function Pass(stored: Option<BootstrapValue>, cluster: string, r: Replies): (Option<BootstrapValue>, bool) {
    var name := ReleaseName(stored, r);
    if name.None? then (stored, true)
    else if r.patch.Rejected? then (stored, true)
    else (Some(Patched(stored.value, name.value, cluster)), r.patch.Failed())
  }

  method PatchAkoPackageRef(store: BootstrapStore, cluster: string, r: Replies) returns (failed: bool)
    modifies store
    ensures (store.stored, failed) == Pass(old(store.stored), cluster, r)
  {
    if store.stored.None? || r.getFails {
      return true;
    }
    var bootstrap := new ClusterBootstrap(store.stored.value);
    if r.helperFails || bootstrap.resolvedTkr == "" || r.packages.None? {
      return true;
    }
    var name := GetAkoPackageRefName(r.packages.value);
    if name.None? {
      return true;
    }
    EditBootstrap(bootstrap, name.value, cluster);
    if r.patch.Applied() {
      store.stored := Some(bootstrap.Value());
    }
    return r.patch.Failed();
  }

  method EditBootstrap(bootstrap: ClusterBootstrap, name: string, cluster: string)
    modifies bootstrap
    ensures bootstrap.Value() == Patched(old(bootstrap.Value()), name, cluster)
  {
    var expected := Package(name, SecretRef(cluster + "-load-balancer-and-ingress-service-addon"));
    var index := GetAkoPackageIndex(bootstrap.packages);
    if index == -1 {
      bootstrap.packages := bootstrap.packages + [expected];
    } else if bootstrap.packages[index] != expected {
      bootstrap.packages := bootstrap.packages[index := expected];
    }
    assert bootstrap.packages == WithPackage(old(bootstrap.packages), expected);
    if SKIP_DELETE_KEY !in bootstrap.annotations {
      bootstrap.annotations := bootstrap.annotations[SKIP_DELETE_KEY := "," + AKO_PACKAGE];
    } else if !Contains(bootstrap.annotations[SKIP_DELETE_KEY], AKO_PACKAGE) {
      bootstrap.annotations :=
        bootstrap.annotations[SKIP_DELETE_KEY := bootstrap.annotations[SKIP_DELETE_KEY] + "," + AKO_PACKAGE];
    }
  }

  // ---------------------------------------------------------------- one patch

  /** The positions of AKO packages. */
  ghost function AkoAt(packages: seq<Package>): set<int> {
    set i | 0 <= i < |packages| && IsAko(packages[i].refName)
  }

  /** The first AKO package is `p`, and every package other than the first AKO one kept its
      position and value. */
  ghost predicate Holds(before: seq<Package>, after: seq<Package>, p: Package) {
    var i := AkoIndex(Names(before));
    && |after| == (if i < |before| then |before| else |before| + 1)
    && AkoIndex(Names(after)) == i && after[i] == p
    && forall j :: 0 <= j < |after| && j != i ==> j < |before| && after[j] == before[j]
  }

  /** The annotation lists the AKO package, which is appended after a comma if it was not there. */
  ghost predicate Skips(before: map<string, string>, after: map<string, string>) {
    && SKIP_DELETE_KEY in after && Contains(after[SKIP_DELETE_KEY], AKO_PACKAGE)
    && after - {SKIP_DELETE_KEY} == before - {SKIP_DELETE_KEY}
    && (var was := if SKIP_DELETE_KEY in before then before[SKIP_DELETE_KEY] else "";
        after[SKIP_DELETE_KEY] == if Contains(was, AKO_PACKAGE) then was else was + "," + AKO_PACKAGE)
  }

  lemma ContainsEnd(s: string, part: string)
    ensures Contains(s + part, part)
  {
    assert OccursAt(part, s + part, |s|);
  }

  lemma PatchSound(b: BootstrapValue, name: string, cluster: string)
    requires IsAko(name)
    ensures var after := Patched(b, name, cluster);
      && Holds(b.packages, after.packages,
               Package(name, SecretRef(cluster + "-load-balancer-and-ingress-service-addon")))
      && Skips(b.annotations, after.annotations)
      && after.resolvedTkr == b.resolvedTkr
      && Patched(after, name, cluster) == after
  {
    var p := Expected(name, cluster);
    var after := WithPackage(b.packages, p);
    var i := AkoIndex(Names(b.packages));
    assert IsAko(Names(after)[i]);
    assert forall j :: 0 <= j < i ==> Names(after)[j] == Names(b.packages)[j];
    assert AkoIndex(Names(after)) == i;
    assert after[i := p] == after;
    ContainsEnd(",", AKO_PACKAGE);
    if SKIP_DELETE_KEY in b.annotations {
      ContainsEnd(b.annotations[SKIP_DELETE_KEY] + ",", AKO_PACKAGE);
    }
  }

  /** With at most one AKO package before, exactly one after. */
  lemma ExactlyOne(before: seq<Package>, after: seq<Package>, p: Package)
    requires IsAko(p.refName) && Holds(before, after, p)
    requires forall i, j :: i in AkoAt(before) && j in AkoAt(before) ==> i == j
    ensures exists i :: AkoAt(after) == {i} && after[i] == p
  {
    var i := AkoIndex(Names(before));
    assert i < |before| ==> i in AkoAt(before);
    forall j | j in AkoAt(after) ensures j == i {
      assert j != i ==> j in AkoAt(before);
    }
    assert i in AkoAt(after);
    assert AkoAt(after) == {i};
  }

  // ---------------------------------------------------------------- every run

  function Run(stored: Option<BootstrapValue>, cluster: string, replies: seq<Replies>): Option<BootstrapValue>
    decreases replies
  {
    if replies == [] then stored else Run(Pass(stored, cluster, replies[0]).0, cluster, replies[1..])
  }

  /** The release name of the last pass whose patch was applied. */
  function LastName(stored: Option<BootstrapValue>, last: Option<string>, replies: seq<Replies>): Option<string>
    decreases replies
  {
    if replies == [] then last
    else
      var name := ReleaseName(stored, replies[0]);
      LastName(stored, if name.Some? && replies[0].patch.Applied() then name else last, replies[1..])
  }

  lemma HoldsTransitive(a: seq<Package>, b: seq<Package>, c: seq<Package>, p: Package, q: Package)
    requires Holds(a, b, p) && Holds(b, c, q)
    ensures Holds(a, c, q)
  {
  }

  lemma SkipsTransitive(a: map<string, string>, b: map<string, string>, c: map<string, string>)
    requires Skips(a, b) && Skips(b, c)
    ensures Skips(a, c)
  {
  }

  /** Over any run of passes, with any calls failing and releases changing: nothing changes
      until a patch is applied; from then on the AKO package is that of the last release
      patched in, every other package keeps position and value, and the annotation lists it. */
  lemma {:induction false} RunSound(b: BootstrapValue, cluster: string, replies: seq<Replies>)
    ensures var after := Run(Some(b), cluster, replies);
      var name := LastName(Some(b), None, replies);
      && after.Some? && after.value.resolvedTkr == b.resolvedTkr
      && (name.None? ==> after.value == b)
      && (name.Some? ==>
            && IsAko(name.value)
            && Holds(b.packages, after.value.packages, Expected(name.value, cluster))
            && Skips(b.annotations, after.value.annotations))
    decreases replies
  {
    if replies != [] {
      var r := replies[0];
      var name := ReleaseName(Some(b), r);
      var rest := replies[1..];
      if name.Some? && r.patch.Applied() {
        var b' := Patched(b, name.value, cluster);
        PatchSound(b, name.value, cluster);
        RunSound(b', cluster, rest);
        LastNameStable(b, b', None, rest);
        LastNameStable(b, b', name, rest);
        var after := Run(Some(b'), cluster, rest).value;
        var later := LastName(Some(b), None, rest);
        if later.Some? {
          HoldsTransitive(b.packages, b'.packages, after.packages, Expected(name.value, cluster),
                          Expected(later.value, cluster));
          SkipsTransitive(b.annotations, b'.annotations, after.annotations);
        }
      } else {
        RunSound(b, cluster, rest);
      }
    }
  }

  /** Which release is patched in last depends only on the resolved release and the replies. */
  lemma {:induction false} LastNameStable(
    a: BootstrapValue, b: BootstrapValue, last: Option<string>, replies: seq<Replies>)
    requires a.resolvedTkr == b.resolvedTkr
    ensures LastName(Some(b), last, replies) == LastName(Some(a), last, replies)
    ensures LastName(Some(a), last, replies)
         == if LastName(Some(a), None, replies).Some? then LastName(Some(a), None, replies) else last
    decreases replies
  {
    if replies != [] {
      var name := ReleaseName(Some(a), replies[0]);
      LastNameStable(a, b, last, replies[1..]);
      LastNameStable(a, b, name, replies[1..]);
    }
  }
}
