/** The Endpoints object of a cluster's control-plane load balancer service
    (pkg/haprovider/haprovider.go). `classify` stands for `net.ParseIP` and `To4`. A nil and an
    empty subset list are the same value, as they are after a trip through the API server. */
module HaEndpoints {
  import opened Objects

  datatype IpClass = NotAnIp | Ipv4 | Ipv6

  type Classifier = string -> IpClass

  datatype MachineAddress = MachineAddress(external: bool, address: string)

  datatype ControlMachine = ControlMachine(
    name: string, controlPlane: bool, deleting: bool, addresses: seq<MachineAddress>)

  datatype EndpointAddress = EndpointAddress(ip: string, nodeName: Option<string>)

  datatype Subset = Subset(addresses: seq<EndpointAddress>, ports: seq<(int, string)>)

  const PORTS := [(6443, "TCP")]

  /** The in-memory copy that one reconcile edits. */
  class Endpoints {
    var subsets: seq<Subset>

    constructor (subsets: seq<Subset>)
      ensures this.subsets == subsets
    {
      this.subsets := subsets;
    }
  }

  /** What the API server stores; `None` when there is no Endpoints object. */
  class EndpointsStore {
    var stored: Option<seq<Subset>>
  }

  // ---------------------------------------------------------------- the addresses of a machine

  predicate Usable(classify: Classifier, a: MachineAddress) {
    a.external && !classify(a.address).NotAnIp?
  }

  /** The valid external addresses, in order. */
  function External(classify: Classifier, addrs: seq<MachineAddress>): seq<string> {
    if addrs == [] then []
    else (if Usable(classify, addrs[0]) then [addrs[0].address] else []) + External(classify, addrs[1..])
  }

  predicate InFamily(classify: Classifier, family: string, ip: string) {
    (family == "V6" && classify(ip).Ipv6?) || (family == "V4" && classify(ip).Ipv4?)
  }

  /** The position of the first of `ips` in the family; past the end when there is none. */
  function FirstIndex(classify: Classifier, family: string, ips: seq<string>): (i: nat)
    ensures i <= |ips| && (i < |ips| ==> InFamily(classify, family, ips[i]))
    ensures forall j :: 0 <= j < i ==> !InFamily(classify, family, ips[j])
  {
    if ips == [] || InFamily(classify, family, ips[0]) then 0 else 1 + FirstIndex(classify, family, ips[1..])
  }

  function FirstInFamily(classify: Classifier, family: string, ips: seq<string>): (r: Option<string>)
    ensures r.None? <==> forall ip <- ips :: !InFamily(classify, family, ip)
    ensures r.Some? ==> r.value in ips && InFamily(classify, family, r.value)
  {
    var i := FirstIndex(classify, family, ips);
    if i < |ips| then Some(ips[i]) else None
  }

  function LastOr(ip: string, ips: seq<string>): string {
    if ips == [] then ip else ips[|ips| - 1]
  }

  /** Where an existing entry ends: it stays if still valid, and otherwise moves to the last
      valid external address, whatever its family. */
  function SyncIp(ip: string, ips: seq<string>): (r: string)
    ensures ips != [] ==> r in ips
    ensures ip in ips || ips == [] ==> r == ip
  {
    if ip in ips then ip else LastOr(ip, ips)
  }

  method SyncEndpointMachineIp(classify: Classifier, address: EndpointAddress, m: ControlMachine)
    returns (r: EndpointAddress)
    ensures r == address.(ip := SyncIp(address.ip, External(classify, m.addresses)))
  {
    var found := false;
    ghost var all := External(classify, m.addresses);
    assert m.addresses[0..] == m.addresses;
    for i := 0 to |m.addresses|
      invariant (found || address.ip in External(classify, m.addresses[i..])) <==> address.ip in all
    {
      assert m.addresses[i..][1..] == m.addresses[i + 1..];
      if m.addresses[i].external && !classify(m.addresses[i].address).NotAnIp?
         && address.ip == m.addresses[i].address {
        found := true;
      }
    }
    r := address;
    if !found {
      for i := 0 to |m.addresses|
        invariant r.nodeName == address.nodeName
        invariant LastOr(r.ip, External(classify, m.addresses[i..])) == LastOr(address.ip, all)
      {
        assert m.addresses[i..][1..] == m.addresses[i + 1..];
        if m.addresses[i].external && !classify(m.addresses[i].address).NotAnIp? {
          r := r.(ip := m.addresses[i].address);
        }
      }
    }
  }

  // ---------------------------------------------------------------- the entries of a subset

  predicate IsFor(a: EndpointAddress, name: string) {
    a.nodeName == Some(name)
  }

  /** The addresses that are not for `name`, in order. */
  function Without(addrs: seq<EndpointAddress>, name: string): seq<EndpointAddress> {
    if addrs == [] then []
    else (if IsFor(addrs[0], name) then [] else [addrs[0]]) + Without(addrs[1..], name)
  }

  /** The position of the first address for `name`; past the end when there is none. */
  function IndexFor(addrs: seq<EndpointAddress>, name: string): (i: nat)
    ensures i <= |addrs| && (i < |addrs| ==> IsFor(addrs[i], name))
    ensures forall j :: 0 <= j < i ==> !IsFor(addrs[j], name)
  {
    if addrs == [] || IsFor(addrs[0], name) then 0 else 1 + IndexFor(addrs[1..], name)
  }

  method RemoveMachineIp(endpoints: Endpoints, m: ControlMachine)
    modifies endpoints
    ensures endpoints.subsets == Removed(old(endpoints.subsets), m)
  {
    if endpoints.subsets == [] {
      return;
    }
    var kept := KeepOthers(endpoints.subsets[0].addresses, m);
    endpoints.subsets := endpoints.subsets[0 := endpoints.subsets[0].(addresses := kept)];
    if |endpoints.subsets[0].addresses| == 0 {
      endpoints.subsets := [];
    }
  }

  /** The loop that skips the machine's addresses. */
  method KeepOthers(addrs: seq<EndpointAddress>, m: ControlMachine) returns (kept: seq<EndpointAddress>)
    ensures kept == Without(addrs, m.name)
  {
    kept := [];
    for i := 0 to |addrs|
      invariant kept == Without(addrs[..i], m.name)
    {
      assert addrs[..i + 1] == addrs[..i] + [addrs[i]];
      WithoutAppend(addrs[..i], [addrs[i]], m.name);
      if addrs[i].nodeName.None? || addrs[i].nodeName.value != m.name {
        kept := kept + [addrs[i]];
      }
    }
    assert addrs[..|addrs|] == addrs;
  }

  function Removed(subsets: seq<Subset>, m: ControlMachine): seq<Subset> {
    if subsets == [] then []
    else
      var kept := Without(subsets[0].addresses, m.name);
      if kept == [] then [] else subsets[0 := subsets[0].(addresses := kept)]
  }

  /** The entry a machine without one gets, if it has an address of the family. */
  function NewEntry(classify: Classifier, m: ControlMachine, family: string): seq<EndpointAddress> {
    match FirstInFamily(classify, family, External(classify, m.addresses))
    case None => []
    case Some(ip) => [EndpointAddress(ip, Some(m.name))]
  }

  function Added(classify: Classifier, subsets: seq<Subset>, m: ControlMachine, family: string): seq<Subset> {
    if subsets == [] then [Subset(NewEntry(classify, m, family), PORTS)]
    else
      var addrs := subsets[0].addresses;
      var i := IndexFor(addrs, m.name);
      var addrs' :=
        if i < |addrs| then addrs[i := addrs[i].(ip := SyncIp(addrs[i].ip, External(classify, m.addresses)))]
        else addrs + NewEntry(classify, m, family);
      subsets[0 := subsets[0].(addresses := addrs')]
  }

  method AddMachineIp(classify: Classifier, endpoints: Endpoints, m: ControlMachine, family: string)
    modifies endpoints
    ensures endpoints.subsets == Added(classify, old(endpoints.subsets), m, family)
  {
    if endpoints.subsets == [] {
      endpoints.subsets := [Subset([], PORTS)];
    } else {
      var addrs := endpoints.subsets[0].addresses;
      for i := 0 to |addrs|
        invariant endpoints.subsets == old(endpoints.subsets)
        invariant i <= IndexFor(addrs, m.name)
      {
        if addrs[i].nodeName.Some? && addrs[i].nodeName.value == m.name {
          var synced := SyncEndpointMachineIp(classify, addrs[i], m);
          endpoints.subsets := endpoints.subsets[0 := endpoints.subsets[0].(addresses := addrs[i := synced])];
          return;
        }
        assert !IsFor(addrs[i], m.name);
      }
    }
    var entry := FindEntry(classify, m, family);
    ghost var addrs := endpoints.subsets[0].addresses;
    assert addrs + [] == addrs && (addrs == [] ==> addrs + NewEntry(classify, m, family) == NewEntry(classify, m, family));
    if entry.Some? {
      endpoints.subsets := endpoints.subsets[0 :=
        endpoints.subsets[0].(addresses := endpoints.subsets[0].addresses + [entry.value])];
    }
  }

  /** The search for a new machine's address. */
  method FindEntry(classify: Classifier, m: ControlMachine, family: string) returns (entry: Option<EndpointAddress>)
    ensures NewEntry(classify, m, family) == if entry.None? then [] else [entry.value]
  {
    ghost var all := External(classify, m.addresses);
    assert m.addresses[0..] == m.addresses;
    for i := 0 to |m.addresses|
      invariant FirstInFamily(classify, family, External(classify, m.addresses[i..]))
             == FirstInFamily(classify, family, all)
    {
      assert m.addresses[i..][1..] == m.addresses[i + 1..];
      var address := m.addresses[i];
      if address.external && !classify(address.address).NotAnIp? {
        assert External(classify, m.addresses[i..])[0] == address.address;
        assert External(classify, m.addresses[i..])[1..] == External(classify, m.addresses[i + 1..]);
        if family == "V6" {
          if classify(address.address).Ipv6? {
            return Some(EndpointAddress(address.address, Some(m.name)));
          }
        } else if family == "V4" {
          if classify(address.address).Ipv4? {
            return Some(EndpointAddress(address.address, Some(m.name)));
          }
        }
      } else {
        assert External(classify, m.addresses[i..]) == External(classify, m.addresses[i + 1..]);
      }
    }
    return None;
  }

  // ---------------------------------------------------------------- one reconcile

  /** The answers one reconcile gets. A `bool` is true when that call fails; `adcFamily` is the
      IP family of the selecting AKODeploymentConfig, absent when none selects the cluster. */
  datatype Replies = Replies(
    clusterGet: bool, endpointsGet: bool, create: Write, adcGet: bool, update: Write, adcFamily: Option<string>)

  function FamilyOf(adcFamily: Option<string>): string {
    if adcFamily.Some? && adcFamily.value != "" then adcFamily.value else "V4"
  }

  function Edited(classify: Classifier, subsets: seq<Subset>, m: ControlMachine, family: string): seq<Subset> {
    if m.deleting then Removed(subsets, m) else Added(classify, subsets, m, family)
  }

  /** What one reconcile leaves stored, and whether it failed. */
  function Reconciled(classify: Classifier, stored: Option<seq<Subset>>, m: ControlMachine, r: Replies)
    : (Option<seq<Subset>>, bool)
  {
    if !m.controlPlane then (stored, false)
    else if r.clusterGet || r.endpointsGet then (stored, true)
    else if stored.None? && r.create.Rejected? then (None, true)
    else
      var subsets := if stored.None? then [] else stored.value;
      if (stored.None? && r.create.Failed()) || r.adcGet then (Some(subsets), true)
      else
        var subsets' := Edited(classify, subsets, m, FamilyOf(r.adcFamily));
        (Some(if r.update.Applied() then subsets' else subsets), r.update.Failed())
  }

  method EnsureEndpoints(store: EndpointsStore, r: Replies) returns (endpoints: Endpoints, failed: bool)
    modifies store
    ensures fresh(endpoints)
    ensures failed <==> r.endpointsGet || (old(store.stored).None? && r.create.Failed())
    ensures !failed ==> store.stored == Some(endpoints.subsets)
    ensures store.stored == if r.endpointsGet || old(store.stored).Some? || r.create.Rejected?
                            then old(store.stored) else Some([])
  {
    endpoints := new Endpoints([]);
    if r.endpointsGet {
      return endpoints, true;
    }
    match store.stored {
      case Some(subsets) =>
        endpoints.subsets := subsets;
        return endpoints, false;
      case None =>
        if r.create.Applied() {
          store.stored := Some([]);
        }
        return endpoints, r.create.Failed();
    }
  }

  method CreateOrUpdateHaEndpoints(classify: Classifier, store: EndpointsStore, m: ControlMachine, r: Replies)
    returns (failed: bool)
    modifies store
    ensures (store.stored, failed) == Reconciled(classify, old(store.stored), m, r)
  {
    if !m.controlPlane {
      return false;
    }
    if r.clusterGet {
      return true;
    }
    var endpoints, missing := EnsureEndpoints(store, r);
    if missing || r.adcGet {
      return true;
    }
    var family := "V4";
    if r.adcFamily.Some? && r.adcFamily.value != "" {
      family := r.adcFamily.value;
    }
    if m.deleting {
      RemoveMachineIp(endpoints, m);
    } else {
      AddMachineIp(classify, endpoints, m, family);
    }
    if r.update.Applied() {
      store.stored := Some(endpoints.subsets);
    }
    return r.update.Failed();
  }

  // ---------------------------------------------------------------- what every edit keeps

  function Addresses(subsets: seq<Subset>): seq<EndpointAddress> {
    if subsets == [] then [] else subsets[0].addresses
  }

  ghost predicate OnePerNode(addrs: seq<EndpointAddress>) {
    forall i, j :: 0 <= i < j < |addrs| && addrs[i].nodeName.Some? ==> addrs[i].nodeName != addrs[j].nodeName
  }

  /** At most one subset, and at most one address per node name. */
  ghost predicate Tidy(subsets: seq<Subset>) {
    |subsets| <= 1 && OnePerNode(Addresses(subsets))
  }

  /** The address stored for `name`. */
  function EntryOf(addrs: seq<EndpointAddress>, name: string): Option<string> {
    var i := IndexFor(addrs, name);
    if i < |addrs| then Some(addrs[i].ip) else None
  }

  /** What a reconcile makes of the machine's own entry. */
  function NextEntry(classify: Classifier, entry: Option<string>, m: ControlMachine, family: string): (r: Option<string>)
    ensures m.deleting ==> r.None?
    ensures !m.deleting && entry.Some? ==> r.Some?
    ensures r.Some? && External(classify, m.addresses) != [] ==> r.value in External(classify, m.addresses)
  {
    if m.deleting then None
    else if entry.Some? then Some(SyncIp(entry.value, External(classify, m.addresses)))
    else FirstInFamily(classify, family, External(classify, m.addresses))
  }

  lemma {:induction false} WithoutAppend(a: seq<EndpointAddress>, b: seq<EndpointAddress>, name: string)
    ensures Without(a + b, name) == Without(a, name) + Without(b, name)
  {
    if a == [] {
      assert a + b == b;
    } else {
      var head := if IsFor(a[0], name) then [] else [a[0]];
      WithoutAppend(a[1..], b, name);
      assert (a + b)[0] == a[0] && (a + b)[1..] == a[1..] + b;
      assert head + (Without(a[1..], name) + Without(b, name)) == (head + Without(a[1..], name)) + Without(b, name);
    }
  }

  lemma EntryCons(a: EndpointAddress, rest: seq<EndpointAddress>, name: string)
    ensures EntryOf([a] + rest, name) == if IsFor(a, name) then Some(a.ip) else EntryOf(rest, name)
  {
    assert ([a] + rest)[1..] == rest;
  }

  /** Dropping other names does not move the entry of `name`. */
  lemma {:induction false} EntryIgnoresOthers(addrs: seq<EndpointAddress>, name: string, other: string)
    requires name != other
    ensures EntryOf(Without(addrs, other), name) == EntryOf(addrs, name)
  {
    if addrs != [] {
      var a, tail := addrs[0], addrs[1..];
      var rest := Without(tail, other);
      EntryIgnoresOthers(tail, name, other);
      assert addrs == [a] + tail;
      EntryCons(a, tail, name);
      EntryCons(a, rest, name);
      assert Without(addrs, other) == if IsFor(a, other) then rest else [a] + rest;
    }
  }

  lemma {:induction false} WithoutTidy(addrs: seq<EndpointAddress>, name: string)
    requires OnePerNode(addrs)
    ensures OnePerNode(Without(addrs, name))
    ensures forall a :: a in Without(addrs, name) <==> a in addrs && !IsFor(a, name)
  {
    if addrs != [] {
      assert addrs == [addrs[0]] + addrs[1..];
      assert OnePerNode(addrs[1..]) by {
        assert forall i :: 0 <= i < |addrs[1..]| ==> addrs[1..][i] == addrs[i + 1];
      }
      WithoutTidy(addrs[1..], name);
      var rest := Without(addrs[1..], name);
      if !IsFor(addrs[0], name) {
        forall j | 0 <= j < |rest| && addrs[0].nodeName.Some? ensures rest[j].nodeName != addrs[0].nodeName {
          assert rest[j] in addrs[1..];
          var k :| 0 <= k < |addrs[1..]| && addrs[1..][k] == rest[j];
          assert addrs[k + 1] == rest[j];
        }
      }
    }
  }

  lemma {:induction false} NoEntryWithout(addrs: seq<EndpointAddress>, name: string)
    ensures IndexFor(Without(addrs, name), name) == |Without(addrs, name)|
    ensures Without(Without(addrs, name), name) == Without(addrs, name)
  {
    if addrs != [] {
      NoEntryWithout(addrs[1..], name);
      var rest := Without(addrs[1..], name);
      if IsFor(addrs[0], name) {
        assert Without(addrs, name) == rest;
      } else {
        assert Without(addrs, name) == [addrs[0]] + rest && ([addrs[0]] + rest)[1..] == rest;
      }
    }
  }

  /** The first subset's addresses after an edit. */
  function EditedAddresses(classify: Classifier, addrs: seq<EndpointAddress>, m: ControlMachine, family: string)
    : seq<EndpointAddress>
  {
    var i := IndexFor(addrs, m.name);
    if m.deleting then Without(addrs, m.name)
    else if i < |addrs| then addrs[i := addrs[i].(ip := SyncIp(addrs[i].ip, External(classify, m.addresses)))]
    else addrs + NewEntry(classify, m, family)
  }

  /** Moving the entry at `i` to another address. */
  lemma MoveEntry(addrs: seq<EndpointAddress>, i: nat, ip: string, name: string)
    requires OnePerNode(addrs) && i == IndexFor(addrs, name) < |addrs|
    ensures var addrs' := addrs[i := addrs[i].(ip := ip)];
      OnePerNode(addrs') && EntryOf(addrs', name) == Some(ip) && Without(addrs', name) == Without(addrs, name)
  {
    var moved := addrs[i].(ip := ip);
    var addrs' := addrs[i := moved];
    SplitWithout(addrs, i, name);
    SplitWithout(addrs', i, name);
    assert addrs'[..i] == addrs[..i] && addrs'[i + 1..] == addrs[i + 1..];
    assert IsFor(addrs'[i], name);
  }

  lemma SplitWithout(addrs: seq<EndpointAddress>, i: nat, name: string)
    requires i < |addrs| && IsFor(addrs[i], name)
    ensures Without(addrs, name) == Without(addrs[..i], name) + Without(addrs[i + 1..], name)
  {
    assert addrs == addrs[..i] + addrs[i..];
    WithoutAppend(addrs[..i], addrs[i..], name);
    assert addrs[i..][1..] == addrs[i + 1..];
  }

  /** Appending an entry for a name that has none. */
  lemma AppendEntry(addrs: seq<EndpointAddress>, entry: EndpointAddress, name: string)
    requires OnePerNode(addrs) && IndexFor(addrs, name) == |addrs| && IsFor(entry, name)
    ensures var addrs' := addrs + [entry];
      OnePerNode(addrs') && EntryOf(addrs', name) == Some(entry.ip) && Without(addrs', name) == Without(addrs, name)
  {
    var addrs' := addrs + [entry];
    WithoutAppend(addrs, [entry], name);
    assert Without([entry], name) == [];
    assert forall j :: 0 <= j < |addrs| ==> addrs'[j] == addrs[j] && !IsFor(addrs'[j], name);
    assert addrs'[|addrs|] == entry;
  }

  lemma EditAddresses(classify: Classifier, addrs: seq<EndpointAddress>, m: ControlMachine, family: string)
    requires OnePerNode(addrs)
    ensures var addrs' := EditedAddresses(classify, addrs, m, family);
      && OnePerNode(addrs')
      && Without(addrs', m.name) == Without(addrs, m.name)
      && EntryOf(addrs', m.name) == NextEntry(classify, EntryOf(addrs, m.name), m, family)
  {
    var i := IndexFor(addrs, m.name);
    var ips := External(classify, m.addresses);
    if m.deleting {
      WithoutTidy(addrs, m.name);
      NoEntryWithout(addrs, m.name);
    } else if i < |addrs| {
      MoveEntry(addrs, i, SyncIp(addrs[i].ip, ips), m.name);
    } else {
      match FirstInFamily(classify, family, ips) {
        case None => assert addrs + [] == addrs;
        case Some(ip) => AppendEntry(addrs, EndpointAddress(ip, Some(m.name)), m.name);
      }
    }
  }

  /** One edit: still tidy, everybody else's entries and their order unchanged, and the
      machine's own entry as `NextEntry` says. */
  lemma EditSound(classify: Classifier, subsets: seq<Subset>, m: ControlMachine, family: string, n: string)
    requires Tidy(subsets)
    ensures var after := Edited(classify, subsets, m, family);
      && Tidy(after)
      && Without(Addresses(after), m.name) == Without(Addresses(subsets), m.name)
      && EntryOf(Addresses(after), m.name) == NextEntry(classify, EntryOf(Addresses(subsets), m.name), m, family)
      && (after != [] ==> after[0].ports == if subsets == [] then [(6443, "TCP")] else subsets[0].ports)
      && (n != m.name ==> EntryOf(Addresses(after), n) == EntryOf(Addresses(subsets), n))
  {
    var addrs := Addresses(subsets);
    var after := Edited(classify, subsets, m, family);
    EditedAt(classify, subsets, m, family);
    EditAddresses(classify, addrs, m, family);
    if n != m.name {
      EntryIgnoresOthers(addrs, n, m.name);
      EntryIgnoresOthers(Addresses(after), n, m.name);
    }
  }

  lemma EditedAt(classify: Classifier, subsets: seq<Subset>, m: ControlMachine, family: string)
    ensures Addresses(Edited(classify, subsets, m, family))
         == EditedAddresses(classify, Addresses(subsets), m, family)
  {
    if subsets == [] {
      assert [] + NewEntry(classify, m, family) == NewEntry(classify, m, family);
    }
  }

  /** Where entries stand: a new one goes to the end, one that stays keeps its place, and the
      addresses before and after it theirs. */
  lemma EditKeepsPlaces(classify: Classifier, subsets: seq<Subset>, m: ControlMachine, family: string)
    requires !m.deleting
    ensures var addrs, after := Addresses(subsets), Addresses(Edited(classify, subsets, m, family));
      var i := IndexFor(addrs, m.name);
      && (i == |addrs| ==> addrs <= after && |after| <= |addrs| + 1)
      && (i < |addrs| ==> |after| == |addrs| && (forall j :: 0 <= j < |addrs| && j != i ==> after[j] == addrs[j])
                          && after[i].nodeName == addrs[i].nodeName)
  {
    EditedAt(classify, subsets, m, family);
  }

  /** The address is external, parses, and is of the family asked for: "V4" or "V6". */
  ghost predicate Candidate(classify: Classifier, family: string, a: MachineAddress) {
    a.external && (family, classify(a.address)) in {("V4", Ipv4), ("V6", Ipv6)}
  }

  /** The position of the first such address; past the end when there is none. */
  ghost function FirstCandidate(classify: Classifier, family: string, addrs: seq<MachineAddress>): (i: nat)
    ensures i <= |addrs| && (i < |addrs| ==> Candidate(classify, family, addrs[i]))
    ensures forall j :: 0 <= j < i ==> !Candidate(classify, family, addrs[j])
  {
    if addrs == [] || Candidate(classify, family, addrs[0]) then 0
    else 1 + FirstCandidate(classify, family, addrs[1..])
  }

  lemma FirstInFamilyCons(classify: Classifier, family: string, ip: string, ips: seq<string>)
    ensures FirstInFamily(classify, family, [ip] + ips)
         == if InFamily(classify, family, ip) then Some(ip) else FirstInFamily(classify, family, ips)
  {
    assert ([ip] + ips)[1..] == ips;
  }

  lemma CandidateMeans(classify: Classifier, family: string, a: MachineAddress)
    ensures Candidate(classify, family, a) <==> Usable(classify, a) && InFamily(classify, family, a.address)
  {
  }

  lemma ExternalCons(classify: Classifier, a: MachineAddress, rest: seq<MachineAddress>)
    ensures External(classify, [a] + rest)
         == if Usable(classify, a) then [a.address] + External(classify, rest) else External(classify, rest)
  {
    assert ([a] + rest)[1..] == rest;
  }

  /** The first such address. */
  ghost function CandidateIp(classify: Classifier, family: string, addrs: seq<MachineAddress>): Option<string> {
    var i := FirstCandidate(classify, family, addrs);
    if i < |addrs| then Some(addrs[i].address) else None
  }

  lemma CandidateIpCons(classify: Classifier, family: string, a: MachineAddress, rest: seq<MachineAddress>)
    ensures CandidateIp(classify, family, [a] + rest)
         == if Candidate(classify, family, a) then Some(a.address) else CandidateIp(classify, family, rest)
  {
    assert ([a] + rest)[1..] == rest;
  }

  lemma FirstExternalCons(classify: Classifier, family: string, a: MachineAddress, rest: seq<MachineAddress>)
    ensures FirstInFamily(classify, family, External(classify, [a] + rest))
         == if Candidate(classify, family, a) then Some(a.address)
            else FirstInFamily(classify, family, External(classify, rest))
  {
    CandidateMeans(classify, family, a);
    ExternalCons(classify, a, rest);
    FirstInFamilyCons(classify, family, a.address, External(classify, rest));
  }

  lemma {:induction false} FirstIsCandidate(classify: Classifier, family: string, addrs: seq<MachineAddress>)
    ensures FirstInFamily(classify, family, External(classify, addrs)) == CandidateIp(classify, family, addrs)
  {
    if addrs != [] {
      assert addrs == [addrs[0]] + addrs[1..];
      FirstIsCandidate(classify, family, addrs[1..]);
      FirstExternalCons(classify, family, addrs[0], addrs[1..]);
      CandidateIpCons(classify, family, addrs[0], addrs[1..]);
    }
  }

  /** A machine without an entry gets the first of its valid external addresses that is of the
      requested family, and none if there is no such address. Without an ADC, or without a family
      in it, that is IPv4. */
  lemma NewEntryIsFirst(classify: Classifier, m: ControlMachine, adcFamily: Option<string>)
    requires !m.deleting
    ensures var family := if adcFamily in {None, Some("")} then "V4" else adcFamily.value;
      NextEntry(classify, None, m, FamilyOf(adcFamily)) == CandidateIp(classify, family, m.addresses)
  {
    FirstIsCandidate(classify, FamilyOf(adcFamily), m.addresses);
  }

  /** The position of the last external address that parses; -1 when there is none. */
  ghost function LastExternal(classify: Classifier, addrs: seq<MachineAddress>): (i: int)
    ensures -1 <= i < |addrs| && (i >= 0 ==> addrs[i].external && classify(addrs[i].address) != NotAnIp)
    ensures forall j :: i < j < |addrs| ==> !(addrs[j].external && classify(addrs[j].address) != NotAnIp)
  {
    if addrs == [] then -1
    else
      var i := LastExternal(classify, addrs[1..]);
      if i >= 0 then i + 1
      else if addrs[0].external && classify(addrs[0].address) != NotAnIp then 0 else -1
  }

  lemma {:induction false} ExternalMeans(classify: Classifier, addrs: seq<MachineAddress>, ip: string)
    ensures ip in External(classify, addrs) <==>
              exists a <- addrs :: a.external && a.address == ip && classify(ip) != NotAnIp
    ensures var i := LastExternal(classify, addrs);
            LastOr(ip, External(classify, addrs)) == if i < 0 then ip else addrs[i].address
  {
    if addrs != [] {
      ExternalMeans(classify, addrs[1..], ip);
      assert addrs == [addrs[0]] + addrs[1..];
      ExternalCons(classify, addrs[0], addrs[1..]);
      LastExternalEmpty(classify, addrs[1..]);
    }
  }

  lemma {:induction false} LastExternalEmpty(classify: Classifier, addrs: seq<MachineAddress>)
    ensures LastExternal(classify, addrs) < 0 <==> External(classify, addrs) == []
  {
    if addrs != [] {
      LastExternalEmpty(classify, addrs[1..]);
    }
  }

  /** An entry stays while it is among the machine's external addresses that parse; otherwise it
      moves to the last of them, if there is one. */
  lemma EntryIsSynced(classify: Classifier, m: ControlMachine, ip: string, family: string)
    requires !m.deleting
    ensures var i := LastExternal(classify, m.addresses);
      NextEntry(classify, Some(ip), m, family) ==
      Some(if (exists a <- m.addresses :: a.external && a.address == ip && classify(ip) != NotAnIp) || i < 0 then ip
           else m.addresses[i].address)
  {
    ExternalMeans(classify, m.addresses, ip);
  }

  // ---------------------------------------------------------------- every run

  datatype Event = Event(machine: ControlMachine, replies: Replies)

  function Run(classify: Classifier, stored: Option<seq<Subset>>, events: seq<Event>): Option<seq<Subset>>
    decreases events
  {
    if events == [] then stored
    else Run(classify, Reconciled(classify, stored, events[0].machine, events[0].replies).0, events[1..])
  }

  function Subsets(stored: Option<seq<Subset>>): seq<Subset> {
    if stored.None? then [] else stored.value
  }

  function StoredEntry(stored: Option<seq<Subset>>, name: string): Option<string> {
    EntryOf(Addresses(Subsets(stored)), name)
  }

  /** The reconciles of the machines called `name`. */
  function Only(events: seq<Event>, name: string): seq<Event> {
    if events == [] then []
    else (if events[0].machine.name == name then [events[0]] else []) + Only(events[1..], name)
  }

  /** The reconcile reaches its update and the update is applied. */
  predicate Writes(m: ControlMachine, r: Replies) {
    m.controlPlane && !r.clusterGet && !r.endpointsGet && !r.adcGet && r.update.Applied()
  }

  /** A reconcile either edits what is stored or leaves it, and succeeds only if it edits. */
  lemma EditsOrLeaves(classify: Classifier, stored: Option<seq<Subset>>, m: ControlMachine, r: Replies)
    ensures var (after, failed) := Reconciled(classify, stored, m, r);
      var edited := Edited(classify, Subsets(stored), m, FamilyOf(r.adcFamily));
      && (stored.Some? ==> after == Some(if Writes(m, r) then edited else stored.value))
      && (Subsets(after) == Subsets(stored) || Subsets(after) == edited)
      && (m.controlPlane && !failed ==> Subsets(after) == edited)
  {
  }

  /** One reconcile, whichever of its calls fail. */
  lemma ReconcileSound(classify: Classifier, stored: Option<seq<Subset>>, m: ControlMachine, r: Replies, n: string)
    requires Tidy(Subsets(stored))
    ensures var (after, failed) := Reconciled(classify, stored, m, r);
      && Tidy(Subsets(after))
      && (stored.Some? ==> after.Some?)
      && Without(Addresses(Subsets(after)), m.name) == Without(Addresses(Subsets(stored)), m.name)
      && (n != m.name ==> StoredEntry(after, n) == StoredEntry(stored, n))
      && (m.controlPlane && !failed ==>
            StoredEntry(after, m.name) == NextEntry(classify, StoredEntry(stored, m.name), m, FamilyOf(r.adcFamily)))
  {
    EditsOrLeaves(classify, stored, m, r);
    EditSound(classify, Subsets(stored), m, FamilyOf(r.adcFamily), n);
  }

  /** The addresses for none of `names`, in order. */
  function Others(addrs: seq<EndpointAddress>, names: set<string>): seq<EndpointAddress> {
    if addrs == [] then []
    else (if addrs[0].nodeName.Some? && addrs[0].nodeName.value in names then [] else [addrs[0]])
         + Others(addrs[1..], names)
  }

  lemma {:induction false} OthersIgnoreOne(addrs: seq<EndpointAddress>, names: set<string>, name: string)
    requires name in names
    ensures Others(Without(addrs, name), names) == Others(addrs, names)
  {
    if addrs != [] {
      OthersIgnoreOne(addrs[1..], names, name);
      var rest := Without(addrs[1..], name);
      if IsFor(addrs[0], name) {
        assert Without(addrs, name) == rest;
      } else {
        assert Without(addrs, name) == [addrs[0]] + rest && ([addrs[0]] + rest)[1..] == rest;
      }
    }
  }

  /** Over any run: at most one subset and one address per node, and the addresses that belong
      to none of the reconciled machines keep their values and their order. */
  lemma {:induction false} RunTidy(
    classify: Classifier, stored: Option<seq<Subset>>, events: seq<Event>, names: set<string>, n: string)
    requires Tidy(Subsets(stored)) && forall e <- events :: e.machine.name in names
    ensures Tidy(Subsets(Run(classify, stored, events)))
    ensures Others(Addresses(Subsets(Run(classify, stored, events))), names)
         == Others(Addresses(Subsets(stored)), names)
    ensures n !in names ==> StoredEntry(Run(classify, stored, events), n) == StoredEntry(stored, n)
    decreases events
  {
    if events != [] {
      var m := events[0].machine;
      assert events[0] in events;
      var next := Reconciled(classify, stored, m, events[0].replies).0;
      ReconcileSound(classify, stored, m, events[0].replies, n);
      OthersIgnoreOne(Addresses(Subsets(stored)), names, m.name);
      OthersIgnoreOne(Addresses(Subsets(next)), names, m.name);
      RunTidy(classify, next, events[1..], names, n);
    }
  }

  /** A machine's own reconcile makes the same of the same entry. */
  lemma OwnEntry(classify: Classifier, a: seq<Subset>, b: seq<Subset>, m: ControlMachine, r: Replies)
    requires Tidy(a) && Tidy(b) && EntryOf(Addresses(a), m.name) == EntryOf(Addresses(b), m.name)
    ensures StoredEntry(Reconciled(classify, Some(a), m, r).0, m.name)
         == StoredEntry(Reconciled(classify, Some(b), m, r).0, m.name)
  {
    EditsOrLeaves(classify, Some(a), m, r);
    EditsOrLeaves(classify, Some(b), m, r);
    EditSound(classify, a, m, FamilyOf(r.adcFamily), m.name);
    EditSound(classify, b, m, FamilyOf(r.adcFamily), m.name);
  }

  /** A machine's entry after a run depends on nothing but that machine's own reconciles:
      leaving all others out of the run gives the same entry, whatever calls fail. */
  lemma {:induction false} MachinesDoNotInterfere(
    classify: Classifier, a: Option<seq<Subset>>, b: Option<seq<Subset>>, events: seq<Event>, name: string)
    requires a.Some? && b.Some? && Tidy(a.value) && Tidy(b.value)
    requires StoredEntry(a, name) == StoredEntry(b, name)
    ensures StoredEntry(Run(classify, a, events), name) == StoredEntry(Run(classify, b, Only(events, name)), name)
    decreases events
  {
    if events != [] {
      var e, rest, only := events[0], events[1..], Only(events[1..], name);
      var a' := Reconciled(classify, a, e.machine, e.replies).0;
      ReconcileSound(classify, a, e.machine, e.replies, name);
      if e.machine.name == name {
        var b' := Reconciled(classify, b, e.machine, e.replies).0;
        ReconcileSound(classify, b, e.machine, e.replies, name);
        OwnEntry(classify, a.value, b.value, e.machine, e.replies);
        MachinesDoNotInterfere(classify, a', b', rest, name);
        assert Only(events, name) == [e] + only && ([e] + only)[1..] == only;
        assert Run(classify, b, [e] + only) == Run(classify, b', only);
      } else {
        assert Only(events, name) == only;
        MachinesDoNotInterfere(classify, a', b, rest, name);
      }
    }
  }

  /** A successful reconcile fixes the machine's entry until its next reconcile. */
  lemma EntryStays(classify: Classifier, stored: Option<seq<Subset>>, e: Event, later: seq<Event>)
    requires Tidy(Subsets(stored)) && e.machine.controlPlane
    requires forall l <- later :: l.machine.name != e.machine.name
    requires !Reconciled(classify, stored, e.machine, e.replies).1
    ensures StoredEntry(Run(classify, stored, [e] + later), e.machine.name)
         == NextEntry(classify, StoredEntry(stored, e.machine.name), e.machine, FamilyOf(e.replies.adcFamily))
  {
    var next := Reconciled(classify, stored, e.machine, e.replies).0;
    ReconcileSound(classify, stored, e.machine, e.replies, e.machine.name);
    RunTidy(classify, next, later, set l <- later :: l.machine.name, e.machine.name);
    assert ([e] + later)[0] == e && ([e] + later)[1..] == later;
  }

  /** After a run whose last reconcile of a machine succeeded, its entry is gone if that machine
      was deleting, and is otherwise a valid external address of the machine as last seen,
      whenever it had one. */
  lemma EntryFollowsMachine(
    classify: Classifier, stored: Option<seq<Subset>>, before: seq<Event>, e: Event, later: seq<Event>)
    requires Tidy(Subsets(stored)) && e.machine.controlPlane
    requires forall l <- later :: l.machine.name != e.machine.name
    requires !Reconciled(classify, Run(classify, stored, before), e.machine, e.replies).1
    ensures var entry := StoredEntry(Run(classify, stored, before + ([e] + later)), e.machine.name);
      var ips := External(classify, e.machine.addresses);
      && (e.machine.deleting ==> entry.None?)
      && (entry.Some? && ips != [] ==> entry.value in ips)
      && (!e.machine.deleting && (exists ip <- ips :: InFamily(classify, FamilyOf(e.replies.adcFamily), ip)) ==> entry.Some?)
  {
    RunTidy(classify, stored, before, set b <- before :: b.machine.name, e.machine.name);
    EntryStays(classify, Run(classify, stored, before), e, later);
    RunConcat(classify, stored, before, [e] + later);
  }

  lemma {:induction false} RunConcat(classify: Classifier, stored: Option<seq<Subset>>, a: seq<Event>, b: seq<Event>)
    ensures Run(classify, stored, a + b) == Run(classify, Run(classify, stored, a), b)
    decreases a
  {
    if a == [] {
      assert a + b == b;
    } else {
      RunConcat(classify, Reconciled(classify, stored, a[0].machine, a[0].replies).0, a[1..], b);
      assert (a + b)[1..] == a[1..] + b;
    }
  }

  /** Syncing an entry ignores the requested family: with addresses of both families an entry
      that has gone stale lands on the last one, here an IPv6 address under family "V4". */
  lemma SyncCanLeaveFamily(classify: Classifier, m: ControlMachine)
    requires classify("10.0.0.1").Ipv4? && classify("10.0.0.2").Ipv4? && classify("fd00::1").Ipv6?
    requires !m.deleting && m.addresses == [MachineAddress(true, "10.0.0.2"), MachineAddress(true, "fd00::1")]
    ensures NextEntry(classify, Some("10.0.0.1"), m, "V4") == Some("fd00::1")
  {
    var rest := m.addresses[1..];
    assert External(classify, rest) == ["fd00::1"] by {
      assert rest[1..] == [];
    }
    assert External(classify, m.addresses) == ["10.0.0.2", "fd00::1"];
  }

  /** The stored entry of `name`, if any, is of the family. */
  predicate InFamilyStored(classify: Classifier, stored: Option<seq<Subset>>, name: string, family: string) {
    var entry := StoredEntry(stored, name);
    entry.Some? ==> InFamily(classify, family, entry.value)
  }

  /** The reconcile moves the entry of `name`: it writes, and finds an address stored that the
      machine, which has others, no longer has. */
  predicate FindsStale(classify: Classifier, stored: Option<seq<Subset>>, e: Event, name: string) {
    var entry, ips := StoredEntry(stored, name), External(classify, e.machine.addresses);
    && e.machine.name == name && !e.machine.deleting && Writes(e.machine, e.replies)
    && ips != [] && entry.Some? && entry.value !in ips
  }

  /** What such a reconcile moves the entry to is of the family. */
  predicate MovesInFamily(classify: Classifier, stored: Option<seq<Subset>>, e: Event, name: string, family: string) {
    FindsStale(classify, stored, e, name) ==>
      var ips := External(classify, e.machine.addresses); InFamily(classify, family, ips[|ips| - 1])
  }

  lemma FamilyStep(classify: Classifier, stored: seq<Subset>, e: Event, name: string, family: string)
    requires Tidy(stored) && InFamilyStored(classify, Some(stored), name, family)
    requires e.machine.name == name ==> FamilyOf(e.replies.adcFamily) == family
    ensures InFamilyStored(classify, Reconciled(classify, Some(stored), e.machine, e.replies).0, name, family)
            <==> MovesInFamily(classify, Some(stored), e, name, family)
  {
    EditsOrLeaves(classify, Some(stored), e.machine, e.replies);
    EditSound(classify, stored, e.machine, FamilyOf(e.replies.adcFamily), name);
  }

  /** Over every run under one family, the machine's entry is of that family in every state
      exactly when each reconcile that moves it finds the machine's last external address of
      that family. New entries always are. */
  lemma FamilyKeptIff(classify: Classifier, stored: seq<Subset>, events: seq<Event>, name: string, family: string)
    requires Tidy(stored) && InFamilyStored(classify, Some(stored), name, family)
    requires forall e <- events :: e.machine.name == name ==> FamilyOf(e.replies.adcFamily) == family
    ensures (forall i :: 0 <= i <= |events| ==> InFamilyStored(classify, Run(classify, Some(stored), events[..i]), name, family))
        <==> (forall i :: 0 <= i < |events| ==>
                MovesInFamily(classify, Run(classify, Some(stored), events[..i]), events[i], name, family))
  {
    if forall i :: 0 <= i < |events| ==>
         MovesInFamily(classify, Run(classify, Some(stored), events[..i]), events[i], name, family) {
      forall i | 0 <= i <= |events|
        ensures InFamilyStored(classify, Run(classify, Some(stored), events[..i]), name, family)
      {
        FamilyKept(classify, stored, events, name, family, i);
      }
    }
    if forall i :: 0 <= i <= |events| ==> InFamilyStored(classify, Run(classify, Some(stored), events[..i]), name, family) {
      forall i | 0 <= i < |events|
        ensures MovesInFamily(classify, Run(classify, Some(stored), events[..i]), events[i], name, family)
      {
        assert InFamilyStored(classify, Run(classify, Some(stored), events[..i + 1]), name, family);
        PrefixStep(classify, stored, events, name, family, i);
      }
    }
  }

  lemma PrefixRun(classify: Classifier, stored: seq<Subset>, events: seq<Event>, i: nat)
    requires Tidy(stored) && i < |events|
    ensures var mid := Run(classify, Some(stored), events[..i]);
      && mid.Some? && Tidy(mid.value)
      && Run(classify, Some(stored), events[..i + 1])
      == Reconciled(classify, mid, events[i].machine, events[i].replies).0
  {
    RunTidy(classify, Some(stored), events[..i], set e <- events :: e.machine.name, "");
    RunStays(classify, stored, events[..i]);
    assert events[..i + 1] == events[..i] + [events[i]];
    RunConcat(classify, Some(stored), events[..i], [events[i]]);
    assert [events[i]][1..] == [];
  }

  lemma PrefixStep(classify: Classifier, stored: seq<Subset>, events: seq<Event>, name: string, family: string, i: nat)
    requires Tidy(stored) && i < |events|
    requires forall e <- events :: e.machine.name == name ==> FamilyOf(e.replies.adcFamily) == family
    requires InFamilyStored(classify, Run(classify, Some(stored), events[..i]), name, family)
    ensures InFamilyStored(classify, Run(classify, Some(stored), events[..i + 1]), name, family)
            <==> MovesInFamily(classify, Run(classify, Some(stored), events[..i]), events[i], name, family)
  {
    PrefixRun(classify, stored, events, i);
    assert events[i] in events;
    FamilyStep(classify, Run(classify, Some(stored), events[..i]).value, events[i], name, family);
  }

  /** The object does not go away. */
  lemma {:induction false} RunStays(classify: Classifier, stored: seq<Subset>, events: seq<Event>)
    ensures Run(classify, Some(stored), events).Some?
    decreases events
  {
    if events != [] {
      EditsOrLeaves(classify, Some(stored), events[0].machine, events[0].replies);
      RunStays(classify, Reconciled(classify, Some(stored), events[0].machine, events[0].replies).0.value, events[1..]);
    }
  }

  lemma {:induction false} FamilyKept(
    classify: Classifier, stored: seq<Subset>, events: seq<Event>, name: string, family: string, i: nat)
    requires Tidy(stored) && InFamilyStored(classify, Some(stored), name, family) && i <= |events|
    requires forall e <- events :: e.machine.name == name ==> FamilyOf(e.replies.adcFamily) == family
    requires forall j :: 0 <= j < |events| ==>
               MovesInFamily(classify, Run(classify, Some(stored), events[..j]), events[j], name, family)
    ensures InFamilyStored(classify, Run(classify, Some(stored), events[..i]), name, family)
    decreases i
  {
    if i > 0 {
      FamilyKept(classify, stored, events, name, family, i - 1);
      PrefixStep(classify, stored, events, name, family, i - 1);
    }
  }
}
