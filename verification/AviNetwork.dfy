/** Bringing an AVI network's subnet to the configured static ranges (`EnsureAviNetwork` in
    controllers/akodeploymentconfig/akodeploymentconfig_controller_avi_phase.go). `parse`
    stands for `net.ParseIP` and yields no bytes for text that is not an address. */
module AviNetwork {
  import opened Objects
  import opened Addresses

  type Parser = string -> seq<Byte>

  datatype IpPool = IpPool(start: string, end: string, ipType: string)

  datatype StaticRange = StaticRange(begin: string, end: string, ipType: string)

  class Subnet {
    const addr: string
    const addrType: string
    const mask: int
    var ranges: seq<StaticRange>

    constructor (addr: string, addrType: string, mask: int, ranges: seq<StaticRange>)
      ensures this.addr == addr && this.addrType == addrType && this.mask == mask && this.ranges == ranges
    {
      this.addr, this.addrType, this.mask, this.ranges := addr, addrType, mask, ranges;
    }
  }

  class Network {
    var subnets: seq<Subnet>

    constructor (subnets: seq<Subnet>)
      ensures this.subnets == subnets
    {
      this.subnets := subnets;
    }
  }

  /** The (begin, end) pair, which is all the comparison looks at. */
  function PairOf(r: StaticRange): (string, string) {
    (r.begin, r.end)
  }

  function Pairs(rs: seq<StaticRange>): (ps: seq<(string, string)>)
    ensures |ps| == |rs| && forall i :: 0 <= i < |rs| ==> ps[i] == PairOf(rs[i])
  {
    seq(|rs|, i requires 0 <= i < |rs| => PairOf(rs[i]))
  }

  function RangeOf(p: IpPool): StaticRange {
    StaticRange(p.start, p.end, p.ipType)
  }

  /** One range per pool, in order, from its start to its end and of its type. */
  function RangesOf(pools: seq<IpPool>): (rs: seq<StaticRange>)
    ensures |rs| == |pools|
    ensures forall i :: 0 <= i < |pools| ==>
              rs[i].begin == pools[i].start && rs[i].end == pools[i].end && rs[i].ipType == pools[i].ipType
  {
    seq(|pools|, i requires 0 <= i < |pools| => RangeOf(pools[i]))
  }

  method CreateStaticRanges(pools: seq<IpPool>) returns (rs: seq<StaticRange>)
    ensures rs == RangesOf(pools)
  {
    rs := [];
    for i := 0 to |pools|
      invariant rs == RangesOf(pools)[..i]
    {
      rs := rs + [RangeOf(pools[i])];
    }
  }

  // ---------------------------------------------------------------- sorting

  /** `isIPLessThan`, negated: `a` need not come after `b`. */
  predicate NotAfter(parse: Parser, a: string, b: string) {
    CompareBytes(parse(a), parse(b)) <= 0
  }

  ghost predicate SortedByStart(parse: Parser, ps: seq<(string, string)>) {
    forall i, j :: 0 <= i < j < |ps| ==> NotAfter(parse, ps[i].0, ps[j].0)
  }

  /** Different pairs start at different addresses; so it is when all starts are distinct. */
  ghost predicate DistinctStarts(parse: Parser, ps: seq<(string, string)>) {
    forall p, q :: p in ps && q in ps && p != q ==> parse(p.0) != parse(q.0)
  }

  lemma NotAfterTotal(parse: Parser, a: string, b: string, c: string)
    ensures NotAfter(parse, a, b) || NotAfter(parse, b, a)
    ensures NotAfter(parse, a, b) && NotAfter(parse, b, a) ==> parse(a) == parse(b)
    ensures NotAfter(parse, a, b) && NotAfter(parse, b, c) ==> NotAfter(parse, a, c)
  {
    ByteOrderTotal(parse(a), parse(b), parse(c));
  }

  /** On parsed addresses the order is the numeric one, lowest first. */
  lemma OrderIsNumeric(parse: Parser, a: string, b: string)
    requires |parse(a)| == |parse(b)|
    ensures NotAfter(parse, a, b) <==> Num(parse(a)) <= Num(parse(b))
  {
    ByteOrderIsNumeric(parse(a), parse(b));
  }

  /** Inserts `r` before the first range that starts after it. */
  method Insert(parse: Parser, rs: seq<StaticRange>, r: StaticRange) returns (out: seq<StaticRange>)
    requires SortedByStart(parse, Pairs(rs))
    ensures SortedByStart(parse, Pairs(out)) && multiset(out) == multiset(rs) + multiset{r}
  {
    var i := |rs|;
    while i > 0 && !NotAfter(parse, rs[i - 1].begin, r.begin)
      invariant 0 <= i <= |rs|
      invariant forall j :: i <= j < |rs| ==> NotAfter(parse, r.begin, rs[j].begin)
    {
      NotAfterTotal(parse, rs[i - 1].begin, r.begin, r.begin);
      i := i - 1;
    }
    out := rs[..i] + [r] + rs[i..];
    InsertSorted(parse, rs, r, i);
    InsertPermutes(rs, r, i);
  }

  lemma InsertPermutes(rs: seq<StaticRange>, r: StaticRange, i: nat)
    requires i <= |rs|
    ensures multiset(rs[..i] + [r] + rs[i..]) == multiset(rs) + multiset{r}
  {
    assert rs == rs[..i] + rs[i..];
  }

  lemma InsertSorted(parse: Parser, rs: seq<StaticRange>, r: StaticRange, i: nat)
    requires i <= |rs| && SortedByStart(parse, Pairs(rs))
    requires i > 0 ==> NotAfter(parse, rs[i - 1].begin, r.begin)
    requires forall j :: i <= j < |rs| ==> NotAfter(parse, r.begin, rs[j].begin)
    ensures SortedByStart(parse, Pairs(rs[..i] + [r] + rs[i..]))
  {
    var out := rs[..i] + [r] + rs[i..];
    forall a, b | 0 <= a < b < |out| ensures NotAfter(parse, Pairs(out)[a].0, Pairs(out)[b].0) {
      InsertOrdered(parse, rs, r, i, a, b);
    }
  }

  lemma InsertOrdered(parse: Parser, rs: seq<StaticRange>, r: StaticRange, i: nat, a: nat, b: nat)
    requires i <= |rs| && SortedByStart(parse, Pairs(rs)) && a < b <= |rs|
    requires i > 0 ==> NotAfter(parse, rs[i - 1].begin, r.begin)
    requires forall j :: i <= j < |rs| ==> NotAfter(parse, r.begin, rs[j].begin)
    ensures var out := rs[..i] + [r] + rs[i..]; NotAfter(parse, out[a].begin, out[b].begin)
  {
    var ps := Pairs(rs);
    var out := rs[..i] + [r] + rs[i..];
    if b == i {
      assert out[a] == rs[a] && ps[a].0 == rs[a].begin && ps[i - 1].0 == rs[i - 1].begin;
      assert a < i - 1 ==> NotAfter(parse, ps[a].0, ps[i - 1].0);
      NotAfterTotal(parse, rs[a].begin, rs[i - 1].begin, r.begin);
    } else if a != i {
      var a', b' := if a < i then a else a - 1, if b < i then b else b - 1;
      assert out[a] == rs[a'] && out[b] == rs[b'];
      assert NotAfter(parse, ps[a'].0, ps[b'].0);
    }
  }

  /** `SortStaticRanges`; of the library sort only this is used: sorted, and the same ranges. */
  method SortStaticRanges(parse: Parser, rs: seq<StaticRange>) returns (sorted: seq<StaticRange>)
    ensures SortedByStart(parse, Pairs(sorted)) && multiset(sorted) == multiset(rs)
  {
    sorted := [];
    for i := 0 to |rs|
      invariant SortedByStart(parse, Pairs(sorted)) && multiset(sorted) == multiset(rs[..i])
    {
      sorted := Insert(parse, sorted, rs[i]);
      assert rs[..i + 1] == rs[..i] + [rs[i]];
    }
    assert rs[..|rs|] == rs;
  }

  // ---------------------------------------------------------------- comparing

  lemma DropCommon<T>(x: T, a: seq<T>, b: seq<T>)
    requires multiset([x] + a) == multiset([x] + b)
    ensures multiset(a) == multiset(b)
  {
    assert multiset(a) == multiset([x] + a) - multiset{x};
    assert multiset(b) == multiset([x] + b) - multiset{x};
  }

  /** The first element of `a` occurs in its permutation `b`; removing both leaves permutations. */
  lemma FindHead<T>(a: seq<T>, b: seq<T>) returns (i: nat)
    requires a != [] && multiset(a) == multiset(b)
    ensures i < |b| && b[i] == a[0] && multiset(a[1..]) == multiset(b[..i] + b[i + 1..])
  {
    assert a[0] in multiset(b);
    i :| 0 <= i < |b| && b[i] == a[0];
    assert a == [a[0]] + a[1..];
    assert b == b[..i] + [b[i]] + b[i + 1..];
    assert multiset(b) == multiset([b[i]] + (b[..i] + b[i + 1..]));
    DropCommon(a[0], a[1..], b[..i] + b[i + 1..]);
  }

  lemma PairsAppend(a: seq<StaticRange>, b: seq<StaticRange>)
    ensures Pairs(a + b) == Pairs(a) + Pairs(b)
  {
  }

  /** The same ranges make the same pairs. */
  lemma {:induction false} PairsPermute(a: seq<StaticRange>, b: seq<StaticRange>)
    requires multiset(a) == multiset(b)
    ensures multiset(Pairs(a)) == multiset(Pairs(b))
    decreases |a|
  {
    assert |a| == |multiset(a)| == |multiset(b)| == |b|;
    if a != [] {
      var i := FindHead(a, b);
      PairsPermute(a[1..], b[..i] + b[i + 1..]);
      PairsAppend(b[..i], b[i + 1..]);
      assert Pairs(a) == [PairOf(a[0])] + Pairs(a[1..]);
      assert Pairs(b) == Pairs(b[..i]) + [PairOf(a[0])] + Pairs(b[i + 1..]);
    }
  }

  lemma HeadIsLeast(parse: Parser, p: seq<(string, string)>, x: (string, string))
    requires p != [] && SortedByStart(parse, p) && x in p
    ensures NotAfter(parse, p[0].0, x.0)
  {
    var i :| 0 <= i < |p| && p[i] == x;
    NotAfterTotal(parse, p[0].0, p[0].0, p[0].0);
    assert i > 0 ==> NotAfter(parse, p[0].0, p[i].0);
  }

  lemma HeadsAgree(parse: Parser, p: seq<(string, string)>, q: seq<(string, string)>)
    requires p != [] && q != [] && multiset(p) == multiset(q)
    requires SortedByStart(parse, p) && SortedByStart(parse, q) && DistinctStarts(parse, p)
    ensures p[0] == q[0]
  {
    assert q[0] in multiset(p) && p[0] in multiset(q);
    HeadIsLeast(parse, p, q[0]);
    HeadIsLeast(parse, q, p[0]);
    NotAfterTotal(parse, p[0].0, q[0].0, p[0].0);
    assert p[0] in p && q[0] in p;
  }

  lemma TailSorted(parse: Parser, p: seq<(string, string)>)
    requires p != [] && SortedByStart(parse, p)
    ensures SortedByStart(parse, p[1..])
  {
    var t := p[1..];
    forall i, j | 0 <= i < j < |t| ensures NotAfter(parse, t[i].0, t[j].0) {
      assert NotAfter(parse, p[i + 1].0, p[j + 1].0);
    }
  }

  /** Sorting by distinct starts leaves no choice: two sorted orders of the same pairs agree. */
  lemma {:induction false} SortedOrderIsUnique(parse: Parser, p: seq<(string, string)>, q: seq<(string, string)>)
    requires SortedByStart(parse, p) && SortedByStart(parse, q) && DistinctStarts(parse, p)
    requires multiset(p) == multiset(q)
    ensures p == q
    decreases |p|
  {
    assert |p| == |multiset(p)| == |multiset(q)| == |q|;
    if p != [] {
      HeadsAgree(parse, p, q);
      assert p == [p[0]] + p[1..] && q == [p[0]] + q[1..];
      DropCommon(p[0], p[1..], q[1..]);
      TailSorted(parse, p);
      TailSorted(parse, q);
      SortedOrderIsUnique(parse, p[1..], q[1..]);
    }
  }

  /** `IsStaticIPRangeEqual`: sorts both lists in place, then compares pair by pair. */
  method IsStaticRangeEqual(parse: Parser, r1: seq<StaticRange>, r2: seq<StaticRange>)
    returns (equal: bool, s1: seq<StaticRange>, s2: seq<StaticRange>)
    ensures multiset(s1) == multiset(r1) && multiset(s2) == multiset(r2)
    ensures equal ==> multiset(Pairs(r1)) == multiset(Pairs(r2))
    ensures DistinctStarts(parse, Pairs(r1)) ==> (equal <==> multiset(Pairs(r1)) == multiset(Pairs(r2)))
  {
    s1 := SortStaticRanges(parse, r1);
    s2 := SortStaticRanges(parse, r2);
    PairsPermute(s1, r1);
    PairsPermute(s2, r2);
    equal := SamePairs(s1, s2);
    if DistinctStarts(parse, Pairs(r1)) && multiset(Pairs(r1)) == multiset(Pairs(r2)) {
      assert forall p :: p in Pairs(s1) ==> p in multiset(Pairs(r1));
      SortedOrderIsUnique(parse, Pairs(s1), Pairs(s2));
    }
  }

  /** The comparison of two sorted lists. */
  method SamePairs(s1: seq<StaticRange>, s2: seq<StaticRange>) returns (equal: bool)
    ensures equal <==> Pairs(s1) == Pairs(s2)
  {
    if |s1| != |s2| {
      return false;
    }
    for i := 0 to |s1|
      invariant Pairs(s1)[..i] == Pairs(s2)[..i]
    {
      if s1[i].begin != s2[i].begin || s1[i].end != s2[i].end {
        assert Pairs(s1)[i] != Pairs(s2)[i];
        return false;
      }
    }
    assert Pairs(s1) == Pairs(s1)[..|s1|] && Pairs(s2) == Pairs(s2)[..|s1|];
    return true;
  }

  // ---------------------------------------------------------------- the subnet and the network

  /** The subnet already holds the pools' pairs. */
  ghost predicate Holds(rs: seq<StaticRange>, pools: seq<IpPool>) {
    multiset(Pairs(rs)) == multiset(seq(|pools|, i requires 0 <= i < |pools| => (pools[i].start, pools[i].end)))
  }

  lemma PoolPairs(pools: seq<IpPool>)
    ensures Pairs(RangesOf(pools)) == seq(|pools|, i requires 0 <= i < |pools| => (pools[i].start, pools[i].end))
  {
  }

  method EnsureStaticRanges(parse: Parser, subnet: Subnet, pools: Option<seq<IpPool>>) returns (modified: bool)
    modifies subnet
    ensures pools.None? ==> !modified && subnet.ranges == old(subnet.ranges)
    ensures pools.Some? ==>
      && Holds(subnet.ranges, pools.value)
      && multiset(subnet.ranges) == (if modified then multiset(RangesOf(pools.value)) else multiset(old(subnet.ranges)))
      && (!modified ==> Holds(old(subnet.ranges), pools.value))
      && (DistinctStarts(parse, Pairs(RangesOf(pools.value))) ==>
            (modified <==> !Holds(old(subnet.ranges), pools.value)))
  {
    if pools.None? {
      return false;
    }
    var newRanges := CreateStaticRanges(pools.value);
    PoolPairs(pools.value);
    var equal, s1, s2 := IsStaticRangeEqual(parse, newRanges, subnet.ranges);
    PairsPermute(s1, newRanges);
    PairsPermute(s2, subnet.ranges);
    // both lists have been sorted in place
    subnet.ranges := s2;
    modified := !equal;
    if modified {
      subnet.ranges := s1;
    }
  }

  predicate MatchesSubnet(s: Subnet, addr: string, mask: int) {
    s.addr == addr && s.mask == mask
  }

  /** Where the first subnet with this address and mask is; past the end when there is none. */
  function FirstMatch(subnets: seq<Subnet>, addr: string, mask: int): (index: nat)
    ensures index <= |subnets|
    ensures index < |subnets| ==> subnets[index].addr == addr && subnets[index].mask == mask
    ensures forall j :: 0 <= j < index ==> subnets[j].addr != addr || subnets[j].mask != mask
  {
    if subnets == [] || MatchesSubnet(subnets[0], addr, mask) then 0
    else 1 + FirstMatch(subnets[1..], addr, mask)
  }

  /** `AviNetworkContainsSubnet`. */
  method ContainsSubnet(network: Network, addr: string, mask: int) returns (index: int, found: bool)
    ensures found <==> FirstMatch(network.subnets, addr, mask) < |network.subnets|
    ensures index == if found then FirstMatch(network.subnets, addr, mask) else -1
  {
    ghost var first := FirstMatch(network.subnets, addr, mask);
    for i := 0 to |network.subnets|
      invariant i <= first
    {
      if network.subnets[i].addr == addr && network.subnets[i].mask == mask {
        return i, true;
      }
      assert !MatchesSubnet(network.subnets[i], addr, mask);
    }
    return -1, false;
  }

  /** The first subnet with this address and mask exists and holds the pools' pairs. */
  ghost predicate UpToDate(subnets: seq<Subnet>, addr: string, mask: int, pools: Option<seq<IpPool>>)
    reads set s | s in subnets
  {
    var first := FirstMatch(subnets, addr, mask);
    first < |subnets| && (pools.Some? ==> Holds(subnets[first].ranges, pools.value))
  }

  /** No subnet object but the first matching one is touched, and every subnet keeps its place.
      A missing subnet is appended with the pools' ranges. */
  twostate predicate OnlyFirstMatchTouched(network: Network, addr: string, mask: int)
    reads network, set s | s in network.subnets
  {
    var before := old(network.subnets);
    var first := FirstMatch(before, addr, mask);
    && before <= network.subnets
    && |network.subnets| == (if first < |before| then |before| else |before| + 1)
    && (forall s <- network.subnets :: s in before || fresh(s))
    && (forall s <- before :: first == |before| || s != before[first] ==> s.ranges == old(s.ranges))
  }

  /** Afterwards the network is up to date, and only the first matching subnet was touched;
      with distinct start addresses the answer is true exactly when the network was not up to
      date before. */
  method EnsureAviNetwork(parse: Parser, network: Network, addrType: string, addr: string, mask: int,
                          pools: Option<seq<IpPool>>)
    returns (modified: bool)
    modifies network, set s | s in network.subnets
    ensures UpToDate(network.subnets, addr, mask, pools)
    ensures OnlyFirstMatchTouched(network, addr, mask)
    ensures |network.subnets| > |old(network.subnets)| ==>
      && network.subnets[|old(network.subnets)|].addrType == addrType
      && network.subnets[|old(network.subnets)|].ranges == (if pools.None? then [] else RangesOf(pools.value))
    ensures !modified ==> old(UpToDate(network.subnets, addr, mask, pools))
    ensures (pools.Some? ==> DistinctStarts(parse, Pairs(RangesOf(pools.value)))) ==>
      (modified <==> !old(UpToDate(network.subnets, addr, mask, pools)))
  {
    var index, found := ContainsSubnet(network, addr, mask);
    if found {
      var subnet := network.subnets[index];
      modified := EnsureStaticRanges(parse, subnet, pools);
    } else {
      var ranges := [];
      if pools.Some? {
        ranges := CreateStaticRanges(pools.value);
        PoolPairs(pools.value);
      }
      var subnet := new Subnet(addr, addrType, mask, ranges);
      network.subnets := network.subnets + [subnet];
      modified := true;
      assert MatchesSubnet(network.subnets[|old(network.subnets)|], addr, mask);
    }
  }

  /** A second call changes nothing. */
  method EnsureTwice(parse: Parser, network: Network, addrType: string, addr: string, mask: int,
                     pools: Option<seq<IpPool>>)
    returns (again: bool)
    requires pools.Some? ==> DistinctStarts(parse, Pairs(RangesOf(pools.value)))
    modifies network, set s | s in network.subnets
    ensures !again && UpToDate(network.subnets, addr, mask, pools)
  {
    var _ := EnsureAviNetwork(parse, network, addrType, addr, mask, pools);
    assert forall s <- network.subnets :: s in old(network.subnets) || fresh(s);
    again := EnsureAviNetwork(parse, network, addrType, addr, mask, pools);
  }
}
