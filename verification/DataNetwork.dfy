/** Validation of the data network's IP pools
    (`validateAviDataNetworks` in api/v1alpha1/akodeploymentconfig_webhook.go). */
module DataNetwork {
  import opened Objects
  import opened Addresses

  const MAPPED_PREFIX: seq<Byte> := [0, 0, 0, 0, 0, 0, 0, 0, 0, 0, 255, 255]

  /** The IPv4 form of an address, if it has one. */
  function To4(a: seq<Byte>): Option<seq<Byte>> {
    if |a| == 4 then Some(a)
    else if |a| == 16 && a[..12] == MAPPED_PREFIX then Some(a[12..])
    else None
  }

  /** A parsed CIDR: the address as written, in 16 bytes, the masked network address, in 4
      or 16 bytes, and the prefix length. */
  datatype Cidr = Cidr(addr: Ip, net: seq<Byte>, p: nat)

  predicate ParsedCidr(c: Cidr) {
    && |c.addr| == 16 && (|c.net| == 4 || |c.net| == 16) && c.p <= 8 * |c.net|
  }

  /** Network number and prefix length that `Contains` works with: an IPv4-mapped network
      keeps its last four bytes. */
  function NetworkNumber(c: Cidr): (r: (seq<Byte>, nat))
    requires ParsedCidr(c)
    ensures (|r.0| == 4 || |r.0| == 16) && r.1 <= 8 * |r.0|
  {
    if |c.net| == 16 && To4(c.net).Some? then (c.net[12..], if c.p >= 96 then c.p - 96 else 0)
    else (c.net, c.p)
  }

  predicate Contains(c: Cidr, a: Ip)
    requires ParsedCidr(c)
  {
    var x := if To4(a).Some? then To4(a).value else a;
    var (nn, q) := NetworkNumber(c);
    |x| == |nn| && MaskedEqual(nn, CidrMask(q, |nn|), x)
  }

  /** The mask `Contains` uses for a mapped network is the tail of the 16-byte mask. */
  lemma {:induction false} MaskTail(p: nat, n: nat, k: nat)
    requires p <= 8 * n && k <= n
    ensures CidrMask(p, n)[k..] == CidrMask(if p >= 8 * k then p - 8 * k else 0, n - k)
  {
    if k > 0 {
      var p1 := if p >= 8 then p - 8 else 0;
      assert CidrMask(p, n)[1..] == CidrMask(p1, n - 1);
      assert (if p1 >= 8 * (k - 1) then p1 - 8 * (k - 1) else 0) == if p >= 8 * k then p - 8 * k else 0;
      MaskTail(p1, n - 1, k - 1);
      var m := CidrMask(p, n);
      assert m[k..] == m[1..][k - 1..];
    }
  }

  datatype Pool = Pool(start: Ip, end: Ip, ipType: string)

  function AddrType(cidr: Option<Cidr>): string {
    if cidr.None? then "INVALID" else if To4(cidr.value.addr).Some? then "V4" else "V6"
  }

  ghost predicate PoolAccepted(c: Cidr, pool: Pool)
    requires ParsedCidr(c)
  {
    && pool.start != [] && pool.end != [] && Contains(c, pool.start) && Contains(c, pool.end)
    && CompareBytes(pool.start, pool.end) <= 0 && pool.ipType == AddrType(Some(c))
  }

  datatype Verdict = Errors(n: nat) | Panic

  /** Counts the errors; a pool of another type ends the loop, and a pool under a CIDR that
      did not parse is a nil dereference. Unparsable addresses are empty. */
  method ValidateDataNetwork(networkFound: bool, cidr: Option<Cidr>, pools: seq<Pool>) returns (v: Verdict)
    requires cidr.Some? ==> ParsedCidr(cidr.value)
    ensures v == Errors(0) <==> networkFound && cidr.Some? && PoolsAccepted(cidr.value, pools)
    ensures v.Panic? <==> cidr.None? && pools != []
  {
    var errs := 0;
    if !networkFound {
      errs := errs + 1;
    }
    if cidr.None? {
      errs := errs + 1;
      if |pools| > 0 {
        return Panic;
      }
      return Errors(errs);
    }
    var poolErrs := ValidatePools(cidr.value, pools);
    return Errors(errs + poolErrs);
  }

  ghost predicate PoolsAccepted(c: Cidr, pools: seq<Pool>)
    requires ParsedCidr(c)
  {
    forall pool <- pools :: PoolAccepted(c, pool)
  }

  /** The loop over the pools. */
  method ValidatePools(c: Cidr, pools: seq<Pool>) returns (errs: nat)
    requires ParsedCidr(c)
    ensures errs == 0 <==> PoolsAccepted(c, pools)
  {
    errs := 0;
    for i := 0 to |pools|
      invariant errs == 0 <==> PoolsAccepted(c, pools[..i])
    {
      var poolErrs, mismatch := ValidatePool(c, pools[i], AddrType(Some(c)));
      errs := errs + poolErrs;
      assert pools[..i + 1] == pools[..i] + [pools[i]];
      assert PoolsAccepted(c, pools[..i + 1]) <==> PoolsAccepted(c, pools[..i]) && PoolAccepted(c, pools[i]);
      if mismatch {
        assert pools[i] in pools;
        return;
      }
    }
    assert pools[..|pools|] == pools;
  }

  /** The body of the loop; `mismatch` ends it. */
  method ValidatePool(cidr: Cidr, pool: Pool, addrType: string) returns (errs: nat, mismatch: bool)
    requires ParsedCidr(cidr) && addrType == AddrType(Some(cidr))
    ensures errs == 0 <==> PoolAccepted(cidr, pool)
    ensures mismatch <==> pool.ipType != addrType
  {
    errs := 0;
    if pool.start == [] {
      errs := errs + 1;
    }
    if pool.end == [] {
      errs := errs + 1;
    }
    if !Contains(cidr, pool.start) || !Contains(cidr, pool.end) {
      errs := errs + 1;
    }
    if CompareBytes(pool.start, pool.end) > 0 {
      errs := errs + 1;
    }
    mismatch := pool.ipType != addrType;
    if mismatch {
      errs := errs + 1;
    }
  }

  // ---------------------------------------------------------------- what acceptance means

  /** Between addresses with the same first `k` bytes, the rest decides the order. */
  lemma {:induction false} TailOrder(a: seq<Byte>, b: seq<Byte>, k: nat)
    requires |a| == |b| && k <= |a| && a[..k] == b[..k]
    ensures Num(a) - Num(b) == Num(a[k..]) - Num(b[k..])
  {
    if k > 0 {
      PrefixSplit(a, b, k);
      TailOrder(a[1..], b[1..], k - 1);
      assert a[1..][k - 1..] == a[k..] && b[1..][k - 1..] == b[k..];
    } else {
      assert a[0..] == a && b[0..] == b;
    }
  }

  lemma PrefixSplit(a: seq<Byte>, b: seq<Byte>, k: nat)
    requires |a| == |b| && 0 < k <= |a|
    ensures a[..k] == b[..k] <==> a[0] == b[0] && a[1..][..k - 1] == b[1..][..k - 1]
  {
    assert a[..k] == [a[0]] + a[1..][..k - 1];
    assert b[..k] == [b[0]] + b[1..][..k - 1];
  }

  lemma NoPrefix(nn: seq<Byte>, x: seq<Byte>)
    requires |nn| == |x|
    ensures MaskedEqual(nn, CidrMask(0, |nn|), x)
  {
    ZeroMask(nn);
    ZeroMask(x);
  }

  lemma BytePrefixStep(nn: seq<Byte>, k: nat, x: seq<Byte>)
    requires |nn| == |x| && 0 < k <= |nn|
    requires MaskedEqual(nn[1..], CidrMask(8 * (k - 1), |nn| - 1), x[1..]) <==> nn[1..][..k - 1] == x[1..][..k - 1]
    ensures MaskedEqual(nn, CidrMask(8 * k, |nn|), x) <==> nn[..k] == x[..k]
  {
    var p := 8 * k;
    assert p - 8 == 8 * (k - 1);
    FullMaskSplit(nn, p, x);
    PrefixSplit(nn, x, k);
  }

  /** Agreement on the first `k` bytes is a prefix of length `8 * k`. */
  lemma {:induction false} BytePrefix(nn: seq<Byte>, k: nat, x: seq<Byte>)
    requires |nn| == |x| && k <= |nn|
    ensures MaskedEqual(nn, CidrMask(8 * k, |nn|), x) <==> nn[..k] == x[..k]
  {
    if k == 0 {
      NoPrefix(nn, x);
    } else {
      BytePrefix(nn[1..], k - 1, x[1..]);
      BytePrefixStep(nn, k, x);
    }
  }

  const MAPPED_BASE: seq<Byte> := MAPPED_PREFIX + [0, 0, 0, 0]

  function MappedLow(): nat { Base(MAPPED_BASE, 96) }

  function MappedHigh(): nat { MappedLow() + Pow2(32) }

  lemma BytePrefixIsInterval(nn: seq<Byte>, k: nat, x: seq<Byte>)
    requires |nn| == |x| && k <= |nn|
    ensures nn[..k] == x[..k] <==> InBlock(nn, 8 * k, x)
  {
    BytePrefix(nn, k, x);
    PrefixIsInterval(nn, 8 * k, x);
  }

  /** The IPv4-mapped addresses are the block ::ffff:0:0/96. */
  lemma MappedIsBlock(x: Ip)
    requires |x| == 16
    ensures To4(x).Some? <==> MappedLow() <= Num(x) < MappedHigh()
  {
    BytePrefixIsInterval(MAPPED_BASE, 12, x);
    assert MAPPED_BASE[..12] == MAPPED_PREFIX;
  }

  ghost predicate Between(start: Ip, x: Ip, end: Ip) {
    |start| == |x| == |end| == 16 && Num(start) <= Num(x) <= Num(end)
  }

  /** `x` lies in the CIDR, read as a block of numbers (section 3.1 of RFC 4632). */
  ghost predicate InCidr(c: Cidr, x: Ip)
    requires ParsedCidr(c) && |x| == 16
  {
    var (nn, q) := NetworkNumber(c);
    if |nn| == 4 then To4(x).Some? && InBlock(nn, q, x[12..]) else InBlock(nn, q, x)
  }

  /** The pool reaches from below to above the IPv4-mapped block. */
  ghost predicate Straddles(start: Ip, end: Ip) {
    Num(start) < MappedLow() && MappedHigh() <= Num(end)
  }

  lemma ContainsMeaning(c: Cidr, x: Ip)
    requires ParsedCidr(c) && |x| == 16
    ensures var nn := NetworkNumber(c).0;
            Contains(c, x) <==> InCidr(c, x) && (|nn| == 16 ==> To4(x).None?)
  {
    var (nn, q) := NetworkNumber(c);
    if |nn| == 4 {
      if To4(x).Some? {
        PrefixIsInterval(nn, q, x[12..]);
      }
    } else {
      PrefixIsInterval(nn, q, x);
    }
  }

  /** Agreement under a mask, byte by byte before `k` and from there on. */
  lemma MaskedEqualAt(nn: seq<Byte>, m: seq<Byte>, x: seq<Byte>, k: nat)
    requires |nn| == |m| == |x| && k <= |nn| && nn[..k] == x[..k]
    ensures MaskedEqual(nn, m, x) <==> MaskedEqual(nn[k..], m[k..], x[k..])
  {
    if MaskedEqual(nn[k..], m[k..], x[k..]) {
      forall i | 0 <= i < |nn| ensures And(nn[i], m[i]) == And(x[i], m[i]) {
        if i < k {
          assert nn[i] == nn[..k][i] && x[i] == x[..k][i];
        } else {
          assert nn[i] == nn[k..][i - k] && m[i] == m[k..][i - k] && x[i] == x[k..][i - k];
        }
      }
    }
    if MaskedEqual(nn, m, x) {
      forall i | 0 <= i < |nn| - k ensures And(nn[k..][i], m[k..][i]) == And(x[k..][i], m[k..][i]) {
        assert And(nn[i + k], m[i + k]) == And(x[i + k], m[i + k]);
      }
    }
  }

  /** Reading a network by its last four bytes changes nothing: the block is the one its address
      and prefix length give, an IPv4 network's among the IPv4-mapped addresses, an IPv4-mapped
      network's cut down to them. */
  lemma BlockAsWritten(c: Cidr, x: Ip)
    requires ParsedCidr(c) && |x| == 16
    ensures |c.net| == 4 ==> (InCidr(c, x) <==> To4(x).Some? && InBlock(c.net, c.p, x[12..]))
    ensures |c.net| == 16 ==> (InCidr(c, x) <==> InBlock(c.net, c.p, x) && (To4(c.net).Some? ==> To4(x).Some?))
  {
    if |c.net| == 16 && To4(c.net).Some? && To4(x).Some? {
      var q := NetworkNumber(c).1;
      MaskTail(c.p, 16, 12);
      MaskedEqualAt(c.net, CidrMask(c.p, 16), x, 12);
      PrefixIsInterval(c.net, c.p, x);
      PrefixIsInterval(c.net[12..], q, x[12..]);
    }
  }

  /** A pool is accepted exactly when both ends lie in the CIDR's block, are of the same kind as
      the network, stand in numeric order, and the pool's type says which kind the CIDR was
      written in. */
  lemma AcceptedMeans(c: Cidr, pool: Pool)
    requires ParsedCidr(c) && |pool.start| == |pool.end| == 16
    ensures PoolAccepted(c, pool) <==>
      && InCidr(c, pool.start) && InCidr(c, pool.end)
      && (|NetworkNumber(c).0| == 16 ==> To4(pool.start).None? && To4(pool.end).None?)
      && Num(pool.start) <= Num(pool.end)
      && pool.ipType == if To4(c.addr).Some? then "V4" else "V6"
  {
    ContainsMeaning(c, pool.start);
    ContainsMeaning(c, pool.end);
    ByteOrderIsNumeric(pool.start, pool.end);
  }

  /** Of an accepted pool, every address between start and end lies in the CIDR's block. */
  lemma PoolInsideBlock(c: Cidr, pool: Pool, x: Ip)
    requires ParsedCidr(c) && PoolAccepted(c, pool) && Between(pool.start, x, pool.end)
    ensures InCidr(c, x)
  {
    ContainsMeaning(c, pool.start);
    ContainsMeaning(c, pool.end);
    if |NetworkNumber(c).0| == 4 {
      MappedIsBlock(pool.start);
      MappedIsBlock(pool.end);
      MappedIsBlock(x);
      TailOrder(pool.start, x, 12);
      TailOrder(x, pool.end, 12);
    }
  }

  lemma MappedWitness()
    ensures |MAPPED_BASE| == 16 && Num(MAPPED_BASE) == MappedLow() && To4(MAPPED_BASE).Some?
  {
    assert MAPPED_BASE[..12] == MAPPED_PREFIX;
    MappedIsBlock(MAPPED_BASE);
    MaskKeepsBase();
  }

  lemma MaskKeepsBase()
    ensures Base(MAPPED_BASE, 96) == Num(MAPPED_BASE)
  {
    MaskFixes(MAPPED_PREFIX, [0, 0, 0, 0]);
  }

  lemma {:induction false} MaskFixes(a: seq<Byte>, z: seq<Byte>)
    requires forall b <- z :: b == 0
    ensures Base(a + z, 8 * |a|) == Num(a + z)
  {
    var s := a + z;
    if a == [] {
      assert s == z;
      ZeroMask(z);
      ZeroNum(z);
    } else {
      assert s[1..] == a[1..] + z;
      FullMaskSplit(s, 8 * |a|, s);
      MaskFixes(a[1..], z);
    }
  }

  lemma {:induction false} ZeroNum(z: seq<Byte>)
    requires forall b <- z :: b == 0
    ensures Num(z) == 0
  {
    if z != [] {
      assert z[0] in z && forall b <- z[1..] :: b in z;
      ZeroNum(z[1..]);
    }
  }

  /** `Contains` accepts every address of an accepted pool exactly when the pool does not
      reach across the IPv4-mapped block of an IPv6 network: the mapped addresses in the
      middle are compared as IPv4 and refused. */
  lemma PoolContainedIffNotStraddling(c: Cidr, pool: Pool)
    requires ParsedCidr(c) && PoolAccepted(c, pool) && |pool.start| == |pool.end| == 16
    ensures (forall x: Ip :: Between(pool.start, x, pool.end) ==> Contains(c, x)) <==>
            !(|NetworkNumber(c).0| == 16 && Straddles(pool.start, pool.end))
  {
    var nn := NetworkNumber(c).0;
    ContainsMeaning(c, pool.start);
    ContainsMeaning(c, pool.end);
    MappedIsBlock(pool.start);
    MappedIsBlock(pool.end);
    if |nn| == 16 && Straddles(pool.start, pool.end) {
      MappedWitness();
      assert Between(pool.start, MAPPED_BASE, pool.end) && !Contains(c, MAPPED_BASE);
    } else {
      ByteOrderIsNumeric(pool.start, pool.end);
      forall x: Ip | Between(pool.start, x, pool.end) ensures Contains(c, x) {
        PoolInsideBlock(c, pool, x);
        ContainsMeaning(c, x);
        MappedIsBlock(x);
      }
    }
  }

  lemma ZeroPrefixContains(c: Cidr, x: Ip)
    requires ParsedCidr(c) && c.p == 0 && |c.net| == 16 && To4(c.net).None? && |x| == 16 && To4(x).None?
    ensures Contains(c, x)
  {
    ZeroMask(c.net);
    ZeroMask(x);
  }

  lemma {:induction false} OnesNum(a: seq<Byte>)
    requires forall b <- a :: b == 255
    ensures Num(a) + 1 == Pow2(8 * |a|)
  {
    if a != [] {
      assert a[0] in a && forall b <- a[1..] :: b in a;
      OnesNum(a[1..]);
      Pow2Bytes(|a|);
    }
  }

  lemma Extremes(lowest: seq<Byte>, highest: seq<Byte>, x: seq<Byte>)
    requires |lowest| == |highest| == |x| && (forall b <- lowest :: b == 0) && (forall b <- highest :: b == 255)
    ensures Num(lowest) <= Num(x) <= Num(highest)
  {
    ZeroNum(lowest);
    OnesNum(highest);
    NumBound(x);
  }

  lemma WholeSpaceAccepted(c: Cidr, pool: Pool)
    requires |pool.start| == |pool.end| == 16 && c == Cidr(pool.start, pool.start, 0) && pool.ipType == "V6"
    requires (forall b <- pool.start :: b == 0) && (forall b <- pool.end :: b == 255)
    ensures ParsedCidr(c) && |NetworkNumber(c).0| == 16 && PoolAccepted(c, pool)
  {
    assert pool.start[11] in pool.start && pool.start[..12][11] == 0;
    assert pool.end[0] in pool.end && pool.end[..12][0] == 255;
    ZeroPrefixContains(c, pool.start);
    ZeroPrefixContains(c, pool.end);
    Extremes(pool.start, pool.end, pool.end);
    ByteOrderIsNumeric(pool.start, pool.end);
  }

  /** Such a pool exists: under ::/0 the pool from the lowest to the highest address is
      accepted, and ::ffff:0:0 in its middle is not contained. */
  lemma StraddlingPoolIsAccepted(lowest: Ip, highest: Ip)
    requires |lowest| == |highest| == 16 && (forall b <- lowest :: b == 0) && (forall b <- highest :: b == 255)
    ensures
      var c, pool := Cidr(lowest, lowest, 0), Pool(lowest, highest, "V6");
      && ParsedCidr(c) && PoolAccepted(c, pool)
      && Between(pool.start, MAPPED_BASE, pool.end) && !Contains(c, MAPPED_BASE)
  {
    WholeSpaceAccepted(Cidr(lowest, lowest, 0), Pool(lowest, highest, "V6"));
    Extremes(lowest, highest, MAPPED_BASE);
    assert MAPPED_BASE[..12] == MAPPED_PREFIX;
  }
}
