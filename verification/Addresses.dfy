/** IP addresses as byte strings, CIDR containment (section 3.1 of RFC 4632) and the
    IPv4-mapped form (section 2.5.5.2 of RFC 4291), as the validation webhook uses them. */
module Addresses {
  type Byte = x: int | 0 <= x < 256

  /** A parsed address: 16 bytes, or none at all for text that does not parse. */
  type Ip = seq<Byte>

  // ---------------------------------------------------------------- numbers

  function Pow2(n: nat): (r: nat)
    ensures r >= 1
  {
    if n == 0 then 1 else 2 * Pow2(n - 1)
  }

  function Num(a: seq<Byte>): nat {
    if a == [] then 0 else a[0] * Pow2(8 * (|a| - 1)) + Num(a[1..])
  }

  lemma {:induction false} Pow2Add(m: nat, n: nat)
    ensures Pow2(m + n) == Pow2(m) * Pow2(n)
  {
    if m > 0 {
      Pow2Add(m - 1, n);
    }
  }

  lemma Pow2Bytes(n: nat)
    requires n > 0
    ensures Pow2(8 * n) == 256 * Pow2(8 * (n - 1))
  {
    assert 8 + 8 * (n - 1) == 8 * n;
    Pow2Add(8, 8 * (n - 1));
    assert Pow2(8) == 256 by {
      assert Pow2(4) == 16;
      Pow2Add(4, 4);
    }
  }

  lemma {:induction false} MulMono(a: int, b: int, w: nat)
    requires a <= b
    ensures a * w <= b * w
    decreases b - a
  {
    if a < b {
      MulMono(a + 1, b, w);
      assert (a + 1) * w == a * w + w;
    }
  }

  lemma {:induction false} NumBound(a: seq<Byte>)
    ensures Num(a) < Pow2(8 * |a|)
  {
    if a != [] {
      NumBound(a[1..]);
      Pow2Bytes(|a|);
      MulMono(a[0], 255, Pow2(8 * (|a| - 1)));
    }
  }

  /** `bytes.Compare`. */
  function CompareBytes(a: seq<Byte>, b: seq<Byte>): (r: int) {
    if a == [] && b == [] then 0
    else if a == [] then -1
    else if b == [] then 1
    else if a[0] < b[0] then -1
    else if a[0] > b[0] then 1
    else CompareBytes(a[1..], b[1..])
  }

  /** Byte order is a total order. */
  lemma {:induction false} ByteOrderTotal(a: seq<Byte>, b: seq<Byte>, c: seq<Byte>)
    ensures CompareBytes(a, b) == 0 <==> a == b
    ensures CompareBytes(a, b) == -CompareBytes(b, a)
    ensures CompareBytes(a, b) <= 0 && CompareBytes(b, c) <= 0 ==> CompareBytes(a, c) <= 0
  {
    if a != [] && b != [] {
      ByteOrderTotal(a[1..], b[1..], if c == [] then [] else c[1..]);
      assert a == [a[0]] + a[1..] && b == [b[0]] + b[1..];
    }
  }

  /** On addresses of equal length, byte order is numeric order. */
  lemma {:induction false} ByteOrderIsNumeric(a: seq<Byte>, b: seq<Byte>)
    requires |a| == |b|
    ensures CompareBytes(a, b) < 0 <==> Num(a) < Num(b)
    ensures CompareBytes(a, b) == 0 <==> Num(a) == Num(b)
    ensures CompareBytes(a, b) > 0 <==> Num(a) > Num(b)
  {
    if a != [] {
      ByteOrderIsNumeric(a[1..], b[1..]);
      NumBound(a[1..]);
      NumBound(b[1..]);
      var w := Pow2(8 * (|a| - 1));
      HeadDominates(a[0], b[0], w, Num(a[1..]), Num(b[1..]));
      HeadDominates(b[0], a[0], w, Num(b[1..]), Num(a[1..]));
    }
  }

  lemma HeadDominates(x: int, y: int, w: nat, s: nat, t: nat)
    requires s < w && t < w
    ensures x < y ==> x * w + s < y * w + t
  {
    if x < y {
      MulMono(x + 1, y, w);
      assert (x + 1) * w == x * w + w;
    }
  }

  // ---------------------------------------------------------------- masks

  /** Bitwise and. */
  function And(a: nat, b: nat): (r: nat)
    ensures r <= a
  {
    if a == 0 || b == 0 then 0 else (if a % 2 == 1 && b % 2 == 1 then 1 else 0) + 2 * And(a / 2, b / 2)
  }

  /** The mask byte with its `k` high bits set. */
  function MaskByte(k: nat): (m: Byte)
    requires k <= 8
  {
    var s := Pow2(8 - k);
    assert s <= 256 by { Pow2Small(8 - k); }
    256 - s
  }

  lemma Pow2Small(n: nat)
    requires n <= 8
    ensures Pow2(n) == [1, 2, 4, 8, 16, 32, 64, 128, 256][n]
  {
    assert Pow2(3) == 8;
    assert Pow2(4) == 16;
    assert Pow2(5) == 32;
    assert Pow2(6) == 64;
    assert Pow2(7) == 128;
    assert Pow2(8) == 256;
  }

  /** `n` bytes whose first `p` bits are set. */
  function CidrMask(p: nat, n: nat): (m: seq<Byte>)
    requires p <= 8 * n
    ensures |m| == n
  {
    if n == 0 then []
    else if p >= 8 then [255] + CidrMask(p - 8, n - 1)
    else [MaskByte(p)] + CidrMask(0, n - 1)
  }

  function Masked(a: seq<Byte>, m: seq<Byte>): (r: seq<Byte>)
    requires |a| == |m|
    ensures |r| == |a|
  {
    if a == [] then [] else [And(a[0], m[0])] + Masked(a[1..], m[1..])
  }

  /** The comparison loop of `Contains`. */
  predicate MaskedEqual(nn: seq<Byte>, m: seq<Byte>, ip: seq<Byte>)
    requires |nn| == |m| == |ip|
  {
    forall i :: 0 <= i < |nn| ==> And(nn[i], m[i]) == And(ip[i], m[i])
  }

  function Halve(x: nat, j: nat): nat {
    if j == 0 then x else Halve(x / 2, j - 1)
  }

  function ShiftLeft(x: nat, j: nat): nat {
    if j == 0 then x else 2 * ShiftLeft(x, j - 1)
  }

  lemma {:induction false} AndShifted(x: nat, m: nat, j: nat)
    ensures And(x, ShiftLeft(m, j)) == ShiftLeft(And(Halve(x, j), m), j)
  {
    if j > 0 {
      AndShifted(x / 2, m, j - 1);
      AndEven(x, ShiftLeft(m, j - 1));
    }
  }

  lemma {:induction false} AndEven(x: nat, m: nat)
    ensures And(x, 2 * m) == 2 * And(x / 2, m)
  {
  }

  lemma {:induction false} AndOnes(y: nat, k: nat)
    requires y < Pow2(k)
    ensures And(y, Pow2(k) - 1) == y
  {
    if k > 0 && y > 0 {
      AndOnes(y / 2, k - 1);
      assert (Pow2(k) - 1) / 2 == Pow2(k - 1) - 1;
    }
  }

  lemma {:induction false} MaskByteIsShift(j: nat, k: nat)
    ensures ShiftLeft(Pow2(k) - 1, j) == Pow2(j + k) - Pow2(j)
  {
    if j > 0 {
      MaskByteIsShift(j - 1, k);
    }
  }

  lemma {:induction false} HalveBound(x: nat, j: nat, k: nat)
    requires x < Pow2(j + k)
    ensures Halve(x, j) < Pow2(k)
  {
    if j > 0 {
      HalveBound(x / 2, j - 1, k);
    }
  }

  /** Masking with `k` high bits drops the other bits. */
  lemma AndMaskByte(x: Byte, k: nat)
    requires k <= 8
    ensures And(x, MaskByte(k)) == ShiftLeft(Halve(x, 8 - k), 8 - k)
  {
    Pow2Small(8);
    MaskByteIsShift(8 - k, k);
    AndShifted(x, Pow2(k) - 1, 8 - k);
    HalveBound(x, 8 - k, k);
    AndOnes(Halve(x, 8 - k), k);
  }

  /** Numbers with the same high bits form a block. */
  lemma {:induction false} HalveIsBlock(n: nat, x: nat, j: nat)
    ensures var b := ShiftLeft(Halve(n, j), j); Halve(x, j) == Halve(n, j) <==> b <= x < b + Pow2(j)
  {
    if j > 0 {
      HalveIsBlock(n / 2, x / 2, j - 1);
    }
  }

  lemma {:induction false} ShiftInjective(a: nat, b: nat, j: nat)
    ensures ShiftLeft(a, j) == ShiftLeft(b, j) ==> a == b
  {
    if j > 0 {
      ShiftInjective(a, b, j - 1);
    }
  }

  lemma {:induction false} BlockFits(x: nat, j: nat, n: nat)
    requires j <= n && x < Pow2(n)
    ensures ShiftLeft(Halve(x, j), j) + Pow2(j) <= Pow2(n)
  {
    if j > 0 {
      BlockFits(x / 2, j - 1, n - 1);
    } 
  }

  /** Two bytes agree under the mask exactly when they lie in the same block. */
  lemma SameBlock(n: Byte, x: Byte, k: nat)
    requires k <= 8
    ensures var b := And(n, MaskByte(k));
            && (And(x, MaskByte(k)) == b <==> b <= x < b + Pow2(8 - k))
            && b + Pow2(8 - k) <= 256
  {
    AndMaskByte(n, k);
    AndMaskByte(x, k);
    SameHighBits(n, x, 8 - k);
  }

  lemma SameHighBits(n: Byte, x: Byte, j: nat)
    requires j <= 8
    ensures var b := ShiftLeft(Halve(n, j), j);
            && (ShiftLeft(Halve(x, j), j) == b <==> b <= x < b + Pow2(j))
            && b + Pow2(j) <= 256
  {
    HalveIsBlock(n, x, j);
    ShiftInjective(Halve(x, j), Halve(n, j), j);
    assert Pow2(8) == 256 by {
      Pow2Small(8);
    }
    BlockFits(n, j, 8);
  }

  // ---------------------------------------------------------------- prefixes are intervals

  lemma {:induction false} ZeroMask(a: seq<Byte>)
    ensures Num(Masked(a, CidrMask(0, |a|))) == 0
    ensures forall i :: 0 <= i < |a| ==> And(a[i], CidrMask(0, |a|)[i]) == 0
  {
    if a != [] {
      ZeroMask(a[1..]);
      Pow2Small(8);
      assert MaskByte(0) == 0;
      var m := CidrMask(0, |a|);
      assert m[1..] == CidrMask(0, |a| - 1);
      var r := Masked(a, m);
      assert r[0] == 0 && r[1..] == Masked(a[1..], m[1..]);
      forall i | 0 <= i < |a| ensures And(a[i], m[i]) == 0 {
        if i > 0 {
          assert a[i] == a[1..][i - 1] && m[i] == m[1..][i - 1];
        }
      }
    }
  }

  lemma MaskedEqualSplit(nn: seq<Byte>, m: seq<Byte>, x: seq<Byte>)
    requires |nn| == |m| == |x| > 0
    ensures MaskedEqual(nn, m, x) <==> And(nn[0], m[0]) == And(x[0], m[0]) && MaskedEqual(nn[1..], m[1..], x[1..])
  {
    if And(nn[0], m[0]) == And(x[0], m[0]) && MaskedEqual(nn[1..], m[1..], x[1..]) {
      forall i | 0 <= i < |nn| ensures And(nn[i], m[i]) == And(x[i], m[i]) {
        if i > 0 {
          assert nn[i] == nn[1..][i - 1] && m[i] == m[1..][i - 1] && x[i] == x[1..][i - 1];
        }
      }
    }
    if MaskedEqual(nn, m, x) {
      forall i | 0 <= i < |nn| - 1 ensures And(nn[1..][i], m[1..][i]) == And(x[1..][i], m[1..][i]) {
        assert And(nn[i + 1], m[i + 1]) == And(x[i + 1], m[i + 1]);
      }
    }
  }

  /** The lowest address of the block of `nn` under prefix length `p`. */
  function Base(nn: seq<Byte>, p: nat): nat
    requires p <= 8 * |nn|
  {
    Num(Masked(nn, CidrMask(p, |nn|)))
  }

  /** `x` lies in the block of `nn` under prefix length `p`. */
  predicate InBlock(nn: seq<Byte>, p: nat, x: seq<Byte>)
    requires |nn| == |x| && p <= 8 * |nn|
  {
    Base(nn, p) <= Num(x) < Base(nn, p) + Pow2(8 * |nn| - p)
  }

  /** The addresses that agree with `nn` on the first `p` bits are the numbers from the base
      of the block up to its size. */
  lemma {:induction false} PrefixIsInterval(nn: seq<Byte>, p: nat, x: seq<Byte>)
    requires |nn| == |x| && p <= 8 * |nn|
    ensures MaskedEqual(nn, CidrMask(p, |nn|), x) <==> InBlock(nn, p, x)
    ensures Base(nn, p) + Pow2(8 * |nn| - p) <= Pow2(8 * |nn|)
  {
    if nn == [] {
      assert Pow2(0) == 1;
    } else if p >= 8 {
      PrefixIsInterval(nn[1..], p - 8, x[1..]);
      assert 8 * |nn[1..]| - (p - 8) == 8 * |nn| - p && 8 * |nn[1..]| == 8 * (|nn| - 1);
      FullFirstByte(nn, p, x);
    } else {
      PartialFirstByte(nn, p, x);
    }
  }

  /** Masking splits into the first byte and the rest. */
  lemma MaskSplit(nn: seq<Byte>, p: nat, x: seq<Byte>)
    requires |nn| == |x| > 0 && p <= 8 * |nn|
    ensures var m := CidrMask(p, |nn|);
            && (MaskedEqual(nn, m, x) <==> And(nn[0], m[0]) == And(x[0], m[0]) && MaskedEqual(nn[1..], m[1..], x[1..]))
            && Base(nn, p) == And(nn[0], m[0]) * Pow2(8 * (|nn| - 1)) + Num(Masked(nn[1..], m[1..]))
  {
    var m := CidrMask(p, |nn|);
    MaskedEqualSplit(nn, m, x);
    var r := Masked(nn, m);
    assert r[0] == And(nn[0], m[0]) && r[1..] == Masked(nn[1..], m[1..]);
  }

  lemma FullMaskSplit(nn: seq<Byte>, p: nat, x: seq<Byte>)
    requires |nn| == |x| > 0 && 8 <= p <= 8 * |nn|
    ensures MaskedEqual(nn, CidrMask(p, |nn|), x)
            <==> nn[0] == x[0] && MaskedEqual(nn[1..], CidrMask(p - 8, |nn| - 1), x[1..])
    ensures Base(nn, p) == nn[0] * Pow2(8 * (|nn| - 1)) + Base(nn[1..], p - 8)
  {
    var m := CidrMask(p, |nn|);
    assert m[0] == 255 && m[1..] == CidrMask(p - 8, |nn| - 1);
    MaskSplit(nn, p, x);
    FullByte(nn[0]);
    FullByte(x[0]);
  }

  lemma PartialMaskSplit(nn: seq<Byte>, p: nat, x: seq<Byte>)
    requires |nn| == |x| > 0 && p < 8
    ensures MaskedEqual(nn, CidrMask(p, |nn|), x) <==> And(nn[0], MaskByte(p)) == And(x[0], MaskByte(p))
    ensures Base(nn, p) == And(nn[0], MaskByte(p)) * Pow2(8 * (|nn| - 1))
  {
    var m := CidrMask(p, |nn|);
    assert m[0] == MaskByte(p) && m[1..] == CidrMask(0, |nn| - 1);
    MaskSplit(nn, p, x);
    ZeroMask(nn[1..]);
    ZeroMask(x[1..]);
  }

  lemma FullFirstByte(nn: seq<Byte>, p: nat, x: seq<Byte>)
    requires |nn| == |x| > 0 && 8 <= p <= 8 * |nn|
    requires MaskedEqual(nn[1..], CidrMask(p - 8, |nn| - 1), x[1..]) <==> InBlock(nn[1..], p - 8, x[1..])
    requires Base(nn[1..], p - 8) + Pow2(8 * |nn| - p) <= Pow2(8 * (|nn| - 1))
    ensures MaskedEqual(nn, CidrMask(p, |nn|), x) <==> InBlock(nn, p, x)
    ensures Base(nn, p) + Pow2(8 * |nn| - p) <= Pow2(8 * |nn|)
  {
    var base, size, w, t := Base(nn[1..], p - 8), Pow2(8 * |nn| - p), Pow2(8 * (|nn| - 1)), Num(x[1..]);
    assert Base(nn, p) == nn[0] * w + base by {
      FullMaskSplit(nn, p, x);
    }
    assert MaskedEqual(nn, CidrMask(p, |nn|), x) <==> nn[0] == x[0] && base <= t < base + size by {
      FullMaskSplit(nn, p, x);
    }
    assert t < w by {
      NumBound(x[1..]);
    }
    assert Pow2(8 * |nn|) == 256 * w by {
      Pow2Bytes(|nn|);
    }
    BlockInside(nn[0], x[0], w, base, size, t);
  }

  lemma NumHead(x: seq<Byte>, n: nat)
    requires |x| == n > 0
    ensures Num(x) == x[0] * Pow2(8 * (n - 1)) + Num(x[1..])
  {
  }

  lemma PartialSize(n: nat, p: nat)
    requires n > 0 && p < 8
    ensures Pow2(8 * n - p) == Pow2(8 - p) * Pow2(8 * (n - 1))
  {
    var k := 8 - p + 8 * (n - 1);
    assert k == 8 * n - p;
    Pow2Add(8 - p, 8 * (n - 1));
  }

  /** The block is decided by the first byte alone. */
  lemma PartialInterval(nn: seq<Byte>, p: nat, x: seq<Byte>, b: nat, w: nat)
    requires |nn| == |x| > 0 && p < 8 && b + Pow2(8 - p) <= 256
    requires w == Pow2(8 * (|nn| - 1)) && Base(nn, p) == b * w
    ensures InBlock(nn, p, x) <==> b <= x[0] < b + Pow2(8 - p)
    ensures Base(nn, p) + Pow2(8 * |nn| - p) <= 256 * w
  {
    PartialSize(|nn|, p);
    NumHead(x, |nn|);
    NumBound(x[1..]);
    BytesToBlock(x[0], b, Pow2(8 - p), w, Num(x[1..]));
  }

  lemma PartialFirstByte(nn: seq<Byte>, p: nat, x: seq<Byte>)
    requires |nn| == |x| > 0 && p < 8
    ensures MaskedEqual(nn, CidrMask(p, |nn|), x) <==> InBlock(nn, p, x)
    ensures Base(nn, p) + Pow2(8 * |nn| - p) <= Pow2(8 * |nn|)
  {
    var b, w := And(nn[0], MaskByte(p)), Pow2(8 * (|nn| - 1));
    assert Base(nn, p) == b * w && (MaskedEqual(nn, CidrMask(p, |nn|), x) <==> b == And(x[0], MaskByte(p))) by {
      PartialMaskSplit(nn, p, x);
    }
    assert b + Pow2(8 - p) <= 256 && (And(x[0], MaskByte(p)) == b <==> b <= x[0] < b + Pow2(8 - p)) by {
      SameBlock(nn[0], x[0], p);
    }
    assert Pow2(8 * |nn|) == 256 * w by {
      Pow2Bytes(|nn|);
    }
    PartialInterval(nn, p, x, b, w);
  }

  lemma FullByte(x: Byte)
    ensures And(x, 255) == x
  {
    Pow2Small(8);
    AndOnes(x, 8);
  }

  /** With a full first byte: outside the block unless the first bytes agree. */
  lemma BlockInside(n: Byte, x: Byte, w: nat, base: nat, size: nat, t: nat)
    requires base + size <= w && t < w
    ensures n * w + base <= x * w + t < n * w + base + size <==> x == n && base <= t < base + size
    ensures n * w + base + size <= 256 * w
  {
    if x < n {
      MulMono(x + 1, n, w);
      assert (x + 1) * w == x * w + w;
    } else if x > n {
      MulMono(n + 1, x, w);
      assert (n + 1) * w == n * w + w;
    }
    MulMono(n + 1, 256, w);
    assert (n + 1) * w == n * w + w;
  }

  /** With a partial first byte: the byte alone decides. */
  lemma BytesToBlock(x: Byte, b: nat, s: nat, w: nat, t: nat)
    requires t < w && b + s <= 256
    ensures b <= x < b + s <==> b * w <= x * w + t < b * w + s * w
    ensures b * w + s * w <= 256 * w
  {
    assert (b + s) * w == b * w + s * w;
    if x < b {
      MulMono(x + 1, b, w);
      assert (x + 1) * w == x * w + w;
    } else if x >= b + s {
      MulMono(b + s, x, w);
    } else {
      MulMono(b, x, w);
      MulMono(x + 1, b + s, w);
      assert (x + 1) * w == x * w + w;
    }
    MulMono(b + s, 256, w);
  }
}
