/** Version precedence as in section 11 of Semantic Versioning 2.0.0, which decides when a
    permission counts as deprecated. */
module Semver {

  /** A pre-release identifier: numeric, or alphanumeric compared character by character. */
  datatype Identifier = Numeric(n: nat) | Alpha(s: string)

  /** A parsed version; `pre` is empty for a release. */
  datatype Version = Invalid | Version(major: nat, minor: nat, patch: nat, pre: seq<Identifier>)

  function Release(major: nat, minor: nat, patch: nat): Version {
    Version(major, minor, patch, [])
  }

  function CompareNat(a: nat, b: nat): (r: int) {
    if a < b then -1 else if a > b then 1 else 0
  }

  function CompareString(a: string, b: string): (r: int) {
    if a == [] && b == [] then 0
    else if a == [] then -1
    else if b == [] then 1
    else if a[0] != b[0] then if a[0] < b[0] then -1 else 1
    else CompareString(a[1..], b[1..])
  }

  function CompareIdentifier(a: Identifier, b: Identifier): (r: int) {
    match (a, b)
    case (Numeric(m), Numeric(n)) => CompareNat(m, n)
    case (Numeric(_), Alpha(_)) => -1
    case (Alpha(_), Numeric(_)) => 1
    case (Alpha(s), Alpha(t)) => CompareString(s, t)
  }

  /** Field by field; a longer list of equal fields is higher. */
  function CompareFields(a: seq<Identifier>, b: seq<Identifier>): (r: int) {
    if a == [] && b == [] then 0
    else if a == [] then -1
    else if b == [] then 1
    else
      var c := CompareIdentifier(a[0], b[0]);
      if c != 0 then c else CompareFields(a[1..], b[1..])
  }

  /** A release is higher than any of its pre-releases. */
  function ComparePre(a: seq<Identifier>, b: seq<Identifier>): (r: int) {
    if a == [] && b == [] then 0
    else if a == [] then 1
    else if b == [] then -1
    else CompareFields(a, b)
  }

  /** An unparsable version is below every other one. */
  function Compare(a: Version, b: Version): (r: int) {
    match (a, b)
    case (Invalid, Invalid) => 0
    case (Invalid, Version(_, _, _, _)) => -1
    case (Version(_, _, _, _), Invalid) => 1
    case (Version(a1, a2, a3, p), Version(b1, b2, b3, q)) =>
      if CompareNat(a1, b1) != 0 then CompareNat(a1, b1)
      else if CompareNat(a2, b2) != 0 then CompareNat(a2, b2)
      else if CompareNat(a3, b3) != 0 then CompareNat(a3, b3)
      else ComparePre(p, q)
  }

  lemma {:induction false} StringOrder(a: string, b: string, c: string)
    ensures CompareString(a, b) == 0 <==> a == b
    ensures CompareString(a, b) == -CompareString(b, a)
    ensures CompareString(a, b) <= 0 && CompareString(b, c) <= 0 ==> CompareString(a, c) <= 0
  {
    if a != [] && b != [] {
      StringOrder(a[1..], b[1..], if c == [] then [] else c[1..]);
      assert a == [a[0]] + a[1..] && b == [b[0]] + b[1..];
    }
  }

  lemma IdentifierOrder(a: Identifier, b: Identifier, c: Identifier)
    ensures CompareIdentifier(a, b) == 0 <==> a == b
    ensures CompareIdentifier(a, b) == -CompareIdentifier(b, a)
    ensures CompareIdentifier(a, b) <= 0 && CompareIdentifier(b, c) <= 0 ==> CompareIdentifier(a, c) <= 0
  {
    if a.Alpha? && b.Alpha? {
      StringOrder(a.s, b.s, if c.Alpha? then c.s else []);
    }
  }

  lemma {:induction false} FieldsOrder(a: seq<Identifier>, b: seq<Identifier>, c: seq<Identifier>)
    ensures CompareFields(a, b) == 0 <==> a == b
    ensures CompareFields(a, b) == -CompareFields(b, a)
    ensures CompareFields(a, b) <= 0 && CompareFields(b, c) <= 0 ==> CompareFields(a, c) <= 0
  {
    if a != [] && b != [] {
      FieldsOrder(a[1..], b[1..], if c == [] then [] else c[1..]);
      assert a == [a[0]] + a[1..] && b == [b[0]] + b[1..];
      if c == [] {
        IdentifierOrder(a[0], b[0], a[0]);
      } else {
        IdentifierOrder(a[0], b[0], c[0]);
        IdentifierOrder(b[0], c[0], a[0]);
        IdentifierOrder(a[0], c[0], b[0]);
        IdentifierOrder(c[0], a[0], b[0]);
      }
    }
  }

  /** Precedence is a total order. */
  lemma PrecedenceIsTotalOrder(a: Version, b: Version, c: Version)
    ensures Compare(a, b) == 0 <==> a == b
    ensures Compare(a, b) == -Compare(b, a)
    ensures Compare(a, b) <= 0 && Compare(b, c) <= 0 ==> Compare(a, c) <= 0
  {
    if a.Version? && b.Version? {
      FieldsOrder(a.pre, b.pre, if c.Version? then c.pre else []);
    }
  }

  // ---------------------------------------------------------------- what higher means

  /** `s` and `t` agree before `i`, where `s` has the greater character or `t` ends. */
  ghost predicate HigherTextAt(s: string, t: string, i: int) {
    0 <= i <= |t| && i < |s| && s[..i] == t[..i] && (i == |t| || s[i] > t[i])
  }

  /** The first character that differs is greater, or `t` ends first. */
  ghost predicate HigherText(s: string, t: string) {
    exists i :: HigherTextAt(s, t, i)
  }

  /** Numbers count; an alphanumeric identifier is above every numeric one. */
  ghost predicate HigherIdentifier(x: Identifier, y: Identifier) {
    match (x, y)
    case (Numeric(m), Numeric(n)) => m > n
    case (Numeric(_), Alpha(_)) => false
    case (Alpha(_), Numeric(_)) => true
    case (Alpha(s), Alpha(t)) => HigherText(s, t)
  }

  /** `p` and `q` agree before `i`, where `p` is higher or `q` ends. */
  ghost predicate HigherAt(p: seq<Identifier>, q: seq<Identifier>, i: int) {
    0 <= i <= |q| && i < |p| && p[..i] == q[..i] && (i == |q| || HigherIdentifier(p[i], q[i]))
  }

  /** The first identifier that differs is higher, or `q` ends first. */
  ghost predicate HigherFields(p: seq<Identifier>, q: seq<Identifier>) {
    exists i :: HigherAt(p, q, i)
  }

  /** Precedence as section 11 of Semantic Versioning 2.0.0 words it: major, minor and patch
      first; a release is above its pre-releases; pre-releases go by their identifiers. Text
      that is no version is below every version. */
  ghost predicate Higher(a: Version, b: Version) {
    a.Version? && (
      || b.Invalid?
      || a.major > b.major
      || (a.major == b.major && a.minor > b.minor)
      || (a.major == b.major && a.minor == b.minor && a.patch > b.patch)
      || (&& a.major == b.major && a.minor == b.minor && a.patch == b.patch && b.pre != []
          && (a.pre == [] || HigherFields(a.pre, b.pre))))
  }

  lemma HigherTextAtTail(s: string, t: string, i: int)
    requires s != [] && t != [] && s[0] == t[0] && 0 <= i < |s| - 1 && i <= |t| - 1
    ensures HigherTextAt(s[1..], t[1..], i) <==> HigherTextAt(s, t, i + 1)
  {
    assert s[..i + 1] == [s[0]] + s[1..][..i];
    assert t[..i + 1] == [t[0]] + t[1..][..i];
    assert s[1..][..i] == s[..i + 1][1..] && t[1..][..i] == t[..i + 1][1..];
    assert s[1..][i] == s[i + 1];
  }

  lemma SameHeadText(s: string, t: string)
    requires s != [] && t != [] && s[0] == t[0]
    ensures HigherText(s, t) <==> HigherText(s[1..], t[1..])
  {
    if i :| HigherTextAt(s[1..], t[1..], i) {
      HigherTextAtTail(s, t, i);
    }
    if i :| HigherTextAt(s, t, i) {
      assert i > 0;
      HigherTextAtTail(s, t, i - 1);
    }
  }

  lemma {:induction false} TextMeaning(s: string, t: string)
    ensures CompareString(s, t) > 0 <==> HigherText(s, t)
  {
    if s != [] && t == [] {
      assert HigherTextAt(s, t, 0);
    } else if s != [] && t != [] {
      TextMeaning(s[1..], t[1..]);
      if s[0] == t[0] {
        SameHeadText(s, t);
      } else {
        assert s[0] > t[0] ==> HigherTextAt(s, t, 0);
        if i :| HigherTextAt(s, t, i) {
          assert i > 0 ==> s[..i][0] == t[..i][0];
        }
      }
    }
  }

  lemma IdentifierMeaning(x: Identifier, y: Identifier)
    ensures CompareIdentifier(x, y) > 0 <==> HigherIdentifier(x, y)
  {
    if x.Alpha? && y.Alpha? {
      TextMeaning(x.s, y.s);
    }
  }

  lemma {:induction false} FieldsMeaning(p: seq<Identifier>, q: seq<Identifier>)
    ensures CompareFields(p, q) > 0 <==> HigherFields(p, q)
  {
    if p != [] && q == [] {
      assert HigherAt(p, q, 0);
    } else if p != [] && q != [] {
      FieldsMeaning(p[1..], q[1..]);
      IdentifierMeaning(p[0], q[0]);
      IdentifierOrder(p[0], q[0], p[0]);
      if p[0] == q[0] {
        SameHeadFields(p, q);
      } else {
        assert HigherIdentifier(p[0], q[0]) ==> HigherAt(p, q, 0);
        if i :| HigherAt(p, q, i) {
          assert i > 0 ==> p[..i][0] == q[..i][0];
        }
      }
    }
  }

  lemma HigherAtTail(p: seq<Identifier>, q: seq<Identifier>, i: int)
    requires p != [] && q != [] && p[0] == q[0] && 0 <= i < |p| - 1 && i <= |q| - 1
    ensures HigherAt(p[1..], q[1..], i) <==> HigherAt(p, q, i + 1)
  {
    assert p[..i + 1] == [p[0]] + p[1..][..i];
    assert q[..i + 1] == [q[0]] + q[1..][..i];
    assert p[1..][..i] == p[..i + 1][1..] && q[1..][..i] == q[..i + 1][1..];
    assert p[1..][i] == p[i + 1];
  }

  lemma SameHeadFields(p: seq<Identifier>, q: seq<Identifier>)
    requires p != [] && q != [] && p[0] == q[0] && !HigherIdentifier(p[0], q[0])
    ensures HigherFields(p, q) <==> HigherFields(p[1..], q[1..])
  {
    if i :| HigherAt(p[1..], q[1..], i) {
      HigherAtTail(p, q, i);
    }
    if i :| HigherAt(p, q, i) {
      assert i > 0;
      HigherAtTail(p, q, i - 1);
    }
  }

  /** The comparison is the precedence of the standard. */
  lemma PrecedenceMeaning(a: Version, b: Version)
    ensures Compare(a, b) > 0 <==> Higher(a, b)
    ensures Compare(a, b) < 0 <==> Higher(b, a)
    ensures Compare(a, b) == 0 <==> a == b
  {
    if a.Version? && b.Version? {
      FieldsMeaning(a.pre, b.pre);
      FieldsMeaning(b.pre, a.pre);
    }
    PrecedenceIsTotalOrder(a, b, a);
  }
}
