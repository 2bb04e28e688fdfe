/** Precedence of semantic versions: item 11 of Semantic Versioning 2.0.0. */
module Semver {
  import opened Base

  datatype Identifier = Numeric(n: nat) | Alphanumeric(text: string)

  // pre: the pre-release identifiers; [] for a release. metadata does not count.
  datatype Version = Version(major: nat, minor: nat, patch: nat, pre: seq<Identifier>, metadata: string)

  predicate IsPreRelease(v: Version) {
    v.pre != []
  }

  // Numeric identifiers are lower than alphanumeric ones.
  predicate IdLe(x: Identifier, y: Identifier) {
    match (x, y)
    case (Numeric(m), Numeric(n)) => m <= n
    case (Numeric(_), Alphanumeric(_)) => true
    case (Alphanumeric(_), Numeric(_)) => false
    case (Alphanumeric(s), Alphanumeric(t)) => StrLe(s, t)
  }

  // Field by field; when all are equal the longer list is higher.
  predicate PreLe(p: seq<Identifier>, q: seq<Identifier>) {
    p == [] || (q != [] && (if p[0] == q[0] then PreLe(p[1..], q[1..]) else IdLe(p[0], q[0])))
  }

  // a's precedence is at most b's. A release is higher than its pre-releases.
  predicate Le(a: Version, b: Version) {
    if a.major != b.major then a.major < b.major
    else if a.minor != b.minor then a.minor < b.minor
    else if a.patch != b.patch then a.patch < b.patch
    else if a.pre == [] then b.pre == []
    else b.pre == [] || PreLe(a.pre, b.pre)
  }

  predicate GreaterThan(a: Version, b: Version) {
    !Le(a, b)
  }

  predicate SamePrecedence(a: Version, b: Version) {
    a.major == b.major && a.minor == b.minor && a.patch == b.patch && a.pre == b.pre
  }

  lemma IdOrder(x: Identifier, y: Identifier, z: Identifier)
    ensures IdLe(x, y) || IdLe(y, x)
    ensures IdLe(x, y) && IdLe(y, x) ==> x == y
    ensures IdLe(x, y) && IdLe(y, z) ==> IdLe(x, z)
  {
    if x.Alphanumeric? && y.Alphanumeric? {
      StrLeTotal(x.text, y.text);
      if StrLe(x.text, y.text) && StrLe(y.text, x.text) { StrLeAntisymmetric(x.text, y.text); }
      if z.Alphanumeric? && StrLe(x.text, y.text) && StrLe(y.text, z.text) { StrLeTransitive(x.text, y.text, z.text); }
    }
  }

  lemma {:induction false} PreOrder(p: seq<Identifier>, q: seq<Identifier>, r: seq<Identifier>)
    ensures PreLe(p, q) || PreLe(q, p)
    ensures PreLe(p, q) && PreLe(q, p) ==> p == q
    ensures PreLe(p, q) && PreLe(q, r) ==> PreLe(p, r)
  {
    if p != [] && q != [] {
      PreTail(p, q);
      var r' := if r == [] then [] else r[1..];
      PreOrder(p[1..], q[1..], r');
      var z := if r == [] then p[0] else r[0];
      IdOrder(p[0], q[0], z);
      IdOrder(q[0], p[0], z);
    }
  }

  lemma PreTail(p: seq<Identifier>, q: seq<Identifier>)
    requires p != [] && q != []
    ensures p == q <==> p[0] == q[0] && p[1..] == q[1..]
  {
    assert p == [p[0]] + p[1..] && q == [q[0]] + q[1..];
  }

  // Precedence is a total order on versions up to build metadata.
  lemma Precedence(a: Version, b: Version, c: Version)
    ensures Le(a, b) || Le(b, a)
    ensures Le(a, b) && Le(b, a) <==> SamePrecedence(a, b)
    ensures Le(a, b) && Le(b, c) ==> Le(a, c)
  {
    PreOrder(a.pre, b.pre, c.pre);
    hide PreLe;
  }

  lemma PrecedenceReflexive(a: Version)
    ensures Le(a, a)
  {
    Precedence(a, a, a);
  }
}
