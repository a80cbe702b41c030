/** Object identifiers and their lexicographic order. */
module OidOrder {

  const SUBID_MAX: int := 0xFFFF_FFFF

  type SubId = x: int | 0 <= x <= SUBID_MAX

  type Oid = seq<SubId>

  /** The order behind the comparison operators: first difference decides, a proper prefix is smaller. */
  predicate Less(a: Oid, b: Oid) {
    |b| > 0 && (|a| == 0 || a[0] < b[0] || (a[0] == b[0] && Less(a[1..], b[1..])))
  }

  predicate LessEq(a: Oid, b: Oid) {
    Less(a, b) || a == b
  }

  /** The three-way comparison the map's searches branch on. */
  function Cmp(a: Oid, b: Oid): int {
    if LessEq(a, b) then (if a == b then 0 else -1) else 1
  }

  lemma {:induction false} LessIrreflexive(a: Oid)
    ensures !Less(a, a)
  {
    if |a| > 0 {
      LessIrreflexive(a[1..]);
    }
  }

  lemma {:induction false} LessTransitive(a: Oid, b: Oid, c: Oid)
    requires Less(a, b) && Less(b, c)
    ensures Less(a, c)
  {
    if |a| > 0 && a[0] == b[0] && b[0] == c[0] {
      LessTransitive(a[1..], b[1..], c[1..]);
    }
  }

  lemma {:induction false} LessTotal(a: Oid, b: Oid)
    ensures Less(a, b) || a == b || Less(b, a)
    ensures !(Less(a, b) && Less(b, a))
    ensures Less(a, b) ==> a != b
  {
    if |a| > 0 && |b| > 0 {
      if a[0] == b[0] {
        LessTotal(a[1..], b[1..]);
        if a[1..] == b[1..] {
          assert a == [a[0]] + a[1..];
          assert b == [b[0]] + b[1..];
        }
      }
    }
    LessIrreflexive(a);
  }

  /** The order facts in quantified form, for proofs that keep `Less` itself out of sight. */
  lemma LessOrder()
    ensures forall a: Oid :: !Less(a, a)
    ensures forall a: Oid, b: Oid, c: Oid {:trigger Less(a, b), Less(b, c)} :: Less(a, b) && Less(b, c) ==> Less(a, c)
    ensures forall a: Oid, b: Oid {:trigger Less(a, b)} :: Less(a, b) || a == b || Less(b, a)
  {
    forall a: Oid ensures !Less(a, a) {
      LessIrreflexive(a);
    }
    forall a: Oid, b: Oid, c: Oid | Less(a, b) && Less(b, c) ensures Less(a, c) {
      LessTransitive(a, b, c);
    }
    forall a: Oid, b: Oid ensures Less(a, b) || a == b || Less(b, a) {
      LessTotal(a, b);
    }
  }

  // ---------- common prefixes ----------

  lemma {:induction false} LessPrefix(p: Oid, a: Oid, b: Oid)
    ensures Less(p + a, p + b) == Less(a, b)
  {
    if p == [] {
      assert p + a == a && p + b == b;
    } else {
      assert (p + a)[1..] == p[1..] + a && (p + b)[1..] == p[1..] + b;
      LessPrefix(p[1..], a, b);
    }
  }

  lemma LessHead(c: SubId, a: Oid, d: SubId, b: Oid)
    ensures Less([c] + a, [d] + b) == (c < d || (c == d && Less(a, b)))
  {
    assert ([c] + a)[1..] == a && ([d] + b)[1..] == b;
  }

  lemma PrefixLess(p: Oid, a: Oid)
    requires |a| > 0
    ensures Less(p, p + a)
  {
    assert p + [] == p;
    LessPrefix(p, [], a);
  }

  /** What comes between two identifiers with a common prefix has that prefix. */
  lemma {:induction false} BetweenPrefix(p: Oid, a: Oid, b: Oid, o: Oid)
    requires LessEq(p + a, o) && Less(o, p + b)
    ensures |o| >= |p| && o[..|p|] == p && LessEq(a, o[|p|..]) && Less(o[|p|..], b)
  {
    if p == [] {
      assert p + a == a && p + b == b && o[|p|..] == o;
    } else {
      assert (p + a)[1..] == p[1..] + a && (p + b)[1..] == p[1..] + b;
      assert p + a == [p[0]] + (p[1..] + a);
      assert o == [o[0]] + o[1..];
      BetweenPrefix(p[1..], a, b, o[1..]);
      assert p == [p[0]] + p[1..] && o[..|p|] == [o[0]] + o[1..][..|p[1..]|];
    }
  }

  // ---------- lookup among keys ----------

  /** Position of the last key that is not above `k`, -1 if there is none. */
  function LastNotAbove(keys: seq<Oid>, k: Oid): (i: int)
    ensures -1 <= i < |keys|
  {
    if keys == [] then -1
    else if LessEq(keys[|keys| - 1], k) then |keys| - 1
    else LastNotAbove(keys[..|keys| - 1], k)
  }

  lemma {:induction false} LastNotAboveSpec(keys: seq<Oid>, k: Oid)
    ensures var i := LastNotAbove(keys, k);
      (i >= 0 ==> LessEq(keys[i], k)) && forall j :: i < j < |keys| ==> !LessEq(keys[j], k)
  {
    hide Less;
    if keys != [] && !LessEq(keys[|keys| - 1], k) {
      LastNotAboveSpec(keys[..|keys| - 1], k);
    }
  }

  lemma LastNotAboveMore(keys: seq<Oid>, l: Oid, k: Oid)
    ensures LastNotAbove(keys + [l], k) == if LessEq(l, k) then |keys| else LastNotAbove(keys, k)
  {
    hide Less;
    assert (keys + [l])[..|keys|] == keys;
  }

  /** The element-wise scan the library uses: -1, 0 or 1. */
  method NCompare(a: Oid, b: Oid) returns (c: int)
    ensures c == -1 || c == 0 || c == 1
    ensures c == -1 <==> Less(a, b)
    ensures c == 0 <==> a == b
    ensures c == 1 <==> Less(b, a)
  {
    LessTotal(a, b);
    var n := if |a| < |b| then |a| else |b|;
    var z := 0;
    while z < n
      invariant 0 <= z <= n
      invariant a[..z] == b[..z]
      invariant Less(a, b) <==> Less(a[z..], b[z..])
      invariant Less(b, a) <==> Less(b[z..], a[z..])
    {
      if a[z] < b[z] {
        return -1;
      }
      if a[z] > b[z] {
        return 1;
      }
      assert a[z..][1..] == a[z + 1..] && b[z..][1..] == b[z + 1..];
      z := z + 1;
    }
    if |a| < |b| {
      return -1;
    }
    if |a| > |b| {
      return 1;
    }
    assert a == a[..z] && b == b[..z];
    return 0;
  }
}
