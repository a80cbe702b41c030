/** The discrete order of identifiers of bounded length: immediate successor and predecessor. */
module OidNeighbours {
  import opened OidOrder

  const MAX_OID_LEN: nat := 128

  predicate Bounded(o: Oid) {
    |o| <= MAX_OID_LEN
  }

  function Fill(n: nat): (o: Oid)
    ensures |o| == n && forall i :: 0 <= i < n ==> o[i] == SUBID_MAX
  {
    if n == 0 then [] else [SUBID_MAX] + Fill(n - 1)
  }

  /** The greatest identifier of bounded length. */
  function Top(): Oid {
    Fill(MAX_OID_LEN)
  }

  /** Nothing of bounded length lies between `a` and `b`. */
  ghost predicate Adjacent(a: Oid, b: Oid) {
    Less(a, b) && forall x :: Bounded(x) ==> !(Less(a, x) && Less(x, b))
  }

  // ---------- the two ways to be adjacent ----------

  lemma {:induction false} AppendZero(o: Oid, x: Oid)
    ensures Less(o, o + [0])
    ensures Less(o, x) ==> LessEq(o + [0], x)
  {
    if o == [] {
      assert o + [0] == [0];
      if x != [] && x[0] == 0 {
        assert x == [0] + x[1..] && (x[1..] == [] || Less([], x[1..]));
      }
    } else {
      assert (o + [0])[1..] == o[1..] + [0];
      if x != [] {
        AppendZero(o[1..], x[1..]);
        assert o + [0] == [o[0]] + (o[1..] + [0]) && x == [x[0]] + x[1..];
      } else {
        AppendZero(o[1..], []);
      }
    }
  }

  lemma {:induction false} FillGreatest(n: nat, x: Oid)
    requires |x| <= n
    ensures !Less(Fill(n), x)
  {
    if x != [] {
      FillGreatest(n - 1, x[1..]);
      assert Fill(n)[1..] == Fill(n - 1);
    }
  }

  /** Behind `p`, `v` and a full tail comes `p` with `v + 1`. */
  lemma CarryOver(p: Oid, v: SubId, n: nat, x: Oid)
    requires v < SUBID_MAX
    ensures Less(p + ([v] + Fill(n)), p + [v + 1])
    ensures |x| <= |p| + 1 + n && Less(p + ([v] + Fill(n)), x) ==> LessEq(p + [v + 1], x)
  {
    hide Less;
    var low, high := [v] + Fill(n), [v + 1];
    assert high + [] == high;
    LessHead(v, Fill(n), v + 1, []);
    LessPrefix(p, low, high);
    LessTotal(p + high, x);
    if |x| <= |p| + 1 + n && Less(p + low, x) && Less(x, p + high) {
      BetweenPrefix(p, low, high, x);
      assert x == p + x[|p|..];
      LessPrefix(p, low, x[|p|..]);
      NothingBetween(v, n, x[|p|..]);
    }
  }

  lemma NothingBetween(v: SubId, n: nat, y: Oid)
    requires v < SUBID_MAX && |y| <= 1 + n
    ensures !(Less([v] + Fill(n), y) && Less(y, [v + 1]))
  {
    if y != [] {
      FillGreatest(n, y[1..]);
      assert ([v] + Fill(n))[1..] == Fill(n);
    }
  }

  lemma CarryAdjacent(p: Oid, v: SubId)
    requires |p| < MAX_OID_LEN && v < SUBID_MAX
    ensures Adjacent(p + ([v] + Fill(MAX_OID_LEN - 1 - |p|)), p + [v + 1])
  {
    hide Less;
    var n := MAX_OID_LEN - 1 - |p|;
    var a, b := p + ([v] + Fill(n)), p + [v + 1];
    CarryOver(p, v, n, []);
    forall x | Bounded(x) ensures !(Less(a, x) && Less(x, b)) {
      CarryOver(p, v, n, x);
      LessTotal(b, x);
    }
  }

  // ---------- the operations ----------

  /** The identifier that follows; a greatest one follows itself. */
  method Successor(o: Oid) returns (r: Oid)
    requires Bounded(o)
    ensures Bounded(r)
    ensures if o == Top() then r == o else Adjacent(o, r)
  {
    r := o;
    if |o| == MAX_OID_LEN {
      var i: int := MAX_OID_LEN - 1;
      if o[i] == SUBID_MAX {
        i := MAX_OID_LEN - 2;
        while i >= 0 && o[i] == SUBID_MAX
          invariant -1 <= i <= MAX_OID_LEN - 2
          invariant forall j :: i < j < MAX_OID_LEN ==> o[j] == SUBID_MAX
        {
          i := i - 1;
        }
        if i >= 0 {
          r := o[..i + 1];
          r := r[i := r[i] + 1];
        }
      } else {
        r := r[i := r[i] + 1];
      }
      SuccessorBumps(o, i, r);
    } else {
      r := r + [0];
      forall x ensures Less(o, r) && !(Less(o, x) && Less(x, r)) {
        AppendZero(o, x);
        LessTotal(r, x);
      }
      assert |Top()| != |o|;
    }
  }

  lemma SuccessorBumps(o: Oid, i: int, r: Oid)
    requires |o| == MAX_OID_LEN && -1 <= i < MAX_OID_LEN
    requires forall j :: i < j < MAX_OID_LEN ==> o[j] == SUBID_MAX
    requires i >= 0 ==> o[i] < SUBID_MAX && r == o[..i] + [o[i] + 1]
    requires i < 0 ==> r == o
    ensures if o == Top() then r == o else Adjacent(o, r)
  {
    if i >= 0 {
      assert o == o[..i] + ([o[i]] + Fill(MAX_OID_LEN - 1 - i));
      CarryAdjacent(o[..i], o[i]);
      assert Top()[i] == SUBID_MAX;
    } else {
      assert o == Top();
    }
  }

  /** The identifier that precedes; the empty one precedes itself. */
  method Predecessor(o: Oid) returns (r: Oid)
    requires Bounded(o)
    ensures Bounded(r)
    ensures if o == [] then r == o else Adjacent(r, o)
  {
    r := o;
    if |o| == 0 {
      return;
    }
    if o[|o| - 1] == 0 {
      r := o[..|o| - 1];
      assert o == r + [0];
      forall x ensures Less(r, o) && !(Less(r, x) && Less(x, o)) {
        AppendZero(r, x);
        LessTotal(o, x);
      }
      return;
    }
    var p, v := o[..|o| - 1], o[|o| - 1] - 1;
    r := p + [v];
    var i := |o|;
    while i < MAX_OID_LEN
      invariant |o| <= i <= MAX_OID_LEN && r == p + ([v] + Fill(i - |o|))
    {
      FillMore(i - |o|);
      r := r + [SUBID_MAX];
      assert r == p + ([v] + (Fill(i - |o|) + [SUBID_MAX]));
      i := i + 1;
    }
    assert o == p + [v + 1];
    CarryAdjacent(p, v);
  }

  lemma FillMore(n: nat)
    ensures Fill(n) + [SUBID_MAX] == Fill(n + 1)
  {
  }

  // ---------- what follows from adjacency ----------

  /** Immediate neighbours determine each other: predecessor and successor undo each other away from the ends. */
  lemma NeighboursUnique(a: Oid, b: Oid, c: Oid)
    requires Bounded(a) && Bounded(b) && Bounded(c)
    ensures Adjacent(a, b) && Adjacent(a, c) ==> b == c
    ensures Adjacent(a, c) && Adjacent(b, c) ==> a == b
  {
    LessTotal(b, c);
    LessTotal(a, b);
  }

  /** Searching on above the predecessor of a bound, the bound excluded, covers exactly what lies from the bound on. */
  lemma ResumeAbove(a: Oid, b: Oid, x: Oid)
    requires Adjacent(a, b) && Bounded(x)
    ensures Less(a, x) <==> LessEq(b, x)
  {
    hide Less;
    LessOrder();
  }
}
