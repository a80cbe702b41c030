/** Two small tables on which the registration goes wrong, worked out. */
module AgentXExamples {
  import opened OidOrder
  import opened AgentXRegions
  import opened AgentXOwnership
  import opened AgentXRegistration
  import opened AgentXUnregistration

  // Regions over one-component identifiers, written by their bounds alone.

  lemma Single(a: SubId, b: SubId)
    ensures Less([a], [b]) == (a < b)
  {
  }

  /** A region that ends where a node ends leaves an empty node behind. */
  lemma SplitLeavesEmpty(a: Reg, b: Reg)
    requires !Precedes(b, a)
    ensures Register([Ent([1], [10], true, [a])], b, [5], [10]) ==
      [Ent([1], [5], true, [a]), Ent([5], [10], true, [a, b]), Ent([10], [10], true, [a])]
  {
    hide Less;
    forall x: SubId, y: SubId ensures Less([x], [y]) == (x < y) {
      Single(x, y);
    }
    var t := [Ent([1], [10], true, [a])];
    assert t[..0] == [];
    assert Lower(t, [5]) == 0;
    assert SkipBelow(t, 0, [5]) == 0;
    assert GetAffected(t, [5], [10]) == Affected(true, 0, 1);
    var x, y, z := Ent([1], [5], true, [a]), Ent([5], [10], true, [a, b]), Ent([10], [10], true, [a]);
    var s := Scan(t, [5], [10], [], -1, false);
    assert AddReg([a], b) == [a, b] by {
      assert [a][1..] == [];
    }
    assert Step(s, 0, b, [5], [10]) == Inside(s, 0, b);
    assert s.t[0 := x] == [x];
    assert [] + [y] + [z] == [y, z];
    assert Step(s, 0, b, [5], [10]) == Scan([x], [5], [10], [y, z], -1, true);
    assert Walk(s, 0, 1, b, [5], [10]) == Scan([x], [5], [10], [y, z], -1, true);
    assert [y, z][..1] == [y];
    assert [y][..0] == [];
    assert AddAll([x], [y]) == Add(AddAll([x], []), y);
    assert AddAll([x], [y, z]) == Add(AddAll([x], [y]), z);
    assert Add([x], y) == [x, y];
    assert Add([x, y], z) == [x, y, z];
  }

  /** A region that starts where such an empty node stands is not entered at all. */
  lemma RefusedAtEmpty(a: Reg, b: Reg, c: Reg)
    ensures var t := [Ent([1], [5], true, [a]), Ent([5], [10], true, [a, b]), Ent([10], [10], true, [a])];
      Ordered(t) && Disjoint(t) && Register(t, c, [10], [12]) == t && Owner(t, [11]) == []
  {
    hide Less;
    forall x: SubId, y: SubId ensures Less([x], [y]) == (x < y) {
      Single(x, y);
    }
    var t := [Ent([1], [5], true, [a]), Ent([5], [10], true, [a, b]), Ent([10], [10], true, [a])];
    assert Lower(t, [10]) == 2 && Lower(t, [11]) == 2;
    assert SkipBelow(t, 2, [10]) == 3;
  }

  function Between(j: Reg, k: Reg, x: Reg): seq<Ent> {
    [Ent([2], [3], true, [j, x]), Ent([3], [8], true, [x]), Ent([5], [8], true, [k, x]), Ent([8], [9], true, [k])]
  }

  /** A registration over two nodes leaves its provisional entry [3, 8) reaching over the second one. */
  lemma ProvisionalStays(j: Reg, k: Reg, x: Reg)
    requires !Precedes(x, j) && !Precedes(x, k)
    ensures Register([Ent([2], [3], true, [j]), Ent([5], [9], true, [k])], x, [2], [8]) == Between(j, k, x)
    ensures Overhangs([Ent([2], [3], true, [j]), Ent([5], [9], true, [k])], [2], [8])
  {
    hide Less;
    forall a: SubId, b: SubId ensures Less([a], [b]) == (a < b) {
      Single(a, b);
    }
    var j0, k0 := Ent([2], [3], true, [j]), Ent([5], [9], true, [k]);
    var j1, p := Ent([2], [3], true, [j, x]), Ent([3], [8], true, [x]);
    var k1, k2 := Ent([5], [8], true, [k, x]), Ent([8], [9], true, [k]);
    var g := Ent([3], [5], true, [x]);
    AppendOne(j, x);
    AppendOne(k, x);
    ProvisionalScan(j0, k0, x);
    ProvisionalTable(j1, p, k1, k2, g);
    ProvisionalOverhangs(j0, k0, x);
  }

  lemma ProvisionalTable(a: Ent, b: Ent, c: Ent, d: Ent, g: Ent)
    requires [a.key, b.key, c.key, d.key, g.key] == [[2], [3], [5], [8], [3]]
    ensures AddAll([a, c], [b, d, g]) == [a, b, c, d]
  {
    hide Less, AddAll, Add;
    forall x: SubId, y: SubId ensures Less([x], [y]) == (x < y) {
      Single(x, y);
    }
    assert a.key == [2] && b.key == [3] && c.key == [5] && d.key == [8] && g.key == [3];
    AddEach([a, c], b, d, g);
    AddUnder([a], [c], b);
    AddAbove([a], b);
    assert [a] + [c] == [a, c] && [a] + [b] + [c] == [a, b, c];
    AddAbove([a, b, c], d);
    assert [a, b, c] + [d] == [a, b, c, d];
    assert [a, b, c, d][1] == b;
    AddTaken([a, b, c, d], g);
  }

  lemma AppendOne(a: Reg, b: Reg)
    requires !Precedes(b, a)
    ensures AddReg([a], b) == [a, b]
  {
    assert [a][1..] == [];
  }

  lemma AddEach(t: seq<Ent>, a: Ent, b: Ent, c: Ent)
    ensures AddAll(t, [a, b, c]) == Add(Add(Add(t, a), b), c)
  {
    assert [a, b, c][..2] == [a, b] && [a, b][..1] == [a];
    assert AddAll(t, [a]) == Add(AddAll(t, []), a);
    assert AddAll(t, [a, b]) == Add(AddAll(t, [a]), b);
  }

  lemma ProvisionalScan(j0: Ent, k0: Ent, x: Reg)
    requires j0.key == [2] && j0.upper == [3] && k0.key == [5] && k0.upper == [9] && j0.agentx && k0.agentx
    ensures GetAffected([j0, k0], [2], [8]) == Affected(true, 0, 2)
    ensures Walk(Scan([j0, k0], [2], [8], [], -1, false), 0, 2, x, [2], [8]) ==
      Scan([AddTo(j0, x), AddTo(k0.(upper := [8]), x)], [3], [8],
           [Fresh(x, [3], [8]), k0.(key := [8]), Fresh(x, [3], [5])], 0, true)
  {
    hide Less, AddReg;
    forall a: SubId, b: SubId ensures Less([a], [b]) == (a < b) {
      Single(a, b);
    }
    var t := [j0, k0];
    LowerIs(t, 0, [2]);
    assert SkipBelow(t, 0, [2]) == 0;
    assert Below(t, 2, [8]) == 2 && Below(t, 1, [8]) == 2;
    var s0 := Scan(t, [2], [8], [], -1, false);
    var s1 := Scan([AddTo(j0, x), k0], [3], [8], [Fresh(x, [3], [8])], 0, false);
    assert Step(s0, 0, x, [2], [8]) == s1 by {
      assert t[0 := AddTo(j0, x)] == s1.t;
      assert [] + [Fresh(x, [3], [8])] == s1.sp;
    }
    assert Step(s1, 1, x, [2], [8]) == Head(s1, 1, x);
    assert s1.t[1 := AddTo(k0.(upper := [8]), x)] == [AddTo(j0, x), AddTo(k0.(upper := [8]), x)];
  }

  lemma SecondTable(a: Ent, b: Ent, c: Ent, d: Ent, e: Ent, f: Ent)
    requires [a.key, b.key, c.key, d.key, e.key, f.key] == [[2], [3], [4], [5], [7], [8]]
    ensures AddAll([a, b, d, f], [c, e]) == [a, b, c, d, e, f]
  {
    hide Less;
    forall x: SubId, y: SubId ensures Less([x], [y]) == (x < y) {
      Single(x, y);
    }
    assert [c, e][..1] == [c];
    assert AddAll([a, b, d, f], [c]) == Add(AddAll([a, b, d, f], []), c);
    assert [a, b, d, f][..3] == [a, b, d] && [a, b, d][..2] == [a, b];
    assert a.key == [2] && b.key == [3] && c.key == [4] && d.key == [5] && e.key == [7] && f.key == [8];
    assert Add([a, b], c) == [a, b, c];
    assert Add([a, b, d, f], c) == [a, b, c, d, f];
    assert [a, b, c, d, f][..4] == [a, b, c, d];
    assert Add([a, b, c, d], e) == [a, b, c, d, e];
  }

  /** It is the last affected entry, with a gap below it, that reaches above the region. */
  lemma ProvisionalOverhangs(j0: Ent, k0: Ent, x: Reg)
    requires j0.key == [2] && j0.upper == [3] && k0.key == [5] && k0.upper == [9] && j0.agentx && k0.agentx
    ensures Overhangs([j0, k0], [2], [8])
  {
    hide Less, AddReg;
    forall a: SubId, b: SubId ensures Less([a], [b]) == (a < b) {
      Single(a, b);
    }
    ProvisionalScan(j0, k0, x);
    LowerIs([j0, k0], 0, [2]);
  }

  // What a second registration, of [4, 7), makes of that table.

  function Final(j: Reg, k: Reg, x: Reg, y: Reg): seq<Ent> {
    [Ent([2], [3], true, [j, x]), Ent([3], [4], true, [x]), Ent([4], [7], true, [x, y]), Ent([5], [8], true, [k, x]),
     Ent([7], [8], true, [x]), Ent([8], [9], true, [k])]
  }

  lemma SecondRegistration(j: Reg, k: Reg, x: Reg, y: Reg)
    requires !Precedes(y, x)
    ensures Register(Between(j, k, x), y, [4], [7]) == Final(j, k, x, y)
  {
    hide Less, AddAll;
    forall a: SubId, b: SubId ensures Less([a], [b]) == (a < b) {
      Single(a, b);
    }
    var t, u := Between(j, k, x), Final(j, k, x, y);
    LowerIs(t, 1, [4]);
    assert SkipBelow(t, 1, [4]) == 1;
    assert Below(t, 3, [7]) == 3 && Below(t, 2, [7]) == 3;
    AppendOne(x, y);
    var s := Scan(t, [4], [7], [], -1, false);
    assert Step(s, 1, y, [4], [7]) == Inside(s, 1, y);
    assert t[1 := u[1]] == [u[0], u[1], u[3], u[5]];
    assert [] + [u[2]] + [u[4]] == [u[2], u[4]];
    SecondTable(u[0], u[1], u[2], u[3], u[4], u[5]);
  }

  /** In that table a second registration, of [4, 7), does not become an owner of 5, and object 7 loses an owner. */
  lemma SecondRegistrationMisses(j: Reg, k: Reg, x: Reg, y: Reg)
    requires !Precedes(y, x)
    ensures var t, u := Between(j, k, x), Register(Between(j, k, x), y, [4], [7]);
      Owner(t, [5]) == Owner(u, [5]) == [k, x] && Owner(t, [7]) == [k, x] && Owner(u, [7]) == [x]
  {
    hide Less, Register;
    forall a: SubId, b: SubId ensures Less([a], [b]) == (a < b) {
      Single(a, b);
    }
    SecondRegistration(j, k, x, y);
    LowerIs(Between(j, k, x), 2, [5]);
    LowerIs(Between(j, k, x), 2, [7]);
    LowerIs(Final(j, k, x, y), 4, [7]);
    LowerIs(Final(j, k, x, y), 3, [5]);
  }
}
