/** When a registration reaches its whole region, and how taking it back restores every owner list. */
module AgentXUnregistration {
  import opened OidOrder
  import opened AgentXRegions
  import opened AgentXOwnership
  import opened AgentXRegistration

  // ---------- when a registration reaches all of its region ----------

  /** Every entry in the way is the master's, and either an entry starts at or below the region and none inside it is
      empty, or no entry starts below the end of the region. */
  predicate Reachable(t: seq<Ent>, lo: Oid, hi: Oid) {
    && GetAffected(t, lo, hi).ok
    && if Lower(t, lo) < 0 then forall e :: e in t ==> LessEq(hi, e.key)
       else forall e :: e in t && LessEq(lo, e.key) && Less(e.key, hi) ==> !IsEmpty(e)
  }

  lemma ReachableReached(t: seq<Ent>, lo: Oid, hi: Oid, o: Oid)
    requires Ordered(t) && Reachable(t, lo, hi) && LessEq(lo, o) && Less(o, hi)
    ensures Reached(t, lo, hi, o)
  {
    hide Less, GetAffected, Lower;
    LessOrder();
    LowerSpec(t, o);
  }

  /** An object of the region that the registration misses. */
  lemma Missed(t: seq<Ent>, lo: Oid, hi: Oid) returns (o: Oid)
    requires Ordered(t) && Less(lo, hi) && !Reachable(t, lo, hi)
    ensures LessEq(lo, o) && Less(o, hi) && !Reached(t, lo, hi, o)
  {
    hide Less, GetAffected, Lower;
    LessOrder();
    o := lo;
    if GetAffected(t, lo, hi).ok {
      var i :| 0 <= i < |t| && Less(t[i].key, hi) && (Lower(t, lo) < 0 || (LessEq(lo, t[i].key) && IsEmpty(t[i])));
      o := t[i].key;
      LowerSpec(t, lo);
      LowerIs(t, i, o);
    }
  }

  lemma {:induction false} AddedDiffers(l: seq<Reg>, r: Reg)
    ensures |AddReg(l, r)| == |l| + 1
  {
    if l != [] && !Precedes(r, l[0]) {
      AddedDiffers(l[1..], r);
    }
  }

  /** The registration becomes an owner of its whole region exactly if the table lets it. */
  lemma RegisterWholeRegion(t: seq<Ent>, reg: Reg, lo: Oid, hi: Oid)
    requires Ordered(t) && Disjoint(t) && Less(lo, hi)
    ensures (forall o :: LessEq(lo, o) && Less(o, hi) ==>
                           Owner(Register(t, reg, lo, hi), o) == AddReg(Owner(t, o), reg))
      <==> Reachable(t, lo, hi)
  {
    hide Less, GetAffected, Lower, Owner, Register, AddReg, Reachable, Reached;
    RegisterOwners(t, reg, lo, hi);
    if Reachable(t, lo, hi) {
      forall o | LessEq(lo, o) && Less(o, hi)
        ensures Owner(Register(t, reg, lo, hi), o) == AddReg(Owner(t, o), reg)
      {
        ReachableReached(t, lo, hi, o);
      }
    } else {
      var o := Missed(t, lo, hi);
      AddedDiffers(Owner(t, o), reg);
      assert Owner(Register(t, reg, lo, hi), o) == Target(t, reg, lo, hi, o) == Owner(t, o);
    }
  }

  // ---------- unregistration ----------

  function Expand(e: Ent, u: Oid): Ent {
    if LessEq(e.key, u) && LessEq(e.upper, u) then e.(upper := u) else e
  }

  /** The pass over the context: the entries that stay, and which of them is the last one of the master's. */
  datatype Sweep = Sweep(out: seq<Ent>, last: int)

  /** Whether node `e` continues node `l`. The program asks whether both hold one registration object, and nodes hold
      copies, so that equal registrations need not be one object: `covers` decides about that as well as about the
      joint of the two nodes. */
  predicate Continues(l: Ent, e: Ent, covers: (Reg, Oid) -> bool) {
    && |l.regs| == 1 && |e.regs| == 1 && l.upper == e.key && l.regs[0] == e.regs[0] && covers(e.regs[0], e.key)
  }

  function SweepOne(s: Sweep, x: Ent, reg: Reg, covers: (Reg, Oid) -> bool): (s': Sweep)
    requires s.last < |s.out|
    ensures s'.last < |s'.out|
  {
    var e := x.(regs := DropReg(x.regs, reg));
    if !x.agentx then Sweep(s.out + [x], s.last)
    else if e.regs == [] then s
    else if s.last >= 0 && Continues(s.out[s.last], e, covers) then
      s.(out := s.out[s.last := Expand(s.out[s.last], e.upper)])
    else Sweep(s.out + [e], |s.out|)
  }

  function SweepAll(t: seq<Ent>, reg: Reg, covers: (Reg, Oid) -> bool): (s: Sweep)
    ensures s.last < |s.out|
  {
    if t == [] then Sweep([], -1)
    else SweepOne(SweepAll(t[..|t| - 1], reg, covers), t[|t| - 1], reg, covers)
  }

  function Unregister(t: seq<Ent>, reg: Reg, covers: (Reg, Oid) -> bool): seq<Ent> {
    SweepAll(t, reg, covers).out
  }

  /** What stays is ordered and disjoint. */
  predicate Kept(s: Sweep) {
    Ordered(s.out) && Disjoint(s.out) && s.last < |s.out| && (s.last >= 0 ==> s.out[s.last].agentx)
  }

  predicate EndsBelow(s: Sweep, k: Oid) {
    forall e :: e in s.out ==> Less(e.key, k) && LessEq(e.upper, k)
  }

  lemma EndsBelowAt(s: Sweep, k: Oid, i: nat)
    requires EndsBelow(s, k) && i < |s.out|
    ensures Less(s.out[i].key, k)
  {
    assert s.out[i] in s.out;
  }

  /** Only the entry that comes last can end where the next one starts. */
  lemma ContinuesLast(s: Sweep, k: Oid)
    requires Kept(s) && EndsBelow(s, k) && s.last >= 0 && s.out[s.last].upper == k
    ensures s.last == |s.out| - 1
  {
    hide Less;
    LessOrder();
    if s.last < |s.out| - 1 {
      EndsBelowAt(s, k, s.last + 1);
    }
  }

  lemma KeptFurther(s: Sweep, x: Ent, reg: Reg, covers: (Reg, Oid) -> bool)
    requires Kept(s) && EndsBelow(s, x.key) && LessEq(x.key, x.upper)
    ensures Kept(SweepOne(s, x, reg, covers))
  {
    hide Less, DropReg;
    LessOrder();
    var s' := SweepOne(s, x, reg, covers);
    if s'.last == s.last && |s'.out| == |s.out| && s' != s {
      ContinuesLast(s, x.key);
    }
  }

  lemma EndsBelowFurther(s: Sweep, x: Ent, reg: Reg, covers: (Reg, Oid) -> bool, k: Oid)
    requires Kept(s) && EndsBelow(s, x.key) && EndsBelow(s, k) && Less(x.key, k) && Fits(x, k, reg)
    ensures EndsBelow(SweepOne(s, x, reg, covers), k)
  {
    hide Less;
  }

  /** An entry that ends where a node with the same owner starts takes over what that node owns. */
  lemma MergedOwner(out: seq<Ent>, x: Ent, o: Oid)
    requires |out| > 0 && var l := out[|out| - 1]; l.agentx && LessEq(l.key, l.upper) && l.upper == x.key
    requires x.agentx && LessEq(x.key, x.upper)
    ensures var l := out[|out| - 1];
      Owner(out[|out| - 1 := Expand(l, x.upper)], o) ==
        if LessEq(x.key, o) then (if Less(o, x.upper) then l.regs else []) else Owner(out, o)
  {
    hide Less, Owner;
    LessOrder();
    var p, l := out[..|out| - 1], out[|out| - 1];
    assert out == p + [l] && out[|out| - 1 := Expand(l, x.upper)] == p + [Expand(l, x.upper)];
    OwnerAppend(p, l, o);
    OwnerAppend(p, Expand(l, x.upper), o);
  }

  /** One entry of the pass: lookups in what stays find the old owners without `reg`. */
  lemma SweptOwner(s: Sweep, d: seq<Ent>, x: Ent, reg: Reg, covers: (Reg, Oid) -> bool, o: Oid)
    requires Kept(s) && EndsBelow(s, x.key) && LessEq(x.key, x.upper)
    requires Owner(s.out, o) == DropReg(Owner(d, o), reg)
    ensures Owner(SweepOne(s, x, reg, covers).out, o) == DropReg(Owner(d + [x], o), reg)
  {
    hide Less, DropReg, Owner;
    LessOrder();
    var e := x.(regs := DropReg(x.regs, reg));
    OwnerAppend(d, x, o);
    DropNone(reg);
    var s' := SweepOne(s, x, reg, covers);
    if s' == s {
      if LessEq(x.key, o) {
        Passed(s.out, x.key, o);
      }
    } else if |s'.out| == |s.out| {
      ContinuesLast(s, x.key);
      MergedOwner(s.out, x, o);
    } else {
      OwnerAppend(s.out, x, o);
      OwnerAppend(s.out, e, o);
    }
  }

  lemma DropNone(reg: Reg)
    ensures DropReg([], reg) == []
  {
  }

  /** Above the end of every entry nothing is owned. */
  lemma Passed(out: seq<Ent>, k: Oid, o: Oid)
    requires (forall e :: e in out ==> LessEq(e.upper, k)) && LessEq(k, o)
    ensures Owner(out, o) == []
  {
    hide Less, Lower;
    LessOrder();
    var i := Lower(out, o);
    assert i >= 0 ==> out[i] in out;
  }

  /** The pass over the first entries of a table in which only entries owned by `reg` alone reach into later ones. */
  lemma {:induction false} SweepOwners(t: seq<Ent>, n: nat, reg: Reg, covers: (Reg, Oid) -> bool)
    requires Ordered(t) && DisjointBut(t, reg) && n <= |t|
    ensures Kept(SweepAll(t[..n], reg, covers))
    ensures forall j :: n <= j < |t| ==> EndsBelow(SweepAll(t[..n], reg, covers), t[j].key)
    ensures forall o :: Owner(SweepAll(t[..n], reg, covers).out, o) == DropReg(Owner(t[..n], o), reg)
  {
    hide Less, DropReg, Owner, Kept, EndsBelow, SweepOne, Fits;
    if n == 0 {
      SweepNone(reg, covers, t);
    } else {
      var d, x := t[..n - 1], t[n - 1];
      assert t[..n][..n - 1] == d && t[..n] == d + [x];
      SweepOwners(t, n - 1, reg, covers);
      var s := SweepAll(d, reg, covers);
      assert SweepAll(t[..n], reg, covers) == SweepOne(s, x, reg, covers);
      KeptFurther(s, x, reg, covers);
      forall j | n <= j < |t| ensures EndsBelow(SweepOne(s, x, reg, covers), t[j].key) {
        EndsBelowFurther(s, x, reg, covers, t[j].key);
      }
      forall o ensures Owner(SweepOne(s, x, reg, covers).out, o) == DropReg(Owner(d + [x], o), reg) {
        SweptOwner(s, d, x, reg, covers, o);
      }
    }
  }

  lemma SweepNone(reg: Reg, covers: (Reg, Oid) -> bool, t: seq<Ent>)
    ensures Kept(SweepAll(t[..0], reg, covers))
    ensures forall k :: EndsBelow(SweepAll(t[..0], reg, covers), k)
    ensures forall o :: Owner(SweepAll(t[..0], reg, covers).out, o) == DropReg(Owner(t[..0], o), reg)
  {
    forall o ensures Owner([], o) == [] {
      NoOwner(o);
    }
  }

  /** Unregistering takes the entry out of every owner list and changes nothing else, whether or not neighbours
      merge. */
  lemma UnregisterOwners(t: seq<Ent>, reg: Reg, covers: (Reg, Oid) -> bool)
    requires Ordered(t) && DisjointBut(t, reg)
    ensures Ordered(Unregister(t, reg, covers)) && Disjoint(Unregister(t, reg, covers))
    ensures forall o :: Owner(Unregister(t, reg, covers), o) == DropReg(Owner(t, o), reg)
  {
    hide Less, DropReg, Owner, SweepAll, DisjointBut;
    SweepOwners(t, |t|, reg, covers);
    assert t[..|t|] == t;
  }

  /** Registering and unregistering again restores the owners of every object and leaves a disjoint table. */
  lemma RegisterUnregister(t: seq<Ent>, reg: Reg, lo: Oid, hi: Oid, covers: (Reg, Oid) -> bool)
    requires Ordered(t) && Disjoint(t) && forall e :: e in t ==> reg !in e.regs
    ensures var u := Unregister(Register(t, reg, lo, hi), reg, covers);
      Ordered(u) && Disjoint(u) && forall o :: Owner(u, o) == Owner(t, o)
  {
    hide Less, AddReg, DropReg, Owner, Register, Unregister, DisjointBut, Reached;
    RegisterOwners(t, reg, lo, hi);
    UnregisterOwners(Register(t, reg, lo, hi), reg, covers);
    forall o ensures Owner(Unregister(Register(t, reg, lo, hi), reg, covers), o) == Owner(t, o) {
      NotOwner(t, reg, o);
      DropAdded(Owner(t, o), reg);
      DropAbsent(Owner(t, o), reg);
    }
  }

  lemma NotOwner(t: seq<Ent>, reg: Reg, o: Oid)
    requires forall e :: e in t ==> reg !in e.regs
    ensures reg !in Owner(t, o)
  {
    hide Less, Lower;
    var i := Lower(t, o);
    assert i >= 0 ==> t[i] in t;
  }

  lemma {:induction false} DropAbsent(l: seq<Reg>, r: Reg)
    requires r !in l
    ensures DropReg(l, r) == l
  {
    if l != [] {
      DropAbsent(l[1..], r);
    }
  }
}
