/** Which objects a registration reaches, and that it reaches no others. */
module AgentXOwnership {
  import opened OidOrder
  import opened AgentXRegions

  predicate IsEmpty(e: Ent) {
    e.key == e.upper
  }

  /** The objects of [lo, hi) that a registration reaches: all of them, except where the entry found for the object
      starts inside the region and is empty, or where no entry starts at or below the region and others start inside
      it. */
  predicate Reached(t: seq<Ent>, lo: Oid, hi: Oid, o: Oid) {
    && LessEq(lo, o) && Less(o, hi) && GetAffected(t, lo, hi).ok
    && var j := Lower(t, o);
       if Lower(t, lo) < 0 then j < 0 else !(j >= 0 && LessEq(lo, t[j].key) && IsEmpty(t[j]))
  }

  function Target(t: seq<Ent>, reg: Reg, lo: Oid, hi: Oid, o: Oid): seq<Reg> {
    if Reached(t, lo, hi, o) then AddReg(Owner(t, o), reg) else Owner(t, o)
  }

  // ---------- lookup ----------

  lemma LowerSpec(t: seq<Ent>, o: Oid)
    requires Ordered(t)
    ensures var i := Lower(t, o);
      (i >= 0 ==> LessEq(t[i].key, o)) && forall j :: i < j < |t| ==> Less(o, t[j].key)
  {
    hide Less, Keys, LastNotAbove;
    LessOrder();
    LastNotAboveSpec(Keys(t), o);
    assert forall j :: 0 <= j < |t| ==> Keys(t)[j] == t[j].key;
  }

  lemma LowerIs(t: seq<Ent>, i: int, o: Oid)
    requires Ordered(t) && -1 <= i < |t|
    requires i >= 0 ==> LessEq(t[i].key, o)
    requires i + 1 < |t| ==> Less(o, t[i + 1].key)
    ensures Lower(t, o) == i
  {
    hide Less;
    LessOrder();
    LowerSpec(t, o);
  }

  lemma OwnerAppend(d: seq<Ent>, x: Ent, o: Oid)
    ensures Owner(d + [x], o) ==
      if LessEq(x.key, o) then (if x.agentx && Less(o, x.upper) then x.regs else []) else Owner(d, o)
  {
    hide Less, Keys, LastNotAbove;
    LastNotAboveMore(Keys(d), x.key, o);
    assert Keys(d + [x]) == Keys(d) + [x.key];
  }

  /** From the first key of a common suffix on, only the suffix matters. */
  lemma {:induction false} OwnerSuffix(d: seq<Ent>, e: seq<Ent>, rest: seq<Ent>, o: Oid)
    requires |rest| > 0 && LessEq(rest[0].key, o)
    ensures Owner(d + rest, o) == Owner(e + rest, o)
  {
    hide Less;
    var p, x := rest[..|rest| - 1], rest[|rest| - 1];
    assert d + rest == (d + p) + [x] && e + rest == (e + p) + [x];
    OwnerAppend(d + p, x, o);
    OwnerAppend(e + p, x, o);
    if |rest| > 1 && !LessEq(x.key, o) {
      OwnerSuffix(d, e, p, o);
    }
  }

  lemma {:induction false} OwnerPrefix(d: seq<Ent>, rest: seq<Ent>, o: Oid)
    requires forall r :: r in rest ==> Less(o, r.key)
    ensures Owner(d + rest, o) == Owner(d, o)
  {
    hide Less;
    LessOrder();
    if rest == [] {
      assert d + rest == d;
    } else {
      var p, x := rest[..|rest| - 1], rest[|rest| - 1];
      assert d + rest == (d + p) + [x];
      OwnerAppend(d + p, x, o);
      OwnerPrefix(d, p, o);
    }
  }

  /** What lookup finds in a disjoint table from position i up to the next entry. */
  lemma OwnerAt(t: seq<Ent>, i: nat, o: Oid)
    requires Ordered(t) && Disjoint(t) && i < |t| && LessEq(t[i].key, o)
    requires i + 1 < |t| ==> Less(o, t[i + 1].key)
    ensures Lower(t, o) == i
    ensures Owner(t, o) == if t[i].agentx && Less(o, t[i].upper) then t[i].regs else []
  {
    LowerIs(t, i, o);
  }

  // ---------- adding entries ----------

  predicate KeysBelow(d: seq<Ent>, k: Oid) {
    forall e :: e in d ==> Less(e.key, k)
  }

  predicate HasKey(d: seq<Ent>, k: Oid) {
    exists e :: e in d && e.key == k
  }

  lemma {:induction false} AddTaken(t: seq<Ent>, e: Ent)
    requires Ordered(t) && HasKey(t, e.key)
    ensures Add(t, e) == t
  {
    hide Less;
    LessOrder();
    var p, l := t[..|t| - 1], t[|t| - 1];
    if l.key != e.key {
      var x :| x in t && x.key == e.key;
      var j :| 0 <= j < |t| && t[j] == x;
      assert p[j] == x;
      AddTaken(p, e);
    }
  }

  lemma AddAbove(t: seq<Ent>, e: Ent)
    requires KeysBelow(t, e.key)
    ensures Add(t, e) == t + [e]
  {
    hide Less;
    LessOrder();
    assert t != [] ==> t[|t| - 1] in t;
  }

  lemma {:induction false} AddUnder(t: seq<Ent>, rest: seq<Ent>, e: Ent)
    requires forall r :: r in rest ==> Less(e.key, r.key)
    ensures Add(t + rest, e) == Add(t, e) + rest
  {
    hide Less;
    LessOrder();
    if rest == [] {
      assert t + rest == t;
    } else {
      var p, l := rest[..|rest| - 1], rest[|rest| - 1];
      assert (t + rest)[..|t + rest| - 1] == t + p;
      AddUnder(t, p, e);
      assert l in rest;
    }
  }

  lemma {:induction false} AddAllUnder(t: seq<Ent>, rest: seq<Ent>, sp: seq<Ent>)
    requires forall e, r :: e in sp && r in rest ==> Less(e.key, r.key)
    ensures AddAll(t + rest, sp) == AddAll(t, sp) + rest
  {
    if sp != [] {
      AddAllUnder(t, rest, sp[..|sp| - 1]);
      AddUnder(AddAll(t, sp[..|sp| - 1]), rest, sp[|sp| - 1]);
    }
  }

  // ---------- the table so far ----------

  /** `e` ends by `k`, or is an entry that only the new registration owns. */
  predicate Fits(e: Ent, k: Oid, reg: Reg) {
    LessEq(e.upper, k) || (e.agentx && e.regs == [reg])
  }

  /** Disjoint, except that entries owned by `reg` alone may reach into later ones. */
  predicate DisjointBut(t: seq<Ent>, reg: Reg) {
    && (forall i, j :: 0 <= i < j < |t| ==> Fits(t[i], t[j].key, reg))
    && (forall i :: 0 <= i < |t| ==> LessEq(t[i].key, t[i].upper))
  }

  predicate AllFit(d: seq<Ent>, k: Oid, reg: Reg) {
    forall e :: e in d ==> Fits(e, k, reg)
  }

  lemma DisjointAppend(d: seq<Ent>, x: Ent, reg: Reg)
    requires DisjointBut(d, reg) && AllFit(d, x.key, reg) && LessEq(x.key, x.upper)
    ensures DisjointBut(d + [x], reg)
  {
    hide Less;
  }

  lemma DisjointJoin(d: seq<Ent>, rest: seq<Ent>, reg: Reg)
    requires DisjointBut(d, reg) && Ordered(rest) && Disjoint(rest)
    requires |rest| > 0 ==> AllFit(d, rest[0].key, reg)
    ensures DisjointBut(d + rest, reg)
  {
    hide Less;
    LessOrder();
    var u := d + rest;
    forall a, b | 0 <= a < b < |u| ensures Fits(u[a], u[b].key, reg) {
      if a < |d| <= b {
        assert u[a] in d && u[b] == rest[b - |d|];
      } else if |d| <= a {
        assert u[a] == rest[a - |d|] && u[b] == rest[b - |d|];
      }
    }
  }

  /** No entry reaches into a later one or above `k`. */
  predicate Tight(d: seq<Ent>, k: Oid) {
    Disjoint(d) && forall e :: e in d ==> LessEq(e.upper, k)
  }

  lemma TightFits(d: seq<Ent>, k: Oid, reg: Reg)
    requires Tight(d, k)
    ensures DisjointBut(d, reg) && AllFit(d, k, reg)
  {
  }

  lemma TightAppend(d: seq<Ent>, x: Ent)
    requires Tight(d, x.key) && LessEq(x.key, x.upper)
    ensures Tight(d + [x], x.upper)
  {
    hide Less;
    LessOrder();
    forall a | 0 <= a < |d| ensures LessEq(d[a].upper, x.key) {
      assert d[a] in d;
    }
  }

  /** A table cut in two is disjoint exactly if both parts are and the first one ends where the second one starts. */
  lemma TightJoin(d: seq<Ent>, rest: seq<Ent>)
    requires Disjoint(rest) && Ordered(rest)
    ensures Disjoint(d + rest) <==> if rest == [] then Disjoint(d) else Tight(d, rest[0].key)
  {
    hide Less;
    LessOrder();
    var u := d + rest;
    assert forall a :: 0 <= a < |d| ==> u[a] == d[a];
    assert forall b :: 0 <= b < |rest| ==> u[|d| + b] == rest[b];
    if Disjoint(u) && rest != [] {
      forall e | e in d ensures LessEq(e.upper, rest[0].key) {
        var a :| 0 <= a < |d| && d[a] == e;
        assert LessEq(u[a].upper, u[|d|].key);
      }
    }
    if rest != [] && Tight(d, rest[0].key) {
      forall a, b | 0 <= a < b < |u| ensures LessEq(u[a].upper, u[b].key) {
        if a < |d| <= b {
          assert d[a] in d && u[b] == rest[b - |d|];
        } else if |d| <= a {
          assert u[a] == rest[a - |d|] && u[b] == rest[b - |d|];
        }
      }
    }
  }

  /** Below `k`, the finished part `d` of the new table answers every lookup as it should, and it has no key from `k`
      on. */
  ghost predicate Ready(t: seq<Ent>, reg: Reg, lo: Oid, hi: Oid, k: Oid, d: seq<Ent>) {
    && Ordered(d) && KeysBelow(d, k) && DisjointBut(d, reg) && AllFit(d, k, reg)
    && forall o :: Less(o, k) ==> Owner(d, o) == Target(t, reg, lo, hi, o)
  }

  /** The first `i` entries have been dealt with and the region up to `f` is done. */
  ghost predicate Progress(t: seq<Ent>, reg: Reg, lo: Oid, hi: Oid, i: nat, f: Oid, d: seq<Ent>) {
    && i <= |t| && Ordered(d) && Tight(d, f)
    && (forall e :: e in d ==> LessEq(e.key, f))
    && (if i == 0 then |t| > 0 && f == t[0].key else LessEq(t[i - 1].upper, f) && (f == lo || f == t[i - 1].upper))
    && (i < |t| ==> LessEq(f, t[i].key))
    && LessEq(lo, f) && LessEq(f, hi)
    && (HasKey(d, f) <==> i > 0 && t[i - 1].key == f)
    && forall o :: Less(o, f) ==> Owner(d, o) == Target(t, reg, lo, hi, o)
  }

  /** Filling the gap up to `k` with an entry of its own; where the gap's key is taken, the gap stays unowned. */
  lemma FillGap(t: seq<Ent>, reg: Reg, lo: Oid, hi: Oid, i: nat, f: Oid, d: seq<Ent>, k: Oid, u: Oid)
    requires Ordered(t) && Disjoint(t) && GetAffected(t, lo, hi).ok && Lower(t, lo) >= 0
    requires Progress(t, reg, lo, hi, i, f, d)
    requires LessEq(f, k) && LessEq(k, hi) && LessEq(k, u) && (i < |t| ==> LessEq(k, t[i].key))
    ensures f == k && !HasKey(d, f) ==> Ready(t, reg, lo, hi, k, d)
    ensures Less(f, k) ==> Ready(t, reg, lo, hi, k, Add(d, Fresh(reg, f, u)))
  {
    hide Less, GetAffected, Lower, Owner, Target, Add;
    LessOrder();
    if Less(f, k) {
      var x := Fresh(reg, f, u);
      if HasKey(d, f) {
        AddTaken(d, x);
      } else {
        AddAbove(d, x);
        DisjointAppend(d, x, reg);
      }
      forall o | Less(o, k) ensures Owner(Add(d, x), o) == Target(t, reg, lo, hi, o) {
        GapOwner(t, reg, lo, hi, i, f, d, k, u, o);
      }
    }
  }

  lemma GapOwner(t: seq<Ent>, reg: Reg, lo: Oid, hi: Oid, i: nat, f: Oid, d: seq<Ent>, k: Oid, u: Oid, o: Oid)
    requires Ordered(t) && Disjoint(t) && GetAffected(t, lo, hi).ok && Lower(t, lo) >= 0
    requires Progress(t, reg, lo, hi, i, f, d)
    requires Less(f, k) && LessEq(k, hi) && LessEq(k, u) && (i < |t| ==> LessEq(k, t[i].key)) && Less(o, k)
    ensures Owner(if HasKey(d, f) then d else d + [Fresh(reg, f, u)], o) == Target(t, reg, lo, hi, o)
  {
    hide Less, GetAffected, Lower, AddReg, Owner, Target, Reached;
    OwnerAppend(d, Fresh(reg, f, u), o);
    LessTotal(f, o);
    LessTotal(f, k);
    if LessEq(f, o) {
      if Less(f, o) {
        LessTransitive(f, o, k);
      }
      if i < |t| && k != t[i].key {
        LessTransitive(o, k, t[i].key);
      }
      if k != u {
        LessTransitive(o, k, u);
      }
      if k != hi {
        LessTransitive(o, k, hi);
      }
      GapTarget(t, reg, lo, hi, i, f, o);
      if HasKey(d, f) {
        GapUnowned(d, f, o);
      }
    }
  }

  /** Between the end of one entry and the start of the next there is no owner, and the registration reaches such an
      object unless the entry found for it is an empty one inside the region. */
  lemma GapTarget(t: seq<Ent>, reg: Reg, lo: Oid, hi: Oid, i: nat, f: Oid, o: Oid)
    requires Ordered(t) && Disjoint(t) && GetAffected(t, lo, hi).ok && Lower(t, lo) >= 0
    requires 0 < i <= |t| && LessEq(t[i - 1].upper, f) && (f == lo || f == t[i - 1].upper)
    requires LessEq(lo, f) && LessEq(f, o) && Less(o, hi)
    requires i < |t| ==> Less(o, t[i].key)
    ensures Target(t, reg, lo, hi, o) == if t[i - 1].key == f then [] else [reg]
  {
    hide Less, GetAffected, Lower, AddReg;
    LessOrder();
    OwnerAt(t, i - 1, o);
    AddToNone(reg);
  }

  lemma AddToNone(reg: Reg)
    ensures AddReg([], reg) == [reg]
  {
  }

  lemma GapUnowned(d: seq<Ent>, f: Oid, o: Oid)
    requires Ordered(d) && (forall e :: e in d ==> LessEq(e.key, f) && LessEq(e.upper, f)) && LessEq(f, o)
    ensures Owner(d, o) == []
  {
    hide Less, Lower;
    LessOrder();
    var j := Lower(d, o);
    assert j >= 0 ==> d[j] in d;
  }

  // ---------- one affected entry ----------

  ghost predicate Answers(t: seq<Ent>, reg: Reg, lo: Oid, hi: Oid, u: seq<Ent>) {
    Ordered(u) && DisjointBut(u, reg) && forall o :: Owner(u, o) == Target(t, reg, lo, hi, o)
  }

  /** What one of the master's entries owns, and where the registration reaches into it. */
  lemma EntryTarget(t: seq<Ent>, reg: Reg, lo: Oid, hi: Oid, i: nat, o: Oid)
    requires Ordered(t) && Disjoint(t) && GetAffected(t, lo, hi).ok && Lower(t, lo) >= 0
    requires i < |t| && t[i].agentx && LessEq(t[i].key, o) && Less(o, t[i].upper)
    ensures Owner(t, o) == t[i].regs
    ensures Target(t, reg, lo, hi, o) == if LessEq(lo, o) && Less(o, hi) then AddReg(t[i].regs, reg) else t[i].regs
  {
    hide Less, GetAffected, Lower, AddReg;
    LessOrder();
    OwnerAt(t, i, o);
  }

  lemma OrderedAppend(d: seq<Ent>, x: Ent)
    requires Ordered(d) && KeysBelow(d, x.key)
    ensures Ordered(d + [x])
  {
  }

  /** The affected entry lies in what is left of the region. */
  lemma TakeAround(t: seq<Ent>, reg: Reg, lo: Oid, hi: Oid, i: nat, d: seq<Ent>)
    requires Ordered(t) && Disjoint(t) && GetAffected(t, lo, hi).ok && Lower(t, lo) >= 0
    requires i < |t| && t[i].agentx && LessEq(lo, t[i].key) && LessEq(t[i].upper, hi)
    requires Ready(t, reg, lo, hi, t[i].key, d) && Tight(d, t[i].key)
    ensures Progress(t, reg, lo, hi, i + 1, t[i].upper, d + [AddTo(t[i], reg)])
  {
    hide Less, GetAffected, Lower, AddReg, Owner, Target;
    LessOrder();
    var x := AddTo(t[i], reg);
    OrderedAppend(d, x);
    TightAppend(d, x);
    forall o | Less(o, t[i].upper) ensures Owner(d + [x], o) == Target(t, reg, lo, hi, o) {
      OwnerAppend(d, x, o);
      if LessEq(t[i].key, o) {
        EntryTarget(t, reg, lo, hi, i, o);
      }
    }
    assert x in d + [x];
  }

  /** The affected entry starts below the region and ends inside it. */
  lemma TakeTail(t: seq<Ent>, reg: Reg, lo: Oid, hi: Oid, i: nat, d: seq<Ent>)
    requires Ordered(t) && Disjoint(t) && GetAffected(t, lo, hi).ok && Lower(t, lo) >= 0
    requires i < |t| && t[i].agentx && Less(t[i].key, lo) && Less(lo, t[i].upper) && Less(t[i].upper, hi)
    requires Ready(t, reg, lo, hi, t[i].key, d) && Tight(d, t[i].key)
    ensures Progress(t, reg, lo, hi, i + 1, t[i].upper, d + [t[i].(upper := lo)] + [AddTo(t[i], reg).(key := lo)])
  {
    hide Less, GetAffected, Lower, AddReg, Owner, Target;
    LessOrder();
    var x, y := t[i].(upper := lo), AddTo(t[i], reg).(key := lo);
    OrderedAppend(d, x);
    TightAppend(d, x);
    OrderedAppend(d + [x], y);
    TightAppend(d + [x], y);
    forall o | Less(o, t[i].upper) ensures Owner(d + [x] + [y], o) == Target(t, reg, lo, hi, o) {
      OwnerAppend(d, x, o);
      OwnerAppend(d + [x], y, o);
      if LessEq(t[i].key, o) {
        EntryTarget(t, reg, lo, hi, i, o);
      }
    }
  }

  /** The part `d` of the new table answers every lookup below entry `j`, where the region has ended. */
  ghost predicate Settled(t: seq<Ent>, reg: Reg, lo: Oid, hi: Oid, j: nat, d: seq<Ent>) {
    && j <= |t| && Ordered(d) && DisjointBut(d, reg)
    && (j < |t| ==> LessEq(hi, t[j].key) && KeysBelow(d, t[j].key) && AllFit(d, t[j].key, reg))
    && forall o :: (j < |t| ==> Less(o, t[j].key)) ==> Owner(d, o) == Target(t, reg, lo, hi, o)
  }

  lemma Finish(t: seq<Ent>, reg: Reg, lo: Oid, hi: Oid, j: nat, d: seq<Ent>)
    requires Ordered(t) && Disjoint(t) && Settled(t, reg, lo, hi, j, d)
    ensures Answers(t, reg, lo, hi, d + t[j..])
  {
    hide Less, GetAffected, Lower, AddReg, Owner;
    LessOrder();
    var u := d + t[j..];
    DisjointJoin(d, t[j..], reg);
    forall a, b | 0 <= a < b < |u| ensures Less(u[a].key, u[b].key) {
      if a < |d| <= b {
        assert u[a] in d && Less(u[a].key, t[j].key) && u[b] == t[j + (b - |d|)];
      }
    }
    forall o ensures Owner(u, o) == Target(t, reg, lo, hi, o) {
      if j < |t| && LessEq(t[j].key, o) {
        OwnerSuffix(d, t[..j], t[j..], o);
        assert t[..j] + t[j..] == t;
      } else {
        OwnerPrefix(d, t[j..], o);
      }
    }
  }

  /** Above the region, up to the next entry, entry `i` owns what it owned. */
  lemma AboveTarget(t: seq<Ent>, reg: Reg, lo: Oid, hi: Oid, i: nat, o: Oid)
    requires Ordered(t) && Disjoint(t) && i < |t| && t[i].agentx
    requires LessEq(hi, o) && LessEq(t[i].key, o) && (i + 1 < |t| ==> Less(o, t[i + 1].key))
    ensures Target(t, reg, lo, hi, o) == if Less(o, t[i].upper) then t[i].regs else []
  {
    hide Less, GetAffected, Lower, AddReg;
    LessOrder();
    OwnerAt(t, i, o);
  }

  /** The affected entry starts in the region and reaches to its end or beyond. */
  lemma TakeHead(t: seq<Ent>, reg: Reg, lo: Oid, hi: Oid, i: nat, d: seq<Ent>)
    requires Ordered(t) && Disjoint(t) && GetAffected(t, lo, hi).ok && Lower(t, lo) >= 0
    requires i < |t| && t[i].agentx && LessEq(lo, t[i].key) && Less(t[i].key, hi) && LessEq(hi, t[i].upper)
    requires Ready(t, reg, lo, hi, t[i].key, d)
    ensures var x, y := AddTo(t[i], reg).(upper := hi), t[i].(key := hi);
      if i + 1 < |t| && t[i + 1].key == hi then Settled(t, reg, lo, hi, i + 1, d + [x])
      else Settled(t, reg, lo, hi, i + 1, d + [x] + [y])
  {
    hide Less, GetAffected, Lower, AddReg, Owner, Target;
    LessOrder();
    var x, y := AddTo(t[i], reg).(upper := hi), t[i].(key := hi);
    OrderedAppend(d, x);
    DisjointAppend(d, x, reg);
    OrderedAppend(d + [x], y);
    DisjointAppend(d + [x], y, reg);
    forall o | i + 1 < |t| ==> Less(o, t[i + 1].key)
      ensures Less(o, hi) ==> Owner(d + [x], o) == Target(t, reg, lo, hi, o)
      ensures Owner(d + [x] + [y], o) == Target(t, reg, lo, hi, o)
    {
      OwnerAppend(d, x, o);
      OwnerAppend(d + [x], y, o);
      if LessEq(hi, o) {
        AboveTarget(t, reg, lo, hi, i, o);
      } else if LessEq(t[i].key, o) {
        EntryTarget(t, reg, lo, hi, i, o);
      }
    }
  }

  /** The affected entry starts below the region and reaches to its end or beyond. */
  lemma TakeInside(t: seq<Ent>, reg: Reg, lo: Oid, hi: Oid, i: nat, d: seq<Ent>)
    requires Ordered(t) && Disjoint(t) && GetAffected(t, lo, hi).ok && Lower(t, lo) >= 0 && Less(lo, hi)
    requires i < |t| && t[i].agentx && Less(t[i].key, lo) && LessEq(hi, t[i].upper)
    requires Ready(t, reg, lo, hi, t[i].key, d)
    ensures var x, y, z := t[i].(upper := lo), AddTo(t[i], reg).(key := lo, upper := hi), t[i].(key := hi);
      if i + 1 < |t| && t[i + 1].key == hi then Settled(t, reg, lo, hi, i + 1, d + [x] + [y])
      else Settled(t, reg, lo, hi, i + 1, d + [x] + [y] + [z])
  {
    hide Less, GetAffected, Lower, AddReg, Owner, Target;
    LessOrder();
    var x, y, z := t[i].(upper := lo), AddTo(t[i], reg).(key := lo, upper := hi), t[i].(key := hi);
    OrderedAppend(d, x);
    DisjointAppend(d, x, reg);
    OrderedAppend(d + [x], y);
    DisjointAppend(d + [x], y, reg);
    OrderedAppend(d + [x] + [y], z);
    DisjointAppend(d + [x] + [y], z, reg);
    forall o | i + 1 < |t| ==> Less(o, t[i + 1].key)
      ensures Less(o, hi) ==> Owner(d + [x] + [y], o) == Target(t, reg, lo, hi, o)
      ensures Owner(d + [x] + [y] + [z], o) == Target(t, reg, lo, hi, o)
    {
      OwnerAppend(d, x, o);
      OwnerAppend(d + [x], y, o);
      OwnerAppend(d + [x] + [y], z, o);
      if LessEq(hi, o) {
        AboveTarget(t, reg, lo, hi, i, o);
      } else if LessEq(t[i].key, o) {
        EntryTarget(t, reg, lo, hi, i, o);
      }
    }
  }

  /** No affected entry is left: the rest of the region becomes an entry of its own. */
  lemma TakeEnd(t: seq<Ent>, reg: Reg, lo: Oid, hi: Oid, i: nat, f: Oid, d: seq<Ent>)
    requires Ordered(t) && Disjoint(t) && GetAffected(t, lo, hi).ok && Lower(t, lo) >= 0
    requires Progress(t, reg, lo, hi, i, f, d) && 0 < i && Less(t[i - 1].key, hi) && (i < |t| ==> LessEq(hi, t[i].key))
    ensures Settled(t, reg, lo, hi, i, if Less(f, hi) then Add(d, Fresh(reg, f, hi)) else d)
  {
    hide Less, GetAffected, Lower, AddReg, Owner, Target, Add;
    LessOrder();
    var d' := if Less(f, hi) then Add(d, Fresh(reg, f, hi)) else d;
    FillGap(t, reg, lo, hi, i, f, d, hi, hi);
    assert forall e :: e in d' ==> LessEq(e.upper, hi) by {
      if Less(f, hi) {
        AddKeeps(d, Fresh(reg, f, hi));
      }
    }
    forall o | LessEq(hi, o) && (i < |t| ==> Less(o, t[i].key)) ensures Owner(d', o) == Target(t, reg, lo, hi, o) {
      GapUnowned(d', hi, o);
      BeyondTarget(t, reg, lo, hi, i, o);
    }
  }

  lemma BeyondTarget(t: seq<Ent>, reg: Reg, lo: Oid, hi: Oid, i: nat, o: Oid)
    requires Ordered(t) && Disjoint(t) && 0 < i <= |t| && LessEq(t[i - 1].upper, hi)
    requires LessEq(hi, o) && (i < |t| ==> Less(o, t[i].key))
    ensures Target(t, reg, lo, hi, o) == []
  {
    hide Less, GetAffected, Lower, AddReg;
    LessOrder();
    OwnerAt(t, i - 1, o);
  }

  lemma {:induction false} AddKeeps(d: seq<Ent>, x: Ent)
    ensures forall e :: e in Add(d, x) ==> e in d || e == x
  {
    if d != [] {
      AddKeeps(d[..|d| - 1], x);
    }
  }
}
