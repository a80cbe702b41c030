/** The registration loop, connected to what its table answers. */
module AgentXRegistration {
  import opened OidOrder
  import opened AgentXRegions
  import opened AgentXOwnership

  // ---------- the affected entries ----------

  lemma {:induction false} SkipBelowSpec(t: seq<Ent>, i: nat, lo: Oid)
    requires i <= |t|
    ensures var j := SkipBelow(t, i, lo);
      (forall k :: i <= k < j ==> LessEq(t[k].upper, lo)) && (j < |t| ==> Less(lo, t[j].upper))
    decreases |t| - i
  {
    hide Less;
    LessOrder();
    if i < |t| && LessEq(t[i].upper, lo) {
      SkipBelowSpec(t, i + 1, lo);
    }
  }

  lemma {:induction false} BelowSpec(t: seq<Ent>, i: nat, hi: Oid)
    requires i <= |t|
    ensures forall k :: i <= k < Below(t, i, hi) ==> Less(t[k].key, hi) && t[k].agentx
    ensures var e := Below(t, i, hi); e < |t| && Less(t[e].key, hi) ==> !t[e].agentx
    decreases |t| - i
  {
    hide Less;
    if i < |t| && Less(t[i].key, hi) && t[i].agentx {
      BelowSpec(t, i + 1, hi);
    }
  }

  /** The region, the table and the affected entries of an accepted registration with an entry at or below its start. */
  ghost predicate Accepted(t: seq<Ent>, lo: Oid, hi: Oid) {
    Ordered(t) && Disjoint(t) && Less(lo, hi) && GetAffected(t, lo, hi).ok && Lower(t, lo) >= 0
  }

  lemma AffectedSpec(t: seq<Ent>, lo: Oid, hi: Oid)
    requires Accepted(t, lo, hi)
    ensures var a := GetAffected(t, lo, hi);
      && (forall k :: a.first <= k < a.last ==> Less(t[k].key, hi) && t[k].agentx)
      && (a.last < |t| ==> LessEq(hi, t[a.last].key))
      && (a.first < |t| ==> Less(lo, t[a.first].upper))
      && (a.first > 0 ==> LessEq(t[a.first - 1].upper, lo))
      && (a.first + 1 < |t| ==> Less(lo, t[a.first + 1].key))
      && (if a.first == 0 then |t| > 0 && LessEq(t[0].key, lo) else true)
      && (forall k :: 0 <= k < a.last ==> Less(t[k].key, hi))
  {
    hide Less, Below, SkipBelow, Lower;
    LessOrder();
    var i := Lower(t, lo);
    LowerSpec(t, lo);
    SkipBelowSpec(t, i, lo);
    BelowSpec(t, SkipBelow(t, i, lo), hi);
  }

  /** Whether a foreign entry is in the way: one that starts below the end of the region and starts or ends above its
      start. With no entry at or below the region, none is looked for. */
  ghost predicate Free(t: seq<Ent>, lo: Oid, hi: Oid) {
    Lower(t, lo) < 0 || forall e :: e in t && Less(e.key, hi) && (Less(lo, e.key) || Less(lo, e.upper)) ==> e.agentx
  }

  lemma FirstAffected(t: seq<Ent>, lo: Oid, hi: Oid)
    requires Ordered(t) && Disjoint(t) && Lower(t, lo) >= 0
    ensures var i := GetAffected(t, lo, hi).first;
      forall k :: 0 <= k < |t| ==> (i <= k <==> Less(lo, t[k].key) || Less(lo, t[k].upper))
  {
    hide Less, SkipBelow, Below, Lower;
    LessOrder();
    var i := SkipBelow(t, Lower(t, lo), lo);
    LowerSpec(t, lo);
    SkipBelowSpec(t, Lower(t, lo), lo);
    forall k | 0 <= k < |t| ensures i <= k <==> Less(lo, t[k].key) || Less(lo, t[k].upper) {
      FirstAffectedAt(t, lo, i, k);
    }
  }

  lemma FirstAffectedAt(t: seq<Ent>, lo: Oid, i: nat, k: nat)
    requires Ordered(t) && Disjoint(t) && 0 <= Lower(t, lo) <= i <= |t| && k < |t|
    requires LessEq(t[Lower(t, lo)].key, lo) && (forall j :: Lower(t, lo) < j < |t| ==> Less(lo, t[j].key))
    requires (forall j :: Lower(t, lo) <= j < i ==> LessEq(t[j].upper, lo)) && (i < |t| ==> Less(lo, t[i].upper))
    ensures i <= k <==> Less(lo, t[k].key) || Less(lo, t[k].upper)
  {
    hide Less, Lower;
    LessOrder();
    var l := Lower(t, lo);
    if k < i {
      assert LessEq(t[k].key, t[k].upper);
      if k < l {
        assert LessEq(t[k].upper, t[l].key);
      }
    }
  }

  /** A registration is refused exactly if a foreign entry is in the way. */
  lemma RefusedByForeign(t: seq<Ent>, lo: Oid, hi: Oid)
    requires Ordered(t) && Disjoint(t)
    ensures GetAffected(t, lo, hi).ok <==> Free(t, lo, hi)
  {
    if Lower(t, lo) >= 0 {
      FirstAffected(t, lo, hi);
      RefusedFrom(t, lo, hi);
    }
  }

  lemma RefusedFrom(t: seq<Ent>, lo: Oid, hi: Oid)
    requires Ordered(t) && Lower(t, lo) >= 0
    ensures var a := GetAffected(t, lo, hi);
      a.ok <==> forall k :: a.first <= k < |t| && Less(t[k].key, hi) ==> t[k].agentx
  {
    hide Less, SkipBelow, Below, Lower;
    LessOrder();
    BelowSpec(t, SkipBelow(t, Lower(t, lo), lo), hi);
  }

  lemma PrefixBounds(t: seq<Ent>, i: nat, lo: Oid)
    requires Ordered(t) && Disjoint(t) && i <= |t| && (i > 0 ==> LessEq(t[i - 1].upper, lo))
    ensures Ordered(t[..i]) && Tight(t[..i], lo) && forall e :: e in t[..i] ==> LessEq(e.key, lo)
    ensures i < |t| ==> Tight(t[..i], t[i].key) && forall e :: e in t[..i] ==> Less(e.key, t[i].key)
    ensures HasKey(t[..i], lo) <==> i > 0 && t[i - 1].key == lo
  {
    hide Less;
    LessOrder();
    forall e | e in t[..i]
      ensures LessEq(e.key, lo) && LessEq(e.upper, lo)
      ensures i < |t| ==> Less(e.key, t[i].key) && LessEq(e.upper, t[i].key)
      ensures e.key == lo ==> t[i - 1].key == lo
    {
      var j :| 0 <= j < i && t[j] == e;
      assert LessEq(t[j].key, t[i - 1].key) && LessEq(t[i - 1].key, t[i - 1].upper);
    }
    if i > 0 && t[i - 1].key == lo {
      assert t[..i][i - 1] in t[..i];
    }
  }

  /** Before the loop: the entries below the first affected one are the finished part. */
  lemma Start(t: seq<Ent>, reg: Reg, lo: Oid, hi: Oid)
    requires Accepted(t, lo, hi)
    ensures var i := GetAffected(t, lo, hi).first;
      && Tight(t[..i], lo)
      && if i < |t| && Less(t[i].key, lo) then Ready(t, reg, lo, hi, t[i].key, t[..i]) && Tight(t[..i], t[i].key)
         else Progress(t, reg, lo, hi, i, lo, t[..i])
  {
    AffectedSpec(t, lo, hi);
    hide Less, GetAffected, Lower, AddReg, Owner, Target, Tight, Disjoint, DisjointBut, AllFit, HasKey;
    var i := GetAffected(t, lo, hi).first;
    PrefixBounds(t, i, lo);
    if i < |t| && Less(t[i].key, lo) {
      TightFits(t[..i], t[i].key, reg);
      forall o | Less(o, t[i].key) ensures Owner(t[..i], o) == Target(t, reg, lo, hi, o) {
        LessTransitive(o, t[i].key, lo);
        StartOwner(t, reg, lo, hi, i, o);
      }
    } else {
      if i < |t| {
        LessTotal(t[i].key, lo);
      }
      forall o | Less(o, lo) ensures Owner(t[..i], o) == Target(t, reg, lo, hi, o) {
        if i < |t| && lo != t[i].key {
          LessTransitive(o, lo, t[i].key);
        }
        StartOwner(t, reg, lo, hi, i, o);
      }
    }
  }

  lemma StartOwner(t: seq<Ent>, reg: Reg, lo: Oid, hi: Oid, i: nat, o: Oid)
    requires Ordered(t) && i <= |t| && Less(o, lo) && (i < |t| ==> Less(o, t[i].key))
    ensures Owner(t[..i], o) == Target(t, reg, lo, hi, o)
  {
    hide Less, GetAffected, Lower, AddReg, Owner;
    LessOrder();
    assert t[..i] + t[i..] == t;
    assert forall r :: r in t[i..] ==> exists j :: i <= j < |t| && t[j] == r;
    OwnerPrefix(t[..i], t[i..], o);
  }

  // ---------- the loop's state ----------

  /** The entry the loop sets aside for what is left of the region. */
  function Provisional(reg: Reg, f: Oid, lo: Oid, hi: Oid): Ent {
    if Less(f, hi) then Fresh(reg, f, hi) else Fresh(reg, lo, hi)
  }

  /** After `i` entries the scan has rewritten `done` of them and set aside `sp` and the provisional entry; `d` is what
      adding `sp` to `done` will give. */
  ghost predicate Linked(t: seq<Ent>, reg: Reg, lo: Oid, hi: Oid, i: nat, s: Scan, done: seq<Ent>, sp: seq<Ent>,
                         d: seq<Ent>) {
    && 0 < i <= |t| && |done| == i && Less(t[i - 1].key, hi)
    && s.t == done + t[i..] && s.sp == sp + [Provisional(reg, s.lo, lo, hi)] && s.hi == hi && !s.stop && s.last == i - 1
    && AddAll(done, sp) == d && (i < |t| ==> KeysBelow(sp, t[i].key))
    && HasKey(d, lo) && (done[i - 1].upper == s.lo || HasKey(d, done[i - 1].upper))
    && Progress(t, reg, lo, hi, i, s.lo, d)
  }

  lemma AddAllMore(t: seq<Ent>, sp: seq<Ent>, e: Ent)
    ensures AddAll(t, sp + [e]) == Add(AddAll(t, sp), e)
  {
    hide Less, Add;
    assert (sp + [e])[..|sp|] == sp;
  }

  /** Entries set aside earlier go below the entry at hand and whatever follows it. */
  lemma AddAllMid(done: seq<Ent>, e: Ent, rest: seq<Ent>, sp: seq<Ent>)
    requires KeysBelow(sp, e.key) && KeysAbove(rest, e.key)
    ensures AddAll(done + [e] + rest, sp) == AddAll(done, sp) + [e] + rest
  {
    hide Less, Add, AddAll;
    LessOrder();
    AddAllUnder(done, [e] + rest, sp);
    assert done + [e] + rest == done + ([e] + rest);
    assert AddAll(done, sp) + [e] + rest == AddAll(done, sp) + ([e] + rest);
  }

  predicate KeysAbove(rest: seq<Ent>, k: Oid) {
    forall r :: r in rest ==> Less(k, r.key)
  }

  lemma SuffixAbove(t: seq<Ent>, i: nat, k: Oid)
    requires Ordered(t) && i <= |t| && (i < |t| ==> Less(k, t[i].key))
    ensures KeysAbove(t[i..], k)
  {
    hide Less;
    LessOrder();
    forall r | r in t[i..] ensures Less(k, r.key) {
      var j :| i <= j < |t| && t[j] == r;
    }
  }

  /** Adding an entry for the gap below `e`, or having it refused because the gap's key is taken. */
  function Filled(reg: Reg, f: Oid, u: Oid, k: Oid, d: seq<Ent>): seq<Ent> {
    if f == k then d else Add(d, Fresh(reg, f, u))
  }

  lemma AddFilled(reg: Reg, f: Oid, u: Oid, d: seq<Ent>, e: Ent, rest: seq<Ent>)
    requires LessEq(f, e.key) && Ordered(d + [e] + rest) && KeysAbove(rest, e.key)
    ensures Add(d + [e] + rest, Fresh(reg, f, u)) == Filled(reg, f, u, e.key, d) + [e] + rest
  {
    hide Less, Add;
    LessOrder();
    var x := Fresh(reg, f, u);
    if f == e.key {
      assert e in d + [e] + rest;
      AddTaken(d + [e] + rest, x);
    } else {
      AddUnder(d, [e] + rest, x);
      assert d + [e] + rest == d + ([e] + rest);
      assert Add(d, x) + [e] + rest == Add(d, x) + ([e] + rest);
    }
  }

  lemma OrderedAround(d: seq<Ent>, e: Ent, rest: seq<Ent>)
    requires Ordered(d) && KeysBelow(d, e.key) && KeysAbove(rest, e.key) && Ordered(rest)
    ensures Ordered(d + [e] + rest)
  {
    hide Less;
    LessOrder();
    var u := d + [e] + rest;
    forall a, b | 0 <= a < b < |u| ensures Less(u[a].key, u[b].key) {
      assert a < |d| ==> u[a] in d;
      assert b > |d| ==> u[b] in rest && u[b] == rest[b - |d| - 1];
      assert a > |d| ==> u[a] == rest[a - |d| - 1];
    }
  }

  /** The finished part once the gap below entry `i` has been dealt with. */
  lemma FilledReady(t: seq<Ent>, reg: Reg, lo: Oid, hi: Oid, i: nat, f: Oid, d: seq<Ent>, u: Oid)
    requires Accepted(t, lo, hi) && i < |t| && Progress(t, reg, lo, hi, i, f, d)
    requires LessEq(t[i].key, hi) && LessEq(t[i].key, u)
    ensures var d2 := Filled(reg, f, u, t[i].key, d);
      && Ready(t, reg, lo, hi, t[i].key, d2) && (forall e :: e in d2 ==> e in d || e == Fresh(reg, f, u))
      && (forall e :: e in d ==> e in d2) && (HasKey(d2, f) || f == t[i].key)
  {
    hide Less, GetAffected, Lower, Owner, Target, Add, Disjoint;
    FillGap(t, reg, lo, hi, i, f, d, t[i].key, u);
    LessTotal(f, t[i].key);
    if f == t[i].key {
      assert !HasKey(d, f) by {
        hide HasKey;
        if i > 0 && t[i - 1].key == f {
          LessIrreflexive(f);
        }
      }
    } else {
      AddKeeps(d, Fresh(reg, f, u));
      AddHas(d, Fresh(reg, f, u));
    }
  }

  /** What fills the gap reaches above entry i only if it is given a later end than that entry's start. */
  lemma FilledTight(t: seq<Ent>, reg: Reg, lo: Oid, hi: Oid, i: nat, f: Oid, d: seq<Ent>, u: Oid)
    requires i < |t| && Progress(t, reg, lo, hi, i, f, d) && LessEq(t[i].key, u)
    ensures var k := t[i].key;
      Tight(Filled(reg, f, u, k, d), k) <==> u == k || f == k || HasKey(d, f)
  {
    hide Less, Owner, Target, Add, Disjoint;
    LessOrder();
    var k, x := t[i].key, Fresh(reg, f, u);
    if f != k {
      if HasKey(d, f) {
        AddTaken(d, x);
      } else {
        AddAbove(d, x);
        TightAppend(d, x);
        assert x in d + [x];
      }
    }
  }

  lemma {:induction false} AddHas(d: seq<Ent>, x: Ent)
    ensures HasKey(Add(d, x), x.key)
    ensures forall e :: e in d ==> e in Add(d, x)
  {
    if d == [] {
      assert x in [x];
    } else if d[|d| - 1].key == x.key {
      assert d[|d| - 1] in d;
    } else if Less(d[|d| - 1].key, x.key) {
      assert x in d + [x];
    } else {
      AddHas(d[..|d| - 1], x);
      var e :| e in Add(d[..|d| - 1], x) && e.key == x.key;
      assert e in Add(d, x);
    }
  }

  // ---------- one step of the loop ----------

  lemma CoversEmpty(t: seq<Ent>, i: nat, f: Oid, hi: Oid)
    requires i < |t| && LessEq(f, t[i].key) && Less(t[i].key, hi)
    ensures Covers(t[i].key, t[i].upper, f, hi) ==> t[i].key == f && LessEq(hi, t[i].upper)
    ensures Covers(f, hi, t[i].key, t[i].upper) <==> LessEq(t[i].upper, hi)
  {
    LessOrder();
    if InSubtree(f, t[i].key) {
      SubtreeAbove(f, t[i].key);
    }
  }

  lemma {:induction false} SubtreeAbove(o: Oid, root: Oid)
    requires InSubtree(o, root)
    ensures Less(root, o)
  {
    if root != [] {
      assert o[0] == o[..|root|][0] == root[0];
      assert o[1..][..|root| - 1] == o[..|root|][1..] == root[1..];
      SubtreeAbove(o[1..], root[1..]);
    }
  }

  /** The scan after an entry that lies in what is left of the region. */
  lemma AroundScan(t: seq<Ent>, reg: Reg, lo: Oid, hi: Oid, i: nat, s: Scan, done: seq<Ent>, sp: seq<Ent>)
    requires i < |t| && 0 < i == |done| && s.t == done + t[i..] && s.last == i - 1 && s.hi == hi && !s.stop
    requires LessEq(s.lo, t[i].key) && Less(t[i].key, hi) && LessEq(t[i].upper, hi)
    requires s.sp == sp + [Fresh(reg, s.lo, hi)]
    requires !Covers(t[i].key, t[i].upper, s.lo, hi)
    ensures var e := t[i];
      var p, gap := Fresh(reg, s.lo, e.key), Fresh(reg, done[i - 1].upper, e.key);
      Step(s, i, reg, lo, hi) ==
        Scan(done + [AddTo(e, reg)] + t[i + 1..], e.upper, hi,
             sp + [p] + (if s.lo == e.key || gap == p then [] else [gap]) + [Provisional(reg, e.upper, lo, hi)],
             i, false)
  {
    hide Less, AddReg, InSubtree;
    CoversEmpty(t, i, s.lo, hi);
    assert s.t[i] == t[i] && s.t[i - 1] == done[i - 1];
    assert s.t[i := AddTo(t[i], reg)] == done + [AddTo(t[i], reg)] + t[i + 1..];
    assert s.sp[|s.sp| - 1 := Fresh(reg, s.lo, t[i].key)] == sp + [Fresh(reg, s.lo, t[i].key)];
    assert sp + [Fresh(reg, s.lo, t[i].key)] + [] == sp + [Fresh(reg, s.lo, t[i].key)];
  }

  /** Adding what was set aside, gap entry included, to the rewritten entries. */
  lemma AroundAdds(reg: Reg, f: Oid, done: seq<Ent>, sp: seq<Ent>, d: seq<Ent>, x: Ent, gap: Ent, with: bool)
    requires AddAll(done, sp) == d && KeysBelow(sp, x.key) && LessEq(f, x.key)
    requires Ordered(d + [x]) && Ordered(Filled(reg, f, x.key, x.key, d) + [x])
    requires with ==> HasKey(Filled(reg, f, x.key, x.key, d), gap.key)
    ensures AddAll(done + [x], sp + [Fresh(reg, f, x.key)] + if with then [gap] else [])
         == Filled(reg, f, x.key, x.key, d) + [x]
  {
    hide Less, Add, AddAll, AddReg;
    var p, d2 := Fresh(reg, f, x.key), Filled(reg, f, x.key, x.key, d);
    AddAllMid(done, x, [], sp);
    assert done + [x] + [] == done + [x] && d + [x] + [] == d + [x] && d2 + [x] + [] == d2 + [x];
    AddAllMore(done + [x], sp, p);
    AddFilled(reg, f, x.key, d, x, []);
    if with {
      AddAllMore(done + [x], sp + [p], gap);
      var e :| e in d2 && e.key == gap.key;
      assert e in d2 + [x];
      AddTaken(d2 + [x], gap);
    } else {
      assert sp + [p] + [] == sp + [p];
    }
  }

  lemma NextAround(t: seq<Ent>, reg: Reg, lo: Oid, hi: Oid, i: nat, s: Scan, done: seq<Ent>, sp: seq<Ent>, d: seq<Ent>)
    returns (sp': seq<Ent>)
    requires Accepted(t, lo, hi) && Linked(t, reg, lo, hi, i, s, done, sp, d)
    requires i < |t| && t[i].agentx && Less(t[i].key, hi) && LessEq(t[i].upper, hi)
    requires !Covers(t[i].key, t[i].upper, s.lo, hi)
    ensures Linked(t, reg, lo, hi, i + 1, Step(s, i, reg, lo, hi), done + [AddTo(t[i], reg)], sp',
                   Filled(reg, s.lo, t[i].key, t[i].key, d) + [AddTo(t[i], reg)])
  {
    hide Less, AddReg, GetAffected, Lower, Covers, Add, AddAll, Owner, Target, Step, Disjoint;
    var e, f, x := t[i], s.lo, AddTo(t[i], reg);
    var p, d2, gap := Fresh(reg, f, e.key), Filled(reg, f, e.key, e.key, d), Fresh(reg, done[i - 1].upper, e.key);
    LessOrder();
    FilledReady(t, reg, lo, hi, i, f, d, e.key);
    FilledTight(t, reg, lo, hi, i, f, d, e.key);
    OrderedAppend(d2, x);
    OrderedAppend(d, x);
    AroundScan(t, reg, lo, hi, i, s, done, sp);
    var with := !(f == e.key || gap == p);
    AroundAdds(reg, f, done, sp, d, x, gap, with);
    sp' := sp + [p] + if with then [gap] else [];
    TakeAround(t, reg, lo, hi, i, d2);
  }

  /** Adding the part of an entry above the region: refused exactly when the next entry starts there. */
  lemma AddUpperPart(d: seq<Ent>, y: Ent, rest: seq<Ent>)
    requires KeysBelow(d, y.key) && Ordered(d + rest)
    requires |rest| > 0 ==> LessEq(y.key, rest[0].key)
    ensures Add(d + rest, y) == (if |rest| > 0 && rest[0].key == y.key then d else d + [y]) + rest
  {
    hide Less, Add;
    LessOrder();
    if |rest| > 0 && rest[0].key == y.key {
      assert (d + rest)[|d|] == rest[0];
      assert rest[0] in d + rest;
      AddTaken(d + rest, y);
    } else {
      forall r | r in rest ensures Less(y.key, r.key) {
        var j :| 0 <= j < |rest| && rest[j] == r;
        assert (d + rest)[|d|] == rest[0] && (d + rest)[|d| + j] == r;
      }
      AddUnder(d, rest, y);
      AddAbove(d, y);
    }
  }

  /** The scan ends at an entry that reaches to the end of the region or beyond. */
  lemma HeadScan(t: seq<Ent>, reg: Reg, lo: Oid, hi: Oid, i: nat, s: Scan, done: seq<Ent>)
    requires i < |t| && i == |done| && s.t == done + t[i..] && s.last < |s.t| && s.hi == hi && !s.stop
    requires LessEq(s.lo, t[i].key) && Less(t[i].key, hi) && LessEq(hi, t[i].upper)
    requires s.lo == t[i].key || Less(hi, t[i].upper)
    ensures var e := t[i];
      var s' := Step(s, i, reg, lo, hi);
      && s'.stop && s'.t == done + [AddTo(e, reg).(upper := hi)] + t[i + 1..]
      && s'.sp == s.sp + [e.(key := hi)] + if s.lo == e.key then [] else [Fresh(reg, s.lo, e.key)]
  {
    hide Less, AddReg, InSubtree;
    LessOrder();
    CoversEmpty(t, i, s.lo, hi);
    var e := t[i];
    assert s.t[i] == e;
    assert s.t[i := AddTo(e, reg).(upper := hi)] == done + [AddTo(e, reg).(upper := hi)] + t[i + 1..];
    assert s.sp + [e.(key := hi)] + [] == s.sp + [e.(key := hi)];
  }

  /** Entry i finishes the region: with everything set aside added, the table answers every lookup as it should. */
  lemma HeadAnswers(t: seq<Ent>, reg: Reg, lo: Oid, hi: Oid, i: nat, d2: seq<Ent>, u: seq<Ent>)
    requires Accepted(t, lo, hi) && i < |t| && t[i].agentx
    requires LessEq(lo, t[i].key) && Less(t[i].key, hi) && LessEq(hi, t[i].upper)
    requires Ready(t, reg, lo, hi, t[i].key, d2)
    requires var x := AddTo(t[i], reg).(upper := hi);
      u == (if i + 1 < |t| && t[i + 1].key == hi then d2 + [x] else d2 + [x] + [t[i].(key := hi)]) + t[i + 1..]
    ensures Answers(t, reg, lo, hi, u)
  {
    hide Less, GetAffected, Lower, AddReg, Owner, Target, Add, Disjoint;
    TakeHead(t, reg, lo, hi, i, d2);
    Finish(t, reg, lo, hi, i + 1,
           if i + 1 < |t| && t[i + 1].key == hi then d2 + [AddTo(t[i], reg).(upper := hi)]
           else d2 + [AddTo(t[i], reg).(upper := hi)] + [t[i].(key := hi)]);
  }

  /** Such a table is disjoint exactly if what was set aside below entry i does not reach into it. */
  lemma HeadDisjoint(t: seq<Ent>, reg: Reg, hi: Oid, i: nat, d2: seq<Ent>, u: seq<Ent>)
    requires Ordered(t) && Disjoint(t) && i < |t| && Less(t[i].key, hi) && LessEq(hi, t[i].upper)
    requires var x := AddTo(t[i], reg).(upper := hi);
      u == (if i + 1 < |t| && t[i + 1].key == hi then d2 + [x] else d2 + [x] + [t[i].(key := hi)]) + t[i + 1..]
    ensures Disjoint(u) <==> Tight(d2, t[i].key)
  {
    hide Less, AddReg, Disjoint, Ordered;
    var z := HeadTable(t, reg, hi, i);
    HeadTableDisjoint(t, reg, hi, i);
    assert u == d2 + z;
    TightJoin(d2, z);
  }

  function HeadTable(t: seq<Ent>, reg: Reg, hi: Oid, i: nat): (z: seq<Ent>)
    requires i < |t|
    ensures z != [] && z[0].key == t[i].key
  {
    var x, y, rest := AddTo(t[i], reg).(upper := hi), t[i].(key := hi), t[i + 1..];
    if i + 1 < |t| && t[i + 1].key == hi then [x] + rest else [x] + ([y] + rest)
  }

  lemma HeadTableDisjoint(t: seq<Ent>, reg: Reg, hi: Oid, i: nat)
    requires Ordered(t) && Disjoint(t) && i < |t| && Less(t[i].key, hi) && LessEq(hi, t[i].upper)
    ensures Ordered(HeadTable(t, reg, hi, i)) && Disjoint(HeadTable(t, reg, hi, i))
  {
    hide Less, AddReg;
    LessOrder();
    var x, y, rest := AddTo(t[i], reg).(upper := hi), t[i].(key := hi), t[i + 1..];
    forall j | 0 <= j < |rest| ensures Less(t[i].key, rest[j].key) && LessEq(t[i].upper, rest[j].key) {
      assert rest[j] == t[i + 1 + j];
    }
  }

  /** The order of the table around entry i, whatever replaces it up to `hi`. */
  lemma RestBounds(t: seq<Ent>, i: nat, hi: Oid)
    requires Ordered(t) && Disjoint(t) && i < |t| && Less(t[i].key, hi) && LessEq(hi, t[i].upper)
    ensures KeysAbove(t[i + 1..], t[i].key) && Ordered(t[i + 1..])
    ensures i + 1 < |t| ==> LessEq(hi, t[i + 1].key)
  {
    hide Less;
    LessOrder();
    SuffixAbove(t, i + 1, t[i].key);
  }

  lemma NextHead(t: seq<Ent>, reg: Reg, lo: Oid, hi: Oid, i: nat, s: Scan, done: seq<Ent>, sp: seq<Ent>, d: seq<Ent>)
    requires Accepted(t, lo, hi) && Linked(t, reg, lo, hi, i, s, done, sp, d)
    requires i < |t| && t[i].agentx && Less(t[i].key, hi) && LessEq(hi, t[i].upper)
    requires s.lo == t[i].key || Less(hi, t[i].upper)
    ensures var s' := Step(s, i, reg, lo, hi);
      && s'.stop && Answers(t, reg, lo, hi, AddAll(s'.t, s'.sp))
      && (Disjoint(AddAll(s'.t, s'.sp)) <==> s.lo == t[i].key || HasKey(d, s.lo))
  {
    hide Less, AddReg, GetAffected, Lower, Covers, Add, AddAll, Owner, Target, Step;
    LessOrder();
    var e, f, rest := t[i], s.lo, t[i + 1..];
    var x, y, p := AddTo(e, reg).(upper := hi), e.(key := hi), Fresh(reg, f, hi);
    var d2 := Filled(reg, f, hi, e.key, d);
    HeadScan(t, reg, lo, hi, i, s, done);
    FilledReady(t, reg, lo, hi, i, f, d, hi);
    RestBounds(t, i, hi);
    OrderedAround(d, x, rest);
    OrderedAround(d2, x, rest);
    AddAllMid(done, x, rest, sp);
    AddAllMore(done + [x] + rest, sp, p);
    AddFilled(reg, f, hi, d, x, rest);
    AddAllMore(done + [x] + rest, sp + [p], y);
    AddUpperPart(d2 + [x], y, rest);
    var u := (if |rest| > 0 && rest[0].key == hi then d2 + [x] else d2 + [x] + [y]) + rest;
    HeadAnswers(t, reg, lo, hi, i, d2, u);
    HeadDisjoint(t, reg, hi, i, d2, u);
    FilledTight(t, reg, lo, hi, i, f, d, hi);
    if f != e.key {
      AddAllMore(done + [x] + rest, sp + [p] + [y], Fresh(reg, f, e.key));
      var g :| g in d2 && g.key == f;
      assert g in u;
      AddTaken(u, Fresh(reg, f, e.key));
    } else {
      assert sp + [p] + [y] + [] == sp + [p] + [y];
    }
  }

  // ---------- the first step ----------

  lemma FirstHead(t: seq<Ent>, reg: Reg, lo: Oid, hi: Oid, i: nat)
    requires Accepted(t, lo, hi) && i < |t| && Progress(t, reg, lo, hi, i, lo, t[..i])
    requires t[i].agentx && Less(t[i].key, hi) && LessEq(hi, t[i].upper)
    requires lo == t[i].key || Less(hi, t[i].upper)
    ensures var s' := Step(Scan(t, lo, hi, [], -1, false), i, reg, lo, hi);
      s'.stop && Answers(t, reg, lo, hi, AddAll(s'.t, s'.sp)) && Disjoint(AddAll(s'.t, s'.sp))
  {
    hide Less, AddReg, GetAffected, Lower, Covers, Add, AddAll, Owner, Target, Step;
    var e, rest, d := t[i], t[i + 1..], t[..i];
    var x, y := AddTo(e, reg).(upper := hi), e.(key := hi);
    var d2 := Filled(reg, lo, e.key, e.key, d);
    HeadScan(t, reg, lo, hi, i, Scan(t, lo, hi, [], -1, false), d);
    FilledReady(t, reg, lo, hi, i, lo, d, e.key);
    RestBounds(t, i, hi);
    assert KeysBelow(d, e.key) by {
      PrefixBounds(t, i, e.key);
    }
    FirstHeadAdds(reg, lo, hi, d, e, rest);
    var z := if lo == e.key then [] else [Fresh(reg, lo, e.key)];
    assert [] + [y] + z == [y] + z;
    var tail := if |rest| > 0 && rest[0].key == hi then rest else [y] + rest;
    assert (if |rest| > 0 && rest[0].key == hi then d2 + [x] else d2 + [x] + [y]) + rest == d2 + [x] + tail;
    HeadAnswers(t, reg, lo, hi, i, d2, d2 + [x] + tail);
    HeadDisjoint(t, reg, hi, i, d2, d2 + [x] + tail);
    FilledTight(t, reg, lo, hi, i, lo, d, e.key);
  }

  lemma FirstHeadAdds(reg: Reg, lo: Oid, hi: Oid, d: seq<Ent>, e: Ent, rest: seq<Ent>)
    requires Ordered(d) && KeysBelow(d, e.key) && KeysAbove(rest, e.key) && Ordered(rest)
    requires LessEq(lo, e.key) && Less(e.key, hi) && (|rest| > 0 ==> LessEq(hi, rest[0].key))
    ensures var x, y := AddTo(e, reg).(upper := hi), e.(key := hi);
      AddAll(d + [x] + rest, [y] + if lo == e.key then [] else [Fresh(reg, lo, e.key)])
        == Filled(reg, lo, e.key, e.key, d) + [x] + if |rest| > 0 && rest[0].key == hi then rest else [y] + rest
  {
    hide Less, AddReg, Add, AddAll, Ordered, KeysBelow, KeysAbove, Filled;
    var x, y := AddTo(e, reg).(upper := hi), e.(key := hi);
    var tail := if |rest| > 0 && rest[0].key == hi then rest else [y] + rest;
    OrderedAround(d, x, rest);
    KeysBelowMore(d, x, hi);
    FilledAt(reg, lo, e.key, d);
    AddUpperPart(d + [x], y, rest);
    assert (if |rest| > 0 && rest[0].key == hi then d + [x] else d + [x] + [y]) + rest == d + [x] + tail;
    AddAllMore(d + [x] + rest, [], y);
    assert AddAll(d + [x] + rest, []) == d + [x] + rest by {
      AddAllNone(d + [x] + rest);
    }
    assert [] + [y] == [y] == [y] + [];
    if lo != e.key {
      AddAllMore(d + [x] + rest, [y], Fresh(reg, lo, e.key));
      FirstHeadTail(x, y, rest, tail);
      OrderedAround(d, x, tail);
      AddFilled(reg, lo, e.key, d, x, tail);
    }
  }

  lemma KeysBelowMore(d: seq<Ent>, x: Ent, k: Oid)
    requires KeysBelow(d, x.key) && Less(x.key, k)
    ensures KeysBelow(d + [x], k)
  {
    hide Less;
    LessOrder();
  }

  lemma FilledAt(reg: Reg, lo: Oid, k: Oid, d: seq<Ent>)
    ensures lo == k ==> Filled(reg, lo, k, k, d) == d
  {
  }

  lemma AddAllNone(t: seq<Ent>)
    ensures AddAll(t, []) == t
  {
  }

  lemma FirstHeadTail(x: Ent, y: Ent, rest: seq<Ent>, tail: seq<Ent>)
    requires KeysAbove(rest, x.key) && Ordered(rest) && Less(x.key, y.key)
    requires |rest| > 0 ==> LessEq(y.key, rest[0].key)
    requires tail == if |rest| > 0 && rest[0].key == y.key then rest else [y] + rest
    ensures KeysAbove(tail, x.key) && Ordered(tail)
  {
    hide Less;
    LessOrder();
  }

  lemma InsideScan(t: seq<Ent>, reg: Reg, lo: Oid, hi: Oid, i: nat)
    requires i < |t| && Less(lo, hi) && Less(t[i].key, lo) && LessEq(hi, t[i].upper)
    ensures var e := t[i];
      var s' := Step(Scan(t, lo, hi, [], -1, false), i, reg, lo, hi);
      && s'.stop && s'.t == t[..i] + [e.(upper := lo)] + t[i + 1..]
      && s'.sp == [AddTo(e, reg).(key := lo, upper := hi), e.(key := hi)]
  {
    hide Less, AddReg, InSubtree;
    LessOrder();
    var e := t[i];
    assert t[i := e.(upper := lo)] == t[..i] + [e.(upper := lo)] + t[i + 1..];
  }

  /** Cutting an entry in three leaves a disjoint table. */
  lemma InsideDisjoint(t: seq<Ent>, reg: Reg, lo: Oid, hi: Oid, i: nat)
    requires Ordered(t) && Disjoint(t) && i < |t| && Less(t[i].key, lo) && Less(lo, hi) && LessEq(hi, t[i].upper)
    requires Tight(t[..i], t[i].key)
    ensures Disjoint(t[..i] + [t[i].(upper := lo)] + HeadTable(t[i := t[i].(key := lo)], reg, hi, i))
  {
    hide Less, AddReg, HeadTable;
    LessOrder();
    var cut := t[i := t[i].(key := lo)];
    assert Ordered(cut) && Disjoint(cut);
    HeadTableDisjoint(cut, reg, hi, i);
    TightAppend(t[..i], t[i].(upper := lo));
    TightJoin(t[..i] + [t[i].(upper := lo)], HeadTable(cut, reg, hi, i));
  }

  lemma FirstInside(t: seq<Ent>, reg: Reg, lo: Oid, hi: Oid, i: nat)
    requires Accepted(t, lo, hi) && i < |t| && Ready(t, reg, lo, hi, t[i].key, t[..i])
    requires t[i].agentx && Less(t[i].key, lo) && LessEq(hi, t[i].upper) && Tight(t[..i], t[i].key)
    ensures var e := t[i];
      var u := AddAll(t[..i] + [e.(upper := lo)] + t[i + 1..],
                      [AddTo(e, reg).(key := lo, upper := hi), e.(key := hi)]);
      Answers(t, reg, lo, hi, u) && Disjoint(u)
  {
    hide Less, AddReg, GetAffected, Lower, Covers, Add, Owner, Target;
    LessOrder();
    var e, rest, d := t[i], t[i + 1..], t[..i];
    var x, y, z := e.(upper := lo), AddTo(e, reg).(key := lo, upper := hi), e.(key := hi);
    RestBounds(t, i, hi);
    OrderedAround(d, x, rest);
    AddAllMore(d + [x] + rest, [], y);
    AddAllMore(d + [x] + rest, [y], z);
    assert [] + [y] == [y] && [y] + [z] == [y, z];
    SuffixAbove(t, i + 1, lo);
    AddUnder(d + [x], rest, y);
    AddAbove(d + [x], y);
    OrderedAppend(d, x);
    OrderedAppend(d + [x], y);
    OrderedAround(d + [x], y, rest);
    AddUpperPart(d + [x] + [y], z, rest);
    TakeInside(t, reg, lo, hi, i, d);
    Finish(t, reg, lo, hi, i + 1, if |rest| > 0 && rest[0].key == hi then d + [x] + [y] else d + [x] + [y] + [z]);
    InsideDisjoint(t, reg, lo, hi, i);
    InsideTable(t, reg, lo, hi, i);
  }

  lemma InsideTable(t: seq<Ent>, reg: Reg, lo: Oid, hi: Oid, i: nat)
    requires i < |t|
    ensures var x, y, z := t[i].(upper := lo), AddTo(t[i], reg).(key := lo, upper := hi), t[i].(key := hi);
      var d, rest := t[..i], t[i + 1..];
      (if |rest| > 0 && rest[0].key == hi then d + [x] + [y] else d + [x] + [y] + [z]) + rest
        == d + [x] + HeadTable(t[i := t[i].(key := lo)], reg, hi, i)
  {
    hide AddReg;
    var y := AddTo(t[i], reg).(key := lo, upper := hi);
    var cut, rest := t[i := t[i].(key := lo)], t[i + 1..];
    assert cut[i + 1..] == rest && AddTo(cut[i], reg).(upper := hi) == y;
  }

  lemma FirstAround(t: seq<Ent>, reg: Reg, lo: Oid, hi: Oid, i: nat)
    requires Accepted(t, lo, hi) && i < |t| && Progress(t, reg, lo, hi, i, lo, t[..i])
    requires t[i].agentx && Less(t[i].key, hi) && LessEq(t[i].upper, hi)
    requires !Covers(t[i].key, t[i].upper, lo, hi)
    ensures var x := AddTo(t[i], reg);
      Linked(t, reg, lo, hi, i + 1, Step(Scan(t, lo, hi, [], -1, false), i, reg, lo, hi), t[..i] + [x],
             if lo == t[i].key then [] else [Fresh(reg, lo, t[i].key)],
             Filled(reg, lo, t[i].key, t[i].key, t[..i]) + [x])
  {
    hide Less, AddReg, GetAffected, Lower, Covers, Add, Owner, Target, Step, Ready, DisjointBut, Tight, Disjoint;
    LessOrder();
    var e, d := t[i], t[..i];
    var x := AddTo(e, reg);
    var p, d2 := Fresh(reg, lo, e.key), Filled(reg, lo, e.key, e.key, d);
    FirstAroundScan(t, reg, lo, hi, i);
    FilledReady(t, reg, lo, hi, i, lo, d, e.key);
    FilledTight(t, reg, lo, hi, i, lo, d, e.key);
    ReadyKeys(t, reg, lo, hi, e.key, d2);
    OrderedAppend(d2, x);
    OrderedAppend(d, x);
    assert d + [x] + [] == d + [x] && d2 + [x] + [] == d2 + [x];
    if lo != e.key {
      AddAllMore(d + [x], [], p);
      assert [] + [p] == [p];
      AddFilled(reg, lo, e.key, d, x, []);
      var g :| g in d2 && g.key == lo;
      assert g in d2 + [x];
    } else {
      assert x in d2 + [x];
    }
    TakeAround(t, reg, lo, hi, i, d2);
  }

  lemma ReadyKeys(t: seq<Ent>, reg: Reg, lo: Oid, hi: Oid, k: Oid, d: seq<Ent>)
    requires Ready(t, reg, lo, hi, k, d)
    ensures Ordered(d) && KeysBelow(d, k)
  {
  }

  lemma FirstAroundScan(t: seq<Ent>, reg: Reg, lo: Oid, hi: Oid, i: nat)
    requires i < |t| && LessEq(lo, t[i].key) && Less(t[i].key, hi) && LessEq(t[i].upper, hi)
    requires !Covers(t[i].key, t[i].upper, lo, hi)
    ensures var e := t[i];
      var sp := if lo == e.key then [] else [Fresh(reg, lo, e.key)];
      Step(Scan(t, lo, hi, [], -1, false), i, reg, lo, hi) ==
        Scan(t[..i] + [AddTo(e, reg)] + t[i + 1..], e.upper, hi, sp + [Provisional(reg, e.upper, lo, hi)], i, false)
  {
    hide Less, AddReg, InSubtree;
    CoversEmpty(t, i, lo, hi);
    assert t[i := AddTo(t[i], reg)] == t[..i] + [AddTo(t[i], reg)] + t[i + 1..];
  }

  lemma FirstTail(t: seq<Ent>, reg: Reg, lo: Oid, hi: Oid, i: nat)
    requires Accepted(t, lo, hi) && i < |t| && Ready(t, reg, lo, hi, t[i].key, t[..i])
    requires Tight(t[..i], t[i].key)
    requires t[i].agentx && Less(t[i].key, lo) && Less(lo, t[i].upper) && Less(t[i].upper, hi)
    ensures var x, y := t[i].(upper := lo), AddTo(t[i], reg).(key := lo);
      Linked(t, reg, lo, hi, i + 1, Step(Scan(t, lo, hi, [], -1, false), i, reg, lo, hi), t[..i] + [x], [y],
             t[..i] + [x] + [y])
  {
    hide Less, AddReg, GetAffected, Lower, Covers, Add, Owner, Target, Step;
    LessOrder();
    var e, d := t[i], t[..i];
    var x, y := e.(upper := lo), AddTo(e, reg).(key := lo);
    FirstTailScan(t, reg, lo, hi, i);
    OrderedAppend(d, x);
    AddAllMore(d + [x], [], y);
    assert [] + [y] == [y];
    AddAbove(d + [x], y);
    TakeTail(t, reg, lo, hi, i, d);
    assert y in d + [x] + [y];
  }

  lemma FirstTailScan(t: seq<Ent>, reg: Reg, lo: Oid, hi: Oid, i: nat)
    requires i < |t| && Less(t[i].key, lo) && Less(lo, t[i].upper) && Less(t[i].upper, hi)
    ensures var e := t[i];
      Step(Scan(t, lo, hi, [], -1, false), i, reg, lo, hi) ==
        Scan(t[..i] + [e.(upper := lo)] + t[i + 1..], e.upper, hi,
             [AddTo(e, reg).(key := lo)] + [Provisional(reg, e.upper, lo, hi)], i, false)
  {
    hide Less, AddReg, InSubtree;
    LessOrder();
    var e := t[i];
    assert t[i := e.(upper := lo)] == t[..i] + [e.(upper := lo)] + t[i + 1..];
  }

  // ---------- the whole registration ----------

  /** Where the affected entries end below the end of the region, the table stays disjoint. */
  lemma EndDisjoint(t: seq<Ent>, reg: Reg, lo: Oid, hi: Oid, i: nat, f: Oid, d: seq<Ent>)
    requires Ordered(t) && Disjoint(t) && Progress(t, reg, lo, hi, i, f, d) && (i < |t| ==> LessEq(hi, t[i].key))
    ensures Disjoint((if Less(f, hi) then Add(d, Fresh(reg, f, hi)) else d) + t[i..])
  {
    hide Less, Owner, Target, Add;
    LessOrder();
    var x := Fresh(reg, f, hi);
    var d' := if Less(f, hi) then Add(d, x) else d;
    if Less(f, hi) {
      if HasKey(d, f) {
        AddTaken(d, x);
      } else {
        AddAbove(d, x);
        TightAppend(d, x);
      }
    }
    assert Tight(d', hi) by {
      hide Disjoint;
    }
    SuffixDisjoint(t, i);
    TightJoin(d', t[i..]);
  }

  lemma SuffixDisjoint(t: seq<Ent>, i: nat)
    requires Ordered(t) && Disjoint(t) && i <= |t|
    ensures Ordered(t[i..]) && Disjoint(t[i..])
  {
    hide Less;
  }

  lemma EndAnswers(t: seq<Ent>, reg: Reg, lo: Oid, hi: Oid, i: nat, s: Scan, done: seq<Ent>, sp: seq<Ent>, d: seq<Ent>)
    requires Accepted(t, lo, hi) && Linked(t, reg, lo, hi, i, s, done, sp, d)
    requires i < |t| ==> LessEq(hi, t[i].key)
    ensures Answers(t, reg, lo, hi, AddAll(s.t, s.sp)) && Disjoint(AddAll(s.t, s.sp))
  {
    hide Less, AddReg, GetAffected, Lower, Add, AddAll, Owner, Target;
    LessOrder();
    var f, rest := s.lo, t[i..];
    var p := Provisional(reg, f, lo, hi);
    AddAllMore(s.t, sp, p);
    if i < |t| {
      SuffixAbove(t, i + 1, t[i].key);
      assert forall e, r :: e in sp && r in rest ==> Less(e.key, r.key) by {
        assert rest == [t[i]] + t[i + 1..];
      }
    }
    AddAllUnder(done, rest, sp);
    TakeEnd(t, reg, lo, hi, i, f, d);
    EndDisjoint(t, reg, lo, hi, i, f, d);
    Finish(t, reg, lo, hi, i, if Less(f, hi) then Add(d, p) else d);
    if Less(f, hi) {
      assert i < |t| ==> Less(f, t[i].key);
      SuffixAbove(t, i, f);
      AddUnder(d, rest, p);
    } else {
      EndTaken(t, i, d, p);
    }
  }

  lemma EndTaken(t: seq<Ent>, i: nat, d: seq<Ent>, p: Ent)
    requires Ordered(t) && i <= |t| && HasKey(d, p.key) && Ordered(d) && (i < |t| ==> KeysBelow(d, t[i].key))
    ensures Add(d + t[i..], p) == d + t[i..]
  {
    hide Less, Add;
    LessOrder();
    var g :| g in d && g.key == p.key;
    assert g in d + t[i..];
    if i < |t| {
      SuffixAbove(t, i + 1, t[i].key);
      OrderedAround(d, t[i], t[i + 1..]);
      assert d + [t[i]] + t[i + 1..] == d + t[i..];
    } else {
      assert d + t[i..] == d;
    }
    AddTaken(d + t[i..], p);
  }

  /** A registration that leaves an entry reaching into a later one: an entry starts inside the region and none at or
      below it, or the last affected entry reaches above the region and there is a gap below it, next to an affected
      entry that is not empty. */
  predicate Overhangs(t: seq<Ent>, lo: Oid, hi: Oid) {
    var a := GetAffected(t, lo, hi);
    a.ok &&
    if Lower(t, lo) < 0 then exists e :: e in t && Less(e.key, hi)
    else
      && a.last - a.first >= 2 && Less(hi, t[a.last - 1].upper)
      && Less(t[a.last - 2].upper, t[a.last - 1].key) && !IsEmpty(t[a.last - 2])
  }

  lemma NextStarts(t: seq<Ent>, i: nat, hi: Oid)
    requires Disjoint(t) && i + 1 < |t| && LessEq(hi, t[i].upper)
    ensures !Less(t[i + 1].key, hi)
  {
    hide Less;
    LessOrder();
  }

  /** An affected entry that reaches to the end of the region is the last one. */
  lemma ReachesEnd(t: seq<Ent>, lo: Oid, hi: Oid, i: nat)
    requires Accepted(t, lo, hi) && GetAffected(t, lo, hi).first <= i < GetAffected(t, lo, hi).last
    requires LessEq(hi, t[i].upper)
    ensures GetAffected(t, lo, hi).last == i + 1
  {
    AffectedSpec(t, lo, hi);
    hide Less, GetAffected, Lower;
    if i + 1 < |t| {
      NextStarts(t, i, hi);
    }
  }

  /** At an affected entry other than the first that reaches to the end of the region or beyond. */
  lemma OverhangsAt(t: seq<Ent>, lo: Oid, hi: Oid, i: nat)
    requires Accepted(t, lo, hi) && GetAffected(t, lo, hi).first < i < GetAffected(t, lo, hi).last
    requires LessEq(hi, t[i].upper) && (t[i - 1].upper == t[i].key || Less(hi, t[i].upper))
    ensures Overhangs(t, lo, hi) <==> t[i - 1].upper != t[i].key && t[i - 1].key != t[i - 1].upper
  {
    ReachesEnd(t, lo, hi, i);
    OverhangsLast(t, lo, hi, i);
    EndsBefore(t, i);
    hide Less, GetAffected, Lower, Overhangs, Ordered, Disjoint;
    LessIrreflexive(t[i].key);
  }

  lemma OverhangsLast(t: seq<Ent>, lo: Oid, hi: Oid, i: nat)
    requires var a := GetAffected(t, lo, hi); a.ok && a.first < i && a.last == i + 1 <= |t| && Lower(t, lo) >= 0
    ensures Overhangs(t, lo, hi) <==>
              Less(hi, t[i].upper) && Less(t[i - 1].upper, t[i].key) && t[i - 1].key != t[i - 1].upper
  {
    hide Less, GetAffected, Lower;
  }

  lemma EndsBefore(t: seq<Ent>, i: nat)
    requires Disjoint(t) && 0 < i < |t|
    ensures LessEq(t[i - 1].upper, t[i].key)
  {
  }

  /** The rest of the region starts where the last affected entry ended. */
  lemma RestFrom(t: seq<Ent>, reg: Reg, lo: Oid, hi: Oid, i: nat, f: Oid, d: seq<Ent>)
    requires Accepted(t, lo, hi) && Progress(t, reg, lo, hi, i, f, d) && GetAffected(t, lo, hi).first < i
    ensures f == t[i - 1].upper && (HasKey(d, f) <==> t[i - 1].key == t[i - 1].upper)
  {
    FirstAffected(t, lo, hi);
    hide Less, GetAffected, Lower, Owner, Target, HasKey, Tight;
    LessOrder();
  }

  lemma NoOverhang(t: seq<Ent>, lo: Oid, hi: Oid)
    requires Accepted(t, lo, hi) && var a := GetAffected(t, lo, hi);
      a.last - a.first < 2 || LessEq(t[a.last - 1].upper, hi)
    ensures !Overhangs(t, lo, hi)
  {
    hide Less, GetAffected, Lower;
    LessOrder();
  }

  lemma {:induction false} WalkAnswers(t: seq<Ent>, reg: Reg, lo: Oid, hi: Oid, i: nat, s: Scan,
                                       done: seq<Ent>, sp: seq<Ent>, d: seq<Ent>)
    requires Accepted(t, lo, hi) && Linked(t, reg, lo, hi, i, s, done, sp, d)
    requires GetAffected(t, lo, hi).first < i <= GetAffected(t, lo, hi).last
    ensures var w := Walk(s, i, GetAffected(t, lo, hi).last, reg, lo, hi);
      Answers(t, reg, lo, hi, AddAll(w.t, w.sp)) && (Disjoint(AddAll(w.t, w.sp)) <==> !Overhangs(t, lo, hi))
    decreases |t| - i
  {
    hide Less, AddReg, GetAffected, Lower, Covers, Add, AddAll, Owner, Target, Step, Answers, HasKey, Overhangs;
    RestFrom(t, reg, lo, hi, i, s.lo, d);
    var end := GetAffected(t, lo, hi).last;
    AffectedSpec(t, lo, hi);
    if i == end {
      EndAnswers(t, reg, lo, hi, i, s, done, sp, d);
      NoOverhang(t, lo, hi);
    } else {
      CoversEmpty(t, i, s.lo, hi);
      LessTotal(t[i].upper, hi);
      var s' := Step(s, i, reg, lo, hi);
      if LessEq(t[i].upper, hi) && !Covers(t[i].key, t[i].upper, s.lo, hi) {
        var sp' := NextAround(t, reg, lo, hi, i, s, done, sp, d);
        WalkAnswers(t, reg, lo, hi, i + 1, s', done + [AddTo(t[i], reg)], sp',
                    Filled(reg, s.lo, t[i].key, t[i].key, d) + [AddTo(t[i], reg)]);
      } else {
        NextHead(t, reg, lo, hi, i, s, done, sp, d);
        OverhangsAt(t, lo, hi, i);
        assert Walk(s', i + 1, end, reg, lo, hi) == s';
      }
    }
  }

  lemma OneAffected(t: seq<Ent>, lo: Oid, hi: Oid)
    requires Accepted(t, lo, hi) && GetAffected(t, lo, hi).first < GetAffected(t, lo, hi).last
    requires LessEq(hi, t[GetAffected(t, lo, hi).first].upper)
    ensures !Overhangs(t, lo, hi)
  {
    hide Less, GetAffected, Lower, Overhangs;
    ReachesEnd(t, lo, hi, GetAffected(t, lo, hi).first);
    NoOverhang(t, lo, hi);
  }

  /** The walk over all affected entries. */
  lemma WalkFromStart(t: seq<Ent>, reg: Reg, lo: Oid, hi: Oid)
    requires Accepted(t, lo, hi) && GetAffected(t, lo, hi).first < GetAffected(t, lo, hi).last
    ensures var a := GetAffected(t, lo, hi);
      var w := Walk(Scan(t, lo, hi, [], -1, false), a.first, a.last, reg, lo, hi);
      Answers(t, reg, lo, hi, AddAll(w.t, w.sp)) && (Disjoint(AddAll(w.t, w.sp)) <==> !Overhangs(t, lo, hi))
  {
    hide Less, AddReg, GetAffected, Lower, Covers, Add, AddAll, Owner, Target, Step, Answers, Progress, Ready,
         Overhangs,
         Linked, Tight;
    var a := GetAffected(t, lo, hi);
    var i, s := a.first, Scan(t, lo, hi, [], -1, false);
    var e, s' := t[i], Step(s, i, reg, lo, hi);
    AffectedSpec(t, lo, hi);
    Start(t, reg, lo, hi);
    LessTotal(e.key, lo);
    LessTotal(e.upper, hi);
    if Less(e.key, lo) {
      if LessEq(hi, e.upper) {
        InsideScan(t, reg, lo, hi, i);
        FirstInside(t, reg, lo, hi, i);
        OneAffected(t, lo, hi);
      } else {
        FirstTail(t, reg, lo, hi, i);
        WalkAnswers(t, reg, lo, hi, i + 1, s', t[..i] + [e.(upper := lo)], [AddTo(e, reg).(key := lo)],
                    t[..i] + [e.(upper := lo)] + [AddTo(e, reg).(key := lo)]);
      }
    } else {
      CoversEmpty(t, i, lo, hi);
      if LessEq(e.upper, hi) && !Covers(e.key, e.upper, lo, hi) {
        FirstAround(t, reg, lo, hi, i);
        WalkAnswers(t, reg, lo, hi, i + 1, s', t[..i] + [AddTo(e, reg)],
                    if lo == e.key then [] else [Fresh(reg, lo, e.key)],
                    Filled(reg, lo, e.key, e.key, t[..i]) + [AddTo(e, reg)]);
      } else {
        FirstHead(t, reg, lo, hi, i);
        OneAffected(t, lo, hi);
      }
    }
  }

  lemma NoneAffected(t: seq<Ent>, lo: Oid, hi: Oid)
    requires Accepted(t, lo, hi) && GetAffected(t, lo, hi).first == GetAffected(t, lo, hi).last
    ensures var i := GetAffected(t, lo, hi).first;
      0 < i && Less(t[i - 1].key, hi) && (i < |t| ==> LessEq(hi, t[i].key) && Less(lo, t[i].key) && !Less(t[i].key, lo))
  {
    AffectedSpec(t, lo, hi);
    hide Less, GetAffected, Lower;
    LessOrder();
  }

  /** No entry is affected: the region becomes an entry of its own, unless its first key is taken. */
  lemma UntouchedAnswers(t: seq<Ent>, reg: Reg, lo: Oid, hi: Oid)
    requires Accepted(t, lo, hi) && GetAffected(t, lo, hi).first == GetAffected(t, lo, hi).last
    ensures Answers(t, reg, lo, hi, Add(t, Fresh(reg, lo, hi))) && Disjoint(Add(t, Fresh(reg, lo, hi)))
  {
    hide Less, AddReg, GetAffected, Lower, Add, Owner, Target, Answers, Progress, Ready, Tight, Settled;
    var i := GetAffected(t, lo, hi).first;
    NoneAffected(t, lo, hi);
    Start(t, reg, lo, hi);
    LessTotal(lo, hi);
    TakeEnd(t, reg, lo, hi, i, lo, t[..i]);
    EndDisjoint(t, reg, lo, hi, i, lo, t[..i]);
    Finish(t, reg, lo, hi, i, Add(t[..i], Fresh(reg, lo, hi)));
    SuffixAbove(t, i, lo);
    AddUnder(t[..i], t[i..], Fresh(reg, lo, hi));
    assert t[..i] + t[i..] == t;
  }

  lemma InFrontTable(t: seq<Ent>, reg: Reg, lo: Oid, hi: Oid)
    requires Ordered(t) && Disjoint(t) && Less(lo, hi) && Lower(t, lo) < 0
    ensures var x := Fresh(reg, lo, hi);
      Add(t, x) == [x] + t && Ordered([x] + t) && KeysAbove(t, lo)
  {
    hide Less, Add, Disjoint;
    LessOrder();
    var x := Fresh(reg, lo, hi);
    LowerSpec(t, lo);
    SuffixAbove(t, 0, lo);
    assert [] + t == t && t[0..] == t;
    AddUnder([], t, x);
    AddAbove([], x);
    OrderedAround([], x, t);
    assert [] + [x] == [x] && [] + [x] + t == [x] + t;
  }

  /** No entry starts at or below the region: the new entry goes in front of all others. */
  lemma InFrontAnswers(t: seq<Ent>, reg: Reg, lo: Oid, hi: Oid)
    requires Ordered(t) && Disjoint(t) && Less(lo, hi) && Lower(t, lo) < 0
    ensures Answers(t, reg, lo, hi, Add(t, Fresh(reg, lo, hi)))
  {
    hide Less, AddReg, Add, Owner, Ordered, Disjoint, Lower, Target;
    var x := Fresh(reg, lo, hi);
    InFrontTable(t, reg, lo, hi);
    DisjointJoin([x], t, reg);
    forall o ensures Owner([x] + t, o) == Target(t, reg, lo, hi, o) {
      InFrontOwner(t, reg, lo, hi, o);
    }
  }

  lemma InFrontDisjoint(t: seq<Ent>, reg: Reg, lo: Oid, hi: Oid)
    requires Ordered(t) && Disjoint(t) && Less(lo, hi) && Lower(t, lo) < 0
    ensures Disjoint(Add(t, Fresh(reg, lo, hi))) <==> !Overhangs(t, lo, hi)
  {
    hide Less, Add, Lower;
    LessOrder();
    var x := Fresh(reg, lo, hi);
    InFrontTable(t, reg, lo, hi);
    TightJoin([x], t);
    assert x in [x];
  }

  lemma InFrontTarget(t: seq<Ent>, reg: Reg, lo: Oid, hi: Oid, o: Oid)
    requires Ordered(t) && Less(lo, hi) && Lower(t, lo) < 0
    ensures Target(t, reg, lo, hi, o) ==
      if |t| > 0 && LessEq(t[0].key, o) then Owner(t, o) else if LessEq(lo, o) && Less(o, hi) then [reg] else []
  {
    hide Less, AddReg, Lower;
    LessOrder();
    LowerSpec(t, o);
    AddToNone(reg);
  }

  lemma InFrontOwner(t: seq<Ent>, reg: Reg, lo: Oid, hi: Oid, o: Oid)
    requires Ordered(t) && Less(lo, hi) && Lower(t, lo) < 0
    ensures Owner([Fresh(reg, lo, hi)] + t, o) == Target(t, reg, lo, hi, o)
  {
    hide Less, AddReg, Owner, Lower, Target;
    var x := Fresh(reg, lo, hi);
    InFrontTarget(t, reg, lo, hi, o);
    assert [] + t == t && [] + [x] == [x];
    if |t| > 0 && LessEq(t[0].key, o) {
      OwnerSuffix([x], [], t, o);
    } else {
      if |t| > 0 {
        LessTotal(t[0].key, o);
      }
      SuffixAbove(t, 0, o);
      assert t[0..] == t;
      OwnerPrefix([x], t, o);
      OwnerAppend([], x, o);
      assert Owner([], o) == [] by {
        NoOwner(o);
      }
    }
  }

  lemma NoOwner(o: Oid)
    ensures Owner([], o) == []
  {
  }

  /** One registration adds its entry to the owners of exactly the objects it reaches, and leaves every other object's
      owners alone; the table stays ordered. */
  lemma RegisterOwners(t: seq<Ent>, reg: Reg, lo: Oid, hi: Oid)
    requires Ordered(t) && Disjoint(t)
    ensures Ordered(Register(t, reg, lo, hi)) && DisjointBut(Register(t, reg, lo, hi), reg)
    ensures forall o :: Owner(Register(t, reg, lo, hi), o) == Target(t, reg, lo, hi, o)
  {
    hide Less, AddReg, Lower, Add, AddAll, Owner, Walk;
    if Less(lo, hi) && GetAffected(t, lo, hi).ok {
      if Lower(t, lo) < 0 {
        InFrontAnswers(t, reg, lo, hi);
      } else if GetAffected(t, lo, hi).first == GetAffected(t, lo, hi).last {
        UntouchedAnswers(t, reg, lo, hi);
      } else {
        WalkFromStart(t, reg, lo, hi);
      }
    } else {
      LessOrder();
    }
  }

  /** One registration leaves the table disjoint exactly if it does not leave an entry reaching into a later one. */
  lemma RegisterDisjoint(t: seq<Ent>, reg: Reg, lo: Oid, hi: Oid)
    requires Ordered(t) && Disjoint(t) && Less(lo, hi)
    ensures Disjoint(Register(t, reg, lo, hi)) <==> !Overhangs(t, lo, hi)
  {
    hide Less, AddReg, Lower, Add, AddAll, Owner, Walk, Overhangs, Disjoint;
    if GetAffected(t, lo, hi).ok {
      if Lower(t, lo) < 0 {
        InFrontDisjoint(t, reg, lo, hi);
      } else if GetAffected(t, lo, hi).first == GetAffected(t, lo, hi).last {
        UntouchedAnswers(t, reg, lo, hi);
        NoOverhang(t, lo, hi);
      } else {
        WalkFromStart(t, reg, lo, hi);
      }
    } else {
      Refused(t, lo, hi);
    }
  }

  lemma Refused(t: seq<Ent>, lo: Oid, hi: Oid)
    requires !GetAffected(t, lo, hi).ok
    ensures !Overhangs(t, lo, hi)
  {
  }
}
