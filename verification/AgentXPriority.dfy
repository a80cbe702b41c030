/** Which registration of an object is the active one: the order of owner lists, by the fields of their entries. */
module AgentXPriority {
  import opened OidOrder
  import opened AgentXRegions
  import opened AgentXOwnership
  import opened AgentXRegistration
  import opened AgentXUnregistration
  import opened AgentXRuns

  // ---------- one owner list ----------

  /** `a` may stand before `b`: a longer lower bound first, then the lesser priority. */
  predicate Outranks(a: Reg, b: Reg) {
    |a.region.lower| > |b.region.lower| || (|a.region.lower| == |b.region.lower| && a.priority <= b.priority)
  }

  predicate Ranked(l: seq<Reg>) {
    forall i, j :: 0 <= i < j < |l| ==> Outranks(l[i], l[j])
  }

  /** The entries with lower bounds of length `n` and priority `p`, in the order of the list. */
  function OfRank(l: seq<Reg>, n: nat, p: nat): seq<Reg> {
    if l == [] then []
    else (if |l[0].region.lower| == n && l[0].priority == p then [l[0]] else []) + OfRank(l[1..], n, p)
  }

  lemma OfRankCons(a: Reg, l: seq<Reg>, n: nat, p: nat)
    ensures OfRank([], n, p) == []
    ensures OfRank([a] + l, n, p) == (if |a.region.lower| == n && a.priority == p then [a] else []) + OfRank(l, n, p)
  {
    assert ([a] + l)[1..] == l;
  }

  lemma RankedTail(l: seq<Reg>)
    requires Ranked(l) && l != []
    ensures Ranked(l[1..]) && forall x :: x in l[1..] ==> Outranks(l[0], x)
  {
  }

  lemma RankedCons(r: Reg, l: seq<Reg>)
    requires Ranked(l) && forall x :: x in l ==> Outranks(r, x)
    ensures Ranked([r] + l)
  {
  }

  lemma {:induction false} AddedMembers(l: seq<Reg>, r: Reg)
    ensures forall x :: x in AddReg(l, r) <==> x in l || x == r
  {
    if l != [] {
      AddedMembers(l[1..], r);
      assert forall x :: x in l <==> x == l[0] || x in l[1..];
    }
  }

  /** Adding an entry keeps the list ranked. */
  lemma {:induction false} AddRanked(l: seq<Reg>, r: Reg)
    requires Ranked(l)
    ensures Ranked(AddReg(l, r))
  {
    if l != [] {
      RankedTail(l);
      hide Ranked;
      if Precedes(r, l[0]) {
        RankedCons(l[0], l[1..]);
        assert [l[0]] + l[1..] == l;
        RankedCons(r, l);
      } else {
        AddRanked(l[1..], r);
        AddedMembers(l[1..], r);
        RankedCons(l[0], AddReg(l[1..], r));
      }
    } else {
      RankedCons(r, []);
      assert [r] + [] == [r];
    }
  }

  /** A new entry goes behind all entries of its rank, and no other rank is touched. */
  lemma {:induction false} AddOfRank(l: seq<Reg>, r: Reg, n: nat, p: nat)
    requires Ranked(l)
    ensures OfRank(AddReg(l, r), n, p) ==
      OfRank(l, n, p) + if |r.region.lower| == n && r.priority == p then [r] else []
  {
    hide OfRank;
    var own := if |r.region.lower| == n && r.priority == p then [r] else [];
    if l == [] {
      OfRankCons(r, [], n, p);
      assert [r] + [] == [r];
    } else {
      RankedTail(l);
      hide Ranked;
      assert l == [l[0]] + l[1..];
      if Precedes(r, l[0]) {
        OfRankCons(r, l, n, p);
        if own != [] {
          NoneOfRank(l, n, p);
        }
      } else {
        AddOfRank(l[1..], r, n, p);
        OfRankCons(l[0], l[1..], n, p);
        OfRankCons(l[0], AddReg(l[1..], r), n, p);
      }
    }
  }

  /** Behind an entry of a lower rank there is none of the rank in question. */
  lemma {:induction false} NoneOfRank(l: seq<Reg>, n: nat, p: nat)
    requires forall x :: x in l ==> !(|x.region.lower| == n && x.priority == p)
    ensures OfRank(l, n, p) == []
  {
    if l != [] {
      NoneOfRank(l[1..], n, p);
    }
  }

  lemma {:induction false} DroppedMembers(l: seq<Reg>, r: Reg)
    ensures forall x :: x in DropReg(l, r) ==> x in l
  {
    if l != [] && l[0] != r {
      DroppedMembers(l[1..], r);
    }
  }

  lemma {:induction false} DropRanked(l: seq<Reg>, r: Reg)
    requires Ranked(l)
    ensures Ranked(DropReg(l, r))
  {
    if l != [] {
      RankedTail(l);
      hide Ranked;
      if l[0] != r {
        DropRanked(l[1..], r);
        DroppedMembers(l[1..], r);
        RankedCons(l[0], DropReg(l[1..], r));
      }
    }
  }

  lemma {:induction false} DropOfRank(l: seq<Reg>, r: Reg, n: nat, p: nat)
    ensures OfRank(DropReg(l, r), n, p) == DropReg(OfRank(l, n, p), r)
  {
    if l != [] {
      if l[0] == r {
        if !(|r.region.lower| == n && r.priority == p) {
          NotOfRank(l[1..], r, n, p);
          assert [] + OfRank(l[1..], n, p) == OfRank(l[1..], n, p);
        }
      } else {
        DropOfRank(l[1..], r, n, p);
        assert DropReg(l, r)[1..] == DropReg(l[1..], r);
        if |l[0].region.lower| == n && l[0].priority == p {
          assert OfRank(l, n, p)[1..] == OfRank(l[1..], n, p);
        } else {
          assert [] + OfRank(l[1..], n, p) == OfRank(l[1..], n, p);
        }
      }
    }
  }

  lemma {:induction false} NotOfRank(l: seq<Reg>, r: Reg, n: nat, p: nat)
    requires !(|r.region.lower| == n && r.priority == p)
    ensures DropReg(OfRank(l, n, p), r) == OfRank(l, n, p)
  {
    if l != [] {
      NotOfRank(l[1..], r, n, p);
      if |l[0].region.lower| == n && l[0].priority == p {
        assert OfRank(l, n, p)[1..] == OfRank(l[1..], n, p);
      } else {
        assert [] + OfRank(l[1..], n, p) == OfRank(l[1..], n, p);
      }
    }
  }

  // ---------- tables, disjoint or not ----------

  predicate AllRanked(t: seq<Ent>) {
    forall e :: e in t ==> Ranked(e.regs)
  }

  lemma AllRankedUpdate(t: seq<Ent>, i: nat, e: Ent)
    requires AllRanked(t) && i < |t| && Ranked(e.regs)
    ensures AllRanked(t[i := e])
  {
    hide Ranked;
  }

  lemma AllRankedAppend(t: seq<Ent>, u: seq<Ent>)
    requires AllRanked(t) && AllRanked(u)
    ensures AllRanked(t + u)
  {
    hide Ranked;
  }

  /** The owner lists that one step of the splitting loop writes: an old one, an old one with the new entry, or the new
      entry alone. */
  lemma StepWrites(s: Scan, i: nat, reg: Reg, lo: Oid, hi: Oid)
    requires i < |s.t| && s.last < |s.t| && AllRanked(s.t) && AllRanked(s.sp)
    ensures AllRanked(Step(s, i, reg, lo, hi).t) && AllRanked(Step(s, i, reg, lo, hi).sp)
  {
    hide Ranked, AddReg, Less, Covers, Overlaps, LessEq, Inside, Around, Tail, Head, AllRanked;
    InsideWrites(s, i, reg);
    AroundWrites(s, i, reg);
    TailWrites(s, i, reg);
    HeadWrites(s, i, reg);
    FreshRanked(reg);
    var e := s.t[i];
    if !Covers(e.key, e.upper, s.lo, s.hi) {
      var n := if Covers(s.lo, s.hi, e.key, e.upper) then Around(s, i, reg) else Tail(s, i, reg);
      AllRankedAppend(n.sp, [Fresh(reg, n.lo, n.hi)]);
      AllRankedAppend(n.sp, [Fresh(reg, lo, hi)]);
    }
  }

  lemma FreshRanked(reg: Reg)
    ensures forall lo, hi :: AllRanked([Fresh(reg, lo, hi)])
  {
  }

  lemma OneRanked(e: Ent)
    requires Ranked(e.regs)
    ensures AllRanked([e])
  {
  }

  lemma InsideWrites(s: Scan, i: nat, reg: Reg)
    requires i < |s.t| && AllRanked(s.t) && AllRanked(s.sp)
    ensures AllRanked(Inside(s, i, reg).t) && AllRanked(Inside(s, i, reg).sp)
  {
    hide Ranked, AddReg, Less;
    AddRanked(s.t[i].regs, reg);
  }

  lemma AroundWrites(s: Scan, i: nat, reg: Reg)
    requires i < |s.t| && s.last < |s.t| && AllRanked(s.t) && AllRanked(s.sp)
    ensures AllRanked(Around(s, i, reg).t) && AllRanked(Around(s, i, reg).sp)
  {
    hide Ranked, AddReg, Less;
    AddRanked(s.t[i].regs, reg);
    FreshRanked(reg);
    var gap := Fresh(reg, if s.last >= 0 then s.t[s.last].upper else s.lo, s.t[i].key);
    assert gap in [gap];
  }

  lemma TailWrites(s: Scan, i: nat, reg: Reg)
    requires i < |s.t| && AllRanked(s.t) && AllRanked(s.sp)
    ensures AllRanked(Tail(s, i, reg).t) && AllRanked(Tail(s, i, reg).sp)
  {
    hide Ranked, AddReg, Less;
    AddRanked(s.t[i].regs, reg);
  }

  lemma HeadWrites(s: Scan, i: nat, reg: Reg)
    requires i < |s.t| && AllRanked(s.t) && AllRanked(s.sp)
    ensures AllRanked(Head(s, i, reg).t) && AllRanked(Head(s, i, reg).sp)
  {
    hide Ranked, AddReg, Less;
    AddRanked(s.t[i].regs, reg);
    FreshRanked(reg);
    var gap := Fresh(reg, s.lo, s.t[i].key);
    assert gap in [gap];
  }

  lemma {:induction false} WalkWrites(s: Scan, i: nat, end: nat, reg: Reg, lo: Oid, hi: Oid)
    requires i <= end <= |s.t| && s.last < |s.t| && AllRanked(s.t) && AllRanked(s.sp)
    ensures var w := Walk(s, i, end, reg, lo, hi); AllRanked(w.t) && AllRanked(w.sp)
    decreases end - i
  {
    hide Step, AllRanked;
    if i < end && !s.stop {
      StepWrites(s, i, reg, lo, hi);
      WalkWrites(Step(s, i, reg, lo, hi), i + 1, end, reg, lo, hi);
    }
  }

  lemma {:induction false} AddAllWrites(t: seq<Ent>, sp: seq<Ent>)
    requires AllRanked(t) && AllRanked(sp)
    ensures AllRanked(AddAll(t, sp))
  {
    hide Ranked, Add;
    if sp != [] {
      var n := |sp| - 1;
      AddAllWrites(t, sp[..n]);
      AddKeeps(AddAll(t, sp[..n]), sp[n]);
    }
  }

  /** A registration keeps every owner list ranked, whatever the table. */
  lemma RegisterRanked(t: seq<Ent>, reg: Reg, lo: Oid, hi: Oid)
    requires AllRanked(t)
    ensures AllRanked(Register(t, reg, lo, hi))
  {
    hide Ranked, Walk, Add, AddAll, Less, GetAffected;
    FreshRanked(reg);
    var x := Fresh(reg, lo, hi);
    assert x in [x];
    AddKeeps(t, x);
    var a := GetAffected(t, lo, hi);
    WalkWrites(Scan(t, lo, hi, [], -1, false), a.first, a.last, reg, lo, hi);
    var s := Walk(Scan(t, lo, hi, [], -1, false), a.first, a.last, reg, lo, hi);
    AddAllWrites(s.t, s.sp);
  }

  lemma {:induction false} SweepRanked(t: seq<Ent>, reg: Reg, covers: (Reg, Oid) -> bool)
    requires AllRanked(t)
    ensures AllRanked(SweepAll(t, reg, covers).out)
  {
    hide Ranked, DropReg, Less;
    if t != [] {
      var x := t[|t| - 1];
      SweepRanked(t[..|t| - 1], reg, covers);
      DropRanked(x.regs, reg);
      SweepOneRanked(SweepAll(t[..|t| - 1], reg, covers), x, reg, covers);
    }
  }

  lemma SweepOneRanked(s: Sweep, x: Ent, reg: Reg, covers: (Reg, Oid) -> bool)
    requires s.last < |s.out| && AllRanked(s.out) && Ranked(x.regs) && Ranked(DropReg(x.regs, reg))
    ensures AllRanked(SweepOne(s, x, reg, covers).out)
  {
    hide Ranked, DropReg, Less;
  }

  /** Any run of registrations and unregistrations keeps every owner list ranked. */
  lemma {:induction false} RunRanked(t: seq<Ent>, es: seq<Event>)
    requires AllRanked(t)
    ensures AllRanked(After(t, es))
    decreases |es|
  {
    hide AllRanked, Register, SweepAll;
    if |es| > 0 {
      var u, e := After(t, es[..|es| - 1]), es[|es| - 1];
      RunRanked(t, es[..|es| - 1]);
      match e
      case Registers(reg, lo, hi) => RegisterRanked(u, reg, lo, hi);
      case Unregisters(reg, covers) => SweepRanked(u, reg, covers);
    }
  }

  lemma OwnerRanked(t: seq<Ent>, o: Oid)
    requires AllRanked(t)
    ensures Ranked(Owner(t, o))
  {
    var i := Lower(t, o);
    assert i >= 0 ==> t[i] in t;
  }

  // ---------- runs that are granted ----------

  /** The registrations of an object that a run leaves, in the order in which they arrived. */
  function Live(t: seq<Ent>, es: seq<Event>, o: Oid): seq<Reg> {
    if |es| == 0 then Owner(t, o)
    else
      var l := Live(t, es[..|es| - 1], o);
      match es[|es| - 1]
      case Registers(reg, lo, hi) => if LessEq(lo, o) && Less(o, hi) then l + [reg] else l
      case Unregisters(reg, _) => DropReg(l, reg)
  }

  lemma {:induction false} AppendOfRank(l: seq<Reg>, r: Reg, n: nat, p: nat)
    ensures OfRank(l + [r], n, p) == OfRank(l, n, p) + if |r.region.lower| == n && r.priority == p then [r] else []
  {
    hide OfRank;
    if l == [] {
      OfRankCons(r, [], n, p);
      assert [] + [r] == [r] && [r] + [] == [r] && [] == [r][1..];
    } else {
      AppendOfRank(l[1..], r, n, p);
      OfRankCons(l[0], l[1..], n, p);
      OfRankCons(l[0], l[1..] + [r], n, p);
      assert l == [l[0]] + l[1..] && l + [r] == [l[0]] + (l[1..] + [r]);
    }
  }

  lemma {:induction false} InRank(l: seq<Reg>, r: Reg)
    ensures r in l <==> r in OfRank(l, |r.region.lower|, r.priority)
  {
    if l != [] {
      InRank(l[1..], r);
      assert r in l <==> r == l[0] || r in l[1..];
    }
  }

  lemma {:induction false} FirstOfRank(l: seq<Reg>)
    requires l != []
    ensures var a := l[0]; OfRank(l, |a.region.lower|, a.priority) != []
    ensures var a := l[0]; OfRank(l, |a.region.lower|, a.priority)[0] == a
  {
  }

  /** What a run asks for is ranked, and within a rank in order of arrival. */
  lemma {:induction false} AskedRanked(t: seq<Ent>, es: seq<Event>, o: Oid, n: nat, p: nat)
    requires Ranked(Owner(t, o))
    ensures Ranked(AskedAll(t, es, o))
    ensures OfRank(AskedAll(t, es, o), n, p) == OfRank(Live(t, es, o), n, p)
    decreases |es|
  {
    hide Ranked, Less, AddReg, DropReg, OfRank, Owner;
    if |es| > 0 {
      var q := es[..|es| - 1];
      AskedRanked(t, q, o, n, p);
      match es[|es| - 1]
      case Registers(reg, lo, hi) =>
        AddRanked(AskedAll(t, q, o), reg);
        AddOfRank(AskedAll(t, q, o), reg, n, p);
        AppendOfRank(Live(t, q, o), reg, n, p);
      case Unregisters(reg, _) =>
        DropRanked(AskedAll(t, q, o), reg);
        DropOfRank(AskedAll(t, q, o), reg, n, p);
        DropOfRank(Live(t, q, o), reg, n, p);
    }
  }

  /** The first of the registrations that are live: none of them has a longer lower bound, none with as long a bound a
      lesser priority, and of those with its bound's length and its priority it arrived first. */
  predicate IsActive(a: Reg, live: seq<Reg>) {
    && a in live && (forall r :: r in live ==> Outranks(a, r))
    && var same := OfRank(live, |a.region.lower|, a.priority); same != [] && same[0] == a
  }

  /** In a run that keeps stored bounds disjoint and grants every registration its region, the owners of every object
      are at all times the registrations live for it, ranked, and the active one is first. */
  lemma RunActive(t: seq<Ent>, es: seq<Event>, k: nat, o: Oid)
    requires Ordered(t) && Disjoint(t) && AllRanked(t) && k <= |es| && GrantsAll(t, es)
    ensures var l, live := Owner(After(t, es[..k]), o), Live(t, es[..k], o);
      && Ranked(l) && (forall n, p :: OfRank(l, n, p) == OfRank(live, n, p)) && (forall r :: r in l <==> r in live)
      && (l != [] ==> IsActive(l[0], live))
  {
    hide Ordered, Disjoint, Clean, Granted, After, Owner, Ranked, OfRank, AskedAll, Live, Outranks;
    var l, live := Owner(After(t, es[..k]), o), Live(t, es[..k], o);
    OwnerRanked(t, o);
    RunOwners(t, es);
    assert AsAsked(t, es, k);
    forall n, p ensures OfRank(l, n, p) == OfRank(live, n, p) && Ranked(l) {
      AskedRanked(t, es[..k], o, n, p);
    }
    forall r ensures r in l <==> r in live {
      InRank(l, r);
      InRank(live, r);
    }
    assert OfRank(l, 0, 0) == OfRank(live, 0, 0);
    if l != [] {
      FirstOfRank(l);
      FirstOutranks(l);
    }
  }

  lemma FirstOutranks(l: seq<Reg>)
    requires Ranked(l) && l != []
    ensures forall r :: r in l ==> Outranks(l[0], r)
  {
  }
}
