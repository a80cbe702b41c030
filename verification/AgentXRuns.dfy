/** Runs of registrations and unregistrations on one context. */
module AgentXRuns {
  import opened OidOrder
  import opened AgentXRegions
  import opened AgentXOwnership
  import opened AgentXRegistration
  import opened AgentXUnregistration

  /** `covers` decides about the merges of one unregistration. */
  datatype Event = Registers(reg: Reg, lo: Oid, hi: Oid) | Unregisters(reg: Reg, covers: (Reg, Oid) -> bool)

  function Apply(t: seq<Ent>, e: Event): seq<Ent> {
    match e
    case Registers(reg, lo, hi) => Register(t, reg, lo, hi)
    case Unregisters(reg, covers) => Unregister(t, reg, covers)
  }

  function After(t: seq<Ent>, es: seq<Event>): seq<Ent> {
    if |es| == 0 then t else Apply(After(t, es[..|es| - 1]), es[|es| - 1])
  }

  /** What an event asks for: the owners of an object after it, given those before. */
  function Asked(e: Event, l: seq<Reg>, o: Oid): seq<Reg> {
    match e
    case Registers(reg, lo, hi) => if LessEq(lo, o) && Less(o, hi) then AddReg(l, reg) else l
    case Unregisters(reg, _) => DropReg(l, reg)
  }

  /** What a run asks for; no table is looked at after the first. */
  function AskedAll(t: seq<Ent>, es: seq<Event>, o: Oid): seq<Reg> {
    if |es| == 0 then Owner(t, o) else Asked(es[|es| - 1], AskedAll(t, es[..|es| - 1], o), o)
  }

  /** The event leaves no entry reaching into a later one. */
  predicate Clean(t: seq<Ent>, e: Event) {
    e.Registers? && Less(e.lo, e.hi) ==> !Overhangs(t, e.lo, e.hi)
  }

  /** The table lets a registration have its whole region. */
  predicate Granted(t: seq<Ent>, e: Event) {
    e.Registers? && Less(e.lo, e.hi) ==> Reachable(t, e.lo, e.hi)
  }

  // ---------- one event ----------

  lemma DisjointIsBut(t: seq<Ent>, reg: Reg)
    requires Disjoint(t)
    ensures DisjointBut(t, reg)
  {
  }

  lemma ApplyDisjoint(t: seq<Ent>, e: Event)
    requires Ordered(t) && Disjoint(t)
    ensures Ordered(Apply(t, e)) && (Disjoint(Apply(t, e)) <==> Clean(t, e))
  {
    hide Less, Overhangs, Ordered, Disjoint, DisjointBut, Unregister, GetAffected, Owner;
    match e
    case Registers(reg, lo, hi) =>
      RegisterOwners(t, reg, lo, hi);
      if Less(lo, hi) {
        RegisterDisjoint(t, reg, lo, hi);
      }
    case Unregisters(reg, covers) =>
      DisjointIsBut(t, reg);
      UnregisterOwners(t, reg, covers);
  }

  /** On a disjoint table an event changes every owner list as asked exactly if the table grants it. */
  lemma ApplyOwners(t: seq<Ent>, e: Event)
    requires Ordered(t) && Disjoint(t)
    ensures (forall o :: Owner(Apply(t, e), o) == Asked(e, Owner(t, o), o)) <==> Granted(t, e)
  {
    hide Less, Ordered, Disjoint, DisjointBut, Unregister, Owner, Register, AddReg, DropReg, Reachable, Reached;
    match e
    case Registers(reg, lo, hi) =>
      RegisterOwners(t, reg, lo, hi);
      NotInside(t, lo, hi);
      if Less(lo, hi) {
        RegisterWholeRegion(t, reg, lo, hi);
      } else {
        NothingInside(lo, hi);
      }
    case Unregisters(reg, covers) =>
      DisjointIsBut(t, reg);
      UnregisterOwners(t, reg, covers);
  }

  lemma NotInside(t: seq<Ent>, lo: Oid, hi: Oid)
    ensures forall o :: Reached(t, lo, hi, o) ==> LessEq(lo, o) && Less(o, hi)
  {
  }

  lemma NothingInside(lo: Oid, hi: Oid)
    requires !Less(lo, hi)
    ensures forall o :: !(LessEq(lo, o) && Less(o, hi))
  {
    hide Less;
    LessOrder();
  }

  // ---------- runs ----------

  lemma AfterStep(t: seq<Ent>, es: seq<Event>, k: nat)
    requires k < |es|
    ensures After(t, es[..k + 1]) == Apply(After(t, es[..k]), es[k])
    ensures forall o :: AskedAll(t, es[..k + 1], o) == Asked(es[k], AskedAll(t, es[..k], o), o)
  {
    hide Apply, Asked, Owner;
    assert es[..k + 1][..k] == es[..k];
  }

  lemma {:induction false} CleanKeeps(t: seq<Ent>, es: seq<Event>, k: nat)
    requires Ordered(t) && Disjoint(t) && k <= |es|
    requires forall j :: 0 <= j < k ==> Clean(After(t, es[..j]), es[j])
    ensures Ordered(After(t, es[..k])) && Disjoint(After(t, es[..k]))
    decreases k
  {
    hide Apply, Clean, Ordered, Disjoint;
    if k > 0 {
      CleanKeeps(t, es, k - 1);
      AfterStep(t, es, k - 1);
      ApplyDisjoint(After(t, es[..k - 1]), es[k - 1]);
    }
  }

  /** The table stays disjoint throughout a run exactly if none of its registrations leaves an entry reaching into a
      later one. */
  lemma RunDisjoint(t: seq<Ent>, es: seq<Event>)
    requires Ordered(t) && Disjoint(t)
    ensures (forall k :: 0 <= k <= |es| ==> Disjoint(After(t, es[..k])))
      <==> (forall k :: 0 <= k < |es| ==> Clean(After(t, es[..k]), es[k]))
  {
    hide Apply, Clean, Ordered, Disjoint, After;
    if forall k :: 0 <= k < |es| ==> Clean(After(t, es[..k]), es[k]) {
      forall k | 0 <= k <= |es| ensures Disjoint(After(t, es[..k])) {
        CleanKeeps(t, es, k);
      }
    } else {
      var k := FirstUnclean(t, es);
      CleanKeeps(t, es, k);
      AfterStep(t, es, k);
      ApplyDisjoint(After(t, es[..k]), es[k]);
    }
  }

  lemma {:induction false} FirstUnclean(t: seq<Ent>, es: seq<Event>) returns (k: nat)
    requires exists j :: 0 <= j < |es| && !Clean(After(t, es[..j]), es[j])
    ensures k < |es| && !Clean(After(t, es[..k]), es[k])
    ensures forall j :: 0 <= j < k ==> Clean(After(t, es[..j]), es[j])
  {
    hide Clean, After;
    k := 0;
    while Clean(After(t, es[..k]), es[k])
      invariant k < |es| && forall j :: 0 <= j < k ==> Clean(After(t, es[..j]), es[j])
      decreases |es| - k
    {
      k := k + 1;
    }
  }

  /** After `k` events every object has the owners that those events ask for. */
  ghost predicate AsAsked(t: seq<Ent>, es: seq<Event>, k: nat) {
    k <= |es| && forall o :: Owner(After(t, es[..k]), o) == AskedAll(t, es[..k], o)
  }

  /** In a run whose tables stay disjoint, every object always has exactly the owners that the events ask for if and
      only if the tables grant every registration its whole region. */
  lemma RunOwners(t: seq<Ent>, es: seq<Event>)
    requires Ordered(t) && Disjoint(t)
    requires forall k :: 0 <= k < |es| ==> Clean(After(t, es[..k]), es[k])
    ensures (forall k :: 0 <= k <= |es| ==> AsAsked(t, es, k))
      <==> (forall k :: 0 <= k < |es| ==> Granted(After(t, es[..k]), es[k]))
  {
    hide Apply, Asked, Clean, Granted, Ordered, Disjoint, After, AskedAll, Owner, AsAsked;
    if forall k :: 0 <= k < |es| ==> Granted(After(t, es[..k]), es[k]) {
      forall k | 0 <= k <= |es| ensures AsAsked(t, es, k) {
        GrantedAsked(t, es, k);
      }
    }
    if forall k :: 0 <= k <= |es| ==> AsAsked(t, es, k) {
      forall k | 0 <= k < |es| ensures Granted(After(t, es[..k]), es[k]) {
        AskedGranted(t, es, k);
      }
    }
  }

  lemma AskedGranted(t: seq<Ent>, es: seq<Event>, k: nat)
    requires Ordered(t) && Disjoint(t) && k < |es| && AsAsked(t, es, k) && AsAsked(t, es, k + 1)
    requires forall j :: 0 <= j < |es| ==> Clean(After(t, es[..j]), es[j])
    ensures Granted(After(t, es[..k]), es[k])
  {
    hide Apply, Asked, Clean, Granted, Ordered, Disjoint, After, AskedAll, Owner;
    CleanKeeps(t, es, k);
    AfterStep(t, es, k);
    ApplyOwners(After(t, es[..k]), es[k]);
  }

  lemma {:induction false} GrantedAsked(t: seq<Ent>, es: seq<Event>, k: nat)
    requires Ordered(t) && Disjoint(t) && k <= |es|
    requires forall j :: 0 <= j < |es| ==> Clean(After(t, es[..j]), es[j]) && Granted(After(t, es[..j]), es[j])
    ensures AsAsked(t, es, k)
    decreases k
  {
    hide Apply, Asked, Clean, Granted, Ordered, Disjoint, Owner;
    if k > 0 {
      GrantedAsked(t, es, k - 1);
      CleanKeeps(t, es, k - 1);
      AfterStep(t, es, k - 1);
      ApplyOwners(After(t, es[..k - 1]), es[k - 1]);
    }
  }

  // ---------- range registrations ----------

  /** A range varies one sub-identifier from that of the lower bound to that of the upper one, and every root it gives
      has a next peer. */
  predicate RangeFits(r: Region) {
    && 0 < r.subid <= |r.lower| && r.subid <= |r.upper| && r.upper[r.subid - 1] < SUBID_MAX
    && (r.subid < |r.lower| ==> r.lower[|r.lower| - 1] < SUBID_MAX)
  }

  function Root(r: Region, i: SubId): Oid
    requires 0 < r.subid <= |r.lower|
  {
    r.lower[r.subid - 1 := i]
  }

  function NextPeer(root: Oid): Oid
    requires |root| > 0 && root[|root| - 1] < SUBID_MAX
  {
    root[|root| - 1 := root[|root| - 1] + 1]
  }

  /** The registrations of the first values of a range, those below `n`. */
  function RangeEvents(reg: Reg, n: int): seq<Event>
    requires RangeFits(reg.region) && n <= reg.region.upper[reg.region.subid - 1] + 1
    decreases n
  {
    if n <= reg.region.lower[reg.region.subid - 1] then []
    else
      var root := Root(reg.region, n - 1);
      RangeEvents(reg, n - 1) + [Registers(reg, root, NextPeer(root))]
  }

  /** The objects under one of the first roots. */
  predicate UnderRange(r: Region, n: int, o: Oid)
    requires RangeFits(r)
  {
    && |o| >= |r.lower| && r.lower[r.subid - 1] <= o[r.subid - 1] < n
    && o[..|r.lower|] == r.lower[r.subid - 1 := o[r.subid - 1]]
  }

  lemma UnderOnly(p: Oid, x: SubId, o: Oid)
    requires x < SUBID_MAX && LessEq(p + [x], o) && Less(o, p + [x + 1])
    ensures |o| > |p| && o[..|p| + 1] == p + [x]
  {
    hide Less, LessEq;
    BetweenPrefix(p, [x], [x + 1], o);
    BetweenPeers(x, o[|p|..]);
    assert o[..|p| + 1] == o[..|p|] + [o[|p|..][0]];
  }

  lemma UnderAll(p: Oid, x: SubId, q: Oid)
    requires x < SUBID_MAX
    ensures LessEq(p + [x], p + ([x] + q)) && Less(p + ([x] + q), p + [x + 1])
  {
    hide Less;
    LessHead(x, q, x + 1, []);
    assert [x + 1] + [] == [x + 1];
    LessPrefix(p, [x] + q, [x + 1]);
    if q == [] {
      assert [x] + q == [x];
    } else {
      PrefixLess(p + [x], q);
      assert p + [x] + q == p + ([x] + q);
    }
  }

  /** Between a root and its next peer lie the root and what is under it. */
  lemma UnderRoot(root: Oid, o: Oid)
    requires |root| > 0 && root[|root| - 1] < SUBID_MAX
    ensures LessEq(root, o) && Less(o, NextPeer(root)) <==> |o| >= |root| && o[..|root|] == root
  {
    hide Less, LessEq;
    var p, x := root[..|root| - 1], root[|root| - 1];
    assert root == p + [x] && NextPeer(root) == p + [x + 1];
    UnderPeer(p, x, o);
  }

  lemma UnderPeer(p: Oid, x: SubId, o: Oid)
    requires x < SUBID_MAX
    ensures LessEq(p + [x], o) && Less(o, p + [x + 1]) <==> |o| > |p| && o[..|p| + 1] == p + [x]
  {
    hide Less, LessEq;
    if LessEq(p + [x], o) && Less(o, p + [x + 1]) {
      UnderOnly(p, x, o);
    }
    if |o| > |p| && o[..|p| + 1] == p + [x] {
      UnderAll(p, x, o[|p| + 1..]);
      Rejoined(p, x, o);
    }
  }

  lemma Rejoined(p: Oid, x: SubId, o: Oid)
    requires |o| > |p| && o[..|p| + 1] == p + [x]
    ensures o == p + ([x] + o[|p| + 1..])
  {
    assert o == o[..|p| + 1] + o[|p| + 1..];
  }

  lemma BetweenPeers(x: SubId, q: Oid)
    requires x < SUBID_MAX && LessEq([x], q) && Less(q, [x + 1])
    ensures |q| > 0 && q[0] == x
  {
  }

  lemma AskedMore(t: seq<Ent>, es: seq<Event>, e: Event, o: Oid)
    ensures AskedAll(t, es + [e], o) == Asked(e, AskedAll(t, es, o), o)
  {
    hide Owner, Asked;
    assert (es + [e])[..|es|] == es;
  }

  lemma {:induction false} RangeAsked(t: seq<Ent>, reg: Reg, n: int, o: Oid)
    requires RangeFits(reg.region) && n <= reg.region.upper[reg.region.subid - 1] + 1
    ensures AskedAll(t, RangeEvents(reg, n), o) ==
      if UnderRange(reg.region, n, o) then AddReg(Owner(t, o), reg) else Owner(t, o)
    decreases n
  {
    hide Less, Owner, AddReg, NextPeer, UnderRange, Asked;
    var r := reg.region;
    if n <= r.lower[r.subid - 1] {
      NoneUnder(r, n, o);
    } else {
      hide AskedAll;
      RangeAsked(t, reg, n - 1, o);
      var root := Root(r, n - 1);
      AskedMore(t, RangeEvents(reg, n - 1), Registers(reg, root, NextPeer(root)), o);
      AskedUnder(reg, root, AskedAll(t, RangeEvents(reg, n - 1), o), o);
      OneMoreUnder(r, n, o);
    }
  }

  lemma AskedUnder(reg: Reg, root: Oid, l: seq<Reg>, o: Oid)
    requires |root| > 0 && root[|root| - 1] < SUBID_MAX
    ensures Asked(Registers(reg, root, NextPeer(root)), l, o) ==
      if |o| >= |root| && o[..|root|] == root then AddReg(l, reg) else l
  {
    hide Less, AddReg, NextPeer;
    UnderRoot(root, o);
  }

  lemma NoneUnder(r: Region, n: int, o: Oid)
    requires RangeFits(r) && n <= r.lower[r.subid - 1]
    ensures !UnderRange(r, n, o)
  {
  }

  /** An object is under at most one root of a range. */
  lemma OneMoreUnder(r: Region, n: int, o: Oid)
    requires RangeFits(r) && r.lower[r.subid - 1] < n <= r.upper[r.subid - 1] + 1
    ensures var under := |o| >= |r.lower| && o[..|r.lower|] == Root(r, n - 1);
      (UnderRange(r, n, o) <==> under || UnderRange(r, n - 1, o)) && !(under && UnderRange(r, n - 1, o))
  {
    if |o| >= |r.lower| {
      assert o[..|r.lower|][r.subid - 1] == o[r.subid - 1];
      assert Root(r, n - 1)[r.subid - 1] == n - 1;
    }
  }

  /** The whole range. */
  function RangeEnd(r: Region): int
    requires RangeFits(r)
  {
    r.upper[r.subid - 1] + 1
  }

  predicate GrantsAll(t: seq<Ent>, es: seq<Event>) {
    forall k :: 0 <= k < |es| ==> Clean(After(t, es[..k]), es[k]) && Granted(After(t, es[..k]), es[k])
  }

  /** A range registration that every table on the way grants makes its session an owner of everything under the roots
      of its range, once, and changes no other owner list; taking it back restores all of them. */
  lemma RangeOwners(t: seq<Ent>, reg: Reg, covers: (Reg, Oid) -> bool)
    requires Ordered(t) && Disjoint(t) && RangeFits(reg.region)
    requires GrantsAll(t, RangeEvents(reg, RangeEnd(reg.region)))
    ensures var u := After(t, RangeEvents(reg, RangeEnd(reg.region)));
      && Ordered(u) && Disjoint(u)
      && (forall o :: Owner(u, o) ==
                      if UnderRange(reg.region, RangeEnd(reg.region), o) then AddReg(Owner(t, o), reg) else Owner(t, o))
      && ((forall o :: reg !in Owner(t, o)) ==> forall o :: Owner(Unregister(u, reg, covers), o) == Owner(t, o))
  {
    hide Less, Ordered, Disjoint, Owner, AddReg, DropReg, Clean, Granted, After, Unregister, UnderRange, RangeEvents;
    var es := RangeEvents(reg, RangeEnd(reg.region));
    var u := After(t, es);
    assert es[..|es|] == es;
    CleanKeeps(t, es, |es|);
    RunOwners(t, es);
    assert AsAsked(t, es, |es|);
    forall o ensures
        Owner(u, o) == if UnderRange(reg.region, RangeEnd(reg.region), o) then AddReg(Owner(t, o), reg) else Owner(t, o)
    {
      RangeAsked(t, reg, RangeEnd(reg.region), o);
    }
    DisjointIsBut(u, reg);
    UnregisterOwners(u, reg, covers);
    forall o | reg !in Owner(t, o) ensures DropReg(Owner(u, o), reg) == Owner(t, o) {
      DropAdded(Owner(t, o), reg);
      DropAbsent(Owner(t, o), reg);
    }
  }
}
