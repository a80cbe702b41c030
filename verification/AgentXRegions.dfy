/** The master's table of registered regions as a value: lookup, registration, unregistration. */
module AgentXRegions {
  import opened OidOrder

  datatype Region = Region(lower: Oid, upper: Oid, subid: nat)

  /** A registration entry, as far as its equality and its order look at it. */
  datatype Reg = Reg(session: nat, region: Region, priority: nat, specific: nat, context: string)

  /** One entry of the context. For an entry of the master, `regs` lists the owners of [key, upper), active one
      first. */
  datatype Ent = Ent(key: Oid, upper: Oid, agentx: bool, regs: seq<Reg>)

  // ---------- ordered owner lists ----------

  predicate Precedes(a: Reg, b: Reg) {
    |a.region.lower| > |b.region.lower| || (|a.region.lower| == |b.region.lower| && a.priority < b.priority)
  }

  /** Insertion before the first entry that is strictly greater. */
  function AddReg(l: seq<Reg>, r: Reg): seq<Reg> {
    if l == [] then [r]
    else if Precedes(r, l[0]) then [r] + l
    else [l[0]] + AddReg(l[1..], r)
  }

  /** Removal of the first equal entry. */
  function DropReg(l: seq<Reg>, r: Reg): seq<Reg> {
    if l == [] then []
    else if l[0] == r then l[1..]
    else [l[0]] + DropReg(l[1..], r)
  }

  lemma {:induction false} DropAdded(l: seq<Reg>, r: Reg)
    requires r !in l
    ensures DropReg(AddReg(l, r), r) == l && AddReg(l, r) != l
    ensures multiset(AddReg(l, r)) == multiset(l) + multiset{r}
  {
    hide Precedes;
    if l != [] {
      assert l == [l[0]] + l[1..];
      if !Precedes(r, l[0]) {
        DropAdded(l[1..], r);
        assert AddReg(l, r)[1..] == AddReg(l[1..], r);
      } else {
        assert AddReg(l, r)[1..] == l;
      }
    }
  }

  // ---------- the table ----------

  predicate Ordered(t: seq<Ent>) {
    forall i, j :: 0 <= i < j < |t| ==> Less(t[i].key, t[j].key)
  }

  /** No entry reaches into a later one. Entries may be empty: leaves are, and splitting leaves empty ones behind. */
  predicate Disjoint(t: seq<Ent>) {
    && (forall i, j :: 0 <= i < j < |t| ==> LessEq(t[i].upper, t[j].key))
    && (forall i :: 0 <= i < |t| ==> LessEq(t[i].key, t[i].upper))
  }

  function Keys(t: seq<Ent>): (ks: seq<Oid>)
    ensures |ks| == |t| && forall i :: 0 <= i < |t| ==> ks[i] == t[i].key
  {
    seq(|t|, i requires 0 <= i < |t| => t[i].key)
  }

  /** Lookup of the entry with the greatest key not above `o`: -1 if there is none. */
  function Lower(t: seq<Ent>, o: Oid): (i: int)
    ensures -1 <= i < |t|
  {
    LastNotAbove(Keys(t), o)
  }

  /** The owners of an object: those of the entry found for it, if it reaches that far. */
  function Owner(t: seq<Ent>, o: Oid): seq<Reg> {
    var i := Lower(t, o);
    if i >= 0 && t[i].agentx && Less(o, t[i].upper) then t[i].regs else []
  }

  /** Adding an entry to the context; a key that is taken is refused. */
  function Add(t: seq<Ent>, e: Ent): seq<Ent> {
    if t == [] then [e]
    else
      var l := t[|t| - 1];
      if l.key == e.key then t
      else if Less(l.key, e.key) then t + [e]
      else Add(t[..|t| - 1], e) + [l]
  }

  function AddAll(t: seq<Ent>, sp: seq<Ent>): seq<Ent> {
    if sp == [] then t else Add(AddAll(t, sp[..|sp| - 1]), sp[|sp| - 1])
  }

  // ---------- regions ----------

  predicate InSubtree(o: Oid, root: Oid) {
    |o| > |root| && o[..|root|] == root
  }

  predicate Covers(lo: Oid, hi: Oid, lo': Oid, hi': Oid) {
    if lo == hi then InSubtree(lo', lo) else LessEq(lo, lo') && LessEq(hi', hi)
  }

  predicate Overlaps(lo: Oid, hi: Oid, lo': Oid, hi': Oid) {
    if lo == hi then InSubtree(lo', lo) else Less(lo, hi') && Less(lo', hi)
  }

  function Shrink(e: Ent, u: Oid): Ent {
    if LessEq(e.key, u) && LessEq(u, e.upper) then e.(upper := u) else e
  }

  function AddTo(e: Ent, r: Reg): Ent {
    e.(regs := AddReg(e.regs, r))
  }

  function Fresh(r: Reg, lo: Oid, hi: Oid): Ent {
    Ent(lo, hi, true, [r])
  }

  // ---------- registration ----------

  /** The first entry that can overlap [lo, ..): the one found for `lo`, unless it ends before. */
  function SkipBelow(t: seq<Ent>, i: nat, lo: Oid): (j: nat)
    requires i <= |t|
    ensures i <= j <= |t|
    decreases |t| - i
  {
    if i < |t| && LessEq(t[i].upper, lo) then SkipBelow(t, i + 1, lo) else i
  }

  function Below(t: seq<Ent>, i: nat, hi: Oid): (j: nat)
    requires i <= |t|
    ensures i <= j <= |t|
    decreases |t| - i
  {
    if i < |t| && Less(t[i].key, hi) && t[i].agentx then Below(t, i + 1, hi) else i
  }

  /** The affected entries are those at positions first .. last; `ok` is false if one of them is not the master's. */
  datatype Affected = Affected(ok: bool, first: nat, last: nat)

  function GetAffected(t: seq<Ent>, lo: Oid, hi: Oid): (a: Affected)
    ensures a.first <= a.last <= |t|
  {
    var i := Lower(t, lo);
    if i < 0 then Affected(true, 0, 0)
    else
      var s := SkipBelow(t, i, lo);
      var e := Below(t, s, hi);
      Affected(!(e < |t| && Less(t[e].key, hi)), s, e)
  }

  /** The loop's variables: the table, the rest of the region, the entries to be added, the last entry seen. */
  datatype Scan = Scan(t: seq<Ent>, lo: Oid, hi: Oid, sp: seq<Ent>, last: int, stop: bool)

  /** `r1` lies in the affected entry. The part above `r1` is added even when it is empty: a node never counts as
      empty. */
  function Inside(s: Scan, i: nat, reg: Reg): Scan
    requires i < |s.t|
  {
    var e := s.t[i];
    var r2c := e.(key := s.hi);
    var (e', sp) :=
      if e.key == s.lo then (AddTo(Shrink(e, s.hi), reg), s.sp)
      else (Shrink(e, s.lo), s.sp + [AddTo(Shrink(e, s.lo).(key := s.lo, upper := s.hi), reg)]);
    s.(t := s.t[i := e'], sp := sp + [r2c], stop := true)
  }

  function ShrinkLast(sp: seq<Ent>, u: Oid): seq<Ent> {
    if sp == [] then [] else sp[|sp| - 1 := Shrink(sp[|sp| - 1], u)]
  }

  /** The affected entry lies in `r1`. */
  function Around(s: Scan, i: nat, reg: Reg): Scan
    requires i < |s.t| && s.last < |s.t|
  {
    var e := s.t[i];
    var gap := Fresh(reg, if s.last >= 0 then s.t[s.last].upper else s.lo, e.key);
    var sp := ShrinkLast(s.sp, e.key);
    var drop := s.lo == e.key || (sp != [] && sp[|sp| - 1].key == gap.key && sp[|sp| - 1].upper == gap.upper);
    s.(t := s.t[i := AddTo(e, reg)], sp := if drop then sp else sp + [gap], lo := e.upper)
  }

  /** The affected entry starts below `r1` and ends inside it. */
  function Tail(s: Scan, i: nat, reg: Reg): Scan
    requires i < |s.t|
  {
    var e := s.t[i];
    var e' := Shrink(e, s.lo);
    s.(t := s.t[i := e'], sp := s.sp + [AddTo(e'.(key := s.lo, upper := e.upper), reg)], lo := e.upper)
  }

  /** The affected entry starts inside `r1` and ends above it. */
  function Head(s: Scan, i: nat, reg: Reg): Scan
    requires i < |s.t|
  {
    var e := s.t[i];
    var e' := Shrink(e, s.hi);
    s.(t := s.t[i := AddTo(e', reg)],
       sp := s.sp + [e'.(key := s.hi, upper := e.upper), Fresh(reg, s.lo, e.key)],
       stop := true)
  }

  function Step(s: Scan, i: nat, reg: Reg, lo: Oid, hi: Oid): (s': Scan)
    requires i < |s.t| && s.last < |s.t|
    ensures |s'.t| == |s.t| && s'.last < |s.t|
  {
    var e := s.t[i];
    if Covers(e.key, e.upper, s.lo, s.hi) then Inside(s, i, reg)
    else if !Covers(s.lo, s.hi, e.key, e.upper) && !(Overlaps(s.lo, s.hi, e.key, e.upper) && Less(e.key, s.lo)) then
      Head(s, i, reg)
    else
      var n := if Covers(s.lo, s.hi, e.key, e.upper) then Around(s, i, reg) else Tail(s, i, reg);
      var rest := if Less(n.lo, n.hi) then Fresh(reg, n.lo, n.hi) else Fresh(reg, lo, hi);
      n.(sp := n.sp + [rest], last := i)
  }

  function Walk(s: Scan, i: nat, end: nat, reg: Reg, lo: Oid, hi: Oid): Scan
    requires i <= end <= |s.t| && s.last < |s.t|
    decreases end - i
  {
    if i == end || s.stop then s else Walk(Step(s, i, reg, lo, hi), i + 1, end, reg, lo, hi)
  }

  /** Registration of one region without a range. */
  function Register(t: seq<Ent>, reg: Reg, lo: Oid, hi: Oid): seq<Ent> {
    if !Less(lo, hi) then t
    else
      var a := GetAffected(t, lo, hi);
      if !a.ok then t
      else if a.first == a.last then Add(t, Fresh(reg, lo, hi))
      else
        var s := Walk(Scan(t, lo, hi, [], -1, false), a.first, a.last, reg, lo, hi);
        AddAll(s.t, s.sp)
  }
}
