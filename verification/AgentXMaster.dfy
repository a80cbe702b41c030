/** The master's registration and unregistration as they run, tied to their value forms. */
module AgentXMaster {
  import opened OidOrder
  import opened AgentXRegions
  import opened AgentXOwnership
  import opened AgentXRegistration
  import opened AgentXUnregistration
  import opened AgentXRuns

  // ---------- taking entries out by key ----------

  function Without(t: seq<Ent>, victims: seq<Oid>): seq<Ent> {
    if t == [] then []
    else Without(t[..|t| - 1], victims) + if t[|t| - 1].key in victims then [] else [t[|t| - 1]]
  }

  lemma {:induction false} WithoutTwice(t: seq<Ent>, vs: seq<Oid>, k: Oid)
    ensures Without(Without(t, vs), [k]) == Without(t, vs + [k])
  {
    if t != [] {
      var p, x := t[..|t| - 1], t[|t| - 1];
      WithoutTwice(p, vs, k);
      var w := Without(p, vs);
      assert (w + [x])[..|w|] == w && w + [] == w;
      assert Without(w + [x], [k]) == Without(w, [k]) + if x.key in [k] then [] else [x];
    }
  }

  lemma {:induction false} WithoutNone(t: seq<Ent>)
    ensures Without(t, []) == t
  {
    if t != [] {
      WithoutNone(t[..|t| - 1]);
    }
  }

  lemma {:induction false} WithoutOther(t: seq<Ent>, vs: seq<Oid>, k: Oid)
    requires KeysBelow(t, k)
    ensures Without(t, vs + [k]) == Without(t, vs)
  {
    hide Less;
    LessOrder();
    if t != [] {
      assert t[|t| - 1] in t;
      WithoutOther(t[..|t| - 1], vs, k);
    }
  }

  /** Changing an entry that stays changes it in what stays. */
  lemma {:induction false} WithoutUpdate(t: seq<Ent>, vs: seq<Oid>, l: nat, e: Ent)
    requires l < |t| && t[l].key !in vs && e.key == t[l].key
    ensures |Without(t[..l], vs)| < |Without(t, vs)| && Without(t, vs)[|Without(t[..l], vs)|] == t[l]
    ensures Without(t[l := e], vs) == Without(t, vs)[|Without(t[..l], vs)| := e]
  {
    var p, x := t[..|t| - 1], t[|t| - 1];
    if l == |t| - 1 {
      assert t[l := e][..l] == t[..l];
    } else {
      WithoutUpdate(p, vs, l, e);
      assert p[..l] == t[..l] && t[l := e][..|t| - 1] == p[l := e];
    }
  }

  lemma WithoutOneMore(t: seq<Ent>, i: nat, vs: seq<Oid>)
    requires i < |t|
    ensures Without(t[..i + 1], vs) == Without(t[..i], vs) + if t[i].key in vs then [] else [t[i]]
  {
    assert t[..i + 1][..i] == t[..i];
  }

  // ---------- the list of registrations ----------

  function Erase(l: seq<Reg>, r: Reg): seq<Reg> {
    if l == [] then [] else (if l[0] == r then [] else [l[0]]) + Erase(l[1..], r)
  }

  lemma {:induction false} EraseAt(l: seq<Reg>, n: nat, r: Reg)
    requires n < |l|
    ensures l[n] == r ==> Erase(l, r) == Erase(l[..n] + l[n + 1..], r)
  {
    var m := l[..n] + l[n + 1..];
    if l[n] == r {
      if n == 0 {
        assert m == l[1..];
      } else {
        EraseAt(l[1..], n - 1, r);
        assert m[1..] == l[1..][..n - 1] + l[1..][n..];
      }
    }
  }

  lemma {:induction false} EraseAbsent(l: seq<Reg>, r: Reg)
    ensures r !in Erase(l, r) && (r !in l ==> Erase(l, r) == l)
  {
    if l != [] {
      EraseAbsent(l[1..], r);
    }
  }

  /** The pass in place and its value form: what is not a victim stays, and `last` is the same entry in both. */
  predicate Matches(t: seq<Ent>, victims: seq<Oid>, last: int, s: Sweep) {
    && last < |t| && s.out == Without(t, victims)
    && (if last < 0 then s.last < 0
        else t[last].key !in victims && s.last == |Without(t[..last], victims)| && t[last].agentx)
  }

  lemma MatchesInRange(t: seq<Ent>, vs: seq<Oid>, last: int, s: Sweep)
    requires Matches(t, vs, last, s)
    ensures last < |t| && s.last < |s.out| && (last >= 0 <==> s.last >= 0)
    ensures last >= 0 ==> s.out[s.last] == t[last] && t[last].agentx
  {
    if last >= 0 {
      WithoutUpdate(t, vs, last, t[last]);
    }
  }

  lemma MatchesKeep(t: seq<Ent>, vs: seq<Oid>, last: int, s: Sweep, e: Ent)
    requires Matches(t, vs, last, s) && e.key !in vs
    ensures Matches(t + [e], vs, last, Sweep(s.out + [e], s.last))
    ensures e.agentx ==> Matches(t + [e], vs, |t|, Sweep(s.out + [e], |s.out|))
  {
    WithoutOneMore(t + [e], |t|, vs);
    assert (t + [e])[..|t|] == t && (t + [e])[..|t| + 1] == t + [e];
    if last >= 0 {
      assert (t + [e])[..last] == t[..last];
    }
  }

  lemma MatchesDrop(t: seq<Ent>, vs: seq<Oid>, last: int, s: Sweep, e: Ent)
    requires Matches(t, vs, last, s) && KeysBelow(t, e.key)
    ensures Matches(t + [e], vs + [e.key], last, s)
  {
    WithoutOneMore(t + [e], |t|, vs + [e.key]);
    assert (t + [e])[..|t|] == t && (t + [e])[..|t| + 1] == t + [e];
    WithoutOther(t, vs, e.key);
    if last >= 0 {
      assert (t + [e])[..last] == t[..last];
      assert forall x :: x in t[..last] ==> x in t;
      WithoutOther(t[..last], vs, e.key);
      assert t[last] in t;
      LessIrreflexive(e.key);
    }
  }

  lemma MatchesMerge(t: seq<Ent>, vs: seq<Oid>, last: nat, s: Sweep, l: Ent)
    requires Matches(t, vs, last, s) && l.key == t[last].key && l.agentx
    ensures s.last < |s.out| && s.out[s.last] == t[last]
    ensures Matches(t[last := l], vs, last, s.(out := s.out[s.last := l]))
  {
    WithoutUpdate(t, vs, last, l);
    assert t[last := l][..last] == t[..last];
  }

  class Master {
    var content: seq<Ent>
    var registrations: seq<Reg>

    constructor ()
      ensures content == [] && registrations == []
    {
      content, registrations := [], [];
    }

    method GetAffectedRegs(lo: Oid, hi: Oid) returns (ok: bool, first: nat, last: nat)
      ensures Affected(ok, first, last) == GetAffected(content, lo, hi)
    {
      ok, first, last := true, 0, 0;
      var start := Lower(content, lo);
      if start >= 0 {
        var entry := start;
        while entry < |content| && LessEq(content[entry].upper, lo)
          invariant start <= entry <= |content|
          invariant SkipBelow(content, entry, lo) == SkipBelow(content, start, lo)
        {
          entry := entry + 1;
        }
        first := entry;
        while entry < |content| && Less(content[entry].key, hi)
          invariant first <= entry <= |content|
          invariant Below(content, entry, hi) == Below(content, first, hi)
        {
          if !content[entry].agentx {
            ok := false;
            break;
          }
          entry := entry + 1;
        }
        last := entry;
      }
    }

    /** A range is registered value by value; any other region as it is. */
    method AddEntry(reg: Reg)
      requires reg.region.subid > 0 ==> RangeFits(reg.region)
      modifies this
      ensures registrations == old(registrations) + [reg]
      ensures reg.region.subid == 0 ==>
                content == Register(old(content), reg, reg.region.lower, reg.region.upper)
      ensures reg.region.subid > 0 ==>
                content == After(old(content), RangeEvents(reg, RangeEnd(reg.region)))
    {
      registrations := registrations + [reg];
      if reg.region.subid > 0 {
        AddRange(reg);
      } else {
        AddRegion(reg, reg.region.lower, reg.region.upper);
      }
    }

    method AddRange(reg: Reg)
      requires RangeFits(reg.region)
      modifies this`content
      ensures content == After(old(content), RangeEvents(reg, RangeEnd(reg.region)))
    {
      hide Register, NextPeer;
      var k := reg.region.subid - 1;
      var start, stop := reg.region.lower[k], reg.region.upper[k];
      var i: int := start;
      while i <= stop
        invariant start <= i && (i <= stop + 1 || i == start)
        invariant content == After(old(content), RangeEvents(reg, if i <= stop then i else RangeEnd(reg.region)))
        decreases stop - i
      {
        var root := reg.region.lower[k := i];
        AddRegion(reg, root, NextPeer(root));
        ghost var es := RangeEvents(reg, i);
        assert (es + [Registers(reg, root, NextPeer(root))])[..|es|] == es;
        i := i + 1;
      }
    }

    method AddRegion(reg: Reg, lo: Oid, hi: Oid)
      modifies this`content
      ensures content == Register(old(content), reg, lo, hi)
    {
      if LessEq(hi, lo) {
        LessTotal(lo, hi);
        return;
      }
      LessTotal(lo, hi);
      var ok, first, end := GetAffectedRegs(lo, hi);
      if ok {
        if first < end {
          var split := Split(reg, lo, hi, first, end);
          AddEach(split);
        } else {
          content := Add(content, Fresh(reg, lo, hi));
        }
      }
    }

    /** The loop over the affected entries: `r1` is what is left of the region, its upper bound stays. */
    method Split(reg: Reg, lo: Oid, hi: Oid, first: nat, end: nat) returns (splitted: seq<Ent>)
      requires first <= end <= |content|
      modifies this`content
      ensures var w := Walk(Scan(old(content), lo, hi, [], -1, false), first, end, reg, lo, hi);
        content == w.t && splitted == w.sp
    {
      splitted := [];
      var r1, last, done, i := lo, -1, false, first;
      ghost var walked := Walk(Scan(content, lo, hi, [], -1, false), first, end, reg, lo, hi);
      while i < end && !done
        invariant first <= i <= end <= |content| && last < |content|
        invariant Walk(Scan(content, r1, hi, splitted, last, done), i, end, reg, lo, hi) == walked
      {
        r1, splitted, last, done := SplitOne(reg, lo, hi, i, r1, splitted, last);
        i := i + 1;
      }
    }

    method SplitOne(reg: Reg, lo: Oid, hi: Oid, i: nat, r1: Oid, sp: seq<Ent>, last: int)
      returns (r1': Oid, sp': seq<Ent>, last': int, done: bool)
      requires i < |content| && last < |content|
      modifies this`content
      ensures Scan(content, r1', hi, sp', last', done)
           == Step(Scan(old(content), r1, hi, sp, last, false), i, reg, lo, hi)
    {
      hide Covers, Overlaps, Shrink, AddTo, Less;
      r1', sp', last', done := r1, sp, last, false;
      var r2 := content[i];
      if Covers(r2.key, r2.upper, r1, hi) {
        sp' := SplitCovering(reg, r1, hi, i, sp, last);
        done := true;
        return;
      } else if Covers(r1, hi, r2.key, r2.upper) {
        sp' := SplitCovered(reg, r1, hi, i, last, sp);
        r1' := r2.upper;
      } else if Overlaps(r1, hi, r2.key, r2.upper) && Less(r2.key, r1) {
        content := content[i := Shrink(content[i], r1)];
        var r2b := content[i].(key := r1, upper := r2.upper);
        sp' := sp + [AddTo(r2b, reg)];
        r1' := r2.upper;
      } else {
        sp' := SplitAbove(reg, r1, hi, i, sp, last);
        done := true;
        return;
      }
      if Less(r1', hi) {
        sp' := sp' + [Fresh(reg, r1', hi)];
      } else {
        sp' := sp' + [Fresh(reg, lo, hi)];
      }
      last' := i;
    }

    /** The affected entry starts inside `r1` and ends above it. */
    method SplitAbove(reg: Reg, r1: Oid, hi: Oid, i: nat, sp: seq<Ent>, ghost last: int) returns (sp': seq<Ent>)
      requires i < |content|
      modifies this`content
      ensures Scan(content, r1, hi, sp', last, true) == Head(Scan(old(content), r1, hi, sp, last, false), i, reg)
    {
      hide Shrink, AddReg;
      var r2 := content[i];
      content := content[i := Shrink(content[i], hi)];
      var r2b := content[i].(key := hi, upper := r2.upper);
      content := content[i := AddTo(content[i], reg)];
      sp' := sp + [r2b];
      var r1a := Fresh(reg, r1, r2.key);
      sp' := sp' + [r1a];
      assert sp' == sp + [r2b, r1a];
    }

    /** The affected entry covers `r1`. */
    method SplitCovering(reg: Reg, r1: Oid, hi: Oid, i: nat, sp: seq<Ent>, ghost last: int) returns (sp': seq<Ent>)
      requires i < |content|
      modifies this`content
      ensures Scan(content, r1, hi, sp', last, true) == Inside(Scan(old(content), r1, hi, sp, last, false), i, reg)
    {
      hide Shrink, AddReg;
      sp' := sp;
      var r2c := content[i].(key := hi);
      if content[i].key == r1 {
        content := content[i := Shrink(content[i], hi)];
        content := content[i := AddTo(content[i], reg)];
      } else {
        content := content[i := Shrink(content[i], r1)];
        var r2b := content[i].(key := r1, upper := hi);
        r2b := AddTo(r2b, reg);
        sp' := sp' + [r2b];
      }
      sp' := sp' + [r2c];
    }

    /** `r1` covers the affected entry. */
    method SplitCovered(reg: Reg, r1: Oid, hi: Oid, i: nat, last: int, sp: seq<Ent>) returns (sp': seq<Ent>)
      requires i < |content| && last < |content|
      modifies this`content
      ensures Scan(content, old(content[i].upper), hi, sp', last, false) ==
        Around(Scan(old(content), r1, hi, sp, last, false), i, reg)
    {
      hide Shrink, AddReg;
      sp' := sp;
      var r2 := content[i];
      var r1a := Fresh(reg, if last >= 0 then content[last].upper else r1, r2.key);
      if sp' != [] {
        sp' := sp'[|sp'| - 1 := Shrink(sp'[|sp'| - 1], r2.key)];
      }
      content := content[i := AddTo(content[i], reg)];
      assert sp' == ShrinkLast(sp, r2.key);
      if !(r1 == r2.key || (sp' != [] && sp'[|sp'| - 1].key == r1a.key && sp'[|sp'| - 1].upper == r1a.upper)) {
        sp' := sp' + [r1a];
      }
    }

    method AddEach(split: seq<Ent>)
      modifies this`content
      ensures content == AddAll(old(content), split)
    {
      var n := 0;
      while n < |split|
        invariant n <= |split| && content == AddAll(old(content), split[..n])
      {
        content := Add(content, split[n]);
        assert split[..n + 1][..n] == split[..n];
        n := n + 1;
      }
      assert split[..n] == split;
    }

    /** The pass over the context, the removal of what it collected, and the removal from the list of registrations. */
    method RemoveEntry(reg: Reg, covers: (Reg, Oid) -> bool) returns (found: bool)
      requires Ordered(content)
      modifies this
      ensures content == Unregister(old(content), reg, covers)
      ensures registrations == Erase(old(registrations), reg)
      ensures found <==> reg in old(registrations)
    {
      var victims := Collect(reg, covers);
      var v := 0;
      ghost var t := content;
      WithoutNone(t);
      while v < |victims|
        invariant v <= |victims| && content == Without(t, victims[..v]) && registrations == old(registrations)
      {
        WithoutTwice(t, victims[..v], victims[v]);
        assert victims[..v + 1] == victims[..v] + [victims[v]];
        content := Without(content, [victims[v]]);
        v := v + 1;
      }
      assert victims[..v] == victims;
      found := Forget(reg);
    }

    method Collect(reg: Reg, covers: (Reg, Oid) -> bool) returns (victims: seq<Oid>)
      requires Ordered(content)
      modifies this`content
      ensures Without(content, victims) == Unregister(old(content), reg, covers)
    {
      victims := [];
      var last, cr := -1, 0;
      ghost var t := content;
      while cr < |content|
        invariant cr <= |content| == |t| && last < cr
        invariant forall j :: 0 <= j < |t| ==> content[j].key == t[j].key
        invariant forall j :: cr <= j < |t| ==> content[j] == t[j]
        invariant forall v, j :: v in victims && cr <= j < |t| ==> Less(v, t[j].key)
        invariant Matches(content[..cr], victims, last, SweepAll(t[..cr], reg, covers))
      {
        LessIrreflexive(t[cr].key);
        assert t[..cr + 1][..cr] == t[..cr];
        last, victims := CollectOne(reg, covers, cr, last, victims, SweepAll(t[..cr], reg, covers));
        cr := cr + 1;
      }
      assert content[..cr] == content && t[..cr] == t;
    }

    /** One node of the pass: `last` is the last node of the master's that stays. */
    method CollectOne(reg: Reg, covers: (Reg, Oid) -> bool, cr: nat, last: int, victims: seq<Oid>, ghost s: Sweep)
      returns (last': int, victims': seq<Oid>)
      requires cr < |content| && Matches(content[..cr], victims, last, s)
      requires KeysBelow(content[..cr], content[cr].key) && content[cr].key !in victims
      modifies this`content
      ensures |content| == |old(content)| && last' <= cr && s.last < |s.out|
      ensures forall j :: 0 <= j < |content| ==> content[j].key == old(content[j].key)
      ensures content[cr + 1..] == old(content[cr + 1..])
      ensures victims' == victims || victims' == victims + [content[cr].key]
      ensures Matches(content[..cr + 1], victims', last', SweepOne(s, old(content[cr]), reg, covers))
    {
      hide DropReg, Without, Matches, KeysBelow, Less;
      last', victims' := last, victims;
      ghost var d := content[..cr];
      MatchesInRange(d, victims, last, s);
      if content[cr].agentx {
        content := content[cr := content[cr].(regs := DropReg(content[cr].regs, reg))];
        ghost var e := content[cr];
        assert content[..cr + 1] == d + [e];
        if content[cr].regs == [] {
          victims' := victims + [content[cr].key];
          MatchesDrop(d, victims, last, s, e);
        } else if last >= 0 && Continues(content[last], content[cr], covers) {
          victims' := victims + [content[cr].key];
          ghost var l := Expand(content[last], content[cr].upper);
          content := content[last := Expand(content[last], content[cr].upper)];
          MatchesDrop(d, victims, last, s, e);
          MatchesMerge(d + [e], victims', last, s, l);
          assert content[..cr + 1] == (d + [e])[last := l];
        } else {
          last' := cr;
          MatchesKeep(d, victims, last, s, e);
        }
      } else {
        assert content[..cr + 1] == d + [content[cr]];
        MatchesKeep(d, victims, last, s, content[cr]);
      }
    }

    method Forget(reg: Reg) returns (found: bool)
      modifies this`registrations
      ensures registrations == Erase(old(registrations), reg)
      ensures found <==> reg in old(registrations)
    {
      found := false;
      var r := 0;
      while r < |registrations|
        invariant r <= |registrations| && reg !in registrations[..r]
        invariant Erase(registrations, reg) == Erase(old(registrations), reg)
        invariant found || registrations == old(registrations)
        invariant found ==> reg in old(registrations)
        decreases |registrations| - r
      {
        if registrations[r] == reg {
          found := true;
          EraseAt(registrations, r, reg);
          registrations := registrations[..r] + registrations[r + 1..];
        } else {
          r := r + 1;
        }
      }
      EraseAbsent(registrations, reg);
    }
  }
}
