/** GETNEXT over a context of leaves and tables, and what it answers. */
module MibSearch {
  import opened OidOrder
  import opened MibTables

  datatype Entry = Leaf(oid: Oid) | Tabular(table: Table) {

    function Key(): Oid {
      match this
      case Leaf(oid) => oid
      case Tabular(table) => table.key
    }

    /** The upper bound: the key of a leaf, the next sibling of a table's entry object. */
    function MaxKey(): Oid
      requires WellFormed()
    {
      match this
      case Leaf(oid) => oid
      case Tabular(table) => NextPeer(table.key)
    }

    predicate WellFormed() {
      && |Key()| > 0
      && (Tabular? ==> table.WellFormed() && table.key[|table.key| - 1] < SUBID_MAX)
    }

    predicate IsEmpty() {
      Tabular? && table.rows == []
    }

    /** The readable instances of the entry. */
    ghost predicate Instance(x: Oid)
      requires WellFormed()
    {
      match this
      case Leaf(oid) => x == oid
      case Tabular(table) => exists p :: table.Has(p) && table.Open(p) && table.Cell(p) == x
    }
  }

  function NextPeer(o: Oid): Oid
    requires |o| > 0 && o[|o| - 1] < SUBID_MAX
  {
    o[..|o| - 1] + [o[|o| - 1] + 1]
  }

  predicate RootOf(r: Oid, o: Oid) {
    |r| < |o| && o[..|r|] == r
  }

  /** A context: keys ascend, and no table reaches over the key of a later entry. */
  ghost predicate Context(t: seq<Entry>) {
    && (forall i :: 0 <= i < |t| ==> t[i].WellFormed())
    && (forall i, j :: 0 <= i < j < |t| ==> Less(t[i].Key(), t[j].Key()) && LessEq(t[i].MaxKey(), t[j].Key()))
  }

  // ---------- the search ----------

  function KeysOf(t: seq<Entry>): (ks: seq<Oid>)
    ensures |ks| == |t| && forall i :: 0 <= i < |t| ==> ks[i] == t[i].Key()
  {
    seq(|t|, i requires 0 <= i < |t| => t[i].Key())
  }

  /** The entry with the greatest key not above `o`, -1 if there is none. */
  function FindLower(t: seq<Entry>, o: Oid): (i: int)
    ensures -1 <= i < |t|
  {
    LastNotAbove(KeysOf(t), o)
  }

  function FindUpper(t: seq<Entry>, o: Oid): (j: nat)
    ensures j <= |t|
  {
    var i := FindLower(t, o);
    if i >= 0 && t[i].Key() == o then i else i + 1
  }

  datatype Managing = Success(i: nat) | NoSuchInstance | NoSuchObject

  function FindManagingObject(t: seq<Entry>, o: Oid): (m: Managing)
    requires forall i :: 0 <= i < |t| ==> t[i].WellFormed()
    ensures m.Success? ==> m.i < |t|
  {
    var i := FindLower(t, o);
    if |o| == 0 || i < 0 then NoSuchObject
    else
      var e := t[i];
      assert e.WellFormed();
      if e.Key() == o ||
         (e.Tabular? && (RootOf(e.Key(), o) || (LessEq(e.Key(), o) && Less(o, e.MaxKey())))) then Success(i)
      else if e.Leaf? && RootOf(e.Key()[..|e.Key()| - 1], o) then NoSuchInstance
      else NoSuchObject
  }

  /** The first entry from `i` on that is not an empty table. */
  function SkipEmpty(t: seq<Entry>, i: nat): (j: nat)
    requires i <= |t|
    ensures i <= j <= |t|
    decreases |t| - i
  {
    if i < |t| && t[i].IsEmpty() then SkipEmpty(t, i + 1) else i
  }

  /** The entry to ask next, with the cell already found in it, if any. */
  datatype Next = Next(i: nat, found: Option<Pos>)

  function FindNextEntry(t: seq<Entry>, o: Oid): (n: Next)
    requires forall i :: 0 <= i < |t| ==> t[i].WellFormed()
    ensures n.i <= |t|
    ensures n.i < |t| && n.found.Some? ==> t[n.i].Tabular? && t[n.i].table.Has(n.found.value)
  {
    match FindManagingObject(t, o)
    case Success(i) =>
      if t[i].Tabular? && t[i].table.Succ(o).Some? then Next(i, t[i].table.Succ(o)) else Next(SkipEmpty(t, i + 1), None)
    case _ =>
      Next(SkipEmpty(t, FindUpper(t, o)), None)
  }

  type View = Oid -> bool

  /** From cell `p` on, the first readable cell in view. */
  function FirstInView(table: Table, view: View, p: Option<Pos>): (r: Option<Pos>)
    requires table.WellFormed() && (p.Some? ==> table.Has(p.value))
    ensures r.Some? ==> table.Has(r.value)
    decreases if p.Some? then |table.cols| - p.value.col else 0, if p.Some? then |table.rows| - p.value.row else 0
  {
    if p == None || view(table.Cell(p.value)) then p
    else
      SuccBehind(table, p.value);
      FirstInView(table, view, table.Succ(table.Cell(p.value)))
  }

  lemma SuccBehind(table: Table, p: Pos)
    requires table.WellFormed() && table.Has(p)
    ensures var n := table.Succ(table.Cell(p)); n.Some? ==> Before(p, n.value)
  {
    hide Less, Table.Cell, Table.Scan;
    ScanFinds(table, table.Cell(p), Pos(0, 0));
    var n := table.Succ(table.Cell(p));
    if n.Some? {
      CellOrder(table, p, n.value);
    }
  }

  datatype Access = Access(allowed: bool, oid: Oid)

  function NextAccess(e: Entry, view: View, o: Oid, found: Option<Pos>): Access
    requires e.WellFormed() && (found.Some? ==> e.Tabular? && e.table.Has(found.value))
  {
    match e
    case Leaf(oid) => Access(view(oid), oid)
    case Tabular(table) =>
      var p := FirstInView(table, view, if found.Some? then found else table.Succ(o));
      if p.Some? then Access(true, table.Cell(p.value)) else Access(false, e.MaxKey())
  }

  // ---------- what the search for an entry finds ----------

  lemma FindLowerSpec(t: seq<Entry>, o: Oid)
    ensures var i := FindLower(t, o);
      (i >= 0 ==> LessEq(t[i].Key(), o)) && forall j :: i < j < |t| ==> !LessEq(t[j].Key(), o)
  {
    hide Less, Entry.Key, KeysOf, LastNotAbove;
    LastNotAboveSpec(KeysOf(t), o);
    assert forall j :: 0 <= j < |t| ==> KeysOf(t)[j] == t[j].Key();
  }

  lemma {:induction false} SkipEmptySpec(t: seq<Entry>, i: nat)
    requires i <= |t|
    ensures forall j :: i <= j < SkipEmpty(t, i) ==> t[j].IsEmpty()
    ensures SkipEmpty(t, i) < |t| ==> !t[SkipEmpty(t, i)].IsEmpty()
    decreases |t| - i
  {
    if i < |t| && t[i].IsEmpty() {
      SkipEmptySpec(t, i + 1);
    }
  }

  /** The next sibling is above everything below the entry object. */
  lemma PeerAbove(key: Oid, a: Oid)
    requires |key| > 0 && key[|key| - 1] < SUBID_MAX
    ensures Less(key + a, NextPeer(key))
  {
    var p, l := key[..|key| - 1], key[|key| - 1];
    assert key + a == p + ([l] + a);
    assert NextPeer(key) == p + ([l + 1] + []);
    LessPrefix(p, [l] + a, [l + 1] + []);
    LessHead(l, a, l + 1, []);
  }

  lemma InstanceBounds(e: Entry, x: Oid)
    requires e.WellFormed() && e.Instance(x)
    ensures LessEq(e.Key(), x) && LessEq(x, e.MaxKey()) && (e.Tabular? ==> Less(e.Key(), x) && Less(x, e.MaxKey()))
    ensures !e.IsEmpty()
  {
    hide Less;
    if e.Tabular? {
      var p :| e.table.Has(p) && e.table.Open(p) && e.table.Cell(p) == x;
      var a := [e.table.cols[p.col]] + e.table.rows[p.row].index;
      PrefixLess(e.table.key, a);
      PeerAbove(e.table.key, a);
    }
  }

  lemma MaxKeyAbove(e: Entry)
    requires e.WellFormed()
    ensures LessEq(e.Key(), e.MaxKey()) && (e.Tabular? ==> Less(e.Key(), e.MaxKey()))
  {
    hide Less;
    if e.Tabular? {
      PeerAbove(e.table.key, []);
      assert e.table.key + [] == e.table.key;
    }
  }

  /** All instances of the entries before `i` are at or below `o`. */
  ghost predicate Done(t: seq<Entry>, o: Oid, i: nat)
    requires Context(t)
  {
    forall j, x :: 0 <= j < i && j < |t| && t[j].Instance(x) ==> LessEq(x, o)
  }

  lemma DoneBefore(t: seq<Entry>, o: Oid, i: nat)
    requires Context(t) && i < |t| && LessEq(t[i].Key(), o)
    ensures Done(t, o, i)
  {
    hide Less, Entry.Key, Entry.MaxKey, Entry.Instance, Entry.WellFormed;
    LessOrder();
    forall j, x | 0 <= j < i && t[j].Instance(x) ensures LessEq(x, o) {
      InstanceBounds(t[j], x);
    }
  }

  lemma DoneSkip(t: seq<Entry>, o: Oid, i: nat)
    requires Context(t) && i <= |t| && Done(t, o, i)
    ensures Done(t, o, SkipEmpty(t, i))
  {
    hide Less, Entry.Key, Entry.MaxKey, Entry.Instance, Entry.WellFormed, Entry.IsEmpty, SkipEmpty;
    SkipEmptySpec(t, i);
    forall j, x | 0 <= j < SkipEmpty(t, i) && t[j].Instance(x) ensures LessEq(x, o) {
      if i <= j {
        InstanceBounds(t[j], x);
      }
    }
  }

  /** The managing entry's own instances are done unless it is a table with a further cell. */
  lemma DoneManaging(t: seq<Entry>, o: Oid, i: nat)
    requires Context(t) && i < |t| && LessEq(t[i].Key(), o)
    requires t[i].Leaf? || LessEq(t[i].MaxKey(), o) || t[i].table.Succ(o) == None
    ensures Done(t, o, i + 1)
  {
    hide Less, Entry.Key, Entry.MaxKey, Table.Cell, Table.Scan;
    LessOrder();
    DoneBefore(t, o, i);
    forall x | t[i].Instance(x) ensures LessEq(x, o) {
      InstanceBounds(t[i], x);
      if t[i].Leaf? {
        LeafKey(t[i]);
      } else {
        ScanFinds(t[i].table, o, Pos(0, 0));
      }
    }
  }

  lemma LeafKey(e: Entry)
    requires e.Leaf?
    ensures e.Key() == e.oid
  {
  }

  /** What `FindNextEntry` finds: everything before the entry is done, the entry is not an empty table, and either it
      starts above `o` or the cell found in it is its next one. */
  ghost predicate Found(t: seq<Entry>, o: Oid, n: Next)
    requires Context(t)
  {
    && Done(t, o, n.i)
    && (n.i < |t| ==>
      && !t[n.i].IsEmpty() && Less(o, t[n.i].MaxKey())
      && if n.found.Some? then t[n.i].Tabular? && n.found == t[n.i].table.Succ(o) else Less(o, t[n.i].Key()))
  }

  lemma FoundAfter(t: seq<Entry>, o: Oid, i: nat)
    requires Context(t) && i <= |t| && Done(t, o, i) && forall j :: i <= j < |t| ==> !LessEq(t[j].Key(), o)
    ensures Found(t, o, Next(SkipEmpty(t, i), None))
  {
    hide Less, Entry.Key, Entry.MaxKey, Entry.Instance, Entry.WellFormed, Entry.IsEmpty, SkipEmpty, Done;
    LessOrder();
    DoneSkip(t, o, i);
    SkipEmptySpec(t, i);
    var j := SkipEmpty(t, i);
    if j < |t| {
      MaxKeyAbove(t[j]);
    }
  }

  lemma RootBelowPeer(t: Table, o: Oid)
    requires Tabular(t).WellFormed() && RootOf(t.key, o)
    ensures Less(o, NextPeer(t.key))
  {
    assert o == t.key + o[|t.key|..];
    PeerAbove(t.key, o[|t.key|..]);
  }

  lemma DoneNone(t: seq<Entry>, o: Oid)
    requires Context(t)
    ensures Done(t, o, 0)
  {
  }

  lemma KeyNotEmpty(e: Entry, o: Oid)
    requires e.WellFormed() && LessEq(e.Key(), o)
    ensures |o| > 0
  {
  }

  /** The entry at or below `o` manages it, or all its instances are done. */
  lemma ManagingSpec(t: seq<Entry>, o: Oid, i: nat)
    requires Context(t) && i == FindLower(t, o)
    ensures FindManagingObject(t, o) == Success(i) && t[i].Tabular? && t[i].table.Succ(o).Some? ==>
              Less(o, t[i].MaxKey())
    ensures FindManagingObject(t, o) != Success(i) || !(t[i].Tabular? && t[i].table.Succ(o).Some?) ==> Done(t, o, i + 1)
    ensures !FindManagingObject(t, o).Success? ==> FindUpper(t, o) == i + 1
  {
    hide Less, Entry.MaxKey, Entry.Instance, Done, Table.Scan, FindLower;
    LessOrder();
    FindLowerSpec(t, o);
    var e := t[i];
    assert e.WellFormed();
    KeyNotEmpty(e, o);
    DoneBefore(t, o, i);
    MaxKeyAbove(e);
    if e.Tabular? && RootOf(e.Key(), o) {
      RootBelowPeer(e.table, o);
      PeerIsMax(e);
    }
    if e.Leaf? || LessEq(e.MaxKey(), o) || e.table.Succ(o) == None {
      DoneManaging(t, o, i);
    }
  }

  lemma PeerIsMax(e: Entry)
    requires e.WellFormed() && e.Tabular?
    ensures e.MaxKey() == NextPeer(e.table.key)
  {
  }

  lemma NextEntrySpec(t: seq<Entry>, o: Oid)
    requires Context(t)
    ensures Found(t, o, FindNextEntry(t, o))
  {
    hide Less, Entry.MaxKey, Entry.Instance, Entry.IsEmpty, SkipEmpty, Done, Table.Succ, FindLower, FindUpper;
    LessOrder();
    FindLowerSpec(t, o);
    var i, m := FindLower(t, o), FindManagingObject(t, o);
    if i < 0 {
      DoneNone(t, o);
      NoneBelow(t, o);
      FoundAfter(t, o, 0);
    } else {
      ManagingSpec(t, o, i);
      DoneBefore(t, o, i);
      if m == Success(i) && t[i].Tabular? && t[i].table.Succ(o).Some? {
        SuccNotEmpty(t[i], o);
      } else {
        FoundAfter(t, o, i + 1);
      }
    }
  }

  lemma NoneBelow(t: seq<Entry>, o: Oid)
    requires Context(t) && FindLower(t, o) < 0
    ensures FindManagingObject(t, o) == NoSuchObject && FindUpper(t, o) == 0
  {
  }

  lemma SuccNotEmpty(e: Entry, o: Oid)
    requires e.WellFormed() && e.Tabular? && e.table.Succ(o).Some?
    ensures !e.IsEmpty()
  {
  }

  // ---------- access control inside a table ----------

  /** Cells before `p` are at or below `o`, closed, or out of view. */
  ghost predicate Refused(table: Table, view: View, o: Oid, p: Option<Pos>)
    requires table.WellFormed()
  {
    && (forall q | table.Has(q) && table.Open(q) && view(table.Cell(q)) && (p.Some? ==> Before(q, p.value)) ::
          LessEq(table.Cell(q), o))
    && (p.Some? ==> table.Has(p.value) && table.Open(p.value) && Less(o, table.Cell(p.value)))
  }

  lemma {:induction false} FirstInViewSpec(table: Table, view: View, o: Oid, p: Option<Pos>)
    requires table.WellFormed() && (p.Some? ==> table.Has(p.value)) && Refused(table, view, o, p)
    ensures var r := FirstInView(table, view, p);
      Refused(table, view, o, r) && (r.Some? ==> view(table.Cell(r.value)))
    decreases if p.Some? then |table.cols| - p.value.col else 0, if p.Some? then |table.rows| - p.value.row else 0
  {
    hide Less, Table.Cell, Table.Open, Table.Succ;
    LessOrder();
    if p.Some? && !view(table.Cell(p.value)) {
      var c := table.Cell(p.value);
      SuccBehind(table, p.value);
      RefusedFurther(table, view, o, p.value);
      FirstInViewSpec(table, view, o, table.Succ(c));
    }
  }

  lemma RefusedFurther(table: Table, view: View, o: Oid, p: Pos)
    requires table.WellFormed() && Refused(table, view, o, Some(p)) && !view(table.Cell(p))
    ensures Refused(table, view, o, table.Succ(table.Cell(p)))
  {
    hide Less, Table.Cell, Table.Open, Table.Scan;
    LessOrder();
    var c := table.Cell(p);
    ScanFinds(table, c, Pos(0, 0));
    forall q | table.Has(q) && table.Open(q) && view(table.Cell(q)) && LessEq(table.Cell(q), c)
      ensures LessEq(table.Cell(q), o)
    {
      CellOrder(table, p, q);
    }
  }

  lemma SuccRefused(table: Table, view: View, o: Oid)
    requires table.WellFormed()
    ensures Refused(table, view, o, table.Succ(o))
  {
    hide Less, Table.Cell, Table.Open, Table.Scan;
    ScanFinds(table, o, Pos(0, 0));
  }

  // ---------- the request ----------

  /** How many entries end at or below `o`. */
  function Passed(t: seq<Entry>, o: Oid): (n: nat)
    requires forall i :: 0 <= i < |t| ==> t[i].WellFormed()
    ensures n <= |t|
    ensures forall i :: 0 <= i < n ==> LessEq(t[i].MaxKey(), o)
    ensures n < |t| ==> !LessEq(t[n].MaxKey(), o)
  {
    PassedFrom(t, o, 0)
  }

  function PassedFrom(t: seq<Entry>, o: Oid, i: nat): (n: nat)
    requires i <= |t| && forall j :: 0 <= j < |t| ==> t[j].WellFormed()
    ensures i <= n <= |t|
    ensures forall j :: i <= j < n ==> LessEq(t[j].MaxKey(), o)
    ensures n < |t| ==> !LessEq(t[n].MaxKey(), o)
    decreases |t| - i
  {
    if i < |t| && LessEq(t[i].MaxKey(), o) then PassedFrom(t, o, i + 1) else i
  }

  lemma MaxKeysAscend(t: seq<Entry>, i: nat, j: nat)
    requires Context(t) && i <= j < |t|
    ensures LessEq(t[i].MaxKey(), t[j].MaxKey())
  {
    hide Less, Entry.MaxKey, Entry.Key;
    LessOrder();
    MaxKeyAbove(t[j]);
  }

  lemma PassedMore(t: seq<Entry>, o: Oid, i: nat)
    requires Context(t) && i < |t| && Less(o, t[i].MaxKey())
    ensures Passed(t, o) <= i < Passed(t, t[i].MaxKey())
  {
    hide Less, Passed, Entry.MaxKey, Entry.WellFormed, Entry.Key;
    LessOrder();
    var m := Passed(t, t[i].MaxKey());
    if m <= i {
      MaxKeysAscend(t, m, i);
    }
  }

  function GetNext(t: seq<Entry>, view: View, o: Oid): Option<Oid>
    requires Context(t)
    decreases |t| - Passed(t, o)
  {
    var n := FindNextEntry(t, o);
    if n.i == |t| then None
    else
      var a := NextAccess(t[n.i], view, o, n.found);
      if a.allowed then Some(a.oid)
      else
        NextEntrySpec(t, o);
        RefusedAtMaxKey(t[n.i], view, o, n.found);
        PassedMore(t, o, n.i);
        GetNext(t, view, a.oid)
  }

  lemma RefusedAtMaxKey(e: Entry, view: View, o: Oid, found: Option<Pos>)
    requires e.WellFormed() && (found.Some? ==> e.Tabular? && e.table.Has(found.value))
    ensures var a := NextAccess(e, view, o, found); !a.allowed ==> a.oid == e.MaxKey()
  {
  }

  // ---------- what GETNEXT answers ----------

  ghost predicate Accessible(t: seq<Entry>, view: View, x: Oid)
    requires Context(t)
  {
    view(x) && exists i :: 0 <= i < |t| && t[i].Instance(x)
  }

  /** `r` is the least accessible instance above `o`, or there is none. */
  ghost predicate IsAnswer(t: seq<Entry>, view: View, o: Oid, r: Option<Oid>)
    requires Context(t)
  {
    match r
    case None => forall x | Accessible(t, view, x) :: LessEq(x, o)
    case Some(y) =>
      Accessible(t, view, y) && Less(o, y) && forall x | Accessible(t, view, x) && Less(x, y) :: LessEq(x, o)
  }

  /** A leaf right at the upper bound of a table that has rows. */
  predicate HiddenLeaf(t: seq<Entry>, i: nat)
    requires forall j :: 0 <= j < |t| ==> t[j].WellFormed()
  {
    i + 1 < |t| && t[i].Tabular? && !t[i].IsEmpty() && t[i + 1].Leaf? && t[i + 1].Key() == t[i].MaxKey()
  }

  /** An instance above `o` belongs to entry `i` or lies at or above the key that follows it. */
  lemma InstanceFrom(t: seq<Entry>, o: Oid, i: nat, x: Oid)
    requires Context(t) && i < |t| && Done(t, o, i) && Less(o, x)
    requires exists j :: 0 <= j < |t| && t[j].Instance(x)
    ensures t[i].Instance(x) || (i + 1 < |t| && LessEq(t[i + 1].Key(), x))
  {
    hide Less, Entry.MaxKey, Entry.Key, Entry.Instance, Entry.WellFormed;
    var j :| 0 <= j < |t| && t[j].Instance(x);
    LessTotal(o, x);
    InstanceBounds(t[j], x);
    assert j < i ==> LessEq(x, o);
    if j > i + 1 {
      KeysAscend(t, i + 1, j);
      if t[j].Key() != x {
        LessTransitive(t[i + 1].Key(), t[j].Key(), x);
      }
    }
  }

  lemma KeysAscend(t: seq<Entry>, i: nat, j: nat)
    requires Context(t) && i < j < |t|
    ensures Less(t[i].Key(), t[j].Key()) && LessEq(t[i].MaxKey(), t[j].Key())
  {
  }

  /** What access control makes of one entry: its least accessible instance above `o`, or there is none. */
  lemma AccessSpec(e: Entry, view: View, o: Oid, found: Option<Pos>)
    requires e.WellFormed() && if found.Some? then e.Tabular? && found == e.table.Succ(o) else Less(o, e.Key())
    ensures var a := NextAccess(e, view, o, found);
      if a.allowed then
        && e.Instance(a.oid) && view(a.oid) && Less(o, a.oid)
        && forall x | e.Instance(x) && view(x) && Less(x, a.oid) :: LessEq(x, o)
      else forall x | e.Instance(x) && view(x) :: LessEq(x, o)
  {
    hide Less, Table.Succ, Table.Cell, Table.Open, Table.WellFormed;
    LessOrder();
    if e.Tabular? {
      TableAccess(e.table, view, o);
    }
  }

  lemma TableAccess(table: Table, view: View, o: Oid)
    requires table.WellFormed()
    ensures var r := FirstInView(table, view, table.Succ(o));
      match r
      case None => forall q | table.Has(q) && table.Open(q) && view(table.Cell(q)) :: LessEq(table.Cell(q), o)
      case Some(p) =>
        && table.Open(p) && view(table.Cell(p)) && Less(o, table.Cell(p))
        && forall q | table.Has(q) && table.Open(q) && view(table.Cell(q)) && Less(table.Cell(q), table.Cell(p)) ::
          LessEq(table.Cell(q), o)
  {
    hide Less, Table.Succ, Table.Cell, Table.Open, FirstInView;
    SuccRefused(table, view, o);
    FirstInViewSpec(table, view, o, table.Succ(o));
    var r := FirstInView(table, view, table.Succ(o));
    if r.Some? {
      forall q | table.Has(q) && table.Open(q) && view(table.Cell(q)) && Less(table.Cell(q), table.Cell(r.value))
        ensures LessEq(table.Cell(q), o)
      {
        CellOrder(table, q, r.value);
      }
    }
  }

  /** The entry grants access: what it grants is the answer. */
  lemma GrantedAnswer(t: seq<Entry>, view: View, o: Oid, n: Next)
    requires Context(t) && n.i < |t| && n == FindNextEntry(t, o) && Found(t, o, n)
    requires NextAccess(t[n.i], view, o, n.found).allowed
    ensures IsAnswer(t, view, o, Some(NextAccess(t[n.i], view, o, n.found).oid))
  {
    hide Less, Entry.MaxKey, Entry.Key, Entry.WellFormed, Entry.Instance, Entry.IsEmpty, FindNextEntry, Done,
         NextAccess, Table.Succ;
    LessOrder();
    var e := t[n.i];
    var y := NextAccess(e, view, o, n.found).oid;
    AccessSpec(e, view, o, n.found);
    InstanceBounds(e, y);
    forall x | Accessible(t, view, x) && Less(x, y) ensures LessEq(x, o) {
      if Less(o, x) {
        InstanceFrom(t, o, n.i, x);
      }
    }
  }

  /** The entry refuses access: the search goes on from its upper bound, and misses nothing but a leaf right there. */
  lemma RefusedAnswer(t: seq<Entry>, view: View, o: Oid, n: Next, r: Option<Oid>)
    requires Context(t) && n.i < |t| && n == FindNextEntry(t, o) && Found(t, o, n) && !HiddenLeaf(t, n.i)
    requires !NextAccess(t[n.i], view, o, n.found).allowed && IsAnswer(t, view, t[n.i].MaxKey(), r)
    ensures IsAnswer(t, view, o, r)
  {
    hide Less, Entry.MaxKey, Entry.Key, Entry.WellFormed, Entry.Instance, Entry.IsEmpty, FindNextEntry, Done,
         NextAccess, Table.Succ;
    LessOrder();
    var e := t[n.i];
    AccessSpec(e, view, o, n.found);
    forall x | Accessible(t, view, x) && LessEq(x, e.MaxKey()) ensures LessEq(x, o) {
      if Less(o, x) {
        InstanceFrom(t, o, n.i, x);
        if !e.Instance(x) {
          AtMaxKey(t, n.i, x);
        }
      }
    }
  }

  /** Only a hidden leaf is an instance at the upper bound of an entry that is not an empty table. */
  lemma AtMaxKey(t: seq<Entry>, i: nat, x: Oid)
    requires Context(t) && i + 1 < |t| && LessEq(t[i + 1].Key(), x) && LessEq(x, t[i].MaxKey())
    requires !t[i].IsEmpty() && exists j :: 0 <= j < |t| && t[j].Instance(x)
    ensures HiddenLeaf(t, i)
  {
    hide Less, Entry.IsEmpty, Entry.MaxKey, Entry.Key, Entry.Instance, Entry.WellFormed;
    KeysAscend(t, i, i + 1);
    Squeeze(t[i].MaxKey(), t[i + 1].Key(), x);
    var j :| 0 <= j < |t| && t[j].Instance(x);
    OwnInstance(t, i + 1, j, x);
  }

  lemma Squeeze(a: Oid, b: Oid, x: Oid)
    requires LessEq(a, b) && LessEq(b, x) && LessEq(x, a)
    ensures x == a == b
  {
    hide Less;
    LessOrder();
  }

  /** An instance at the key of an entry is that entry's. */
  lemma OwnInstance(t: seq<Entry>, i: nat, j: nat, x: Oid)
    requires Context(t) && i < |t| && j < |t| && x == t[i].Key() && t[j].Instance(x)
    requires i > 0 && x == t[i - 1].MaxKey()
    ensures t[i].Leaf? && t[i - 1].Tabular?
  {
    hide Less, Entry.Instance, Entry.MaxKey, Entry.Key;
    LessOrder();
    InstanceBounds(t[j], x);
    LeafMax(t[i - 1]);
  }

  lemma LeafMax(e: Entry)
    requires e.WellFormed()
    ensures e.Leaf? ==> e.MaxKey() == e.Key()
  {
  }

  lemma EndAnswer(t: seq<Entry>, view: View, o: Oid)
    requires Context(t) && Done(t, o, |t|)
    ensures IsAnswer(t, view, o, None)
  {
  }

  /** GETNEXT answers with the least accessible instance above the requested identifier, or with endOfMibView if there
      is none, on every context without a hidden leaf. */
  lemma {:induction false} GetNextLeast(t: seq<Entry>, view: View, o: Oid)
    requires Context(t) && forall i: nat :: !HiddenLeaf(t, i)
    ensures IsAnswer(t, view, o, GetNext(t, view, o))
    decreases |t| - Passed(t, o)
  {
    hide Less, FindNextEntry, NextAccess, IsAnswer, Passed, HiddenLeaf, Entry.MaxKey, Entry.Key, Entry.WellFormed, Done;
    var n := FindNextEntry(t, o);
    NextEntrySpec(t, o);
    if n.i == |t| {
      EndAnswer(t, view, o);
    } else {
      var a := NextAccess(t[n.i], view, o, n.found);
      if a.allowed {
        GrantedAnswer(t, view, o, n);
      } else {
        RefusedAtMaxKey(t[n.i], view, o, n.found);
        PassedMore(t, o, n.i);
        GetNextLeast(t, view, a.oid);
        RefusedAnswer(t, view, o, n, GetNext(t, view, a.oid));
      }
    }
  }

  /** Whatever GETNEXT answers lies above the request. */
  lemma {:induction false} GetNextAbove(t: seq<Entry>, view: View, o: Oid)
    requires Context(t)
    ensures GetNext(t, view, o).Some? ==> Less(o, GetNext(t, view, o).value)
    decreases |t| - Passed(t, o)
  {
    hide Less, FindNextEntry, NextAccess, Passed, Entry.MaxKey, Entry.Key, Entry.WellFormed, Done;
    LessOrder();
    var n := FindNextEntry(t, o);
    NextEntrySpec(t, o);
    if n.i < |t| {
      var a := NextAccess(t[n.i], view, o, n.found);
      AccessSpec(t[n.i], view, o, n.found);
      if !a.allowed {
        RefusedAtMaxKey(t[n.i], view, o, n.found);
        PassedMore(t, o, n.i);
        GetNextAbove(t, view, a.oid);
      }
    }
  }

  /** The last thing an entry can answer for: nothing follows it in the entry. */
  function LastOf(e: Entry): Oid
    requires e.WellFormed()
  {
    if e.Leaf? || e.table.rows == [] then e.Key() else e.table.Cell(Pos(|e.table.cols| - 1, |e.table.rows| - 1))
  }

  lemma LastOfSpec(e: Entry)
    requires e.WellFormed()
    ensures LessEq(e.Key(), LastOf(e)) && (e.Leaf? ==> LastOf(e) == e.Key())
    ensures e.Tabular? ==> Less(LastOf(e), e.MaxKey()) && e.table.Succ(LastOf(e)) == None
  {
    hide Less, Table.Cell, Table.Scan, Table.Open;
    LessOrder();
    MaxKeyAbove(e);
    if e.Tabular? {
      var t, o := e.table, LastOf(e);
      ScanFinds(t, o, Pos(0, 0));
      if t.rows != [] {
        var last := Pos(|t.cols| - 1, |t.rows| - 1);
        CellBounds(t, last);
        if t.Succ(o).Some? {
          CellOrder(t, last, t.Succ(o).value);
        }
      }
    }
  }

  lemma CellBounds(t: Table, p: Pos)
    requires Tabular(t).WellFormed() && t.Has(p)
    ensures Less(t.key, t.Cell(p)) && Less(t.Cell(p), NextPeer(t.key))
  {
    hide Less;
    var a := [t.cols[p.col]] + t.rows[p.row].index;
    PrefixLess(t.key, a);
    PeerAbove(t.key, a);
  }

  lemma LowerUnique(t: seq<Entry>, o: Oid, i: nat)
    requires Context(t) && i <= |t|
    requires (i > 0 ==> LessEq(t[i - 1].Key(), o)) && (i < |t| ==> Less(o, t[i].Key()))
    ensures FindLower(t, o) == i - 1
  {
    hide Less, Entry.Key, Entry.MaxKey, Entry.WellFormed, FindLower;
    LessOrder();
    FindLowerSpec(t, o);
    var l := FindLower(t, o);
    if l > i {
      KeysAscend(t, i, l);
    }
  }

  lemma EmptyLeast(o: Oid)
    requires |o| > 0
    ensures Less([], o)
  {
  }

  /** A request from which the search enters entry `i`. */
  lemma Enters(t: seq<Entry>, i: nat) returns (o: Oid)
    requires Context(t) && i < |t| && !t[i].IsEmpty()
    ensures FindNextEntry(t, o) == Next(i, None) && Less(o, t[i].Key())
  {
    hide Less, Entry.MaxKey, Entry.Key, Entry.IsEmpty, Table.Succ, FindLower;
    assert SkipEmpty(t, i) == i;
    assert t[i].WellFormed();
    if i == 0 {
      o := [];
      EmptyLeast(t[0].Key());
      LowerUnique(t, o, 0);
    } else {
      var e := t[i - 1];
      assert e.WellFormed();
      o := LastOf(e);
      LastOfSpec(e);
      KeyNotEmpty(e, o);
      KeysAscend(t, i - 1, i);
      BelowNextKey(e, t[i]);
      LowerUnique(t, o, i);
    }
  }

  lemma BelowNextKey(e: Entry, f: Entry)
    requires e.WellFormed() && Less(e.Key(), f.Key()) && LessEq(e.MaxKey(), f.Key())
    ensures Less(LastOf(e), f.Key())
  {
    hide Less, Table.Cell, Entry.MaxKey, Entry.Key;
    LessOrder();
    LastOfSpec(e);
  }

  lemma LeafInstance(e: Entry)
    requires e.WellFormed() && e.Leaf?
    ensures e.Instance(e.Key())
  {
  }

  lemma NotTheLeaf(t: seq<Entry>, view: View, o: Oid, key: Oid, r: Option<Oid>)
    requires Context(t) && Accessible(t, view, key) && Less(o, key) && (r.Some? ==> Less(key, r.value))
    ensures !IsAnswer(t, view, o, r)
  {
    hide Less, Accessible;
    LessOrder();
  }

  /** In front of a hidden leaf there is a request that GETNEXT answers wrongly when only the leaf is in view. */
  lemma HiddenLeafMissed(t: seq<Entry>, i: nat) returns (view: View, o: Oid)
    requires Context(t) && HiddenLeaf(t, i)
    ensures !IsAnswer(t, view, o, GetNext(t, view, o))
  {
    hide Less, FindNextEntry, NextAccess, Passed, Entry.MaxKey, Entry.Key, Entry.WellFormed, Entry.IsEmpty;
    var key := t[i + 1].Key();
    view := x => x == key;
    o := Enters(t, i);
    LeafInstance(t[i + 1]);
    assert Accessible(t, view, key);
    var a := NextAccess(t[i], view, o, None);
    AccessSpec(t[i], view, o, None);
    RefusedAtMaxKey(t[i], view, o, None);
    KeysAscend(t, i, i + 1);
    LessTransitive(o, t[i].Key(), key);
    if a.allowed {
      InstanceBounds(t[i], a.oid);
      LessIrreflexive(key);
    }
    assert GetNext(t, view, o) == GetNext(t, view, key);
    GetNextAbove(t, view, key);
    NotTheLeaf(t, view, o, key, GetNext(t, view, o));
  }

  /** GETNEXT answers every request rightly, for every view, exactly on the contexts without a hidden leaf. */
  lemma GetNextCorrect(t: seq<Entry>)
    requires Context(t)
    ensures (forall view: View, o: Oid :: IsAnswer(t, view, o, GetNext(t, view, o)))
      <==> (forall i: nat :: !HiddenLeaf(t, i))
  {
    hide Less, IsAnswer, HiddenLeaf, GetNext, Entry.WellFormed;
    if i: nat :| HiddenLeaf(t, i) {
      var view, o := HiddenLeafMissed(t, i);
    } else {
      forall view: View, o: Oid ensures IsAnswer(t, view, o, GetNext(t, view, o)) {
        GetNextLeast(t, view, o);
      }
    }
  }
}
