/** One index object of the master: which values it hands out and takes back. */
module AgentXIndexes {
  const MODULUS: int := 0x1_0000_0000
  const SIGN: int := 0x8000_0000

  datatype Entry = Entry(value: nat, sid: nat)

  /** An index object of 32-bit syntax: the values handed out, by session, and the released ones. */
  datatype Index = Index(signed: bool, taken: seq<Entry>, used: seq<nat>)

  datatype Status = Ok | WrongType | AlreadyAllocated | NotAllocated | NoneAvailable

  predicate InRange(signed: bool, v: int) {
    0 <= v < if signed then SIGN else MODULUS
  }

  predicate Ascending(s: seq<nat>) {
    forall i, j :: 0 <= i < j < |s| ==> s[i] < s[j]
  }

  predicate Valid(ix: Index) {
    && Ordered(ix.taken)
    && Ascending(ix.used)
    && (forall e :: e in ix.taken ==> InRange(ix.signed, e.value))
    && (forall v :: v in ix.used ==> InRange(ix.signed, v))
  }

  predicate Allocated(ix: Index, v: int) {
    exists i :: 0 <= i < |ix.taken| && ix.taken[i].value == v
  }

  // ---------- one index object ----------

  /** The list of allocated values is kept in order; a value that is there changes hands. */
  function Insert(s: seq<Entry>, e: Entry): seq<Entry> {
    if s == [] then [e]
    else if s[0].value == e.value then [e] + s[1..]
    else if e.value < s[0].value then [e] + s
    else [s[0]] + Insert(s[1..], e)
  }

  /** The first value from `n` on that is not among the released ones, as a 32-bit word sees it. */
  function Skip(used: seq<nat>, n: nat, free: nat): (r: nat)
    requires free < MODULUS && free !in used && n <= MODULUS + free
    ensures n <= r <= MODULUS + free && r % MODULUS !in used
    ensures forall k :: n <= k < r ==> k % MODULUS in used
    decreases MODULUS + free - n
  {
    if n % MODULUS in used then
      assert n % MODULUS != free;
      Skip(used, n + 1, free)
    else n
  }

  function AfterLast(ix: Index): nat {
    if ix.taken == [] then 1 else ix.taken[|ix.taken| - 1].value + 1
  }

  /** The number as the object's syntax stores it. */
  function Stored(signed: bool, n: nat): int {
    if !signed then n % MODULUS
    else if n % MODULUS < SIGN then n % MODULUS else n % MODULUS - MODULUS
  }

  /** Some 32-bit value is not among the released ones; the search for a new one relies on it. */
  ghost predicate Room(ix: Index) {
    exists v: nat :: v < MODULUS && v !in ix.used
  }

  /** The value that a request for a new index gets. */
  ghost function NewValue(ix: Index): int
    requires Valid(ix) && Room(ix)
  {
    var free: nat :| free < MODULUS && free !in ix.used;
    LastInRange(ix);
    Stored(ix.signed, Skip(ix.used, AfterLast(ix), free))
  }

  lemma LastInRange(ix: Index)
    requires Valid(ix)
    ensures AfterLast(ix) <= if ix.signed then SIGN else MODULUS
  {
    if ix.taken != [] {
      assert ix.taken[|ix.taken| - 1] in ix.taken;
    }
  }

  function AnyValue(ix: Index): int {
    Stored(ix.signed, if ix.used != [] then ix.used[0] else AfterLast(ix))
  }

  lemma LastIsGreatest(ix: Index, v: int)
    requires Valid(ix) && Allocated(ix, v)
    ensures 0 <= v < AfterLast(ix)
  {
  }

  lemma SkipWithin(used: seq<nat>, n: nat, free: nat, v: nat)
    requires free < MODULUS && free !in used && n <= MODULUS + free && n <= v < MODULUS && v !in used
    ensures Skip(used, n, free) <= v
  {
    SmallModulus(v);
  }

  lemma Wrapped(v: nat)
    requires v < MODULUS
    ensures (MODULUS + v) % MODULUS == v
  {
  }

  lemma SmallModulus(v: nat)
    requires v < MODULUS
    ensures v % MODULUS == v
  {
  }

  /** A new index lies above every allocated value and among no released ones exactly if there is such a value left;
      otherwise the search has wrapped around, or the value does not fit the syntax and is refused. */
  lemma NewValueAbove(ix: Index)
    requires Valid(ix) && Room(ix)
    ensures NewValue(ix) !in ix.used
    ensures AfterLast(ix) <= NewValue(ix) <==>
              exists v: nat :: v !in ix.used && AfterLast(ix) <= v && InRange(ix.signed, v)
    ensures AfterLast(ix) <= NewValue(ix) ==>
              InRange(ix.signed, NewValue(ix)) && forall v :: Allocated(ix, v) ==> v < NewValue(ix)
  {
    hide Skip, Stored;
    var free: nat :| free < MODULUS && free !in ix.used;
    LastInRange(ix);
    var n, r := AfterLast(ix), Skip(ix.used, AfterLast(ix), free);
    NewValueIs(ix, free);
    StoredCases(ix.signed, r);
    if v: nat :| v !in ix.used && n <= v && InRange(ix.signed, v) {
      SkipWithin(ix.used, n, free, v);
      SmallModulus(r);
    }
    forall v | Allocated(ix, v) ensures v < n {
      LastIsGreatest(ix, v);
    }
  }

  lemma StoredCases(signed: bool, n: nat)
    ensures Stored(signed, n) == n % MODULUS || Stored(signed, n) < 0
    ensures InRange(signed, n % MODULUS) ==> Stored(signed, n) == n % MODULUS
    ensures Stored(signed, n) >= 0 ==> InRange(signed, Stored(signed, n))
  {
  }

  lemma NewValueIs(ix: Index, free: nat)
    requires Valid(ix) && Room(ix) && free < MODULUS && free !in ix.used
    ensures AfterLast(ix) <= MODULUS && NewValue(ix) == Stored(ix.signed, Skip(ix.used, AfterLast(ix), free))
  {
    hide Skip, Stored;
    LastInRange(ix);
    forall g: nat | g < MODULUS && g !in ix.used
      ensures Skip(ix.used, AfterLast(ix), g) == Skip(ix.used, AfterLast(ix), free)
    {
    }
  }

  ghost predicate LeastUnreleased(used: seq<nat>, w: nat) {
    w !in used && forall v: nat :: v < w ==> v in used
  }

  /** No unreleased value is left above the allocated ones, and the least unreleased value is allocated. */
  ghost predicate NewTaken(ix: Index) {
    && (forall v: nat :: AfterLast(ix) <= v < MODULUS ==> v in ix.used)
    && exists w: nat :: LeastUnreleased(ix.used, w) && Allocated(ix, w)
  }

  /** A new index is an allocated value exactly if the search has wrapped around to one. */
  lemma NewValueTaken(ix: Index)
    requires Valid(ix) && Room(ix) && NewValue(ix) >= 0
    ensures InRange(ix.signed, NewValue(ix)) && (Allocated(ix, NewValue(ix)) <==> NewTaken(ix))
  {
    hide Skip, Stored, Valid, Room, Allocated, AfterLast, LeastUnreleased, NewTaken;
    var free: nat :| free < MODULUS && free !in ix.used by {
      assert Room(ix);
    }
    NewValueIs(ix, free);
    var r := Skip(ix.used, AfterLast(ix), free);
    StoredCases(ix.signed, r);
    if r < MODULUS {
      SmallModulus(r);
      AboveAll(ix, r);
    } else {
      SkipWrapped(ix.used, AfterLast(ix), free);
      WrapsUnsigned(ix);
      StoredWrapped(r - MODULUS);
      WrappedTaken(ix, r - MODULUS);
    }
  }

  lemma AboveAll(ix: Index, v: nat)
    requires Valid(ix) && AfterLast(ix) <= v < MODULUS && v !in ix.used
    ensures !Allocated(ix, v) && !NewTaken(ix)
  {
    hide Allocated, AfterLast, Valid;
    if Allocated(ix, v) {
      LastIsGreatest(ix, v);
    }
  }

  /** The search has passed the greatest 32-bit value. */
  lemma SkipWrapped(used: seq<nat>, n: nat, free: nat)
    requires free < MODULUS && free !in used && n <= MODULUS <= Skip(used, n, free)
    ensures var w := Skip(used, n, free) - MODULUS;
      w <= free && LeastUnreleased(used, w) && forall v: nat :: n <= v < MODULUS ==> v in used
  {
    var r := Skip(used, n, free);
    Wrapped(r - MODULUS);
    forall v: nat | v < r - MODULUS || n <= v < MODULUS ensures v in used {
      if v < r - MODULUS {
        Wrapped(v);
        assert (MODULUS + v) % MODULUS in used;
      } else {
        SmallModulus(v);
        assert v % MODULUS in used;
      }
    }
  }

  /** An index of signed syntax never gets there: its released values are too small. */
  lemma WrapsUnsigned(ix: Index)
    requires Valid(ix) && forall v: nat :: AfterLast(ix) <= v < MODULUS ==> v in ix.used
    ensures !ix.signed
  {
    hide AfterLast;
    LastInRange(ix);
    assert ix.signed ==> SIGN in ix.used;
  }

  lemma WrappedTaken(ix: Index, w: nat)
    requires LeastUnreleased(ix.used, w) && forall v: nat :: AfterLast(ix) <= v < MODULUS ==> v in ix.used
    ensures Allocated(ix, w) <==> NewTaken(ix)
  {
    hide Allocated, AfterLast;
    assert forall v: nat :: LeastUnreleased(ix.used, v) ==> !(v < w) && !(w < v);
  }

  lemma StoredWrapped(v: nat)
    requires v < MODULUS
    ensures Stored(false, v + MODULUS) == v
  {
    Wrapped(v);
  }

  // ---------- changes of one index object ----------

  predicate Ordered(s: seq<Entry>) {
    forall i, j :: 0 <= i < j < |s| ==> s[i].value < s[j].value
  }

  lemma OrderedTail(s: seq<Entry>)
    requires Ordered(s) && s != []
    ensures Ordered(s[1..]) && forall x :: x in s[1..] ==> s[0].value < x.value
    ensures forall x :: x in s <==> x == s[0] || x in s[1..]
  {
    assert s == [s[0]] + s[1..];
  }

  lemma {:induction false} InsertMembers(s: seq<Entry>, e: Entry)
    requires Ordered(s)
    ensures forall x :: x in Insert(s, e) <==> x == e || (x in s && x.value != e.value)
  {
    if s != [] {
      OrderedTail(s);
      hide Ordered;
      if s[0].value < e.value {
        InsertMembers(s[1..], e);
      }
    }
  }

  lemma OrderedCons(e: Entry, s: seq<Entry>)
    requires Ordered(s) && forall x :: x in s ==> e.value < x.value
    ensures Ordered([e] + s)
  {
  }

  lemma {:induction false} InsertOrdered(s: seq<Entry>, e: Entry)
    requires Ordered(s)
    ensures Ordered(Insert(s, e))
  {
    if s == [] {
    } else {
      OrderedTail(s);
      hide Ordered;
      if s[0].value < e.value {
        InsertOrdered(s[1..], e);
        InsertMembers(s[1..], e);
        OrderedCons(s[0], Insert(s[1..], e));
      } else if s[0].value == e.value {
        OrderedCons(e, s[1..]);
      } else {
        OrderedCons(e, s);
      }
    }
  }

  /** The value is taken by the session. */
  function Take(ix: Index, v: nat, sid: nat): Index {
    ix.(taken := Insert(ix.taken, Entry(v, sid)))
  }

  /** With ANY_INDEX the first released value leaves the list of released ones, whatever value was taken. */
  function TakeAny(ix: Index, v: nat, sid: nat): Index {
    var t := Take(ix, v, sid);
    if ix.used == [] then t else t.(used := ix.used[1..])
  }

  /** No released value is allocated. */
  ghost predicate Apart(ix: Index) {
    forall v :: v in ix.used ==> !Allocated(ix, v)
  }

  lemma TakeSpec(ix: Index, v: nat, sid: nat)
    requires Valid(ix) && InRange(ix.signed, v)
    ensures Valid(Take(ix, v, sid)) && Entry(v, sid) in Take(ix, v, sid).taken
    ensures forall x :: Allocated(Take(ix, v, sid), x) <==> x == v || Allocated(ix, x)
    ensures forall e :: e in ix.taken && e.value != v ==> e in Take(ix, v, sid).taken
  {
    hide Insert, Ordered;
    InsertMembers(ix.taken, Entry(v, sid));
    InsertOrdered(ix.taken, Entry(v, sid));
    var t := Take(ix, v, sid);
    forall x ensures Allocated(t, x) <==> x == v || Allocated(ix, x) {
      AllocatedIn(t, x);
      AllocatedIn(ix, x);
    }
  }

  lemma AllocatedIn(ix: Index, x: int)
    ensures Allocated(ix, x) <==> exists e :: e in ix.taken && e.value == x
  {
    if Allocated(ix, x) {
      var i :| 0 <= i < |ix.taken| && ix.taken[i].value == x;
      assert ix.taken[i] in ix.taken;
    }
  }

  /** Explicit allocation keeps released and allocated values apart exactly if it avoids the released ones. */
  lemma ExplicitApart(ix: Index, v: nat, sid: nat)
    requires Valid(ix) && Apart(ix) && InRange(ix.signed, v)
    ensures Apart(Take(ix, v, sid)) <==> v !in ix.used
  {
    hide Take, Allocated;
    TakeSpec(ix, v, sid);
    TakeUsed(ix, v, sid);
  }

  lemma TakeUsed(ix: Index, v: nat, sid: nat)
    ensures Take(ix, v, sid).used == ix.used && Take(ix, v, sid).signed == ix.signed
  {
  }

  /** ANY_INDEX has no value to offer: nothing was released and the one after the last does not fit the syntax. */
  predicate AnyNone(ix: Index) {
    ix.used == [] && ix.signed && AfterLast(ix) == SIGN
  }

  /** The value that ANY_INDEX chooses is taken: the first released one has been allocated again, or nothing was
      released, the greatest unsigned value is allocated and the one after it wraps around to zero. */
  predicate AnyTaken(ix: Index) {
    if ix.used != [] then Allocated(ix, ix.used[0]) else !ix.signed && AfterLast(ix) == MODULUS && Allocated(ix, 0)
  }

  /** When ANY_INDEX is refused, when it hands out an allocated value, and that it keeps both lists apart. */
  lemma AnyValueFree(ix: Index, sid: nat)
    requires Valid(ix)
    ensures AnyValue(ix) < 0 <==> AnyNone(ix)
    ensures AnyValue(ix) >= 0 ==> InRange(ix.signed, AnyValue(ix)) && (Allocated(ix, AnyValue(ix)) <==> AnyTaken(ix))
    ensures AnyValue(ix) >= 0 && Apart(ix) ==>
              Valid(TakeAny(ix, AnyValue(ix), sid)) && Apart(TakeAny(ix, AnyValue(ix), sid))
  {
    hide Take, Allocated, TakeAny, Apart;
    AnyValueIs(ix);
    if ix.used == [] && Allocated(ix, AnyValue(ix)) {
      LastIsGreatest(ix, AnyValue(ix));
    }
    if AnyValue(ix) >= 0 && Apart(ix) {
      TakenAnyApart(ix, AnyValue(ix), sid);
    }
  }

  lemma AnyValueIs(ix: Index)
    requires Valid(ix)
    ensures AnyValue(ix) >= 0 ==> InRange(ix.signed, AnyValue(ix))
    ensures ix.used != [] ==> AnyValue(ix) == ix.used[0]
    ensures ix.used == [] ==>
              AnyValue(ix) == if InRange(ix.signed, AfterLast(ix)) then AfterLast(ix)
                              else if ix.signed then -SIGN else 0
  {
    hide AfterLast;
    LastInRange(ix);
    assert ix.used != [] ==> ix.used[0] in ix.used;
  }

  lemma TakeAnyValid(ix: Index, v: nat, sid: nat)
    requires Valid(ix) && InRange(ix.signed, v)
    ensures Valid(TakeAny(ix, v, sid)) && forall x :: x in TakeAny(ix, v, sid).used ==> x in ix.used
  {
    hide Take, InRange;
    TakeSpec(ix, v, sid);
    TakeUsed(ix, v, sid);
    assert ix.used != [] ==> ix.used == [ix.used[0]] + ix.used[1..];
  }

  lemma TakenAnyApart(ix: Index, v: nat, sid: nat)
    requires Valid(ix) && Apart(ix) && InRange(ix.signed, v) && (ix.used != [] ==> v == ix.used[0])
    ensures Valid(TakeAny(ix, v, sid)) && Apart(TakeAny(ix, v, sid))
  {
    hide Take, Allocated, InRange;
    TakeSpec(ix, v, sid);
    TakeUsed(ix, v, sid);
    TakeAnyValid(ix, v, sid);
    if ix.used != [] {
      SameAllocated(Take(ix, v, sid), TakeAny(ix, v, sid));
    }
  }

  lemma SameAllocated(a: Index, b: Index)
    requires a.taken == b.taken
    ensures forall x :: Allocated(a, x) == Allocated(b, x)
  {
  }

  /** Once a released value that is first in line has been allocated explicitly, ANY_INDEX hands it out again. */
  lemma AnyAfterExplicit(ix: Index, sid: nat)
    requires Valid(ix) && ix.used != []
    ensures Allocated(Take(ix, ix.used[0], sid), AnyValue(Take(ix, ix.used[0], sid)))
  {
    hide Take, Allocated;
    assert ix.used[0] in ix.used;
    TakeSpec(ix, ix.used[0], sid);
    TakeUsed(ix, ix.used[0], sid);
    StoredCases(ix.signed, ix.used[0]);
    SmallModulus(ix.used[0]);
  }

  function Without(s: seq<Entry>, v: nat): seq<Entry> {
    if s == [] then [] else (if s[0].value == v then [] else [s[0]]) + Without(s[1..], v)
  }

  function AddUsed(s: seq<nat>, v: nat): seq<nat> {
    if s == [] then [v]
    else if s[0] == v then s
    else if v < s[0] then [v] + s
    else [s[0]] + AddUsed(s[1..], v)
  }

  datatype Released = Released(status: Status, ix: Index)

  /** A session gives a value back: it leaves the allocated ones and joins the released ones. A value that is not
      allocated, or that another session holds, is refused. */
  function Release(ix: Index, v: nat, sid: nat): Released {
    if Entry(v, sid) !in ix.taken then Released(NotAllocated, ix)
    else Released(Ok, ix.(taken := Without(ix.taken, v), used := AddUsed(ix.used, v)))
  }

  lemma {:induction false} WithoutSpec(s: seq<Entry>, v: nat)
    requires Ordered(s)
    ensures Ordered(Without(s, v)) && forall x :: x in Without(s, v) <==> x in s && x.value != v
  {
    if s != [] {
      OrderedTail(s);
      hide Ordered;
      WithoutSpec(s[1..], v);
      OrderedCons(s[0], Without(s[1..], v));
    }
  }

  lemma {:induction false} AddUsedSpec(s: seq<nat>, v: nat)
    requires Ascending(s)
    ensures Ascending(AddUsed(s, v)) && forall x :: x in AddUsed(s, v) <==> x == v || x in s
  {
    if s != [] {
      assert s == [s[0]] + s[1..];
      assert forall x :: x in s[1..] ==> s[0] < x;
      if s[0] < v {
        AddUsedSpec(s[1..], v);
        AscendingCons(s[0], AddUsed(s[1..], v));
      }
    }
  }

  lemma AscendingCons(v: nat, s: seq<nat>)
    requires Ascending(s) && forall x :: x in s ==> v < x
    ensures Ascending([v] + s)
  {
    assert forall j :: 0 <= j < |s| ==> s[j] in s;
  }

  /** A session releases its own values only, and nothing but the entry given back changes; both lists stay apart. */
  lemma ReleaseApart(ix: Index, v: nat, sid: nat)
    requires Valid(ix)
    ensures var r := Release(ix, v, sid);
      && r.status == (if Entry(v, sid) in ix.taken then Ok else NotAllocated)
      && Valid(r.ix) && r.ix.signed == ix.signed && (Apart(ix) ==> Apart(r.ix))
      && (forall e :: e in r.ix.taken <==> e in ix.taken && e != Entry(v, sid))
      && (forall x :: x in r.ix.used <==> x in ix.used || (x == v && r.status == Ok))
  {
    hide Ordered, Ascending, Without, AddUsed, InRange, Allocated;
    if Entry(v, sid) in ix.taken {
      WithoutSpec(ix.taken, v);
      AddUsedSpec(ix.used, v);
      forall e | e in ix.taken && e.value == v ensures e == Entry(v, sid) {
        OneHolder(ix.taken, e, Entry(v, sid));
      }
      forall x | x in Release(ix, v, sid).ix.used && Apart(ix) ensures !Allocated(Release(ix, v, sid).ix, x) {
        AllocatedIn(Release(ix, v, sid).ix, x);
        AllocatedIn(ix, x);
      }
    }
  }

  /** A value has one holder. */
  lemma OneHolder(s: seq<Entry>, d: Entry, e: Entry)
    requires Ordered(s) && d in s && e in s && d.value == e.value
    ensures d == e
  {
    var i :| 0 <= i < |s| && s[i] == d;
    var j :| 0 <= j < |s| && s[j] == e;
    assert i == j;
  }

  /** With the greatest 32-bit value allocated, both NEW_INDEX and ANY_INDEX offer zero, although it is allocated. */
  lemma WrapsToTaken(sid: nat)
    ensures var ix := Index(false, [Entry(0, 1), Entry(0xFFFF_FFFF, 1)], []);
      && Valid(ix) && Apart(ix) && Room(ix) && NewTaken(ix) && AnyTaken(ix)
      && NewValue(ix) == 0 && AnyValue(ix) == 0 && Allocated(ix, 0)
      && Take(ix, 0, sid).taken == [Entry(0, sid), Entry(0xFFFF_FFFF, 1)]
  {
    var ix := Index(false, [Entry(0, 1), Entry(0xFFFF_FFFF, 1)], []);
    assert 0 !in ix.used;
    assert ix.taken[0].value == 0;
    assert AfterLast(ix) == MODULUS;
    NewValueIs(ix, 0);
    assert MODULUS % MODULUS == 0;
    assert LeastUnreleased(ix.used, 0);
    assert [Entry(0, 1), Entry(0xFFFF_FFFF, 1)][1..] == [Entry(0xFFFF_FFFF, 1)];
  }
}
