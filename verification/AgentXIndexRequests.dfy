/** Requests for indexes: the two passes over an allocation and over a deallocation. */
module AgentXIndexRequests {
  import opened OidOrder
  import opened AgentXIndexes

  /** A variable binding that names an index object. */
  datatype Binding = Binding(name: Oid, signed: bool, value: int)

  datatype Mode = Explicit | NewIndex | AnyIndex

  type Database = map<Oid, Index>

  /** The object a binding names; one that does not exist yet takes its syntax from the binding. */
  function IndexFor(db: Database, b: Binding): Index {
    if b.name in db then db[b.name] else Index(b.signed, [], [])
  }

  /** The binding's value as an index; a negative one has none. */
  predicate HasValue(b: Binding) {
    b.value >= 0
  }

  ghost predicate Sound(db: Database) {
    forall o :: o in db ==> Valid(db[o]) && Room(db[o])
  }

  lemma SoundFor(db: Database, b: Binding)
    requires Sound(db)
    ensures Valid(IndexFor(db, b)) && Room(IndexFor(db, b))
  {
    assert 0 !in Index(b.signed, [], []).used;
  }

  // ---------- allocation ----------

  datatype Tested = Tested(status: Status, binding: Binding)

  /** The test pass on one binding; NEW_INDEX and ANY_INDEX write the value they choose into the binding. */
  ghost function Test(db: Database, mode: Mode, b: Binding): Tested
    requires Sound(db)
  {
    SoundFor(db, b);
    var ix := IndexFor(db, b);
    match mode
    case Explicit =>
      var s := if b.name !in db then Ok
        else if b.signed != ix.signed || !HasValue(b) then WrongType
        else if Allocated(ix, b.value) then AlreadyAllocated
        else Ok;
      Tested(s, b)
    case _ =>
      var c := b.(signed := ix.signed, value := if mode == NewIndex then NewValue(ix) else AnyValue(ix));
      Tested(if HasValue(c) then Ok else NoneAvailable, c)
  }

  /** The commit pass on one binding. */
  function Commit(db: Database, sid: nat, mode: Mode, b: Binding): Database {
    var ix := IndexFor(db, b);
    db[b.name := if !HasValue(b) then ix
                 else if mode == AnyIndex then TakeAny(ix, b.value, sid)
                 else Take(ix, b.value, sid)]
  }

  function CommitAll(db: Database, sid: nat, mode: Mode, bs: seq<Binding>): Database {
    if bs == [] then db else Commit(CommitAll(db, sid, mode, bs[..|bs| - 1]), sid, mode, bs[|bs| - 1])
  }

  /** An object that no binding names is left alone. */
  lemma {:induction false} CommitAllOther(db: Database, sid: nat, mode: Mode, bs: seq<Binding>, o: Oid)
    requires forall b :: b in bs ==> b.name != o
    ensures var d := CommitAll(db, sid, mode, bs); (o in d <==> o in db) && (o in db ==> d[o] == db[o])
  {
    hide TakeAny, Take;
    if bs != [] {
      var n := |bs| - 1;
      assert bs[n] in bs && forall b :: b in bs[..n] ==> b in bs;
      CommitAllOther(db, sid, mode, bs[..n], o);
    }
  }

  predicate DistinctObjects(bs: seq<Binding>) {
    forall i, j :: 0 <= i < j < |bs| ==> bs[i].name != bs[j].name
  }

  /** Over distinct objects each object gets what its own binding asks for: its released values stay, except that with
      ANY_INDEX the first of them leaves. */
  lemma {:induction false} CommitAllOwn(db: Database, sid: nat, mode: Mode, bs: seq<Binding>, i: nat)
    requires DistinctObjects(bs) && i < |bs|
    ensures var d, o := CommitAll(db, sid, mode, bs), bs[i].name;
      o in d && d[o] == Commit(db, sid, mode, bs[i])[o]
    ensures var ix := IndexFor(db, bs[i]);
      CommitAll(db, sid, mode, bs)[bs[i].name].used ==
        if mode == AnyIndex && HasValue(bs[i]) && ix.used != [] then ix.used[1..] else ix.used
  {
    hide Insert;
    var n := |bs| - 1;
    if i == n {
      forall b | b in bs[..n] ensures b.name != bs[n].name {
        var j :| 0 <= j < n && bs[..n][j] == b;
        assert bs[j] == b;
      }
      CommitAllOther(db, sid, mode, bs[..n], bs[n].name);
    } else {
      assert bs[..n][i] == bs[i];
      CommitAllOwn(db, sid, mode, bs[..n], i);
    }
  }

  // ---------- which entries a request adds ----------

  /** The values handed out for an object, by session. */
  function EntriesOf(db: Database, o: Oid): seq<Entry> {
    if o in db then db[o].taken else []
  }

  predicate Names(bs: seq<Binding>, o: Oid, v: int) {
    exists i :: 0 <= i < |bs| && bs[i].name == o && bs[i].value == v
  }

  ghost predicate Listed(db: Database) {
    forall o :: Ordered(EntriesOf(db, o))
  }

  lemma SoundListed(db: Database)
    requires Sound(db)
    ensures Listed(db)
  {
  }

  lemma CommitEntries(db: Database, sid: nat, mode: Mode, b: Binding)
    requires Listed(db)
    ensures Listed(Commit(db, sid, mode, b))
    ensures forall o, x :: x in EntriesOf(Commit(db, sid, mode, b), o) <==>
                             if b.name == o && x.value == b.value then x.sid == sid else x in EntriesOf(db, o)
  {
    hide Ordered, Insert;
    var ix := IndexFor(db, b);
    assert ix.taken == EntriesOf(db, b.name);
    var d := Commit(db, sid, mode, b);
    if HasValue(b) {
      InsertMembers(ix.taken, Entry(b.value, sid));
      InsertOrdered(ix.taken, Entry(b.value, sid));
      assert EntriesOf(d, b.name) == Insert(ix.taken, Entry(b.value, sid));
    } else {
      assert EntriesOf(d, b.name) == ix.taken;
    }
    assert forall o :: o != b.name ==> EntriesOf(d, o) == EntriesOf(db, o);
  }

  lemma NamesMore(bs: seq<Binding>, b: Binding)
    ensures forall o, v :: Names(bs + [b], o, v) <==> Names(bs, o, v) || (b.name == o && b.value == v)
  {
    var n := |bs|;
    forall o, v ensures Names(bs + [b], o, v) <==> Names(bs, o, v) || (b.name == o && b.value == v) {
      if Names(bs, o, v) {
        var i :| 0 <= i < n && bs[i].name == o && bs[i].value == v;
        assert (bs + [b])[i] == bs[i];
      }
      assert (bs + [b])[n] == b;
    }
  }

  /** The entries after any commit pass, whatever the bindings name and however often. */
  lemma {:induction false} CommitAllEntries(db: Database, sid: nat, mode: Mode, bs: seq<Binding>)
    requires Listed(db)
    ensures Listed(CommitAll(db, sid, mode, bs))
    ensures forall o, x :: x in EntriesOf(CommitAll(db, sid, mode, bs), o) <==>
                             if Names(bs, o, x.value) then x.sid == sid else x in EntriesOf(db, o)
  {
    hide Listed, EntriesOf, Commit, Names;
    if bs == [] {
      NoNames();
    } else {
      var p, b := bs[..|bs| - 1], bs[|bs| - 1];
      assert bs == p + [b];
      CommitAllEntries(db, sid, mode, p);
      CommitEntries(CommitAll(db, sid, mode, p), sid, mode, b);
      NamesMore(p, b);
    }
  }

  lemma NoNames()
    ensures forall o, v :: !Names([], o, v)
  {
  }

  predicate Different(bs: seq<Binding>) {
    forall i, j :: 0 <= i < j < |bs| ==> bs[i].name != bs[j].name || bs[i].value != bs[j].value
  }

  /** Each binding has an entry of its own that was not there before, no entry is lost, and no other one appears. */
  ghost predicate ExactlyAdded(db: Database, d: Database, sid: nat, bs: seq<Binding>) {
    && Different(bs)
    && (forall i :: 0 <= i < |bs| ==> HasValue(bs[i]) && Entry(bs[i].value, sid) in EntriesOf(d, bs[i].name))
    && (forall i :: 0 <= i < |bs| ==> HasValue(bs[i]) && Entry(bs[i].value, sid) !in EntriesOf(db, bs[i].name))
    && (forall o, x :: x in EntriesOf(db, o) ==> x in EntriesOf(d, o))
    && (forall o, x :: x in EntriesOf(d, o) ==> x in EntriesOf(db, o) || (x.sid == sid && Names(bs, o, x.value)))
  }

  /** The binding has a value, and that value is free. */
  predicate IsFree(db: Database, b: Binding) {
    HasValue(b) && !Allocated(IndexFor(db, b), b.value)
  }

  lemma FreeEntries(db: Database, b: Binding)
    ensures IsFree(db, b) <==> HasValue(b) && forall e :: e in EntriesOf(db, b.name) ==> e.value != b.value
  {
    AllocatedIn(IndexFor(db, b), b.value);
  }

  /** A commit pass adds exactly the entries of its bindings if and only if these differ and all their values are
      free. */
  lemma CommitAllExact(db: Database, sid: nat, mode: Mode, bs: seq<Binding>)
    requires Listed(db)
    ensures ExactlyAdded(db, CommitAll(db, sid, mode, bs), sid, bs)
      <==> Different(bs) && forall i :: 0 <= i < |bs| ==> IsFree(db, bs[i])
  {
    hide CommitAll, Ordered, IsFree;
    var d := CommitAll(db, sid, mode, bs);
    CommitAllEntries(db, sid, mode, bs);
    forall i | 0 <= i < |bs| && ExactlyAdded(db, d, sid, bs) ensures IsFree(db, bs[i]) {
      AddedFree(db, d, sid, bs, i);
    }
    if Different(bs) && forall i :: 0 <= i < |bs| ==> IsFree(db, bs[i]) {
      forall i | 0 <= i < |bs|
        ensures HasValue(bs[i]) && forall e :: e in EntriesOf(db, bs[i].name) ==> e.value != bs[i].value
      {
        FreeEntries(db, bs[i]);
      }
      AllFreeExact(db, d, sid, bs);
    }
  }

  lemma AddedFree(db: Database, d: Database, sid: nat, bs: seq<Binding>, i: nat)
    requires Listed(d) && ExactlyAdded(db, d, sid, bs) && i < |bs|
    ensures IsFree(db, bs[i])
  {
    hide Ordered;
    FreeEntries(db, bs[i]);
    var o, v := bs[i].name, bs[i].value;
    if e :| e in EntriesOf(db, o) && e.value == v {
      OneHolder(EntriesOf(d, o), e, Entry(v, sid));
    }
  }

  lemma AllFreeExact(db: Database, d: Database, sid: nat, bs: seq<Binding>)
    requires Different(bs)
    requires forall i :: 0 <= i < |bs| ==>
               HasValue(bs[i]) && forall e :: e in EntriesOf(db, bs[i].name) ==> e.value != bs[i].value
    requires forall o, x :: x in EntriesOf(d, o) <==>
                              if Names(bs, o, x.value) then x.sid == sid else x in EntriesOf(db, o)
    ensures ExactlyAdded(db, d, sid, bs)
  {
    hide EntriesOf;
    forall i | 0 <= i < |bs| ensures Entry(bs[i].value, sid) in EntriesOf(d, bs[i].name) {
      assert Names(bs, bs[i].name, Entry(bs[i].value, sid).value);
    }
    forall o, x | x in EntriesOf(db, o) ensures x in EntriesOf(d, o) {
      assert !Names(bs, o, x.value);
    }
  }

  // ---------- when an accepted request adds exactly its entries ----------

  /** An accepted binding that does not get a free value: an explicit negative one for an object that does not exist
      yet, or a chosen one that is allocated. */
  ghost predicate Fails(db: Database, mode: Mode, b: Binding) {
    match mode
    case Explicit => b.name !in db && b.value < 0
    case NewIndex => NewTaken(IndexFor(db, b))
    case AnyIndex => AnyTaken(IndexFor(db, b))
  }

  /** Two bindings that ask for the same entry: with NEW_INDEX and ANY_INDEX any two for the same object. */
  predicate Clash(mode: Mode, a: Binding, b: Binding) {
    a.name == b.name && (mode == Explicit ==> a.value == b.value)
  }

  ghost predicate NoneFails(db: Database, mode: Mode, bs: seq<Binding>) {
    forall i :: 0 <= i < |bs| ==> !Fails(db, mode, bs[i])
  }

  predicate NoneClash(mode: Mode, bs: seq<Binding>) {
    forall i, j :: 0 <= i < j < |bs| ==> !Clash(mode, bs[i], bs[j])
  }

  lemma TestedObject(db: Database, mode: Mode, b: Binding)
    requires Sound(db) && Test(db, mode, b).status == Ok
    ensures var c := Test(db, mode, b).binding;
      c.name == b.name && IndexFor(db, c) == IndexFor(db, b) && c.signed == IndexFor(db, b).signed
  {
    hide NewValue, AnyValue, Allocated;
  }

  lemma TestedFree(db: Database, mode: Mode, b: Binding)
    requires Sound(db) && Test(db, mode, b).status == Ok
    ensures IsFree(db, Test(db, mode, b).binding) <==> !Fails(db, mode, b)
  {
    hide NewValue, AnyValue, NewTaken, AnyTaken, Valid, Room;
    SoundFor(db, b);
    TestedObject(db, mode, b);
    match mode
    case Explicit =>
    case NewIndex =>
      hide Allocated;
      NewValueTaken(IndexFor(db, b));
    case AnyIndex =>
      hide Allocated;
      AnyValueFree(IndexFor(db, b), 0);
  }

  /** The value chosen for a binding depends on its object alone. */
  lemma SameChoice(db: Database, mode: Mode, a: Binding, b: Binding)
    requires Sound(db) && mode != Explicit && a.name == b.name
    ensures Test(db, mode, a).binding.value == Test(db, mode, b).binding.value
  {
    hide NewValue, AnyValue;
    if a.name !in db {
      FirstValues(a.signed);
      FirstValues(b.signed);
    }
  }

  /** An object without entries offers one. */
  lemma FirstValues(signed: bool)
    ensures var ix := Index(signed, [], []); Valid(ix) && Room(ix) && NewValue(ix) == 1 && AnyValue(ix) == 1
  {
    var ix := Index(signed, [], []);
    assert 0 !in ix.used;
    NewValueIs(ix, 0);
    assert 1 % MODULUS == 1;
  }

  /** An accepted request adds exactly its entries if and only if no binding fails and no two of them clash. */
  lemma AllocateExact(db: Database, sid: nat, mode: Mode, bs: seq<Binding>, vbs: seq<Binding>)
    requires Sound(db) && |vbs| == |bs| && forall i :: 0 <= i < |bs| ==> Test(db, mode, bs[i]) == Tested(Ok, vbs[i])
    ensures ExactlyAdded(db, CommitAll(db, sid, mode, vbs), sid, vbs)
      <==> NoneFails(db, mode, bs) && NoneClash(mode, bs)
  {
    hide Sound, Test, IsFree, Fails, ExactlyAdded, CommitAll, Listed;
    SoundListed(db);
    CommitAllExact(db, sid, mode, vbs);
    forall i | 0 <= i < |bs| ensures IsFree(db, vbs[i]) <==> !Fails(db, mode, bs[i]) {
      TestedFree(db, mode, bs[i]);
    }
    forall i, j | 0 <= i < j < |bs|
      ensures Clash(mode, bs[i], bs[j]) <==> vbs[i].name == vbs[j].name && vbs[i].value == vbs[j].value
    {
      ClashTested(db, mode, bs[i], bs[j]);
    }
  }

  lemma ClashTested(db: Database, mode: Mode, a: Binding, b: Binding)
    requires Sound(db) && Test(db, mode, a).status == Ok && Test(db, mode, b).status == Ok
    ensures var c, d := Test(db, mode, a).binding, Test(db, mode, b).binding;
      Clash(mode, a, b) <==> c.name == d.name && c.value == d.value
  {
    TestedObject(db, mode, a);
    TestedObject(db, mode, b);
    if mode == Explicit {
      ExplicitTested(db, a);
      ExplicitTested(db, b);
    } else if a.name == b.name {
      SameChoice(db, mode, a, b);
    }
  }

  /** When an explicit value is accepted, and which refusal it gets otherwise: for an object that exists, a binding of
      another syntax or without a value has the wrong type, and a value that any session holds is already allocated. */
  lemma ExplicitAnswers(db: Database, b: Binding)
    requires Sound(db)
    ensures var s, taken := Test(db, Explicit, b).status, exists e :: e in EntriesOf(db, b.name) && e.value == b.value;
      && (s == Ok <==> b.name !in db || (b.signed == db[b.name].signed && b.value >= 0 && !taken))
      && (s == WrongType <==> b.name in db && (b.signed != db[b.name].signed || b.value < 0))
      && (s == AlreadyAllocated <==> b.name in db && b.signed == db[b.name].signed && b.value >= 0 && taken)
  {
    hide Allocated;
    AllocatedIn(IndexFor(db, b), b.value);
  }

  lemma ExplicitTested(db: Database, b: Binding)
    requires Sound(db)
    ensures Test(db, Explicit, b).binding == b
  {
  }

  /** One request on which the greatest value is allocated: another session loses its entry. */
  lemma OtherSessionLoses(o: Oid, sid: nat)
    requires sid != 1
    ensures var db := map[o := Index(false, [Entry(0, 1), Entry(0xFFFF_FFFF, 1)], [])];
      var b := Binding(o, false, 0);
      && Sound(db) && Test(db, NewIndex, b) == Tested(Ok, b) && Test(db, AnyIndex, b) == Tested(Ok, b)
      && EntriesOf(CommitAll(db, sid, NewIndex, [b]), o) == [Entry(0, sid), Entry(0xFFFF_FFFF, 1)]
      && EntriesOf(CommitAll(db, sid, AnyIndex, [b]), o) == [Entry(0, sid), Entry(0xFFFF_FFFF, 1)]
  {
    hide Insert, NewValue, AnyValue, Allocated;
    var db := map[o := Index(false, [Entry(0, 1), Entry(0xFFFF_FFFF, 1)], [])];
    var b := Binding(o, false, 0);
    WrapsToTaken(sid);
    assert [b][..0] == [];
    assert CommitAll(db, sid, NewIndex, [b]) == Commit(CommitAll(db, sid, NewIndex, []), sid, NewIndex, b);
    assert CommitAll(db, sid, AnyIndex, [b]) == Commit(CommitAll(db, sid, AnyIndex, []), sid, AnyIndex, b);
  }

  /** Explicit allocation of a negative value for an object that does not exist yet is accepted and allocates
      nothing. */
  lemma NegativeExplicit(db: Database, sid: nat, b: Binding)
    requires Sound(db) && b.name !in db && b.value < 0
    ensures Test(db, Explicit, b) == Tested(Ok, b) && Fails(db, Explicit, b)
    ensures EntriesOf(CommitAll(db, sid, Explicit, [b]), b.name) == []
  {
    hide Take, TakeAny, NewValue;
    assert [b][..0] == [];
    assert CommitAll(db, sid, Explicit, [b]) == Commit(CommitAll(db, sid, Explicit, []), sid, Explicit, b);
  }

  /** ANY_INDEX twice for one object: both bindings get the value 5, and the released value 6 is handed to nobody. */
  lemma AnyTwice(o: Oid, sid: nat)
    ensures var db := map[o := Index(false, [], [5, 6])];
      var b, c := Binding(o, false, 0), Binding(o, false, 5);
      && Sound(db) && Test(db, AnyIndex, b) == Tested(Ok, c)
      && CommitAll(db, sid, AnyIndex, [c, c]) == map[o := Index(false, [Entry(5, sid)], [])]
  {
    var db := map[o := Index(false, [], [5, 6])];
    var c := Binding(o, false, 5);
    assert 0 !in db[o].used;
    assert [c, c][..1] == [c] && [c][..0] == [];
    assert [5, 6][1..] == [6] && [6][1..] == [];
    var once := map[o := Index(false, [Entry(5, sid)], [6])];
    assert CommitAll(db, sid, AnyIndex, [c]) == Commit(CommitAll(db, sid, AnyIndex, []), sid, AnyIndex, c) == once;
    assert [Entry(5, sid)][1..] == [] && [Entry(5, sid)] + [] == [Entry(5, sid)];
    assert TakeAny(once[o], 5, sid) == Index(false, [Entry(5, sid)], []);
    assert CommitAll(db, sid, AnyIndex, [c, c]) == Commit(once, sid, AnyIndex, c);
    assert Commit(once, sid, AnyIndex, c) == map[o := Index(false, [Entry(5, sid)], [])];
  }

  // ---------- requests keep the objects sound ----------

  /** The binding's value is one of its syntax, and bindings for one object agree on the syntax. */
  predicate WellTyped(bs: seq<Binding>) {
    && (forall b :: b in bs && HasValue(b) ==> InRange(b.signed, b.value))
    && (forall b, c :: b in bs && c in bs && b.name == c.name ==> b.signed == c.signed)
  }

  lemma RoomLeft(ix: Index, ix': Index)
    requires Room(ix) && forall v :: v in ix'.used ==> v in ix.used
    ensures Room(ix')
  {
  }

  lemma CommitSound(db: Database, sid: nat, mode: Mode, b: Binding)
    requires Sound(db) && IndexFor(db, b).signed == b.signed && (HasValue(b) ==> InRange(b.signed, b.value))
    ensures Sound(Commit(db, sid, mode, b)) && Commit(db, sid, mode, b)[b.name].signed == b.signed
  {
    hide Valid, Room, Take, InRange;
    SoundFor(db, b);
    var ix := IndexFor(db, b);
    if HasValue(b) {
      TakeSpec(ix, b.value, sid);
      TakeUsed(ix, b.value, sid);
      TakeAnyValid(ix, b.value, sid);
      RoomLeft(ix, Take(ix, b.value, sid));
      RoomLeft(ix, TakeAny(ix, b.value, sid));
    }
  }

  lemma {:induction false} CommitAllSound(db: Database, sid: nat, mode: Mode, bs: seq<Binding>)
    requires Sound(db) && WellTyped(bs) && forall b :: b in bs ==> IndexFor(db, b).signed == b.signed
    ensures var d := CommitAll(db, sid, mode, bs);
      && Sound(d)
      && forall o :: o in d ==> (o in db && d[o].signed == db[o].signed) ||
                                exists b :: b in bs && b.name == o && b.signed == d[o].signed
  {
    hide Sound, Commit, InRange;
    if bs != [] {
      var p, b := bs[..|bs| - 1], bs[|bs| - 1];
      assert bs == p + [b];
      CommitAllSound(db, sid, mode, p);
      CommitSound(CommitAll(db, sid, mode, p), sid, mode, b);
      CommitOthers(CommitAll(db, sid, mode, p), sid, mode, b);
    }
  }

  lemma CommitOthers(db: Database, sid: nat, mode: Mode, b: Binding)
    ensures forall o :: o in Commit(db, sid, mode, b) <==> o in db || o == b.name
    ensures forall o :: o in db && o != b.name ==> Commit(db, sid, mode, b)[o] == db[o]
  {
  }

  /** An accepted request with well-typed bindings leaves every object sound for the next one. */
  lemma AllocateSound(db: Database, sid: nat, mode: Mode, bs: seq<Binding>, vbs: seq<Binding>)
    requires Sound(db) && |vbs| == |bs| && forall i :: 0 <= i < |bs| ==> Test(db, mode, bs[i]) == Tested(Ok, vbs[i])
    requires WellTyped(bs)
    ensures Sound(CommitAll(db, sid, mode, vbs))
  {
    hide Test, Sound, InRange;
    forall i | 0 <= i < |bs|
      ensures vbs[i].name == bs[i].name && IndexFor(db, vbs[i]).signed == vbs[i].signed
      ensures HasValue(vbs[i]) ==> InRange(vbs[i].signed, vbs[i].value)
      ensures vbs[i].signed == IndexFor(db, bs[i]).signed
    {
      assert bs[i] in bs;
      TestedTyped(db, mode, bs[i]);
    }
    CommitAllSound(db, sid, mode, vbs);
  }

  lemma TestedTyped(db: Database, mode: Mode, b: Binding)
    requires Sound(db) && Test(db, mode, b).status == Ok && (HasValue(b) ==> InRange(b.signed, b.value))
    ensures var c := Test(db, mode, b).binding;
      && c.name == b.name && IndexFor(db, c).signed == c.signed && c.signed == IndexFor(db, b).signed
      && (HasValue(c) ==> InRange(c.signed, c.value))
  {
    hide NewValue, AnyValue, Allocated, Valid, Room, InRange;
    SoundFor(db, b);
    TestedObject(db, mode, b);
    match mode
    case Explicit =>
    case NewIndex =>
      if NewValue(IndexFor(db, b)) >= 0 {
        NewValueTaken(IndexFor(db, b));
      }
    case AnyIndex =>
      AnyValueFree(IndexFor(db, b), 0);
  }

  // ---------- deallocation ----------

  function ReleaseTest(db: Database, sid: nat, b: Binding): Status
    requires HasValue(b)
  {
    if b.name !in db then NotAllocated else Release(db[b.name], b.value, sid).status
  }

  /** The session holds the value that the binding names. */
  predicate HoldsNamed(db: Database, sid: nat, b: Binding) {
    exists e :: e in EntriesOf(db, b.name) && e.value == b.value && e.sid == sid
  }

  /** A value is given back exactly by the session that holds it; any other request for it is refused. */
  lemma ReleaseTested(db: Database, sid: nat, b: Binding)
    requires HasValue(b)
    ensures ReleaseTest(db, sid, b) == if HoldsNamed(db, sid, b) then Ok else NotAllocated
  {
    var e := Entry(b.value, sid);
    assert HoldsNamed(db, sid, b) <==> e in EntriesOf(db, b.name) by {
      if HoldsNamed(db, sid, b) {
        var x :| x in EntriesOf(db, b.name) && x.value == b.value && x.sid == sid;
        assert x == e;
      }
    }
  }

  /** The commit pass on one binding; a value that is refused now, because another binding took it, is passed over. */
  function ReleaseOne(db: Database, sid: nat, b: Binding): Database
    requires HasValue(b)
  {
    if b.name !in db then db else db[b.name := Release(db[b.name], b.value, sid).ix]
  }

  predicate AllValues(bs: seq<Binding>) {
    forall b :: b in bs ==> HasValue(b)
  }

  function ReleaseAll(db: Database, sid: nat, bs: seq<Binding>): Database
    requires AllValues(bs)
  {
    if bs == [] then db
    else
      assert forall b :: b in bs[..|bs| - 1] ==> b in bs;
      ReleaseOne(ReleaseAll(db, sid, bs[..|bs| - 1]), sid, bs[|bs| - 1])
  }

  ghost predicate AllValid(db: Database) {
    forall o :: o in db ==> Valid(db[o])
  }

  lemma AllValidListed(db: Database)
    requires AllValid(db)
    ensures Listed(db)
  {
  }

  lemma ReleaseEntries(db: Database, sid: nat, b: Binding)
    requires AllValid(db) && HasValue(b)
    ensures AllValid(ReleaseOne(db, sid, b))
    ensures forall o, x :: x in EntriesOf(ReleaseOne(db, sid, b), o) <==>
                             x in EntriesOf(db, o) && !(x.sid == sid && b.name == o && x.value == b.value)
  {
    hide Valid, Release;
    var d := ReleaseOne(db, sid, b);
    if b.name in db {
      ReleaseApart(db[b.name], b.value, sid);
      assert EntriesOf(db, b.name) == db[b.name].taken;
      assert EntriesOf(d, b.name) == Release(db[b.name], b.value, sid).ix.taken;
    }
    assert forall o :: o != b.name ==> EntriesOf(d, o) == EntriesOf(db, o);
  }

  /** The entries after any deallocation pass. */
  lemma {:induction false} ReleaseAllEntries(db: Database, sid: nat, bs: seq<Binding>)
    requires AllValid(db) && AllValues(bs)
    ensures AllValid(ReleaseAll(db, sid, bs))
    ensures forall o, x :: x in EntriesOf(ReleaseAll(db, sid, bs), o) <==>
                             x in EntriesOf(db, o) && !(x.sid == sid && Names(bs, o, x.value))
  {
    hide AllValid, EntriesOf, ReleaseOne, Names, HasValue;
    if bs == [] {
      NoNames();
    } else {
      var p, b := bs[..|bs| - 1], bs[|bs| - 1];
      assert bs == p + [b];
      ReleaseAllEntries(db, sid, p);
      ReleaseEntries(ReleaseAll(db, sid, p), sid, b);
      NamesMore(p, b);
    }
  }

  lemma {:induction false} SameMembers(s: seq<Entry>, t: seq<Entry>)
    requires Ordered(s) && Ordered(t) && forall x :: x in s <==> x in t
    ensures s == t
  {
    assert |s| > 0 ==> s[0] in s;
    assert |t| > 0 ==> t[0] in t;
    if s != [] && t != [] {
      OrderedTail(s);
      OrderedTail(t);
      hide Ordered;
      OneHolder(s, s[0], t[0]) by {
        assert s[0].value <= t[0].value && t[0].value <= s[0].value;
      }
      SameMembers(s[1..], t[1..]);
      assert s == [s[0]] + s[1..] && t == [t[0]] + t[1..];
    }
  }

  lemma GivenBack(db: Database, d: Database, sid: nat, bs: seq<Binding>, o: Oid, x: Entry)
    requires AllValid(d) && AllValues(bs) && ExactlyAdded(db, d, sid, bs)
    ensures x in EntriesOf(ReleaseAll(d, sid, bs), o) <==> x in EntriesOf(db, o)
  {
    hide EntriesOf, AllValid, Different;
    ReleaseAllEntries(d, sid, bs);
    if x in EntriesOf(db, o) {
      NotNamed(db, d, sid, bs, o, x);
    }
  }

  lemma AddedAccepted(db: Database, d: Database, sid: nat, bs: seq<Binding>)
    requires ExactlyAdded(db, d, sid, bs)
    ensures AllValues(bs) && forall i :: 0 <= i < |bs| ==> ReleaseTest(d, sid, bs[i]) == Ok
  {
    forall b | b in bs ensures HasValue(b) {
      var i :| 0 <= i < |bs| && bs[i] == b;
    }
    forall i | 0 <= i < |bs| ensures ReleaseTest(d, sid, bs[i]) == Ok {
      assert Entry(bs[i].value, sid) in EntriesOf(d, bs[i].name);
    }
  }

  /** Giving back what a request has added is accepted and restores every object's entries. */
  lemma AllocateDeallocate(db: Database, d: Database, sid: nat, bs: seq<Binding>)
    requires Listed(db) && AllValid(d) && ExactlyAdded(db, d, sid, bs)
    ensures AllValues(bs) && forall i :: 0 <= i < |bs| ==> ReleaseTest(d, sid, bs[i]) == Ok
    ensures forall o :: EntriesOf(ReleaseAll(d, sid, bs), o) == EntriesOf(db, o)
  {
    hide EntriesOf, AllValid, ExactlyAdded, Ordered, ReleaseTest;
    AddedAccepted(db, d, sid, bs);
    ReleaseAllEntries(d, sid, bs);
    AllValidListed(ReleaseAll(d, sid, bs));
    forall o ensures EntriesOf(ReleaseAll(d, sid, bs), o) == EntriesOf(db, o) {
      forall x ensures x in EntriesOf(ReleaseAll(d, sid, bs), o) <==> x in EntriesOf(db, o) {
        GivenBack(db, d, sid, bs, o, x);
      }
      SameMembers(EntriesOf(ReleaseAll(d, sid, bs), o), EntriesOf(db, o));
    }
  }

  lemma NotNamed(db: Database, d: Database, sid: nat, bs: seq<Binding>, o: Oid, x: Entry)
    requires ExactlyAdded(db, d, sid, bs) && x in EntriesOf(db, o)
    ensures !(x.sid == sid && Names(bs, o, x.value))
  {
    hide EntriesOf;
    forall i | 0 <= i < |bs| && bs[i].name == o ensures !(x.sid == sid && bs[i].value == x.value) {
      assert HasValue(bs[i]) && x != Entry(bs[i].value, sid);
    }
  }

  // ---------- the database as the master updates it ----------

  class IndexDatabase {
    var indexes: Database

    constructor ()
      ensures indexes == map[]
    {
      indexes := map[];
    }

    method NextNew(ix: Index) returns (v: int)
      requires Valid(ix) && Room(ix)
      ensures v == NewValue(ix)
    {
      hide Skip, Stored;
      ghost var free: nat :| free < MODULUS && free !in ix.used;
      LastInRange(ix);
      NewValueIs(ix, free);
      Wrapped(free);
      var next: nat := AfterLast(ix);
      while next % MODULUS in ix.used
        invariant AfterLast(ix) <= next <= MODULUS + free
        invariant forall k :: AfterLast(ix) <= k < next ==> k % MODULUS in ix.used
        decreases MODULUS + free - next
      {
        next := next + 1;
      }
      v := Stored(ix.signed, next);
    }

    method TestBinding(mode: Mode, b: Binding) returns (status: Status, c: Binding)
      requires Sound(indexes)
      ensures Tested(status, c) == Test(indexes, mode, b)
    {
      hide NewValue, AnyValue, Allocated;
      SoundFor(indexes, b);
      var ix := IndexFor(indexes, b);
      status, c := Ok, b;
      match mode
      case Explicit =>
        if b.name in indexes {
          if b.signed != ix.signed || !HasValue(b) {
            status := WrongType;
          } else if Allocated(ix, b.value) {
            status := AlreadyAllocated;
          }
        }
      case NewIndex =>
        var v := NextNew(ix);
        c := b.(signed := ix.signed, value := v);
        status := if HasValue(c) then Ok else NoneAvailable;
      case AnyIndex =>
        c := b.(signed := ix.signed, value := AnyValue(ix));
        status := if HasValue(c) then Ok else NoneAvailable;
    }

    /** Test every binding, then commit every binding; the error index counts from one. A refused request changes
        nothing; an accepted one adds exactly its entries unless a binding fails or two of them clash. */
    method ProcessAllocate(sid: nat, mode: Mode, bs: seq<Binding>)
      returns (status: Status, errorIndex: nat, vbs: seq<Binding>)
      requires Sound(indexes)
      modifies this
      ensures status != Ok ==> indexes == old(indexes) && 1 <= errorIndex <= |bs|
      ensures status != Ok ==> Test(old(indexes), mode, bs[errorIndex - 1]).status == status
      ensures status != Ok ==> forall i :: 0 <= i < errorIndex - 1 ==> Test(old(indexes), mode, bs[i]).status == Ok
      ensures status == Ok ==> |vbs| == |bs|
      ensures status == Ok ==> forall i :: 0 <= i < |bs| ==> Test(old(indexes), mode, bs[i]) == Tested(Ok, vbs[i])
      ensures status == Ok ==> indexes == CommitAll(old(indexes), sid, mode, vbs)
      ensures status == Ok ==> (ExactlyAdded(old(indexes), indexes, sid, vbs) <==>
                                NoneFails(old(indexes), mode, bs) && NoneClash(mode, bs))
      ensures status == Ok && WellTyped(bs) ==> Sound(indexes)
    {
      hide Test, Commit, Sound, ExactlyAdded, NoneFails, NoneClash, WellTyped;
      status, errorIndex, vbs := Ok, 0, bs;
      var i := 0;
      while status == Ok && i < |bs|
        invariant 0 <= i <= |bs| == |vbs| && vbs[i..] == bs[i..] && indexes == old(indexes)
        invariant status == Ok ==> forall j :: 0 <= j < i ==> Test(old(indexes), mode, bs[j]) == Tested(Ok, vbs[j])
        invariant status != Ok ==> i > 0 && Test(old(indexes), mode, bs[i - 1]).status == status
        invariant status != Ok ==> forall j :: 0 <= j < i - 1 ==> Test(old(indexes), mode, bs[j]).status == Ok
      {
        assert vbs[i] == vbs[i..][0] && bs[i] == bs[i..][0];
        var c;
        status, c := TestBinding(mode, vbs[i]);
        assert vbs[i + 1..] == vbs[i..][1..] && bs[i + 1..] == bs[i..][1..];
        vbs := vbs[i := c];
        i := i + 1;
      }
      if status == Ok {
        CommitEach(sid, mode, vbs);
        AllocateExact(old(indexes), sid, mode, bs, vbs);
        if WellTyped(bs) {
          AllocateSound(old(indexes), sid, mode, bs, vbs);
        }
      } else {
        errorIndex := i;
      }
    }

    method CommitEach(sid: nat, mode: Mode, vbs: seq<Binding>)
      modifies this
      ensures indexes == CommitAll(old(indexes), sid, mode, vbs)
    {
      hide Commit;
      var i := 0;
      while i < |vbs|
        invariant 0 <= i <= |vbs| && indexes == CommitAll(old(indexes), sid, mode, vbs[..i])
      {
        assert vbs[..i + 1][..i] == vbs[..i];
        indexes := Commit(indexes, sid, mode, vbs[i]);
        i := i + 1;
      }
      assert vbs[..i] == vbs;
    }

    /** Test every binding, then release every binding; the error index counts from zero. A request is accepted exactly
        if the session holds every value that its bindings name, and then exactly those entries go. */
    method ProcessDeallocate(sid: nat, bs: seq<Binding>) returns (status: Status, errorIndex: nat)
      requires AllValid(indexes) && AllValues(bs)
      modifies this
      ensures status == Ok <==> forall i :: 0 <= i < |bs| ==> HoldsNamed(old(indexes), sid, bs[i])
      ensures status != Ok ==> status == NotAllocated && indexes == old(indexes)
      ensures status != Ok ==> errorIndex < |bs| && !HoldsNamed(old(indexes), sid, bs[errorIndex])
      ensures status != Ok ==> forall i :: 0 <= i < errorIndex ==> HoldsNamed(old(indexes), sid, bs[i])
      ensures status == Ok ==> indexes == ReleaseAll(old(indexes), sid, bs)
      ensures status == Ok ==>
                forall o, x :: x in EntriesOf(indexes, o) <==>
                               x in EntriesOf(old(indexes), o) && !(x.sid == sid && Names(bs, o, x.value))
      ensures AllValid(indexes)
    {
      hide ReleaseTest, ReleaseOne, AllValid, HasValue, Names, EntriesOf, HoldsNamed;
      status, errorIndex := Ok, 0;
      var i := 0;
      while status == Ok && i < |bs|
        invariant 0 <= i <= |bs| && indexes == old(indexes)
        invariant status == Ok ==> forall j :: 0 <= j < i ==> HoldsNamed(old(indexes), sid, bs[j])
        invariant status != Ok ==> status == NotAllocated && i > 0 && !HoldsNamed(old(indexes), sid, bs[i - 1])
        invariant status != Ok ==> forall j :: 0 <= j < i - 1 ==> HoldsNamed(old(indexes), sid, bs[j])
      {
        ReleaseTested(indexes, sid, bs[i]);
        status := ReleaseTest(indexes, sid, bs[i]);
        i := i + 1;
      }
      if status == Ok {
        ReleaseEach(sid, bs);
        ReleaseAllEntries(old(indexes), sid, bs);
      } else {
        errorIndex := i - 1;
      }
    }

    method ReleaseEach(sid: nat, bs: seq<Binding>)
      requires AllValues(bs)
      modifies this
      ensures indexes == ReleaseAll(old(indexes), sid, bs)
    {
      hide ReleaseOne, HasValue;
      var i := 0;
      while i < |bs|
        invariant 0 <= i <= |bs| && AllValues(bs[..i]) && indexes == ReleaseAll(old(indexes), sid, bs[..i])
      {
        assert bs[..i + 1][..i] == bs[..i];
        indexes := ReleaseOne(indexes, sid, bs[i]);
        i := i + 1;
      }
      assert bs[..i] == bs;
    }
  }
}
