/** What a tree contains: its bindings in key order, and the finite map they form. */
module AvlContents {
  import opened OidOrder
  import opened AvlTree

  /** The number of keys of the tree below `k`, counted along the search path. */
  function Rank(tr: Tree, k: Oid): nat {
    match tr
    case Leaf => 0
    case Branch(l, _, key, _, _, r) =>
      if k == key then |Items(l)|
      else if Less(k, key) then Rank(l, k)
      else |Items(l)| + 1 + Rank(r, k)
  }

  function InsertedAt<X>(s: seq<X>, i: nat, x: X): seq<X>
    requires i <= |s|
  {
    s[..i] + [x] + s[i..]
  }

  function RemovedAt<X>(s: seq<X>, i: nat): seq<X>
    requires i < |s|
  {
    s[..i] + s[i + 1..]
  }

  /** `i` is where `k` is, or belongs, in the key order. */
  predicate Position(s: seq<Item>, k: Oid, i: nat) {
    && i <= |s|
    && (forall j :: 0 <= j < i ==> Less(s[j].key, k))
    && (forall j :: i < j < |s| ==> Less(k, s[j].key))
    && (i < |s| ==> s[i].key == k || Less(k, s[i].key))
  }

  predicate Present(s: seq<Item>, k: Oid) {
    exists i :: 0 <= i < |s| && s[i].key == k
  }

  // ---------- sequences of bindings ----------

  lemma SortedParts(a: seq<Item>, x: Item, b: seq<Item>)
    requires Sorted(a + [x] + b)
    ensures Sorted(a) && Sorted(b)
    ensures forall j :: 0 <= j < |a| ==> Less(a[j].key, x.key)
    ensures forall j :: 0 <= j < |b| ==> Less(x.key, b[j].key)
  {
    var s := a + [x] + b;
    assert s[|a|] == x;
    assert forall j :: 0 <= j < |a| ==> s[j] == a[j];
    assert forall j :: 0 <= j < |b| ==> s[|a| + 1 + j] == b[j];
  }

  lemma {:induction false} SortedSplit(tr: Tree)
    requires tr.Branch? && Sorted(Items(tr))
    ensures Sorted(Items(tr.l)) && Sorted(Items(tr.r))
    ensures forall j :: 0 <= j < |Items(tr.l)| ==> Less(Items(tr.l)[j].key, tr.key)
    ensures forall j :: 0 <= j < |Items(tr.r)| ==> Less(tr.key, Items(tr.r)[j].key)
  {
    SortedParts(Items(tr.l), Item(tr.key, tr.cont), Items(tr.r));
  }

  lemma {:induction false} RankPosition(tr: Tree, k: Oid)
    requires Sorted(Items(tr))
    ensures Position(Items(tr), k, Rank(tr, k))
    ensures Has(tr, k) <==> Rank(tr, k) < |Items(tr)| && Items(tr)[Rank(tr, k)].key == k
  {
    hide Less;
    if tr.Branch? {
      SortedSplit(tr);
      var a, b := Items(tr.l), Items(tr.r);
      LessTotal(k, tr.key);
      if k == tr.key {
      } else if Less(k, tr.key) {
        RankPosition(tr.l, k);
        forall j | 0 <= j < |b| ensures Less(k, b[j].key) { LessTransitive(k, tr.key, b[j].key); }
      } else {
        RankPosition(tr.r, k);
        forall j | 0 <= j < |a| ensures Less(a[j].key, k) { LessTransitive(a[j].key, tr.key, k); }
      }
    }
  }

  lemma PositionUnique(s: seq<Item>, k: Oid, i: nat)
    requires Position(s, k, i)
    ensures Present(s, k) <==> i < |s| && s[i].key == k
    ensures forall j :: 0 <= j < |s| && s[j].key == k ==> j == i
  {
    LessIrreflexive(k);
    if i < |s| && Less(k, s[i].key) {
      LessTotal(k, s[i].key);
    }
  }

  /** The search finds exactly the keys the tree holds. */
  lemma HasIffPresent(tr: Tree, k: Oid)
    requires Sorted(Items(tr))
    ensures Has(tr, k) <==> Present(Items(tr), k)
  {
    RankPosition(tr, k);
    PositionUnique(Items(tr), k, Rank(tr, k));
  }

  lemma InsertedSorted(s: seq<Item>, k: Oid, v: Entry, i: nat)
    requires Sorted(s) && Position(s, k, i) && !Present(s, k)
    ensures Sorted(InsertedAt(s, i, Item(k, v)))
  {
    assert i < |s| ==> s[i].key != k;
  }

  lemma RemovedSorted(s: seq<Item>, i: nat)
    requires Sorted(s) && i < |s|
    ensures Sorted(RemovedAt(s, i))
  {
  }

  // ---------- insertion and deletion on the key order ----------

  lemma InsertedLeft<X>(a: seq<X>, i: nat, x: X, y: X, c: seq<X>)
    requires i <= |a|
    ensures InsertedAt(a, i, x) + [y] + c == InsertedAt(a + [y] + c, i, x)
  {
  }

  lemma InsertedRight<X>(a: seq<X>, y: X, c: seq<X>, i: nat, x: X)
    requires i <= |c|
    ensures a + [y] + InsertedAt(c, i, x) == InsertedAt(a + [y] + c, |a| + 1 + i, x)
  {
  }

  lemma RemovedLeft<X>(a: seq<X>, i: nat, y: X, c: seq<X>)
    requires i < |a|
    ensures RemovedAt(a, i) + [y] + c == RemovedAt(a + [y] + c, i)
  {
  }

  lemma RemovedRight<X>(a: seq<X>, y: X, c: seq<X>, i: nat)
    requires i < |c|
    ensures a + [y] + RemovedAt(c, i) == RemovedAt(a + [y] + c, |a| + 1 + i)
  {
  }

  lemma {:induction false} RankBound(tr: Tree, k: Oid)
    ensures Rank(tr, k) <= |Items(tr)|
    ensures Has(tr, k) ==> Rank(tr, k) < |Items(tr)|
  {
    if tr.Branch? && k != tr.key {
      RankBound(if Less(k, tr.key) then tr.l else tr.r, k);
    }
  }

  /** Insertion puts the new binding at the key's rank and moves nothing else. */
  lemma {:induction false} InsertItems(tr: Tree, k: Oid, v: Entry, nn: Node)
    requires !Has(tr, k)
    ensures Rank(tr, k) <= |Items(tr)|
    ensures Items(Insert(tr, k, v, nn).0) == InsertedAt(Items(tr), Rank(tr, k), Item(k, v))
  {
    RankBound(tr, k);
    if tr.Branch? {
      var it, x := Item(tr.key, tr.cont), Item(k, v);
      if Less(k, tr.key) {
        InsertItems(tr.l, k, v, nn);
        LeftGrewSame(tr.(l := Insert(tr.l, k, v, nn).0));
        InsertedLeft(Items(tr.l), Rank(tr.l, k), x, it, Items(tr.r));
      } else {
        InsertItems(tr.r, k, v, nn);
        RightGrewSame(tr.(r := Insert(tr.r, k, v, nn).0));
        InsertedRight(Items(tr.l), it, Items(tr.r), Rank(tr.r, k), x);
      }
    }
  }

  lemma {:induction false} DeleteMaxItems(tr: Tree)
    requires tr.Branch?
    ensures Items(tr) == Items(DeleteMax(tr).0) + [Max(tr)]
  {
    if tr.r.Branch? {
      DeleteMaxItems(tr.r);
      RightShrankSame(tr.(r := DeleteMax(tr.r).0));
    }
  }

  lemma {:induction false} DeleteRootItems(tr: Tree)
    requires tr.Branch?
    ensures Items(DeleteRoot(tr).0) == RemovedAt(Items(tr), |Items(tr.l)|)
  {
    if tr.l.Branch? && tr.r.Branch? {
      DeleteMaxItems(tr.l);
      var t := tr.(l := DeleteMax(tr.l).0, key := Max(tr.l).key, cont := Max(tr.l).cont);
      LeftShrankSame(t);
      assert Items(t) == Items(tr.l) + Items(tr.r);
    }
  }

  /** Deletion takes out the binding at the key's rank and moves nothing else. */
  lemma {:induction false} DeleteItems(tr: Tree, k: Oid)
    requires Has(tr, k)
    ensures Rank(tr, k) < |Items(tr)|
    ensures Items(Delete(tr, k).0) == RemovedAt(Items(tr), Rank(tr, k))
  {
    RankBound(tr, k);
    var it := Item(tr.key, tr.cont);
    if k == tr.key {
      DeleteRootItems(tr);
    } else if Less(k, tr.key) {
      DeleteItems(tr.l, k);
      LeftShrankSame(tr.(l := Delete(tr.l, k).0));
      RemovedLeft(Items(tr.l), Rank(tr.l, k), it, Items(tr.r));
    } else {
      DeleteItems(tr.r, k);
      RightShrankSame(tr.(r := Delete(tr.r, k).0));
      RemovedRight(Items(tr.l), it, Items(tr.r), Rank(tr.r, k));
    }
  }

  // ---------- the finite map ----------

  function MapOf(s: seq<Item>): map<Oid, Entry> {
    if s == [] then map[] else MapOf(s[..|s| - 1])[s[|s| - 1].key := s[|s| - 1].cont]
  }

  lemma {:induction false} MapOfSorted(s: seq<Item>)
    requires Sorted(s)
    ensures forall i :: 0 <= i < |s| ==> s[i].key in MapOf(s) && MapOf(s)[s[i].key] == s[i].cont
    ensures forall k :: k in MapOf(s) <==> Present(s, k)
  {
    if s != [] {
      var p, x := s[..|s| - 1], s[|s| - 1];
      MapOfSorted(p);
      forall i | 0 <= i < |p| ensures s[i].key != x.key { LessIrreflexive(x.key); }
      forall k ensures k in MapOf(s) <==> Present(s, k) {
        if k in MapOf(p) {
          var i :| 0 <= i < |p| && p[i].key == k;
          assert s[i].key == k;
        }
        if Present(s, k) && k != x.key {
          var i :| 0 <= i < |s| && s[i].key == k;
          assert p[i].key == k;
        }
      }
    }
  }

  lemma MapOfNone(s: seq<Item>)
    ensures MapOf(s[..0]) == map[]
  {
  }

  lemma {:induction false} MapOfPrefix(s: seq<Item>, k: nat)
    requires k <= |s|
    ensures k < |s| ==> MapOf(s[..k + 1]) == MapOf(s[..k])[s[k].key := s[k].cont]
    ensures k == |s| ==> MapOf(s[..k]) == MapOf(s)
  {
    if k < |s| {
      assert s[..k + 1][..k] == s[..k];
    } else {
      assert s[..k] == s;
    }
  }

  lemma {:induction false} MapOfConcat(a: seq<Item>, b: seq<Item>)
    ensures MapOf(a + b) == MapOf(a) + MapOf(b)
  {
    if b == [] {
      assert a + b == a;
    } else {
      var p := b[..|b| - 1];
      MapOfConcat(a, p);
      assert (a + b)[..|a + b| - 1] == a + p;
    }
  }

  lemma {:induction false} MapOfKeys(s: seq<Item>, k: Oid)
    ensures k in MapOf(s) ==> Present(s, k)
  {
    if s != [] {
      var p, x := s[..|s| - 1], s[|s| - 1];
      MapOfKeys(p, k);
      if k in MapOf(p) {
        var i :| 0 <= i < |p| && p[i].key == k;
        assert s[i].key == k;
      } else if k == x.key {
        assert s[|s| - 1].key == k;
      }
    }
  }

  lemma OverrideApart(p: map<Oid, Entry>, x: Item, q: map<Oid, Entry>)
    requires x.key !in q
    ensures p + map[x.key := x.cont] + q == (p + q)[x.key := x.cont]
    ensures x.key !in p ==> p + map[x.key := x.cont] + q - {x.key} == p + q
  {
  }

  lemma MapOfAround(a: seq<Item>, x: Item, b: seq<Item>)
    ensures MapOf(a + [x] + b) == MapOf(a) + map[x.key := x.cont] + MapOf(b)
  {
    MapOfConcat(a, [x]);
    MapOfConcat(a + [x], b);
    assert [x][..0] == [];
  }

  lemma InsertedMap(s: seq<Item>, k: Oid, v: Entry, i: nat)
    requires i <= |s| && !Present(s, k)
    ensures MapOf(InsertedAt(s, i, Item(k, v))) == MapOf(s)[k := v]
  {
    var a, b := s[..i], s[i..];
    assert s == a + b;
    MapOfConcat(a, b);
    MapOfAround(a, Item(k, v), b);
    MapOfKeys(b, k);
    assert forall j :: 0 <= j < |b| ==> b[j] == s[i + j];
    OverrideApart(MapOf(a), Item(k, v), MapOf(b));
  }

  lemma RemovedMap(s: seq<Item>, i: nat)
    requires Sorted(s) && i < |s|
    ensures MapOf(RemovedAt(s, i)) == MapOf(s) - {s[i].key}
  {
    hide MapOf, Less;
    var a, x, b := s[..i], s[i], s[i + 1..];
    assert s == a + [x] + b;
    MapOfConcat(a, b);
    MapOfAround(a, x, b);
    LessIrreflexive(x.key);
    SortedParts(a, x, b);
    MapOfKeys(a, x.key);
    MapOfKeys(b, x.key);
    OverrideApart(MapOf(a), x, MapOf(b));
  }

  // ---------- the two operations, end to end ----------

  function Contents(tr: Tree): map<Oid, Entry> {
    MapOf(Items(tr))
  }

  lemma ContentsKeys(tr: Tree, k: Oid)
    requires Sorted(Items(tr))
    ensures k in Contents(tr) <==> Has(tr, k)
    ensures Has(tr, k) ==> Rank(tr, k) < |Items(tr)| && Items(tr)[Rank(tr, k)] == Item(k, Contents(tr)[k])
  {
    MapOfSorted(Items(tr));
    RankPosition(tr, k);
    HasIffPresent(tr, k);
  }

  /** Inserting a key binds it if it was unbound, and is invisible otherwise. */
  lemma InsertCorrect(tr: Tree, k: Oid, v: Entry, nn: Node)
    requires Sorted(Items(tr)) && Distinct(tr)
    ensures var t := Insert(tr, k, v, nn).0;
      && Sorted(Items(t))
      && Contents(t) == if k in Contents(tr) then Contents(tr) else Contents(tr)[k := v]
  {
    ContentsKeys(tr, k);
    InsertOwns(tr, k, v, nn);
    if !Has(tr, k) {
      InsertItems(tr, k, v, nn);
      RankPosition(tr, k);
      HasIffPresent(tr, k);
      InsertedSorted(Items(tr), k, v, Rank(tr, k));
      InsertedMap(Items(tr), k, v, Rank(tr, k));
    }
  }

  /** Deleting a key unbinds exactly that key. */
  lemma DeleteCorrect(tr: Tree, k: Oid)
    requires Sorted(Items(tr)) && Distinct(tr)
    ensures var t := Delete(tr, k).0;
      && Sorted(Items(t))
      && Contents(t) == Contents(tr) - {k}
  {
    ContentsKeys(tr, k);
    DeleteOwns(tr, k);
    if Has(tr, k) {
      DeleteItems(tr, k);
      RemovedSorted(Items(tr), Rank(tr, k));
      RemovedMap(Items(tr), Rank(tr, k));
    }
  }

  // ---------- the height bound ----------

  function Fib(n: nat): nat {
    if n < 2 then n else Fib(n - 1) + Fib(n - 2)
  }

  lemma {:induction false} FibMonotone(a: nat, b: nat)
    requires a <= b
    ensures Fib(a) <= Fib(b)
    decreases b - a
  {
    if a < b {
      assert Fib(a) <= Fib(a + 1);
      FibMonotone(a + 1, b);
    }
  }

  /** A balanced tree of height h holds at least Fib(h + 2) - 1 keys. */
  lemma {:induction false} HeightBound(tr: Tree)
    requires Avl(tr)
    ensures |Items(tr)| + 1 >= Fib(Height(tr) + 2)
  {
    if tr.Branch? {
      HeightBound(tr.l);
      HeightBound(tr.r);
      HeightsBelow(tr);
      hide Fib;
      FibSum(Height(tr));
      FibMonotone(Height(tr), Height(tr.l) + 2);
      FibMonotone(Height(tr), Height(tr.r) + 2);
      FibMonotone(Height(tr) + 1, Higher(Height(tr.l), Height(tr.r)) + 2);
    }
  }

  lemma FibSum(n: nat)
    ensures Fib(n + 2) == Fib(n + 1) + Fib(n)
  {
  }

  lemma HeightsBelow(tr: Tree)
    requires Avl(tr) && tr.Branch?
    ensures Height(tr) <= Height(tr.l) + 2 && Height(tr) <= Height(tr.r) + 2
    ensures |Items(tr)| == |Items(tr.l)| + 1 + |Items(tr.r)|
  {
  }

  /** A search that visits at most as many nodes as the tree is high visits few for the number of keys. */
  lemma SearchBound(tr: Tree, visited: nat)
    requires Avl(tr) && visited <= Height(tr)
    ensures Fib(visited + 2) <= |Items(tr)| + 1
  {
    HeightBound(tr);
    FibMonotone(visited + 2, Height(tr) + 2);
  }

  // ---------- any run of insertions and deletions ----------

  datatype Op = Bind(key: Oid, cont: Entry, node: Node) | Unbind(key: Oid)

  function Apply(tr: Tree, op: Op): Tree {
    match op
    case Bind(k, v, n) => Insert(tr, k, v, n).0
    case Unbind(k) => Delete(tr, k).0
  }

  function Run(tr: Tree, ops: seq<Op>): Tree
    decreases |ops|
  {
    if ops == [] then tr else Run(Apply(tr, ops[0]), ops[1..])
  }

  /** The node allocated for an insertion is none of those in the tree. */
  predicate NewNodes(tr: Tree, ops: seq<Op>)
    decreases |ops|
  {
    ops != [] ==> (ops[0].Bind? ==> ops[0].node !in Nodes(tr)) && NewNodes(Apply(tr, ops[0]), ops[1..])
  }

  /** The same operations on a finite map: binding leaves a bound key alone. */
  function MapRun(m: map<Oid, Entry>, ops: seq<Op>): map<Oid, Entry>
    decreases |ops|
  {
    if ops == [] then m
    else
      var op := ops[0];
      MapRun(match op case Bind(k, v, _) => (if k in m then m else m[k := v]) case Unbind(k) => m - {k}, ops[1..])
  }

  lemma ApplyKeeps(tr: Tree, op: Op)
    requires Avl(tr) && Sorted(Items(tr)) && Distinct(tr) && (op.Bind? ==> op.node !in Nodes(tr))
    ensures var t := Apply(tr, op); Avl(t) && Sorted(Items(t)) && Distinct(t)
  {
    hide Avl, Sorted, Distinct, Insert, Delete, Items, Nodes;
    match op
    case Bind(k, v, n) =>
      InsertAvl(tr, k, v, n);
      InsertCorrect(tr, k, v, n);
      InsertDistinct(tr, k, v, n);
    case Unbind(k) =>
      DeleteAvl(tr, k);
      DeleteCorrect(tr, k);
      DeleteDistinct(tr, k);
  }

  lemma InsertDistinct(tr: Tree, k: Oid, v: Entry, n: Node)
    requires Distinct(tr) && n !in Nodes(tr)
    ensures Distinct(Insert(tr, k, v, n).0)
  {
    hide Insert;
    InsertOwns(tr, k, v, n);
  }

  lemma DeleteDistinct(tr: Tree, k: Oid)
    requires Distinct(tr)
    ensures Distinct(Delete(tr, k).0)
  {
    hide Delete;
    DeleteOwns(tr, k);
  }

  /** Whatever is inserted and deleted, in whatever order: the tree stays balanced and ordered, represents the map that
      the operations describe, and is no higher than the Fibonacci bound allows. */
  lemma {:induction false} RunKeeps(tr: Tree, ops: seq<Op>)
    requires Avl(tr) && Sorted(Items(tr)) && Distinct(tr) && NewNodes(tr, ops)
    ensures var t := Run(tr, ops);
      && Avl(t) && Sorted(Items(t)) && Distinct(t)
      && Contents(t) == MapRun(Contents(tr), ops)
      && |Items(t)| + 1 >= Fib(Height(t) + 2)
    decreases |ops|
  {
    hide Avl, Sorted, Distinct, Insert, Delete, Items, Nodes, Contents, Height, Fib;
    if ops == [] {
      HeightBound(tr);
    } else {
      ApplyKeeps(tr, ops[0]);
      match ops[0] {
        case Bind(k, v, n) => InsertCorrect(tr, k, v, n);
        case Unbind(k) => DeleteCorrect(tr, k);
      }
      RunKeeps(Apply(tr, ops[0]), ops[1..]);
    }
  }
}
