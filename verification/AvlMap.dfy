/** The threaded AVL map: the class, its recursive insertion and deletion, and its traversals. */
module AvlMap {
  import opened OidOrder
  import opened AvlTree
  import opened AvlContents
  import opened AvlNodes
  import opened AvlPlaces

  /** Memory holds `u`, rooted at `r`, in exactly the nodes `ns`. */
  ghost predicate Holds(u: Tree, r: Node?, lb: Node?, rb: Node?, ns: set<Node>)
    reads ns
  {
    Owns(u, ns) && u.Branch? && r == u.n && Rep(u, lb, rb)
  }

  /** Whatever rotation a left-heavy root may need has the nodes it turns. */
  predicate CanTurnRight(tr: Tree) {
    tr.Branch? && (tr.bal == LeftHeavy ==> tr.l.Branch? && (tr.l.bal == RightHeavy ==> tr.l.r.Branch?))
  }

  predicate CanTurnLeft(tr: Tree) {
    tr.Branch? && (tr.bal == RightHeavy ==> tr.r.Branch? && (tr.r.bal == LeftHeavy ==> tr.r.l.Branch?))
  }

  lemma GrownLeftOwns(tr: Tree, l': Tree, f: Node)
    requires tr.Branch? && tr.l.Leaf? && Distinct(tr) && f !in Nodes(tr)
    requires l'.Branch? && l'.l.Leaf? && l'.r.Leaf? && l'.n == f
    ensures Owns(tr.(l := l'), Nodes(tr) + {f})
  {
    assert Nodes(l') == {f};
  }

  lemma GrownRightOwns(tr: Tree, r': Tree, f: Node)
    requires tr.Branch? && tr.r.Leaf? && Distinct(tr) && f !in Nodes(tr)
    requires r'.Branch? && r'.l.Leaf? && r'.r.Leaf? && r'.n == f
    ensures Owns(tr.(r := r'), Nodes(tr) + {f})
  {
    assert Nodes(r') == {f};
  }

  lemma UnionGrows(a: set<Node>, n: Node, b: set<Node>, c: set<Node>)
    ensures (a + {n}) + b + c == a + b + c + {n} == a + b + (c + {n})
  {
  }

  lemma SplitRoot(tr: Tree, lb: Node?, rb: Node?)
    requires tr.Branch? && Distinct(tr) && Rep(tr, lb, rb)
    ensures Fields(tr.n) == Root(tr, lb, rb)
  {
    assert tr.n in Nodes(tr);
  }

  lemma SplitLeft(tr: Tree, lb: Node?, rb: Node?)
    requires tr.Branch? && Distinct(tr) && Rep(tr, lb, rb)
    ensures Rep(tr.l, lb, tr.n)
  {
    forall n | n in Nodes(tr.l) ensures Fields(n) == Want(tr.l, lb, tr.n, n) { WantLeft(tr, lb, rb, n); }
  }

  lemma SplitRight(tr: Tree, lb: Node?, rb: Node?)
    requires tr.Branch? && Distinct(tr) && Rep(tr, lb, rb)
    ensures Rep(tr.r, tr.n, rb)
  {
    forall n | n in Nodes(tr.r) ensures Fields(n) == Want(tr.r, tr.n, rb, n) { WantRight(tr, lb, rb, n); }
  }

  lemma SplitRep(tr: Tree, lb: Node?, rb: Node?)
    requires tr.Branch? && Distinct(tr) && Rep(tr, lb, rb)
    ensures Fields(tr.n) == Root(tr, lb, rb) && Rep(tr.l, lb, tr.n) && Rep(tr.r, tr.n, rb)
  {
    SplitRoot(tr, lb, rb);
    SplitLeft(tr, lb, rb);
    SplitRight(tr, lb, rb);
  }

  lemma InsertLeftReady(tr: Tree, k: Oid, v: Entry, nn: Node)
    requires tr.Branch? && Avl(tr) && Insert(tr.l, k, v, nn).1
    ensures var u := tr.(l := Insert(tr.l, k, v, nn).0);
      CanTurnRight(u) && (u.bal == LeftHeavy ==> u.l.bal != Even)
  {
    InsertAvl(tr.l, k, v, nn);
  }

  lemma InsertRightReady(tr: Tree, k: Oid, v: Entry, nn: Node)
    requires tr.Branch? && Avl(tr) && Insert(tr.r, k, v, nn).1
    ensures var u := tr.(r := Insert(tr.r, k, v, nn).0);
      CanTurnLeft(u) && (u.bal == RightHeavy ==> u.r.bal != Even)
  {
    InsertAvl(tr.r, k, v, nn);
  }

  /** The slot a deletion works through: a child link of `par`, or the map's own root reference. */
  datatype Side = OnLeft | OnRight | AtTop

  ghost predicate InSlot(side: Side, par: Node, t: Node, lb: Node?, rb: Node?, ns: set<Node>)
    reads par
  {
    match side
    case OnLeft => par !in ns && par.lt == t && rb == par
    case OnRight => par !in ns && par.rt == t && par.lt != t && lb == par
    case AtTop => par == t && lb == null && rb == null
  }

  /** What the slot refers to once it holds `u`. */
  ghost function SlotAfter(side: Side, u: Tree, t: Node, lb: Node?, rb: Node?): Node? {
    if u.Branch? then u.n
    else match side
      case OnLeft => lb
      case OnRight => rb
      case AtTop => t
  }

  /** The parent's fields once the slot holds `u`; an emptied child slot becomes a thread. */
  ghost function ParentAfter(v: View, side: Side, u: Tree, lb: Node?, rb: Node?): View {
    if u.Branch? then v
    else match side
      case OnLeft => v.(lt := lb, lthread := true)
      case OnRight => v.(rt := rb, rthread := true)
      case AtTop => v
  }

  /** One deletion, either of `k` or, once the key is found further up, of the greatest key. */
  ghost function Outcome(tr: Tree, k: Oid, deep: bool): (Tree, bool) {
    if tr.Leaf? then (Leaf, false) else if deep then DeleteMax(tr) else Delete(tr, k)
  }

  ghost function Gone(tr: Tree, k: Oid, deep: bool): Node? {
    if tr.Leaf? then null else if deep then MaxNode(tr) else Victim(tr, k)
  }

  ghost function Without(ns: set<Node>, n: Node?): set<Node> {
    set m | m in ns && m != n
  }

  ghost function OutcomeLeft(tr: Tree, k: Oid, deep: bool): (Tree, bool)
    requires tr.Branch?
  {
    var (l', shrank) := Outcome(tr.l, k, deep);
    if shrank then LeftShrank(tr.(l := l')) else (tr.(l := l'), false)
  }

  ghost function OutcomeRight(tr: Tree, k: Oid, deep: bool): (Tree, bool)
    requires tr.Branch?
  {
    var (r', shrank) := Outcome(tr.r, k, deep);
    if shrank then RightShrank(tr.(r := r')) else (tr.(r := r'), false)
  }

  /** Away from the key to be deleted, the outcome is that of the side the search turns to. */
  lemma OutcomeSides(tr: Tree, k: Oid, deep: bool)
    requires tr.Branch?
    ensures !deep && k != tr.key && Less(k, tr.key) ==>
      Outcome(tr, k, deep) == OutcomeLeft(tr, k, deep) && Gone(tr, k, deep) == Gone(tr.l, k, deep)
    ensures (if deep then tr.r.Branch? else k != tr.key && !Less(k, tr.key)) ==>
      Outcome(tr, k, deep) == OutcomeRight(tr, k, deep) && Gone(tr, k, deep) == Gone(tr.r, k, deep)
    ensures (if deep then tr.r.Leaf? else k == tr.key && (tr.l.Leaf? || tr.r.Leaf?)) ==>
      Outcome(tr, k, deep) == (if tr.l.Leaf? then tr.r else tr.l, true) && Gone(tr, k, deep) == tr.n
  {
    assert deep && tr.r.Branch? ==> MaxNode(tr) == MaxNode(tr.r);
    assert !deep && k != tr.key && !Less(k, tr.key) ==> Victim(tr, k) == Victim(tr.r, k);
  }

  lemma AvlCanTurn(tr: Tree)
    requires tr.Branch? && Avl(tr)
    ensures CanTurnLeft(tr) && CanTurnRight(tr)
  {
  }

  lemma UnionShrinks(a: set<Node>, n: Node?, b: set<Node>, c: set<Node>)
    ensures Without(a, n) <= a && Without(c, n) <= c
    ensures n !in b && n !in c ==> Without(a, n) + b + c == Without(a + b + c, n)
    ensures n !in a && n !in b ==> a + b + Without(c, n) == Without(a + b + c, n)
  {
  }

  lemma {:induction false} OutcomeOwns(tr: Tree, k: Oid, deep: bool)
    requires Distinct(tr)
    ensures Owns(Outcome(tr, k, deep).0, Without(Nodes(tr), Gone(tr, k, deep)))
    ensures Gone(tr, k, deep) == null || Gone(tr, k, deep) in Nodes(tr)
  {
    if tr.Branch? {
      if deep {
        DeleteMaxOwns(tr);
      } else {
        DeleteOwns(tr, k);
      }
    }
  }

  lemma InsertCount(tr: Tree, k: Oid, v: Entry, nn: Node)
    requires Sorted(Items(tr)) && Distinct(tr)
    ensures |Items(Insert(tr, k, v, nn).0)| == |Items(tr)| + if Has(tr, k) then 0 else 1
    ensures Has(tr, k) <==> k in Contents(tr)
  {
    ContentsKeys(tr, k);
    InsertOwns(tr, k, v, nn);
    if !Has(tr, k) {
      InsertItems(tr, k, v, nn);
    }
  }

  lemma DeleteCount(tr: Tree, k: Oid)
    requires Sorted(Items(tr)) && Distinct(tr)
    ensures |Items(Delete(tr, k).0)| == |Items(tr)| - if Has(tr, k) then 1 else 0
    ensures Has(tr, k) <==> k in Contents(tr)
    ensures Has(tr, k) <==> Victim(tr, k) != null
  {
    ContentsKeys(tr, k);
    DeleteOwns(tr, k);
    if Has(tr, k) {
      DeleteItems(tr, k);
    }
  }

  /** Everything one deletion promises, in one place. */
  lemma Deleted(tr: Tree, k: Oid)
    requires Avl(tr) && Sorted(Items(tr)) && Distinct(tr)
    ensures var u := Delete(tr, k).0;
      && Avl(u) && Sorted(Items(u)) && Contents(u) == Contents(tr) - {k}
      && |Items(u)| == |Items(tr)| - (if k in Contents(tr) then 1 else 0)
      && (Victim(tr, k) != null <==> k in Contents(tr))
  {
    DeleteAvl(tr, k);
    DeleteCorrect(tr, k);
    DeleteCount(tr, k);
  }

  lemma UpdateTwice(m: map<Oid, Entry>, k: Oid, u: Entry, v: Entry)
    ensures m[k := u][k := v] == m[k := v]
  {
  }

  lemma StopHolds(tr: Tree, k: Oid)
    requires tr.Branch? && Distinct(tr) && Sorted(Items(tr)) && Rep(tr, null, null) && Has(tr, k)
    ensures var n := Stop(tr, k);
      n in Nodes(tr) && n.item == k && k in Contents(tr) && n.cont == Contents(tr)[k]
  {
    StopPlace(tr, k);
    IndexOfPlace(tr, null, null, Stop(tr, k));
    ContentsKeys(tr, k);
  }

  ghost function NextOf(tr: Tree, rb: Node?, i: nat): Node? {
    if i + 1 < |Order(tr)| then Order(tr)[i + 1] else rb
  }

  ghost function PrevOf(tr: Tree, lb: Node?, i: nat): Node? {
    if 0 < i <= |Order(tr)| then Order(tr)[i - 1] else lb
  }

  /** The subtree below `n`, with the neighbours its threads may point to; its own neighbours are those of `n` in the
      whole tree. */
  lemma {:induction false} Locate(tr: Tree, lb: Node?, rb: Node?, n: Node) returns (sub: Tree, slb: Node?, srb: Node?)
    requires n in Nodes(tr) && Distinct(tr) && Rep(tr, lb, rb)
    ensures sub.Branch? && sub.n == n && Distinct(sub) && Nodes(sub) <= Nodes(tr) && Rep(sub, slb, srb)
    ensures (if sub.r.Leaf? then srb else MinNode(sub.r)) == NextOf(tr, rb, IndexOf(tr, n))
    ensures (if sub.l.Leaf? then slb else MaxNode(sub.l)) == PrevOf(tr, lb, IndexOf(tr, n))
  {
    SplitRep(tr, lb, rb);
    if n == tr.n {
      sub, slb, srb := tr, lb, rb;
      LocateRoot(tr, lb, rb);
    } else if n in Nodes(tr.l) {
      sub, slb, srb := Locate(tr.l, lb, tr.n, n);
      NeighboursLeft(tr, lb, rb, n);
    } else {
      sub, slb, srb := Locate(tr.r, tr.n, rb, n);
      NeighboursRight(tr, lb, rb, n);
    }
  }

  lemma {:induction false} LocateRoot(tr: Tree, lb: Node?, rb: Node?)
    requires tr.Branch?
    ensures (if tr.r.Leaf? then rb else MinNode(tr.r)) == NextOf(tr, rb, |Items(tr.l)|)
    ensures (if tr.l.Leaf? then lb else MaxNode(tr.l)) == PrevOf(tr, lb, |Items(tr.l)|)
  {
    if tr.r.Branch? {
      MinNodeFirst(tr.r);
      PartAt(Order(tr.l), tr.n, Order(tr.r), |Items(tr.l)| + 1);
    }
    if tr.l.Branch? {
      MaxNodeLast(tr.l);
      PartAt(Order(tr.l), tr.n, Order(tr.r), |Items(tr.l)| - 1);
    }
  }

  lemma {:induction false} NeighboursLeft(tr: Tree, lb: Node?, rb: Node?, n: Node)
    requires tr.Branch? && n != tr.n && n in Nodes(tr.l)
    ensures NextOf(tr.l, tr.n, IndexOf(tr.l, n)) == NextOf(tr, rb, IndexOf(tr, n))
    ensures PrevOf(tr.l, lb, IndexOf(tr.l, n)) == PrevOf(tr, lb, IndexOf(tr, n))
  {
    var i := IndexOf(tr.l, n);
    IndexOfPlace(tr.l, lb, tr.n, n);
    PartAt(Order(tr.l), tr.n, Order(tr.r), i + 1);
    if i > 0 {
      PartAt(Order(tr.l), tr.n, Order(tr.r), i - 1);
    }
  }

  lemma {:induction false} NeighboursRight(tr: Tree, lb: Node?, rb: Node?, n: Node)
    requires tr.Branch? && n != tr.n && n !in Nodes(tr.l) && n in Nodes(tr.r)
    ensures NextOf(tr.r, rb, IndexOf(tr.r, n)) == NextOf(tr, rb, IndexOf(tr, n))
    ensures PrevOf(tr.r, tr.n, IndexOf(tr.r, n)) == PrevOf(tr, lb, IndexOf(tr, n))
  {
    var j := |Order(tr.l)| + 1 + IndexOf(tr.r, n);
    IndexOfPlace(tr.r, tr.n, rb, n);
    if j + 1 < |Order(tr)| {
      PartAt(Order(tr.l), tr.n, Order(tr.r), j + 1);
    }
    PartAt(Order(tr.l), tr.n, Order(tr.r), j - 1);
  }

  /** Everything one insertion promises, in one place. */
  lemma Inserted(tr: Tree, k: Oid, v: Entry, f: Node)
    requires Avl(tr) && Sorted(Items(tr)) && Distinct(tr)
    requires if Has(tr, k) then f == NodeOf(tr, k) else f !in Nodes(tr)
    ensures var u := Insert(tr, k, v, f).0;
      && Avl(u) && Sorted(Items(u))
      && |Items(u)| == |Items(tr)| + (if Has(tr, k) then 0 else 1)
      && Contents(u) == (if Has(tr, k) then Contents(tr) else Contents(tr)[k := v])
      && f in Nodes(u) && Want(u, null, null, f).item == k
  {
    InsertAvl(tr, k, v, f);
    InsertCorrect(tr, k, v, f);
    InsertCount(tr, k, v, f);
    InsertOwns(tr, k, v, f);
    if Has(tr, k) {
      NodeOfWant(tr, k, null, null);
    } else {
      InsertNodeKey(tr, k, v, f, null, null);
    }
  }

  class AvlMap {
    var root: Node?
    var count: int
    var def: Entry
    // the program's file-level statics
    var needRebalancing: bool
    var targetItem: Oid
    var foundNode: Node?
    var alreadyFound: bool

    ghost var tree: Tree
    ghost var Repr: set<Node>

    ghost predicate Valid()
      reads this, Repr
    {
      && Owns(tree, Repr)
      && root == Link(tree, null)
      && Rep(tree, null, null)
      && Avl(tree) && Sorted(Items(tree))
      && count == |Items(tree)|
    }

    constructor (deflt: Entry)
      ensures Valid() && Contents(tree) == map[] && Repr == {} && def == deflt
    {
      root, count, def := null, 0, deflt;
      needRebalancing, targetItem, foundNode, alreadyFound := false, [], null, false;
      tree, Repr := Leaf, {};
    }

    // ---------- rebalancing after an insertion ----------

    method LeftTurn(t: Node, ghost tr: Tree, ghost lb: Node?, ghost rb: Node?, ghost ns: set<Node>) returns (r: Node)
      requires Holds(tr, t, lb, rb, ns) && CanTurnRight(tr) && tr.bal == LeftHeavy && tr.l.bal != Even
      modifies this`needRebalancing, ns
      ensures r == LeftGrew(tr).0.n && Rep(LeftGrew(tr).0, lb, rb) && !needRebalancing
    {
      assert Fields(t) == Root(tr, lb, rb);
      var l := t.lt;
      WantLeft(tr, lb, rb, l);
      assert Fields(l) == Root(tr.l, lb, t);
      if l.Bf() == LeftHeavy {
        r := DoRotateRight(t, Even, Even, tr, lb, rb, ns);
        needRebalancing := false;
      } else {
        r := DoRotateLeftRight(t, tr, lb, rb, ns);
        needRebalancing := false;
      }
    }

    method LeftHasGrown(t: Node, ghost tr: Tree, ghost lb: Node?, ghost rb: Node?, ghost ns: set<Node>)
      returns (r: Node)
      requires Holds(tr, t, lb, rb, ns) && needRebalancing
      requires CanTurnRight(tr) && (tr.bal == LeftHeavy ==> tr.l.bal != Even)
      modifies this`needRebalancing, ns
      ensures Holds(LeftGrew(tr).0, r, lb, rb, ns) && needRebalancing == LeftGrew(tr).1
    {
      LeftGrewOwns(tr);
      assert Fields(t) == Root(tr, lb, rb);
      r := t;
      match t.Bf() {
        case RightHeavy =>
          Mark(t, Even, tr, lb, rb, ns);
          needRebalancing := false;
        case Even =>
          Mark(t, LeftHeavy, tr, lb, rb, ns);
        case LeftHeavy =>
          r := LeftTurn(t, tr, lb, rb, ns);
      }
    }

    method RightTurn(t: Node, ghost tr: Tree, ghost lb: Node?, ghost rb: Node?, ghost ns: set<Node>) returns (r: Node)
      requires Holds(tr, t, lb, rb, ns) && CanTurnLeft(tr) && tr.bal == RightHeavy && tr.r.bal != Even
      modifies this`needRebalancing, ns
      ensures r == RightGrew(tr).0.n && Rep(RightGrew(tr).0, lb, rb) && !needRebalancing
    {
      assert Fields(t) == Root(tr, lb, rb);
      var r' := t.rt;
      WantRight(tr, lb, rb, r');
      assert Fields(r') == Root(tr.r, t, rb);
      if r'.Bf() == RightHeavy {
        r := DoRotateLeft(t, Even, Even, tr, lb, rb, ns);
        needRebalancing := false;
      } else {
        r := DoRotateRightLeft(t, tr, lb, rb, ns);
        needRebalancing := false;
      }
    }

    method RightHasGrown(t: Node, ghost tr: Tree, ghost lb: Node?, ghost rb: Node?, ghost ns: set<Node>)
      returns (r: Node)
      requires Holds(tr, t, lb, rb, ns) && needRebalancing
      requires CanTurnLeft(tr) && (tr.bal == RightHeavy ==> tr.r.bal != Even)
      modifies this`needRebalancing, ns
      ensures Holds(RightGrew(tr).0, r, lb, rb, ns) && needRebalancing == RightGrew(tr).1
    {
      RightGrewOwns(tr);
      assert Fields(t) == Root(tr, lb, rb);
      r := t;
      match t.Bf() {
        case LeftHeavy =>
          Mark(t, Even, tr, lb, rb, ns);
          needRebalancing := false;
        case Even =>
          Mark(t, RightHeavy, tr, lb, rb, ns);
        case RightHeavy =>
          r := RightTurn(t, tr, lb, rb, ns);
      }
    }

    // ---------- insertion ----------

    method AttachLeft(t: Node)
      modifies this`count, this`foundNode, this`needRebalancing, t
      ensures count == old(count) + 1 && needRebalancing
      ensures foundNode != null && fresh(foundNode)
      ensures Fields(foundNode) == View(old(t.lt), t, targetItem, def, Even, true, true)
      ensures Fields(t) == old(Fields(t)).(lt := foundNode, lthread := false)
    {
      count := count + 1;
      var f := new Node(targetItem, def);
      foundNode := f;
      f.SetLThread(true);
      f.SetRThread(true);
      f.lt := t.lt;
      f.rt := t;
      t.lt := f;
      t.SetLThread(false);
      needRebalancing := true;
    }

    method AttachRight(t: Node)
      modifies this`count, this`foundNode, this`needRebalancing, t
      ensures count == old(count) + 1 && needRebalancing
      ensures foundNode != null && fresh(foundNode)
      ensures Fields(foundNode) == View(t, old(t.rt), targetItem, def, Even, true, true)
      ensures Fields(t) == old(Fields(t)).(rt := foundNode, rthread := false)
    {
      count := count + 1;
      var f := new Node(targetItem, def);
      foundNode := f;
      t.SetRThread(false);
      f.SetLThread(true);
      f.SetRThread(true);
      f.lt := t;
      f.rt := t.rt;
      t.rt := f;
      needRebalancing := true;
    }

    /** Attaching a node where the left thread was: the thread moves down to the new node. */
    method GrowLeft(t: Node, ghost tr: Tree, ghost lb: Node?, ghost rb: Node?, ghost ns: set<Node>)
      returns (ghost f: Node)
      requires Holds(tr, t, lb, rb, ns) && tr.l.Leaf?
      modifies this`count, this`foundNode, this`needRebalancing, t
      ensures f == foundNode && fresh(f) && count == old(count) + 1 && needRebalancing
      ensures Holds(tr.(l := Branch(Leaf, f, targetItem, def, Even, Leaf)), t, lb, rb, ns + {f})
    {
      assert Fields(t) == Root(tr, lb, rb);
      AttachLeft(t);
      f := foundNode;
      ghost var u := tr.(l := Branch(Leaf, f, targetItem, def, Even, Leaf));
      assert f !in ns;
      GrownLeftOwns(tr, u.l, f);
      forall n | n in ns + {f}
        ensures Fields(n) == Want(u, lb, rb, n)
      {
        assert n in ns && n != t ==> Fields(n) == old(Fields(n));
      }
    }

    /** The subtree below `t`'s left link has been replaced, root and all. */
    method RelinkLeft(t: Node, s: Node?, ghost tr: Tree, ghost l': Tree, ghost lb: Node?, ghost rb: Node?,
                      ghost nl: set<Node>, ghost nr: set<Node>)
      requires tr.Branch? && tr.n == t && Fields(t).(lt := s) == Root(tr.(l := l'), lb, rb)
      requires Owns(l', nl) && Rep(l', lb, t) && Owns(tr.r, nr) && Rep(tr.r, t, rb)
      requires t !in nl && t !in nr && nl !! nr
      modifies t`lt
      ensures needRebalancing == old(needRebalancing) && foundNode == old(foundNode) && count == old(count)
      ensures Holds(tr.(l := l'), t, lb, rb, nl + {t} + nr)
    {
      t.lt := s;
      ghost var u := tr.(l := l');
      assert Owns(u, nl + {t} + nr);
      forall n | n in nl + {t} + nr
        ensures Fields(n) == Want(u, lb, rb, n)
      {
        if n in nl {
          WantLeft(u, lb, rb, n);
          assert Fields(n) == old(Fields(n));
        } else if n in nr {
          WantRight(u, lb, rb, n);
          assert Fields(n) == old(Fields(n));
        }
      }
    }

    method DescendLeft(t: Node, ghost k: Oid, ghost v: Entry, ghost tr: Tree, ghost lb: Node?, ghost rb: Node?,
                       ghost ns: set<Node>)
      returns (ghost f: Node, ghost ns': set<Node>)
      requires k == targetItem && v == def
      requires Holds(tr, t, lb, rb, ns) && tr.l.Branch? && Avl(tr) && !needRebalancing
      modifies this`count, this`foundNode, this`needRebalancing, ns
      ensures f == foundNode
      ensures Holds(tr.(l := Insert(tr.l, k, v, f).0), t, lb, rb, ns')
      ensures needRebalancing == Insert(tr.l, k, v, f).1
      ensures Has(tr.l, k) ==> f == NodeOf(tr.l, k) && count == old(count) && ns' == ns
      ensures !Has(tr.l, k) ==> fresh(f) && count == old(count) + 1 && ns' == ns + {f}
      decreases tr, 0
    {
      ghost var nl, nr := ns * Nodes(tr.l), ns * Nodes(tr.r);
      assert nl == Nodes(tr.l) && nr == Nodes(tr.r) && ns == nl + {t} + nr;
      SplitRep(tr, lb, rb);
      var s;
      ghost var nl';
      s, f, nl' := Add(t.lt, k, v, tr.l, lb, t, nl);
      assert Fields(t) == old(Fields(t));
      assert Rep(tr.r, t, rb) by {
        forall n | n in nr ensures Fields(n) == Want(tr.r, t, rb, n) {
          assert Fields(n) == old(Fields(n));
        }
      }
      RelinkLeft(t, s, tr, Insert(tr.l, k, v, f).0, lb, rb, nl', nr);
      ns' := nl' + {t} + nr;
      UnionGrows(nl, f, {t}, nr);
    }

    /** One step below `t` on this side: attach a node, or descend. */
    method StepLeft(t: Node, ghost k: Oid, ghost v: Entry, ghost tr: Tree, ghost lb: Node?, ghost rb: Node?,
                    ghost ns: set<Node>)
      returns (ghost f: Node, ghost ns': set<Node>)
      requires k == targetItem && v == def
      requires Holds(tr, t, lb, rb, ns) && Avl(tr) && !needRebalancing
      modifies this`count, this`foundNode, this`needRebalancing, ns
      ensures f == foundNode
      ensures Holds(tr.(l := Insert(tr.l, k, v, f).0), t, lb, rb, ns')
      ensures needRebalancing == Insert(tr.l, k, v, f).1
      ensures Has(tr.l, k) ==> f == NodeOf(tr.l, k) && count == old(count) && ns' == ns
      ensures !Has(tr.l, k) ==> fresh(f) && count == old(count) + 1 && ns' == ns + {f}
      decreases tr, 1
    {
      assert Fields(t) == Root(tr, lb, rb);
      if t.LThread() {
        f := GrowLeft(t, tr, lb, rb, ns);
        ns' := ns + {f};
      } else {
        f, ns' := DescendLeft(t, k, v, tr, lb, rb, ns);
      }
    }

    method AddLeft(t: Node, ghost k: Oid, ghost v: Entry, ghost tr: Tree, ghost lb: Node?, ghost rb: Node?,
                   ghost ns: set<Node>)
      returns (r: Node, ghost f: Node, ghost ns': set<Node>)
      requires k == targetItem && v == def
      requires Holds(tr, t, lb, rb, ns) && Avl(tr) && !needRebalancing && k != tr.key && Less(k, tr.key)
      modifies this`count, this`foundNode, this`needRebalancing, ns
      ensures f == foundNode
      ensures Holds(Insert(tr, k, v, f).0, r, lb, rb, ns') && needRebalancing == Insert(tr, k, v, f).1
      ensures Has(tr, k) ==> f == NodeOf(tr, k) && count == old(count) && ns' == ns
      ensures !Has(tr, k) ==> fresh(f) && count == old(count) + 1 && ns' == ns + {f}
      decreases tr, 2
    {
      r := t;
      f, ns' := StepLeft(t, k, v, tr, lb, rb, ns);
      if needRebalancing {
        InsertLeftReady(tr, k, v, f);
        r := LeftHasGrown(t, tr.(l := Insert(tr.l, k, v, f).0), lb, rb, ns');
      }
    }

    /** Attaching a node where the right thread was: the thread moves down to the new node. */
    method GrowRight(t: Node, ghost tr: Tree, ghost lb: Node?, ghost rb: Node?, ghost ns: set<Node>)
      returns (ghost f: Node)
      requires Holds(tr, t, lb, rb, ns) && tr.r.Leaf?
      modifies this`count, this`foundNode, this`needRebalancing, t
      ensures f == foundNode && fresh(f) && count == old(count) + 1 && needRebalancing
      ensures Holds(tr.(r := Branch(Leaf, f, targetItem, def, Even, Leaf)), t, lb, rb, ns + {f})
    {
      assert Fields(t) == Root(tr, lb, rb);
      AttachRight(t);
      f := foundNode;
      ghost var u := tr.(r := Branch(Leaf, f, targetItem, def, Even, Leaf));
      assert f !in ns;
      GrownRightOwns(tr, u.r, f);
      forall n | n in ns + {f}
        ensures Fields(n) == Want(u, lb, rb, n)
      {
        assert n in ns && n != t ==> Fields(n) == old(Fields(n));
      }
    }

    /** The subtree below `t`'s right link has been replaced, root and all. */
    method RelinkRight(t: Node, s: Node?, ghost tr: Tree, ghost r': Tree, ghost lb: Node?, ghost rb: Node?,
                      ghost nl: set<Node>, ghost nr: set<Node>)
      requires tr.Branch? && tr.n == t && Fields(t).(rt := s) == Root(tr.(r := r'), lb, rb)
      requires Owns(r', nr) && Rep(r', t, rb) && Owns(tr.l, nl) && Rep(tr.l, lb, t)
      requires t !in nl && t !in nr && nl !! nr
      modifies t`rt
      ensures needRebalancing == old(needRebalancing) && foundNode == old(foundNode) && count == old(count)
      ensures Holds(tr.(r := r'), t, lb, rb, nl + {t} + nr)
    {
      t.rt := s;
      ghost var u := tr.(r := r');
      assert Owns(u, nl + {t} + nr);
      forall n | n in nl + {t} + nr
        ensures Fields(n) == Want(u, lb, rb, n)
      {
        if n in nl {
          WantLeft(u, lb, rb, n);
          assert Fields(n) == old(Fields(n));
        } else if n in nr {
          WantRight(u, lb, rb, n);
          assert Fields(n) == old(Fields(n));
        }
      }
    }

    method DescendRight(t: Node, ghost k: Oid, ghost v: Entry, ghost tr: Tree, ghost lb: Node?, ghost rb: Node?,
                        ghost ns: set<Node>)
      returns (ghost f: Node, ghost ns': set<Node>)
      requires k == targetItem && v == def
      requires Holds(tr, t, lb, rb, ns) && tr.r.Branch? && Avl(tr) && !needRebalancing
      modifies this`count, this`foundNode, this`needRebalancing, ns
      ensures f == foundNode
      ensures Holds(tr.(r := Insert(tr.r, k, v, f).0), t, lb, rb, ns')
      ensures needRebalancing == Insert(tr.r, k, v, f).1
      ensures Has(tr.r, k) ==> f == NodeOf(tr.r, k) && count == old(count) && ns' == ns
      ensures !Has(tr.r, k) ==> fresh(f) && count == old(count) + 1 && ns' == ns + {f}
      decreases tr, 0
    {
      ghost var nr, nl := ns * Nodes(tr.r), ns * Nodes(tr.l);
      assert nr == Nodes(tr.r) && nl == Nodes(tr.l) && ns == nl + {t} + nr;
      SplitRep(tr, lb, rb);
      var s;
      ghost var nr';
      s, f, nr' := Add(t.rt, k, v, tr.r, t, rb, nr);
      assert Fields(t) == old(Fields(t));
      assert Rep(tr.l, lb, t) by {
        forall n | n in nl ensures Fields(n) == Want(tr.l, lb, t, n) {
          assert Fields(n) == old(Fields(n));
        }
      }
      RelinkRight(t, s, tr, Insert(tr.r, k, v, f).0, lb, rb, nl, nr');
      ns' := nl + {t} + nr';
      UnionGrows(nl, f, {t}, nr);
    }

    /** One step below `t` on this side: attach a node, or descend. */
    method StepRight(t: Node, ghost k: Oid, ghost v: Entry, ghost tr: Tree, ghost lb: Node?, ghost rb: Node?,
                     ghost ns: set<Node>)
      returns (ghost f: Node, ghost ns': set<Node>)
      requires k == targetItem && v == def
      requires Holds(tr, t, lb, rb, ns) && Avl(tr) && !needRebalancing
      modifies this`count, this`foundNode, this`needRebalancing, ns
      ensures f == foundNode
      ensures Holds(tr.(r := Insert(tr.r, k, v, f).0), t, lb, rb, ns')
      ensures needRebalancing == Insert(tr.r, k, v, f).1
      ensures Has(tr.r, k) ==> f == NodeOf(tr.r, k) && count == old(count) && ns' == ns
      ensures !Has(tr.r, k) ==> fresh(f) && count == old(count) + 1 && ns' == ns + {f}
      decreases tr, 1
    {
      assert Fields(t) == Root(tr, lb, rb);
      if t.RThread() {
        f := GrowRight(t, tr, lb, rb, ns);
        ns' := ns + {f};
      } else {
        f, ns' := DescendRight(t, k, v, tr, lb, rb, ns);
      }
    }

    method AddRight(t: Node, ghost k: Oid, ghost v: Entry, ghost tr: Tree, ghost lb: Node?, ghost rb: Node?,
                    ghost ns: set<Node>)
      returns (r: Node, ghost f: Node, ghost ns': set<Node>)
      requires k == targetItem && v == def
      requires Holds(tr, t, lb, rb, ns) && Avl(tr) && !needRebalancing && k != tr.key && !Less(k, tr.key)
      modifies this`count, this`foundNode, this`needRebalancing, ns
      ensures f == foundNode
      ensures Holds(Insert(tr, k, v, f).0, r, lb, rb, ns') && needRebalancing == Insert(tr, k, v, f).1
      ensures Has(tr, k) ==> f == NodeOf(tr, k) && count == old(count) && ns' == ns
      ensures !Has(tr, k) ==> fresh(f) && count == old(count) + 1 && ns' == ns + {f}
      decreases tr, 2
    {
      r := t;
      f, ns' := StepRight(t, k, v, tr, lb, rb, ns);
      if needRebalancing {
        InsertRightReady(tr, k, v, f);
        r := RightHasGrown(t, tr.(r := Insert(tr.r, k, v, f).0), lb, rb, ns');
      }
    }

    /** Insertion below `t`; returns what the reference to `t` refers to afterwards. */
    method Add(t: Node, ghost k: Oid, ghost v: Entry, ghost tr: Tree, ghost lb: Node?, ghost rb: Node?,
               ghost ns: set<Node>)
      returns (r: Node, ghost f: Node, ghost ns': set<Node>)
      requires k == targetItem && v == def
      requires Holds(tr, t, lb, rb, ns) && Avl(tr) && !needRebalancing
      modifies this`count, this`foundNode, this`needRebalancing, ns
      ensures f == foundNode
      ensures Holds(Insert(tr, k, v, f).0, r, lb, rb, ns') && needRebalancing == Insert(tr, k, v, f).1
      ensures Has(tr, k) ==> f == NodeOf(tr, k) && count == old(count) && ns' == ns
      ensures !Has(tr, k) ==> fresh(f) && count == old(count) + 1 && ns' == ns + {f}
      decreases tr, 3
    {
      assert Fields(t) == Root(tr, lb, rb);
      var cmp := Cmp(targetItem, t.item);
      if cmp == 0 {
        foundNode := t;
        r, f, ns' := t, t, ns;
      } else if cmp < 0 {
        r, f, ns' := AddLeft(t, k, v, tr, lb, rb, ns);
      } else {
        LessTotal(k, tr.key);
        r, f, ns' := AddRight(t, k, v, tr, lb, rb, ns);
      }
    }

    // ---------- neighbours ----------

    /** The in-order successor of `t`: the leftmost node of its right subtree, or else its right thread. */
    method Succ(t: Node, ghost tr: Tree, ghost lb: Node?, ghost rb: Node?, ghost ns: set<Node>) returns (r: Node?)
      requires Holds(tr, t, lb, rb, ns)
      ensures r == if tr.r.Leaf? then rb else MinNode(tr.r)
    {
      SplitRep(tr, lb, rb);
      r := t.rt;
      if !t.RThread() {
        ghost var cur, b := tr.r, rb;
        while !r.LThread()
          invariant cur.Branch? && r == cur.n && Distinct(cur) && Rep(cur, t, b)
          invariant MinNode(cur) == MinNode(tr.r)
          decreases cur
        {
          SplitRep(cur, t, b);
          r := r.lt;
          cur, b := cur.l, cur.n;
        }
        SplitRep(cur, t, b);
      }
    }

    method Pred(t: Node, ghost tr: Tree, ghost lb: Node?, ghost rb: Node?, ghost ns: set<Node>) returns (l: Node?)
      requires Holds(tr, t, lb, rb, ns)
      ensures l == if tr.l.Leaf? then lb else MaxNode(tr.l)
    {
      SplitRep(tr, lb, rb);
      l := t.lt;
      if !t.LThread() {
        ghost var cur, b := tr.l, lb;
        while !l.RThread()
          invariant cur.Branch? && l == cur.n && Distinct(cur) && Rep(cur, b, t)
          invariant MaxNode(cur) == MaxNode(tr.l)
          decreases cur
        {
          SplitRep(cur, b, t);
          l := l.rt;
          cur, b := cur.r, cur.n;
        }
        SplitRep(cur, b, t);
      }
    }

    // ---------- rebalancing after a deletion ----------

    method TurnAfterLeftShrunk(t: Node, ghost tr: Tree, ghost lb: Node?, ghost rb: Node?, ghost ns: set<Node>)
      returns (r: Node)
      requires Holds(tr, t, lb, rb, ns) && CanTurnLeft(tr) && tr.bal == RightHeavy && needRebalancing
      modifies this`needRebalancing, ns
      ensures r == LeftShrank(tr).0.n && Rep(LeftShrank(tr).0, lb, rb) && needRebalancing == LeftShrank(tr).1
    {
      assert Fields(t) == Root(tr, lb, rb);
      WantRight(tr, lb, rb, t.rt);
      assert Fields(t.rt) == Root(tr.r, t, rb);
      match t.rt.Bf() {
        case Even =>
          r := DoRotateLeft(t, RightHeavy, LeftHeavy, tr, lb, rb, ns);
          needRebalancing := false;
        case RightHeavy =>
          r := DoRotateLeft(t, Even, Even, tr, lb, rb, ns);
        case LeftHeavy =>
          r := DoRotateRightLeft(t, tr, lb, rb, ns);
      }
    }

    method LeftHasShrunk(t: Node, ghost tr: Tree, ghost lb: Node?, ghost rb: Node?, ghost ns: set<Node>)
      returns (r: Node)
      requires Holds(tr, t, lb, rb, ns) && CanTurnLeft(tr) && needRebalancing
      modifies this`needRebalancing, ns
      ensures Holds(LeftShrank(tr).0, r, lb, rb, ns) && needRebalancing == LeftShrank(tr).1
    {
      LeftShrankOwns(tr);
      assert Fields(t) == Root(tr, lb, rb);
      r := t;
      match t.Bf() {
        case LeftHeavy =>
          Mark(t, Even, tr, lb, rb, ns);
        case Even =>
          Mark(t, RightHeavy, tr, lb, rb, ns);
          needRebalancing := false;
        case RightHeavy =>
          r := TurnAfterLeftShrunk(t, tr, lb, rb, ns);
      }
    }

    method TurnAfterRightShrunk(t: Node, ghost tr: Tree, ghost lb: Node?, ghost rb: Node?, ghost ns: set<Node>)
      returns (r: Node)
      requires Holds(tr, t, lb, rb, ns) && CanTurnRight(tr) && tr.bal == LeftHeavy && needRebalancing
      modifies this`needRebalancing, ns
      ensures r == RightShrank(tr).0.n && Rep(RightShrank(tr).0, lb, rb) && needRebalancing == RightShrank(tr).1
    {
      assert Fields(t) == Root(tr, lb, rb);
      WantLeft(tr, lb, rb, t.lt);
      assert Fields(t.lt) == Root(tr.l, lb, t);
      match t.lt.Bf() {
        case Even =>
          r := DoRotateRight(t, LeftHeavy, RightHeavy, tr, lb, rb, ns);
          needRebalancing := false;
        case LeftHeavy =>
          r := DoRotateRight(t, Even, Even, tr, lb, rb, ns);
        case RightHeavy =>
          r := DoRotateLeftRight(t, tr, lb, rb, ns);
      }
    }

    method RightHasShrunk(t: Node, ghost tr: Tree, ghost lb: Node?, ghost rb: Node?, ghost ns: set<Node>)
      returns (r: Node)
      requires Holds(tr, t, lb, rb, ns) && CanTurnRight(tr) && needRebalancing
      modifies this`needRebalancing, ns
      ensures Holds(RightShrank(tr).0, r, lb, rb, ns) && needRebalancing == RightShrank(tr).1
    {
      RightShrankOwns(tr);
      assert Fields(t) == Root(tr, lb, rb);
      r := t;
      match t.Bf() {
        case RightHeavy =>
          Mark(t, Even, tr, lb, rb, ns);
        case Even =>
          Mark(t, LeftHeavy, tr, lb, rb, ns);
          needRebalancing := false;
        case LeftHeavy =>
          r := TurnAfterRightShrunk(t, tr, lb, rb, ns);
      }
    }

    // ---------- deletion ----------

    /** A node without subtrees: its slot in the parent turns into the thread it held on that side. */
    method UnlinkLeaf(par: Node, t: Node, ghost side: Side, ghost tr: Tree, ghost lb: Node?, ghost rb: Node?,
                      ghost ns: set<Node>)
      returns (r: Node?)
      requires Holds(tr, t, lb, rb, ns) && InSlot(side, par, t, lb, rb, ns) && tr.l.Leaf? && tr.r.Leaf?
      modifies this`needRebalancing, this`foundNode, par
      ensures needRebalancing && foundNode == t
      ensures r == SlotAfter(side, Leaf, t, lb, rb)
      ensures !side.AtTop? ==> Fields(par) == ParentAfter(old(Fields(par)), side, Leaf, lb, rb)
    {
      assert Fields(t) == Root(tr, lb, rb);
      foundNode := t;
      if t == par.lt {
        par.SetLThread(true);
        par.lt := t.lt;
        r := par.lt;
      } else {
        par.SetRThread(true);
        par.rt := t.rt;
        // with `par == t` the slot is the map's own root reference, which stays as it is
        r := if par == t then t else par.rt;
      }
      needRebalancing := true;
    }

    /** The thread of the leftmost node of a subtree is redirected to a new lower neighbour. */
    method RedirectLeft(s: Node?, b: Node?, ghost tr: Tree, ghost r: Node, ghost lb: Node?, ghost rb: Node?,
                        ghost ns: set<Node>)
      requires Holds(tr, r, lb, rb, ns) && s == MinNode(tr)
      modifies ns
      ensures Holds(tr, r, b, rb, ns)
    {
      MinNodeIn(tr);
      WantMin(tr, lb, b, rb, s);
      if s != null && s.LThread() {
        s.lt := b;
      }
      forall n | n in ns
        ensures Fields(n) == Want(tr, b, rb, n)
      {
        WantMin(tr, lb, b, rb, n);
        assert n != s ==> Fields(n) == old(Fields(n));
      }
    }

    /** The thread of the rightmost node of a subtree is redirected to a new upper neighbour. */
    method RedirectRight(p: Node?, b: Node?, ghost tr: Tree, ghost r: Node, ghost lb: Node?, ghost rb: Node?,
                         ghost ns: set<Node>)
      requires Holds(tr, r, lb, rb, ns) && p == MaxNode(tr)
      modifies ns
      ensures Holds(tr, r, lb, b, ns)
    {
      MaxNodeIn(tr);
      WantMax(tr, lb, rb, b, p);
      if p != null && p.RThread() {
        p.rt := b;
      }
      forall n | n in ns
        ensures Fields(n) == Want(tr, lb, b, n)
      {
        WantMax(tr, lb, rb, b, n);
        assert n != p ==> Fields(n) == old(Fields(n));
      }
    }

    /** A node with a right subtree only: the subtree takes its place and inherits its left thread. */
    method SpliceRight(t: Node, ghost tr: Tree, ghost lb: Node?, ghost rb: Node?, ghost ns: set<Node>) returns (r: Node)
      requires Holds(tr, t, lb, rb, ns) && tr.l.Leaf? && tr.r.Branch?
      modifies this`needRebalancing, this`foundNode, ns
      ensures needRebalancing && foundNode == t
      ensures Holds(tr.r, r, lb, rb, ns - {t})
    {
      SplitRep(tr, lb, rb);
      foundNode := t;
      var s := Succ(t, tr, lb, rb, ns);
      assert Nodes(tr.r) == ns - {t};
      RedirectLeft(s, t.lt, tr.r, t.rt, t, rb, ns - {t});
      r := t.rt;
      needRebalancing := true;
    }

    /** The mirrored case. */
    method SpliceLeft(t: Node, ghost tr: Tree, ghost lb: Node?, ghost rb: Node?, ghost ns: set<Node>) returns (r: Node)
      requires Holds(tr, t, lb, rb, ns) && tr.r.Leaf? && tr.l.Branch?
      modifies this`needRebalancing, this`foundNode, ns
      ensures needRebalancing && foundNode == t
      ensures Holds(tr.l, r, lb, rb, ns - {t})
    {
      SplitRep(tr, lb, rb);
      foundNode := t;
      var p := Pred(t, tr, lb, rb, ns);
      assert Nodes(tr.l) == ns - {t};
      RedirectRight(p, t.rt, tr.l, t.lt, lb, t, ns - {t});
      r := t.lt;
      needRebalancing := true;
    }

    /** A node with two subtrees keeps its place and takes over its predecessor's binding. */
    method TakeOverPred(t: Node, ghost tr: Tree, ghost lb: Node?, ghost rb: Node?, ghost ns: set<Node>)
      requires Holds(tr, t, lb, rb, ns) && tr.l.Branch?
      modifies this`alreadyFound, ns
      ensures Holds(tr.(key := Max(tr.l).key, cont := Max(tr.l).cont), t, lb, rb, ns) && alreadyFound
    {
      SplitRep(tr, lb, rb);
      var p := Pred(t, tr, lb, rb, ns);
      MaxNodeHolds(tr.l, lb, t);
      t.item := p.item;
      t.cont := p.cont;
      alreadyFound := true;
      ghost var u := tr.(key := Max(tr.l).key, cont := Max(tr.l).cont);
      assert Owns(u, ns);
      forall n | n in ns
        ensures Fields(n) == Want(u, lb, rb, n)
      {
        assert n != t ==> Fields(n) == old(Fields(n));
      }
    }

    method DescendDelLeft(t: Node, ghost k: Oid, ghost deep: bool, ghost tr: Tree, ghost lb: Node?, ghost rb: Node?,
                          ghost ns: set<Node>)
      returns (ghost ns': set<Node>)
      requires k == targetItem && deep == alreadyFound
      requires Holds(tr, t, lb, rb, ns) && Avl(tr) && tr.l.Branch?
      requires lb !in ns && !needRebalancing && foundNode == null
      modifies this`needRebalancing, this`foundNode, this`alreadyFound, ns
      ensures Holds(tr.(l := Outcome(tr.l, k, deep).0), t, lb, rb, ns')
      ensures needRebalancing == Outcome(tr.l, k, deep).1 && foundNode == Gone(tr.l, k, deep)
      ensures ns' == Without(ns, foundNode)
      decreases Height(tr), 0
    {
      hide Outcome, Gone, Without, Items;
      ghost var nl, nr := ns * Nodes(tr.l), ns * Nodes(tr.r);
      assert nl == Nodes(tr.l) && nr == Nodes(tr.r) && ns == nl + {t} + nr;
      SplitRep(tr, lb, rb);
      ghost var u := Outcome(tr.l, k, deep).0;
      ghost var gone := Gone(tr.l, k, deep);
      OutcomeOwns(tr.l, k, deep);
      var s;
      ghost var nl';
      s, nl' := Del(t, t.lt, OnLeft, k, deep, tr.l, lb, t, nl);
      assert Rep(tr.r, t, rb) by {
        forall n | n in nr ensures Fields(n) == Want(tr.r, t, rb, n) {
          assert Fields(n) == old(Fields(n));
        }
      }
      UnionShrinks(nl, gone, {t}, nr);
      RelinkLeft(t, s, tr, u, lb, rb, nl', nr);
      ns' := nl' + {t} + nr;
    }

    /** Deletion on one side of `t`, followed by the rebalancing it calls for. */
    method DelLeft(t: Node, ghost k: Oid, ghost deep: bool, ghost tr: Tree, ghost lb: Node?, ghost rb: Node?,
                   ghost ns: set<Node>)
      returns (r: Node, ghost ns': set<Node>)
      requires k == targetItem && deep == alreadyFound
      requires Holds(tr, t, lb, rb, ns) && Avl(tr)
      requires lb !in ns && !needRebalancing && foundNode == null
      modifies this`needRebalancing, this`foundNode, this`alreadyFound, ns
      ensures Holds(OutcomeLeft(tr, k, deep).0, r, lb, rb, ns')
      ensures needRebalancing == OutcomeLeft(tr, k, deep).1 && foundNode == Gone(tr.l, k, deep)
      ensures ns' == Without(ns, foundNode)
      decreases Height(tr), 1
    {
      assert Fields(t) == Root(tr, lb, rb);
      r := t;
      if t.LThread() {
        ns' := ns;
        assert Without(ns, null) == ns;
        return;
      }
      ns' := DescendDelLeft(t, k, deep, tr, lb, rb, ns);
      if !needRebalancing {
        return;
      }
      AvlCanTurn(tr);
      r := LeftHasShrunk(t, tr.(l := Outcome(tr.l, k, deep).0), lb, rb, ns');
    }

    method DescendDelRight(t: Node, ghost k: Oid, ghost deep: bool, ghost tr: Tree, ghost lb: Node?, ghost rb: Node?,
                           ghost ns: set<Node>)
      returns (ghost ns': set<Node>)
      requires k == targetItem && deep == alreadyFound
      requires Holds(tr, t, lb, rb, ns) && Avl(tr) && tr.r.Branch?
      requires lb !in ns && !needRebalancing && foundNode == null
      modifies this`needRebalancing, this`foundNode, this`alreadyFound, ns
      ensures Holds(tr.(r := Outcome(tr.r, k, deep).0), t, lb, rb, ns')
      ensures needRebalancing == Outcome(tr.r, k, deep).1 && foundNode == Gone(tr.r, k, deep)
      ensures ns' == Without(ns, foundNode)
      decreases Height(tr), 0
    {
      hide Outcome, Gone, Without, Items;
      ghost var nl, nr := ns * Nodes(tr.l), ns * Nodes(tr.r);
      assert nl == Nodes(tr.l) && nr == Nodes(tr.r) && ns == nl + {t} + nr;
      SplitRep(tr, lb, rb);
      ghost var u := Outcome(tr.r, k, deep).0;
      ghost var gone := Gone(tr.r, k, deep);
      OutcomeOwns(tr.r, k, deep);
      var s;
      ghost var nr';
      s, nr' := Del(t, t.rt, OnRight, k, deep, tr.r, t, rb, nr);
      assert Rep(tr.l, lb, t) by {
        forall n | n in nl ensures Fields(n) == Want(tr.l, lb, t, n) {
          assert Fields(n) == old(Fields(n));
        }
      }
      UnionShrinks(nl, gone, {t}, nr);
      RelinkRight(t, s, tr, u, lb, rb, nl, nr');
      ns' := nl + {t} + nr';
    }

    /** Deletion on one side of `t`, followed by the rebalancing it calls for. */
    method DelRight(t: Node, ghost k: Oid, ghost deep: bool, ghost tr: Tree, ghost lb: Node?, ghost rb: Node?,
                    ghost ns: set<Node>)
      returns (r: Node, ghost ns': set<Node>)
      requires k == targetItem && deep == alreadyFound
      requires Holds(tr, t, lb, rb, ns) && Avl(tr)
      requires lb !in ns && !needRebalancing && foundNode == null
      modifies this`needRebalancing, this`foundNode, this`alreadyFound, ns
      ensures Holds(OutcomeRight(tr, k, deep).0, r, lb, rb, ns')
      ensures needRebalancing == OutcomeRight(tr, k, deep).1 && foundNode == Gone(tr.r, k, deep)
      ensures ns' == Without(ns, foundNode)
      decreases Height(tr), 1
    {
      assert Fields(t) == Root(tr, lb, rb);
      r := t;
      if t.RThread() {
        ns' := ns;
        assert Without(ns, null) == ns;
        return;
      }
      ns' := DescendDelRight(t, k, deep, tr, lb, rb, ns);
      if !needRebalancing {
        return;
      }
      AvlCanTurn(tr);
      r := RightHasShrunk(t, tr.(r := Outcome(tr.r, k, deep).0), lb, rb, ns');
    }

    /** Deletion of the binding of `t` itself when at least one subtree is missing: `t` leaves the tree. */
    method DelOuter(par: Node, t: Node, ghost side: Side, ghost tr: Tree, ghost lb: Node?, ghost rb: Node?,
                    ghost ns: set<Node>)
      returns (r: Node?, ghost u: Tree)
      requires Holds(tr, t, lb, rb, ns) && InSlot(side, par, t, lb, rb, ns) && (tr.l.Leaf? || tr.r.Leaf?)
      modifies this`needRebalancing, this`foundNode, par, ns
      ensures u == (if tr.l.Leaf? then tr.r else tr.l)
      ensures r == SlotAfter(side, u, t, lb, rb)
      ensures !side.AtTop? ==> Fields(par) == ParentAfter(old(Fields(par)), side, u, lb, rb)
      ensures Owns(u, ns - {t}) && Rep(u, lb, rb)
      ensures needRebalancing && foundNode == t
    {
      assert Fields(t) == Root(tr, lb, rb);
      u := if tr.l.Leaf? then tr.r else tr.l;
      if t.LThread() && t.RThread() {
        r := UnlinkLeaf(par, t, side, tr, lb, rb, ns);
      } else if t.LThread() {
        r := SpliceRight(t, tr, lb, rb, ns);
      } else {
        r := SpliceLeft(t, tr, lb, rb, ns);
      }
    }

    /** Deletion of the binding of `t` itself when both subtrees exist: the predecessor's node leaves instead. */
    method DelInner(t: Node, ghost k: Oid, ghost tr: Tree, ghost lb: Node?, ghost rb: Node?, ghost ns: set<Node>)
      returns (r: Node, ghost ns': set<Node>)
      requires Holds(tr, t, lb, rb, ns) && Avl(tr) && tr.l.Branch? && tr.r.Branch?
      requires k == targetItem && k == tr.key && !alreadyFound
      requires lb !in ns && !needRebalancing && foundNode == null
      modifies this`needRebalancing, this`foundNode, this`alreadyFound, ns
      ensures Holds(Outcome(tr, k, false).0, r, lb, rb, ns')
      ensures needRebalancing == Outcome(tr, k, false).1 && foundNode == Gone(tr, k, false)
      ensures ns' == Without(ns, foundNode)
      decreases Height(tr), 2
    {
      TakeOverPred(t, tr, lb, rb, ns);
      r, ns' := DelLeft(t, k, true, tr.(key := Max(tr.l).key, cont := Max(tr.l).cont), lb, rb, ns);
    }

    /** Deletion below the slot of `par` that refers to `t`; returns what the slot refers to afterwards. */
    method Del(par: Node, t: Node, ghost side: Side, ghost k: Oid, ghost deep: bool,
               ghost tr: Tree, ghost lb: Node?, ghost rb: Node?, ghost ns: set<Node>)
      returns (r: Node?, ghost ns': set<Node>)
      requires k == targetItem && deep == alreadyFound
      requires Holds(tr, t, lb, rb, ns) && Avl(tr) && InSlot(side, par, t, lb, rb, ns)
      requires lb !in ns && !needRebalancing && foundNode == null
      modifies this`needRebalancing, this`foundNode, this`alreadyFound, par, ns
      ensures r == SlotAfter(side, Outcome(tr, k, deep).0, t, lb, rb)
      ensures !side.AtTop? ==> Fields(par) == ParentAfter(old(Fields(par)), side, Outcome(tr, k, deep).0, lb, rb)
      ensures Owns(Outcome(tr, k, deep).0, ns') && Rep(Outcome(tr, k, deep).0, lb, rb)
      ensures needRebalancing == Outcome(tr, k, deep).1 && foundNode == Gone(tr, k, deep)
      ensures ns' == Without(ns, foundNode)
      decreases Height(tr), 3
    {
      assert Fields(t) == Root(tr, lb, rb);
      LessTotal(k, tr.key);
      OutcomeSides(tr, k, deep);
      var comp;
      if alreadyFound {
        comp := if t.RThread() then 0 else 1;
      } else {
        comp := Cmp(targetItem, t.item);
      }
      if comp == 0 {
        if t.LThread() || t.RThread() {
          ghost var u;
          r, u := DelOuter(par, t, side, tr, lb, rb, ns);
          ns' := Without(ns, t);
          assert ns' == ns - {t};
        } else {
          r, ns' := DelInner(t, k, tr, lb, rb, ns);
        }
      } else if comp < 0 {
        r, ns' := DelLeft(t, k, deep, tr, lb, rb, ns);
      } else {
        r, ns' := DelRight(t, k, deep, tr, lb, rb, ns);
      }
    }

    // ---------- the map's own operations ----------

    ghost function Model(): map<Oid, Entry>
      reads this`tree
    {
      Contents(tree)
    }

    /** Subscripting: the node through which the caller reads or writes the entry of `item`; a new key starts at the
        default. */
    method Index(item: Oid) returns (n: Node)
      requires Valid()
      modifies this, Repr
      ensures Valid() && def == old(def)
      ensures n in Repr && n.item == item
      ensures item in old(Model()) ==> Model() == old(Model()) && Repr == old(Repr)
      ensures item !in old(Model()) ==> Model() == old(Model())[item := def] && Repr == old(Repr) + {n} && fresh(n)
    {
      ContentsKeys(tree, item);
      if root == null {
        count := count + 1;
        n := new Node(item, def);
        n.SetRThread(true);
        n.SetLThread(true);
        root := n;
        tree, Repr := Branch(Leaf, n, item, def, Even, Leaf), {n};
        assert Items(tree) == [Item(item, def)] && MapOf([]) == map[];
      } else {
        n := IndexInTree(item);
      }
    }

    method AddAtRoot(item: Oid, ghost tr: Tree) returns (n: Node, ghost u: Tree, ghost ns: set<Node>)
      requires Valid() && tr == tree && tr.Branch?
      modifies this`root, this`count, this`foundNode, this`needRebalancing, this`targetItem, Repr
      ensures u == Insert(tr, item, def, n).0 && Holds(u, root, null, null, ns)
      ensures Has(tr, item) ==> n == NodeOf(tr, item) && count == |Items(tr)| && ns == Repr
      ensures !Has(tr, item) ==> fresh(n) && count == |Items(tr)| + 1 && ns == Repr + {n}
    {
      targetItem := item;
      needRebalancing := false;
      var r;
      ghost var f;
      r, f, ns := Add(root, item, def, tr, null, null, Repr);
      root := r;
      n := foundNode;
      u := Insert(tr, item, def, n).0;
    }

    /** The ghost side of an update: the map's abstract value becomes `u`. */
    ghost method Install(u: Tree, ns: set<Node>)
      requires root == Link(u, null) && Owns(u, ns) && Rep(u, null, null)
      requires Avl(u) && Sorted(Items(u)) && count == |Items(u)|
      modifies this`tree, this`Repr
      ensures Valid() && tree == u && Repr == ns
    {
      tree, Repr := u, ns;
    }

    method IndexInTree(item: Oid) returns (n: Node)
      requires Valid() && tree.Branch?
      modifies this, Repr
      ensures Valid() && def == old(def)
      ensures n in Repr && n.item == item
      ensures Has(old(tree), item) ==> Contents(tree) == Contents(old(tree)) && Repr == old(Repr)
      ensures !Has(old(tree), item) ==>
        Contents(tree) == Contents(old(tree))[item := def] && Repr == old(Repr) + {n} && fresh(n)
    {
      ghost var tr, u, ns := tree, tree, {};
      n, u, ns := AddAtRoot(item, tr);
      assert !Has(tr, item) ==> n !in Nodes(tr);
      Inserted(tr, item, def, n);
      assert Fields(n) == Want(u, null, null, n);
      Install(u, ns);
    }

    /** Writing the entry of a node found earlier. */
    method SetContents(n: Node, v: Entry)
      requires Valid() && n in Repr
      modifies n`cont, this`tree
      ensures Valid() && Model() == old(Model())[n.item := v]
    {
      ghost var tr, u := tree, SetCont(tree, n, v);
      assert Fields(n) == Want(tr, null, null, n);
      IndexOfPlace(tr, null, null, n);
      SetContShape(tr, n, v);
      SetContCorrect(tr, n, v);
      n.cont := v;
      forall m | m in Repr
        ensures Fields(m) == Want(u, null, null, m)
      {
        SetContWant(tr, n, v, null, null, m);
        assert m != n ==> Fields(m) == old(Fields(m));
      }
      tree := u;
    }

    /** `map[key] = v`. */
    method Put(key: Oid, v: Entry)
      requires Valid()
      modifies this, Repr
      ensures Valid() && def == old(def) && Model() == old(Model())[key := v]
      ensures old(Repr) <= Repr && fresh(Repr - old(Repr))
    {
      var n := Index(key);
      UpdateTwice(old(Model()), key, def, v);
      SetContents(n, v);
    }

    method DelAtRoot(item: Oid, ghost tr: Tree) returns (ghost ns: set<Node>)
      requires Valid() && tr == tree && tr.Branch?
      modifies this`root, this`foundNode, this`needRebalancing, this`targetItem, this`alreadyFound, Repr
      ensures Owns(Delete(tr, item).0, ns) && Rep(Delete(tr, item).0, null, null)
      ensures root == SlotAfter(AtTop, Delete(tr, item).0, old(root), null, null)
      ensures foundNode == Victim(tr, item) && ns == Without(Repr, foundNode)
    {
      needRebalancing := false;
      alreadyFound := false;
      foundNode := null;
      targetItem := item;
      var r;
      r, ns := Del(root, root, AtTop, item, false, tr, null, null, Repr);
      root := r;
    }

    /** Deletion; the node given up is no longer part of the map. */
    method Remove(item: Oid)
      requires Valid()
      modifies this, Repr
      ensures Valid() && def == old(def) && Model() == old(Model()) - {item}
      ensures count == old(count) - if item in old(Model()) then 1 else 0
      ensures Repr <= old(Repr) && foundNode !in Repr
    {
      hide Less, Avl, Sorted, Rep, Delete, Victim;
      if root == null {
        assert Contents(tree) == map[];
        foundNode := null;
        return;
      }
      ghost var tr := tree;
      ghost var ns := DelAtRoot(item, tr);
      Deleted(tr, item);
      if foundNode != null {
        count := count - 1;
        if count == 0 {
          root := null;
        }
      }
      Install(Delete(tr, item).0, ns);
    }

    // ---------- traversal ----------

    method First() returns (t: Node?)
      requires Valid()
      ensures t == if tree.Leaf? then null else Order(tree)[0]
    {
      t := root;
      if t != null {
        MinNodeFirst(tree);
        ghost var cur, b := tree, null;
        while t.lt != null
          invariant cur.Branch? && t == cur.n && Distinct(cur) && Rep(cur, null, b)
          invariant MinNode(cur) == MinNode(tree)
          decreases cur
        {
          SplitRep(cur, null, b);
          t := t.lt;
          cur, b := cur.l, cur.n;
        }
        SplitRep(cur, null, b);
      }
    }

    method Last() returns (t: Node?)
      requires Valid()
      ensures t == if tree.Leaf? then null else Order(tree)[|Order(tree)| - 1]
    {
      t := root;
      if t != null {
        MaxNodeLast(tree);
        ghost var cur, b := tree, null;
        while t.rt != null
          invariant cur.Branch? && t == cur.n && Distinct(cur) && Rep(cur, b, null)
          invariant MaxNode(cur) == MaxNode(tree)
          decreases cur
        {
          SplitRep(cur, b, null);
          t := t.rt;
          cur, b := cur.r, cur.n;
        }
        SplitRep(cur, b, null);
      }
    }

    /** The node of the next greater key. */
    method Next(t: Node) returns (r: Node?)
      requires Valid() && t in Repr
      ensures r == NextOf(tree, null, IndexOf(tree, t))
    {
      ghost var sub, lb, rb := Locate(tree, null, null, t);
      r := Succ(t, sub, lb, rb, Repr * Nodes(sub));
    }

    method Prev(t: Node) returns (l: Node?)
      requires Valid() && t in Repr
      ensures l == PrevOf(tree, null, IndexOf(tree, t))
    {
      ghost var sub, lb, rb := Locate(tree, null, null, t);
      l := Pred(t, sub, lb, rb, Repr * Nodes(sub));
    }

    // ---------- search ----------

    method FindNode(key: Oid) returns (t: Node?, ghost visited: nat)
      requires Valid()
      ensures t == if Has(tree, key) then Stop(tree, key) else null
      ensures visited <= Height(tree)
    {
      t, visited := root, 0;
      if t == null {
        return;
      }
      ghost var cur, lb, rb := tree, null, null;
      while true
        invariant cur.Branch? && t == cur.n && Distinct(cur) && Rep(cur, lb, rb)
        invariant Stop(cur, key) == Stop(tree, key) && Has(cur, key) == Has(tree, key)
        invariant visited + Height(cur) <= Height(tree)
        decreases cur
      {
        visited := visited + 1;
        SplitRoot(cur, lb, rb);
        LessTotal(key, cur.key);
        var cmp := Cmp(key, t.item);
        if cmp == 0 {
          return;
        } else if cmp < 0 {
          if t.LThread() {
            t := null;
            return;
          }
          SplitLeft(cur, lb, rb);
          t := t.lt;
          cur, rb := cur.l, cur.n;
        } else if t.RThread() {
          t := null;
          return;
        } else {
          SplitRight(cur, lb, rb);
          t := t.rt;
          cur, lb := cur.r, cur.n;
        }
      }
    }

    /** `visited` counts the nodes that the search looks at. */
    method Seek(key: Oid) returns (t: Node?, ghost visited: nat)
      requires Valid()
      ensures Fib(visited + 2) <= count + 1
      ensures t != null <==> key in Model()
      ensures t != null ==> t in Repr && t.item == key && t.cont == Model()[key] && IndexOf(tree, t) == Rank(tree, key)
    {
      ContentsKeys(tree, key);
      t, visited := FindNode(key);
      SearchBound(tree, visited);
      if t != null {
        StopPlace(tree, key);
        StopHolds(tree, key);
      }
    }

    method FindStop(key: Oid) returns (t: Node?, ghost visited: nat)
      requires Valid()
      ensures t == if tree.Leaf? then null else Stop(tree, key)
      ensures visited <= Height(tree)
    {
      t, visited := root, 0;
      if t == null {
        return;
      }
      ghost var cur, lb, rb := tree, null, null;
      while true
        invariant cur.Branch? && t == cur.n && Distinct(cur) && Rep(cur, lb, rb)
        invariant Stop(cur, key) == Stop(tree, key) && Has(cur, key) == Has(tree, key)
        invariant visited + Height(cur) <= Height(tree)
        decreases cur
      {
        visited := visited + 1;
        SplitRoot(cur, lb, rb);
        LessTotal(key, cur.key);
        var cmp := Cmp(key, t.item);
        if cmp == 0 {
          return;
        } else if cmp < 0 {
          if t.LThread() {
            return;
          }
          SplitLeft(cur, lb, rb);
          t := t.lt;
          cur, rb := cur.l, cur.n;
        } else if t.RThread() {
          return;
        } else {
          SplitRight(cur, lb, rb);
          t := t.rt;
          cur, lb := cur.r, cur.n;
        }
      }
    }

    /** The node of `key`, or else the node of one of its two would-be neighbours; null only for an empty map. */
    method SeekInexact(key: Oid) returns (t: Node?, ghost visited: nat)
      requires Valid()
      ensures Fib(visited + 2) <= count + 1
      ensures t == null <==> tree.Leaf?
      ensures t != null ==> t in Repr
      ensures t != null ==> IndexOf(tree, t) == Rank(tree, key) ||
                            (IndexOf(tree, t) + 1 == Rank(tree, key) && !Has(tree, key))
    {
      t, visited := FindStop(key);
      SearchBound(tree, visited);
      if t != null {
        StopPlace(tree, key);
      }
    }

    // ---------- whole-map loops ----------

    /** Neighbours in the thread order have ascending keys. */
    lemma Ascends(trail: Node, t: Node, n: nat)
      requires Valid() && 1 <= n < |Order(tree)| && trail in Repr && IndexOf(tree, trail) == n - 1
      requires t == Order(tree)[n]
      ensures Cmp(trail.item, t.item) == -1 && t in Repr && IndexOf(tree, t) == n
    {
      hide Avl, Less;
      IndexOfOrder(tree, n);
      IndexOfPlace(tree, null, null, trail);
      IndexOfPlace(tree, null, null, t);
      assert Fields(trail) == Want(tree, null, null, trail) && Fields(t) == Want(tree, null, null, t);
      LessOrder();
    }

    /** The map's own check: the threads list every key once, in strictly increasing order. */
    method OK() returns (v: bool)
      requires Valid()
      ensures v
    {
      hide Avl;
      if root == null {
        v := count == 0;
      } else {
        v := true;
        var n := 1;
        var trail: Node := First();
        IndexOfOrder(tree, 0);
        var t := Next(trail);
        while t != null
          invariant v && 1 <= n <= |Order(tree)| && trail in Repr && IndexOf(tree, trail) == n - 1
          invariant t == NextOf(tree, null, n - 1)
          decreases |Order(tree)| - n
        {
          Ascends(trail, t, n);
          n := n + 1;
          v := v && Cmp(trail.item, t.item) < 0;
          trail := t;
          t := Next(t);
        }
        v := v && n == count;
      }
    }

    /** The generic `clear`: delete the first key until there is none. */
    method Clear()
      requires Valid()
      modifies this, Repr
      ensures Valid() && Model() == map[] && count == 0
    {
      var i := First();
      while i != null
        invariant Valid() && Repr <= old(Repr)
        invariant i == if tree.Leaf? then null else Order(tree)[0]
        decreases count
      {
        IndexOfOrder(tree, 0);
        IndexOfPlace(tree, null, null, i);
        ContentsKeys(tree, i.item);
        MapOfSorted(Items(tree));
        assert Fields(i) == Want(tree, null, null, i);
        Remove(i.item);
        i := First();
      }
    }

    /** The copy constructor: replay the other map's bindings in key order. */
    constructor Copy(b: AvlMap)
      requires b.Valid()
      ensures Valid() && Model() == b.Model() && fresh(Repr)
    {
      root, count, def := null, 0, b.def;
      needRebalancing, targetItem, foundNode, alreadyFound := false, [], null, false;
      tree, Repr := Leaf, {};
      new;
      assert Contents(tree) == map[];
      ReplayAll(b);
    }

    method ReplayAll(b: AvlMap)
      requires Valid() && b.Valid() && b != this && Repr == {} && Model() == map[]
      modifies this
      ensures Valid() && Model() == MapOf(old(Items(b.tree))) && fresh(Repr)
    {
      hide AvlMap.Valid, MapOf, Items, Order;
      OrderEmpty(b.tree);
      MapOfNone(Items(b.tree));
      var i := b.First();
      ghost var k: nat := 0;
      ghost var s, o := Items(b.tree), Order(b.tree);
      while i != null
        invariant Valid() && b.Valid() && fresh(Repr) && Repr !! b.Repr && Items(b.tree) == s && Order(b.tree) == o
        invariant k <= |o| && i == if k < |o| then o[k] else null
        invariant Model() == MapOf(s[..k])
        decreases |o| - k
      {
        MapOfPrefix(s, k);
        i := Replay(b, i, k);
        k := k + 1;
      }
      MapOfPrefix(s, k);
    }

    method Replay(b: AvlMap, i: Node, ghost k: nat) returns (i': Node?)
      requires Valid() && b.Valid() && b != this && Repr !! b.Repr
      requires k < |Order(b.tree)| && i == Order(b.tree)[k]
      modifies this, Repr
      ensures Valid() && b.Valid() && fresh(Repr - old(Repr)) && Repr !! b.Repr
      ensures b.tree == old(b.tree) && b.Repr == old(b.Repr)
      ensures Model() == old(Model())[Items(b.tree)[k].key := Items(b.tree)[k].cont]
      ensures i' == NextOf(b.tree, null, k)
    {
      IndexOfOrder(b.tree, k);
      IndexOfPlace(b.tree, null, null, i);
      assert Fields(i) == Want(b.tree, null, null, i);
      Put(i.item, i.cont);
      assert b.Valid() by {
        forall n | n in b.Repr ensures Fields(n) == Want(b.tree, null, null, n) {
          assert Fields(n) == old(Fields(n));
        }
      }
      i' := b.Next(i);
    }
  }
}
