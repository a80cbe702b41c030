/** The abstract value of a threaded AVL tree, and what one insertion or deletion does to it. */
module AvlTree {
  import opened OidOrder

  /** An entry pointer, as its address. */
  type Entry = int

  datatype Bal = Even | LeftHeavy | RightHeavy

  /** A tree node as the program lays it out: links that double as threads, and one status word. */
  class Node {
    var lt: Node?
    var rt: Node?
    var item: Oid
    var cont: Entry
    var stat: bv8

    constructor (item: Oid, cont: Entry)
      ensures this.item == item && this.cont == cont && lt == null && rt == null
      ensures Bf() == Even && !LThread() && !RThread()
    {
      this.item, this.cont := item, cont;
      lt, rt, stat := null, null, 0;
    }

    function Bf(): Bal
      reads this`stat
    {
      if stat & 3 == 0 then Even else if stat & 3 == 1 then LeftHeavy else RightHeavy
    }

    predicate LThread()
      reads this`stat
    {
      stat & 4 != 0
    }

    predicate RThread()
      reads this`stat
    {
      stat & 8 != 0
    }

    method SetBf(b: Bal)
      modifies this`stat
      ensures Bf() == b && LThread() == old(LThread()) && RThread() == old(RThread())
    {
      var code: bv8 := match b case Even => 0 case LeftHeavy => 1 case RightHeavy => 2;
      stat := (stat & 0xFC) | (code & 3);
    }

    method SetLThread(b: bool)
      modifies this`stat
      ensures LThread() == b && Bf() == old(Bf()) && RThread() == old(RThread())
    {
      if b {
        stat := stat | 4;
      } else {
        stat := stat & 0xFB;
      }
    }

    method SetRThread(b: bool)
      modifies this`stat
      ensures RThread() == b && Bf() == old(Bf()) && LThread() == old(LThread())
    {
      if b {
        stat := stat | 8;
      } else {
        stat := stat & 0xF7;
      }
    }
  }

  datatype Tree = Leaf | Branch(l: Tree, n: Node, key: Oid, cont: Entry, bal: Bal, r: Tree)

  datatype Item = Item(key: Oid, cont: Entry)

  // ---------- shape ----------

  function Height(tr: Tree): nat {
    match tr
    case Leaf => 0
    case Branch(l, _, _, _, _, r) => 1 + Higher(Height(l), Height(r))
  }

  function Higher(a: nat, b: nat): nat {
    if a < b then b else a
  }

  /** The balance mark states how the heights of the two subtrees differ. */
  predicate Leans(bal: Bal, left: nat, right: nat) {
    match bal
    case Even => left == right
    case LeftHeavy => left == right + 1
    case RightHeavy => right == left + 1
  }

  predicate Avl(tr: Tree) {
    tr.Branch? ==> Avl(tr.l) && Avl(tr.r) && Leans(tr.bal, Height(tr.l), Height(tr.r))
  }

  function Nodes(tr: Tree): set<Node> {
    match tr
    case Leaf => {}
    case Branch(l, n, _, _, _, r) => Nodes(l) + {n} + Nodes(r)
  }

  /** No node occurs twice. */
  predicate Distinct(tr: Tree) {
    tr.Branch? ==>
      && Distinct(tr.l) && Distinct(tr.r)
      && tr.n !in Nodes(tr.l) && tr.n !in Nodes(tr.r) && Nodes(tr.l) !! Nodes(tr.r)
  }

  /** The bindings from left to right. */
  function Items(tr: Tree): seq<Item> {
    match tr
    case Leaf => []
    case Branch(l, _, key, cont, _, r) => Items(l) + [Item(key, cont)] + Items(r)
  }

  /** The nodes from left to right; `Order(tr)[i]` holds `Items(tr)[i]`. */
  function Order(tr: Tree): (o: seq<Node>)
    ensures |o| == |Items(tr)|
  {
    match tr
    case Leaf => []
    case Branch(l, n, _, _, _, r) => Order(l) + [n] + Order(r)
  }

  predicate Sorted(s: seq<Item>) {
    forall i, j :: 0 <= i < j < |s| ==> Less(s[i].key, s[j].key)
  }

  // ---------- rotations ----------

  function RotateRight(tr: Tree, balT: Bal, balL: Bal): Tree {
    match tr
    case Branch(Branch(a, l, lk, lc, _, b), t, tk, tc, _, c) =>
      Branch(a, l, lk, lc, balL, Branch(b, t, tk, tc, balT, c))
    case _ => tr
  }

  function RotateLeft(tr: Tree, balT: Bal, balR: Bal): Tree {
    match tr
    case Branch(a, t, tk, tc, _, Branch(b, r, rk, rc, _, c)) =>
      Branch(Branch(a, t, tk, tc, balT, b), r, rk, rc, balR, c)
    case _ => tr
  }

  function RotateLeftRight(tr: Tree): Tree {
    match tr
    case Branch(Branch(a, l, lk, lc, _, Branch(b, r, rk, rc, rb, c)), t, tk, tc, _, d) =>
      Branch(Branch(a, l, lk, lc, if rb == RightHeavy then LeftHeavy else Even, b), r, rk, rc, Even,
             Branch(c, t, tk, tc, if rb == LeftHeavy then RightHeavy else Even, d))
    case _ => tr
  }

  function RotateRightLeft(tr: Tree): Tree {
    match tr
    case Branch(a, t, tk, tc, _, Branch(Branch(b, l, lk, lc, lb, c), r, rk, rc, _, d)) =>
      Branch(Branch(a, t, tk, tc, if lb == RightHeavy then LeftHeavy else Even, b), l, lk, lc, Even,
             Branch(c, r, rk, rc, if lb == LeftHeavy then RightHeavy else Even, d))
    case _ => tr
  }

  /** Rebalancing once a subtree has changed height; the flag says whether the whole tree did too. */
  function LeftGrew(tr: Tree): (Tree, bool)
    requires tr.Branch?
  {
    match tr.bal
    case RightHeavy => (tr.(bal := Even), false)
    case Even => (tr.(bal := LeftHeavy), true)
    case LeftHeavy =>
      if tr.l.Branch? && tr.l.bal == LeftHeavy then (RotateRight(tr, Even, Even), false)
      else (RotateLeftRight(tr), false)
  }

  function RightGrew(tr: Tree): (Tree, bool)
    requires tr.Branch?
  {
    match tr.bal
    case LeftHeavy => (tr.(bal := Even), false)
    case Even => (tr.(bal := RightHeavy), true)
    case RightHeavy =>
      if tr.r.Branch? && tr.r.bal == RightHeavy then (RotateLeft(tr, Even, Even), false)
      else (RotateRightLeft(tr), false)
  }

  function LeftShrank(tr: Tree): (Tree, bool)
    requires tr.Branch?
  {
    match tr.bal
    case LeftHeavy => (tr.(bal := Even), true)
    case Even => (tr.(bal := RightHeavy), false)
    case RightHeavy =>
      if tr.r.Leaf? then (tr, true)
      else match tr.r.bal
        case Even => (RotateLeft(tr, RightHeavy, LeftHeavy), false)
        case RightHeavy => (RotateLeft(tr, Even, Even), true)
        case LeftHeavy => (RotateRightLeft(tr), true)
  }

  function RightShrank(tr: Tree): (Tree, bool)
    requires tr.Branch?
  {
    match tr.bal
    case RightHeavy => (tr.(bal := Even), true)
    case Even => (tr.(bal := LeftHeavy), false)
    case LeftHeavy =>
      if tr.l.Leaf? then (tr, true)
      else match tr.l.bal
        case Even => (RotateRight(tr, LeftHeavy, RightHeavy), false)
        case LeftHeavy => (RotateRight(tr, Even, Even), true)
        case RightHeavy => (RotateLeftRight(tr), true)
  }

  // ---------- one insertion, one deletion ----------

  function Insert(tr: Tree, k: Oid, v: Entry, nn: Node): (Tree, bool) {
    match tr
    case Leaf => (Branch(Leaf, nn, k, v, Even, Leaf), true)
    case Branch(l, _, key, _, _, r) =>
      if k == key then (tr, false)
      else if Less(k, key) then
        var (l', grew) := Insert(l, k, v, nn);
        if grew then LeftGrew(tr.(l := l')) else (tr.(l := l'), false)
      else
        var (r', grew) := Insert(r, k, v, nn);
        if grew then RightGrew(tr.(r := r')) else (tr.(r := r'), false)
  }

  function Max(tr: Tree): Item
    requires tr.Branch?
  {
    if tr.r.Leaf? then Item(tr.key, tr.cont) else Max(tr.r)
  }

  function MaxNode(tr: Tree): Node
    requires tr.Branch?
  {
    if tr.r.Leaf? then tr.n else MaxNode(tr.r)
  }

  function MinNode(tr: Tree): Node
    requires tr.Branch?
  {
    if tr.l.Leaf? then tr.n else MinNode(tr.l)
  }

  function DeleteMax(tr: Tree): (Tree, bool)
    requires tr.Branch?
  {
    if tr.r.Leaf? then (tr.l, true)
    else
      var (r', shrank) := DeleteMax(tr.r);
      if shrank then RightShrank(tr.(r := r')) else (tr.(r := r'), false)
  }

  /** Deleting the key of the root itself; with two subtrees the predecessor's binding moves up. */
  function DeleteRoot(tr: Tree): (Tree, bool)
    requires tr.Branch?
  {
    if tr.l.Leaf? then (tr.r, true)
    else if tr.r.Leaf? then (tr.l, true)
    else
      var (l', shrank) := DeleteMax(tr.l);
      var t := tr.(l := l', key := Max(tr.l).key, cont := Max(tr.l).cont);
      if shrank then LeftShrank(t) else (t, false)
  }

  function Delete(tr: Tree, k: Oid): (Tree, bool) {
    match tr
    case Leaf => (Leaf, false)
    case Branch(l, _, key, _, _, r) =>
      if k == key then DeleteRoot(tr)
      else if Less(k, key) then
        var (l', shrank) := Delete(l, k);
        if shrank then LeftShrank(tr.(l := l')) else (tr.(l := l'), false)
      else
        var (r', shrank) := Delete(r, k);
        if shrank then RightShrank(tr.(r := r')) else (tr.(r := r'), false)
  }

  /** Search as the program does it. */
  predicate Has(tr: Tree, k: Oid) {
    tr.Branch? && (k == tr.key || if Less(k, tr.key) then Has(tr.l, k) else Has(tr.r, k))
  }

  /** The node a deletion of `k` takes out of the tree: the node of `k`, or its predecessor's when `k` has two
      children. */
  function Victim(tr: Tree, k: Oid): Node?
  {
    match tr
    case Leaf => null
    case Branch(l, n, key, _, _, r) =>
      if k == key then (if l.Leaf? || r.Leaf? then n else MaxNode(l))
      else if Less(k, key) then Victim(l, k)
      else Victim(r, k)
  }

  // ---------- heights and balance ----------

  lemma {:induction false} RotateLeftRightAvl(tr: Tree)
    requires tr.Branch? && Avl(tr.l) && Avl(tr.r) && tr.l.Branch? && tr.l.bal == RightHeavy
    requires Height(tr.l) == Height(tr.r) + 2
    ensures var t := RotateLeftRight(tr);
      Avl(t) && t.Branch? && t.bal == Even && Height(t) == Height(tr.l)
  {
    var m := tr.l.r;
    assert Height(m) == 1 + Higher(Height(m.l), Height(m.r));
  }

  lemma {:induction false} RotateRightLeftAvl(tr: Tree)
    requires tr.Branch? && Avl(tr.l) && Avl(tr.r) && tr.r.Branch? && tr.r.bal == LeftHeavy
    requires Height(tr.r) == Height(tr.l) + 2
    ensures var t := RotateRightLeft(tr);
      Avl(t) && t.Branch? && t.bal == Even && Height(t) == Height(tr.r)
  {
    var m := tr.r.l;
    assert Height(m) == 1 + Higher(Height(m.l), Height(m.r));
  }

  lemma {:induction false} RotateLeftAvl(tr: Tree)
    requires tr.Branch? && Avl(tr.l) && Avl(tr.r) && tr.r.Branch? && tr.r.bal != LeftHeavy
    requires Height(tr.r) == Height(tr.l) + 2
    ensures tr.r.bal == Even ==>
      var t := RotateLeft(tr, RightHeavy, LeftHeavy); Avl(t) && t.Branch? && Height(t) == Height(tr.r) + 1
    ensures tr.r.bal == RightHeavy ==>
      var t := RotateLeft(tr, Even, Even); Avl(t) && t.Branch? && Height(t) == Height(tr.r)
  {
  }

  lemma {:induction false} RotateRightAvl(tr: Tree)
    requires tr.Branch? && Avl(tr.l) && Avl(tr.r) && tr.l.Branch? && tr.l.bal != RightHeavy
    requires Height(tr.l) == Height(tr.r) + 2
    ensures tr.l.bal == Even ==>
      var t := RotateRight(tr, LeftHeavy, RightHeavy); Avl(t) && t.Branch? && Height(t) == Height(tr.l) + 1
    ensures tr.l.bal == LeftHeavy ==>
      var t := RotateRight(tr, Even, Even); Avl(t) && t.Branch? && Height(t) == Height(tr.l)
  {
  }

  lemma {:induction false} LeftGrewAvl(tr: Tree, h: nat)
    requires tr.Branch? && tr.l.Branch? && Avl(tr.l) && Avl(tr.r)
    requires Height(tr.l) == h + 1 && Leans(tr.bal, h, Height(tr.r)) && (h > 0 ==> tr.l.bal != Even)
    ensures var (t, grew) := LeftGrew(tr);
      Avl(t) && t.Branch? && (grew ==> t.bal != Even) &&
      Height(t) == 1 + Higher(h, Height(tr.r)) + if grew then 1 else 0
  {
    if tr.bal == LeftHeavy && tr.l.bal != LeftHeavy {
      RotateLeftRightAvl(tr);
    }
  }

  lemma {:induction false} RightGrewAvl(tr: Tree, h: nat)
    requires tr.Branch? && tr.r.Branch? && Avl(tr.l) && Avl(tr.r)
    requires Height(tr.r) == h + 1 && Leans(tr.bal, Height(tr.l), h) && (h > 0 ==> tr.r.bal != Even)
    ensures var (t, grew) := RightGrew(tr);
      Avl(t) && t.Branch? && (grew ==> t.bal != Even) &&
      Height(t) == 1 + Higher(Height(tr.l), h) + if grew then 1 else 0
  {
    if tr.bal == RightHeavy && tr.r.bal != RightHeavy {
      RotateRightLeftAvl(tr);
    }
  }

  lemma {:induction false} LeftShrankAvl(tr: Tree)
    requires tr.Branch? && Avl(tr.l) && Avl(tr.r) && Leans(tr.bal, Height(tr.l) + 1, Height(tr.r))
    ensures var (t, shrank) := LeftShrank(tr);
      Avl(t) && t.Branch? &&
      Height(t) == 1 + Higher(Height(tr.l) + 1, Height(tr.r)) - if shrank then 1 else 0
  {
    if tr.bal == RightHeavy {
      if tr.r.bal == LeftHeavy {
        RotateRightLeftAvl(tr);
      } else {
        RotateLeftAvl(tr);
      }
    }
  }

  lemma {:induction false} RightShrankAvl(tr: Tree)
    requires tr.Branch? && Avl(tr.l) && Avl(tr.r) && Leans(tr.bal, Height(tr.l), Height(tr.r) + 1)
    ensures var (t, shrank) := RightShrank(tr);
      Avl(t) && t.Branch? &&
      Height(t) == 1 + Higher(Height(tr.l), Height(tr.r) + 1) - if shrank then 1 else 0
  {
    if tr.bal == LeftHeavy {
      if tr.l.bal == RightHeavy {
        RotateLeftRightAvl(tr);
      } else {
        RotateRightAvl(tr);
      }
    }
  }

  /** Insertion keeps every balance mark exact, and its flag is raised exactly when the tree grew by one. */
  lemma {:induction false} InsertAvl(tr: Tree, k: Oid, v: Entry, nn: Node)
    requires Avl(tr)
    ensures var (t, grew) := Insert(tr, k, v, nn);
      Avl(t) && t.Branch? && Height(t) == Height(tr) + (if grew then 1 else 0) &&
      (grew && tr.Branch? ==> t.bal != Even)
  {
    if tr.Branch? && k != tr.key {
      if Less(k, tr.key) {
        InsertAvl(tr.l, k, v, nn);
        var (l', grew) := Insert(tr.l, k, v, nn);
        if grew {
          LeftGrewAvl(tr.(l := l'), Height(tr.l));
        }
      } else {
        InsertAvl(tr.r, k, v, nn);
        var (r', grew) := Insert(tr.r, k, v, nn);
        if grew {
          RightGrewAvl(tr.(r := r'), Height(tr.r));
        }
      }
    }
  }

  lemma {:induction false} DeleteMaxAvl(tr: Tree)
    requires tr.Branch? && Avl(tr)
    ensures var (t, shrank) := DeleteMax(tr);
      Avl(t) && Height(t) == Height(tr) - if shrank then 1 else 0
  {
    if tr.r.Branch? {
      DeleteMaxAvl(tr.r);
      var (r', shrank) := DeleteMax(tr.r);
      if shrank {
        RightShrankAvl(tr.(r := r'));
      }
    }
  }

  lemma {:induction false} DeleteRootAvl(tr: Tree)
    requires tr.Branch? && Avl(tr)
    ensures var (t, shrank) := DeleteRoot(tr);
      Avl(t) && Height(t) == Height(tr) - if shrank then 1 else 0
  {
    if tr.l.Branch? && tr.r.Branch? {
      DeleteMaxAvl(tr.l);
      var (l', shrank) := DeleteMax(tr.l);
      if shrank {
        LeftShrankAvl(tr.(l := l', key := Max(tr.l).key, cont := Max(tr.l).cont));
      }
    }
  }

  /** Deletion on the left, followed by the rebalancing it calls for. */
  lemma ShrunkLeftAvl(tr: Tree, l': Tree, shrank: bool)
    requires tr.Branch? && Avl(tr) && Avl(l') && Height(l') == Height(tr.l) - if shrank then 1 else 0
    ensures var (t, s) := if shrank then LeftShrank(tr.(l := l')) else (tr.(l := l'), false);
      Avl(t) && Height(t) == Height(tr) - if s then 1 else 0
  {
    hide LeftShrank;
    if shrank {
      LeftShrankAvl(tr.(l := l'));
    }
  }

  lemma ShrunkRightAvl(tr: Tree, r': Tree, shrank: bool)
    requires tr.Branch? && Avl(tr) && Avl(r') && Height(r') == Height(tr.r) - if shrank then 1 else 0
    ensures var (t, s) := if shrank then RightShrank(tr.(r := r')) else (tr.(r := r'), false);
      Avl(t) && Height(t) == Height(tr) - if s then 1 else 0
  {
    hide RightShrank;
    if shrank {
      RightShrankAvl(tr.(r := r'));
    }
  }

  /** Deletion keeps every balance mark exact, and its flag is raised exactly when the tree lost one level. */
  lemma {:induction false} DeleteAvl(tr: Tree, k: Oid)
    requires Avl(tr)
    ensures var (t, shrank) := Delete(tr, k);
      Avl(t) && Height(t) == Height(tr) - if shrank then 1 else 0
  {
    hide Less, DeleteRoot, LeftShrank, RightShrank, Height;
    if tr.Branch? {
      if k == tr.key {
        DeleteRootAvl(tr);
      } else if Less(k, tr.key) {
        DeleteAvl(tr.l, k);
        ShrunkLeftAvl(tr, Delete(tr.l, k).0, Delete(tr.l, k).1);
      } else {
        DeleteAvl(tr.r, k);
        ShrunkRightAvl(tr, Delete(tr.r, k).0, Delete(tr.r, k).1);
      }
    }
  }

  // ---------- what rebalancing leaves alone ----------

  lemma {:induction false} RotateRightSame(tr: Tree, b1: Bal, b2: Bal)
    ensures Items(RotateRight(tr, b1, b2)) == Items(tr)
  {
    if tr.Branch? && tr.l.Branch? {
      var t, l := tr, tr.l;
      SplitAssociates(Items(l.l), Item(l.key, l.cont), Items(l.r), Item(t.key, t.cont), Items(t.r));
    }
  }

  lemma {:induction false} RotateLeftSame(tr: Tree, b1: Bal, b2: Bal)
    ensures Items(RotateLeft(tr, b1, b2)) == Items(tr)
  {
    if tr.Branch? && tr.r.Branch? {
      var t, r := tr, tr.r;
      SplitAssociates(Items(t.l), Item(t.key, t.cont), Items(r.l), Item(r.key, r.cont), Items(r.r));
    }
  }

  /** A double rotation is two single ones, up to balance marks. */
  lemma {:induction false} RotateLeftRightSame(tr: Tree)
    ensures Items(RotateLeftRight(tr)) == Items(tr)
  {
    if tr.Branch? && tr.l.Branch? && tr.l.r.Branch? {
      RotateLeftSame(tr.l, Even, Even);
      var u := tr.(l := RotateLeft(tr.l, Even, Even));
      RotateRightSame(u, Even, Even);
      var v, w := RotateRight(u, Even, Even), RotateLeftRight(tr);
      assert Items(w.l) == Items(v.l) && Items(w.r) == Items(v.r);
    }
  }

  lemma {:induction false} RotateRightLeftSame(tr: Tree)
    ensures Items(RotateRightLeft(tr)) == Items(tr)
  {
    if tr.Branch? && tr.r.Branch? && tr.r.l.Branch? {
      RotateRightSame(tr.r, Even, Even);
      var u := tr.(r := RotateRight(tr.r, Even, Even));
      RotateLeftSame(u, Even, Even);
      var v, w := RotateLeft(u, Even, Even), RotateRightLeft(tr);
      assert Items(w.l) == Items(v.l) && Items(w.r) == Items(v.r);
    }
  }

  lemma SplitAssociates<X>(a: seq<X>, x: X, b: seq<X>, y: X, c: seq<X>)
    ensures (a + [x] + b) + [y] + c == a + [x] + (b + [y] + c)
  {
  }

  lemma {:induction false} LeftGrewSame(tr: Tree)
    requires tr.Branch?
    ensures Items(LeftGrew(tr).0) == Items(tr)
  {
    RotateRightSame(tr, Even, Even);
    RotateLeftRightSame(tr);
  }

  lemma {:induction false} RightGrewSame(tr: Tree)
    requires tr.Branch?
    ensures Items(RightGrew(tr).0) == Items(tr)
  {
    RotateLeftSame(tr, Even, Even);
    RotateRightLeftSame(tr);
  }

  lemma {:induction false} LeftShrankSame(tr: Tree)
    requires tr.Branch?
    ensures Items(LeftShrank(tr).0) == Items(tr)
  {
    RotateLeftSame(tr, Even, Even);
    RotateLeftSame(tr, RightHeavy, LeftHeavy);
    RotateRightLeftSame(tr);
  }

  lemma {:induction false} RightShrankSame(tr: Tree)
    requires tr.Branch?
    ensures Items(RightShrank(tr).0) == Items(tr)
  {
    RotateRightSame(tr, Even, Even);
    RotateRightSame(tr, LeftHeavy, RightHeavy);
    RotateLeftRightSame(tr);
  }

  // ---------- which nodes a tree owns ----------

  /** `u` owns the nodes `ns`, each in one place. */
  predicate Owns(u: Tree, ns: set<Node>) {
    Nodes(u) == ns && Distinct(u)
  }

  lemma {:induction false} RotateRightOwns(tr: Tree, b1: Bal, b2: Bal)
    requires Distinct(tr)
    ensures Owns(RotateRight(tr, b1, b2), Nodes(tr))
  {
  }

  lemma {:induction false} RotateLeftOwns(tr: Tree, b1: Bal, b2: Bal)
    requires Distinct(tr)
    ensures Owns(RotateLeft(tr, b1, b2), Nodes(tr))
  {
  }

  lemma {:induction false} RotateLeftRightOwns(tr: Tree)
    requires Distinct(tr)
    ensures Owns(RotateLeftRight(tr), Nodes(tr))
  {
    if tr.Branch? && tr.l.Branch? && tr.l.r.Branch? {
      RotateLeftOwns(tr.l, Even, Even);
      var u := tr.(l := RotateLeft(tr.l, Even, Even));
      RotateRightOwns(u, Even, Even);
      var v, w := RotateRight(u, Even, Even), RotateLeftRight(tr);
      assert Owns(w.l, Nodes(v.l)) && Owns(w.r, Nodes(v.r));
    }
  }

  lemma {:induction false} RotateRightLeftOwns(tr: Tree)
    requires Distinct(tr)
    ensures Owns(RotateRightLeft(tr), Nodes(tr))
  {
    if tr.Branch? && tr.r.Branch? && tr.r.l.Branch? {
      RotateRightOwns(tr.r, Even, Even);
      var u := tr.(r := RotateRight(tr.r, Even, Even));
      RotateLeftOwns(u, Even, Even);
      var v, w := RotateLeft(u, Even, Even), RotateRightLeft(tr);
      assert Owns(w.l, Nodes(v.l)) && Owns(w.r, Nodes(v.r));
    }
  }

  lemma {:induction false} LeftGrewOwns(tr: Tree)
    requires tr.Branch? && Distinct(tr)
    ensures Owns(LeftGrew(tr).0, Nodes(tr))
  {
    RotateRightOwns(tr, Even, Even);
    RotateLeftRightOwns(tr);
  }

  lemma {:induction false} RightGrewOwns(tr: Tree)
    requires tr.Branch? && Distinct(tr)
    ensures Owns(RightGrew(tr).0, Nodes(tr))
  {
    RotateLeftOwns(tr, Even, Even);
    RotateRightLeftOwns(tr);
  }

  lemma {:induction false} LeftShrankOwns(tr: Tree)
    requires tr.Branch? && Distinct(tr)
    ensures Owns(LeftShrank(tr).0, Nodes(tr))
  {
    RotateLeftOwns(tr, Even, Even);
    RotateLeftOwns(tr, RightHeavy, LeftHeavy);
    RotateRightLeftOwns(tr);
  }

  lemma {:induction false} RightShrankOwns(tr: Tree)
    requires tr.Branch? && Distinct(tr)
    ensures Owns(RightShrank(tr).0, Nodes(tr))
  {
    RotateRightOwns(tr, Even, Even);
    RotateRightOwns(tr, LeftHeavy, RightHeavy);
    RotateLeftRightOwns(tr);
  }

  lemma {:induction false} InsertOwns(tr: Tree, k: Oid, v: Entry, nn: Node)
    requires Distinct(tr)
    ensures Has(tr, k) ==> Insert(tr, k, v, nn) == (tr, false)
    ensures !Has(tr, k) && nn !in Nodes(tr) ==> Owns(Insert(tr, k, v, nn).0, Nodes(tr) + {nn})
  {
    if tr.Branch? && k != tr.key {
      if Less(k, tr.key) {
        InsertOwns(tr.l, k, v, nn);
        var u := tr.(l := Insert(tr.l, k, v, nn).0);
        if !Has(tr, k) && nn !in Nodes(tr) {
          LeftGrewOwns(u);
        }
      } else {
        InsertOwns(tr.r, k, v, nn);
        var u := tr.(r := Insert(tr.r, k, v, nn).0);
        if !Has(tr, k) && nn !in Nodes(tr) {
          RightGrewOwns(u);
        }
      }
    }
  }

  lemma {:induction false} DeleteMaxOwns(tr: Tree)
    requires Distinct(tr) && tr.Branch?
    ensures MaxNode(tr) in Nodes(tr) && Owns(DeleteMax(tr).0, Nodes(tr) - {MaxNode(tr)})
  {
    if tr.r.Branch? {
      DeleteMaxOwns(tr.r);
      RightShrankOwns(tr.(r := DeleteMax(tr.r).0));
    }
  }

  lemma {:induction false} DeleteRootOwns(tr: Tree)
    requires Distinct(tr) && tr.Branch?
    ensures Victim(tr, tr.key) in Nodes(tr) && Owns(DeleteRoot(tr).0, Nodes(tr) - {Victim(tr, tr.key)})
  {
    if tr.l.Branch? && tr.r.Branch? {
      DeleteMaxOwns(tr.l);
      LeftShrankOwns(tr.(l := DeleteMax(tr.l).0, key := Max(tr.l).key, cont := Max(tr.l).cont));
    }
  }

  /** Deletion gives up exactly the victim; an absent key changes nothing. */
  lemma {:induction false} DeleteOwns(tr: Tree, k: Oid)
    requires Distinct(tr)
    ensures !Has(tr, k) ==> Delete(tr, k) == (tr, false) && Victim(tr, k) == null
    ensures Has(tr, k) ==> Victim(tr, k) in Nodes(tr) && Owns(Delete(tr, k).0, Nodes(tr) - {Victim(tr, k)})
  {
    if tr.Branch? {
      if k == tr.key {
        DeleteRootOwns(tr);
      } else if Less(k, tr.key) {
        DeleteOwns(tr.l, k);
        if Has(tr, k) {
          LeftShrankOwns(tr.(l := Delete(tr.l, k).0));
        }
      } else {
        DeleteOwns(tr.r, k);
        if Has(tr, k) {
          RightShrankOwns(tr.(r := Delete(tr.r, k).0));
        }
      }
    }
  }
}
