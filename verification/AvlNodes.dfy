/** How a threaded tree lies in memory, and the in-place rotations. */
module AvlNodes {
  import opened OidOrder
  import opened AvlTree

  /** The fields of one node, with the status word decoded. */
  datatype View = View(lt: Node?, rt: Node?, item: Oid, cont: Entry, bal: Bal, lthread: bool, rthread: bool)

  function Fields(n: Node): View
    reads n
  {
    View(n.lt, n.rt, n.item, n.cont, n.Bf(), n.LThread(), n.RThread())
  }

  /** A link to a subtree, or, where there is none, the thread in its place. */
  function Link(tr: Tree, thread: Node?): Node? {
    if tr.Leaf? then thread else tr.n
  }

  /** What the root's fields must be when `lb` and `rb` are the in-order neighbours of the whole tree. */
  function Root(tr: Tree, lb: Node?, rb: Node?): View
    requires tr.Branch?
  {
    View(Link(tr.l, lb), Link(tr.r, rb), tr.key, tr.cont, tr.bal, tr.l.Leaf?, tr.r.Leaf?)
  }

  /** What the fields of each node must be. Every missing child is a thread to the in-order neighbour. */
  function Want(tr: Tree, lb: Node?, rb: Node?, n: Node): View
    requires n in Nodes(tr)
  {
    if n == tr.n then Root(tr, lb, rb)
    else if n in Nodes(tr.l) then Want(tr.l, lb, tr.n, n)
    else Want(tr.r, tr.n, rb, n)
  }

  /** Memory holds the tree `tr` between the neighbours `lb` and `rb`. */
  ghost predicate Rep(tr: Tree, lb: Node?, rb: Node?)
    reads Nodes(tr)
  {
    match tr
    case Leaf => true
    case Branch(_, _, _, _, _, _) => forall n :: n in Nodes(tr) ==> Fields(n) == Want(tr, lb, rb, n)
  }

  lemma {:induction false} WantLeft(tr: Tree, lb: Node?, rb: Node?, n: Node)
    requires tr.Branch? && Distinct(tr) && n in Nodes(tr.l)
    ensures n in Nodes(tr) && n != tr.n && Want(tr, lb, rb, n) == Want(tr.l, lb, tr.n, n)
  {
  }

  lemma {:induction false} WantRight(tr: Tree, lb: Node?, rb: Node?, n: Node)
    requires tr.Branch? && Distinct(tr) && n in Nodes(tr.r)
    ensures n in Nodes(tr) && n != tr.n && Want(tr, lb, rb, n) == Want(tr.r, tr.n, rb, n)
  {
  }

  lemma {:induction false} WantBal(tr: Tree, b: Bal, lb: Node?, rb: Node?, n: Node)
    requires tr.Branch? && n in Nodes(tr)
    ensures var u := tr.(bal := b);
      n in Nodes(u) && Want(u, lb, rb, n) == if n == tr.n then Root(tr, lb, rb).(bal := b) else Want(tr, lb, rb, n)
  {
  }

  /** Moving the lower neighbour shows only in the left thread of the leftmost node. */
  lemma {:induction false} WantMin(tr: Tree, lb: Node?, lb': Node?, rb: Node?, n: Node)
    requires tr.Branch? && Distinct(tr) && n in Nodes(tr)
    ensures MinNode(tr) in Nodes(tr) && Want(tr, lb, rb, MinNode(tr)).lthread
    ensures Want(tr, lb', rb, n) == if n == MinNode(tr) then Want(tr, lb, rb, n).(lt := lb') else Want(tr, lb, rb, n)
  {
    if tr.l.Branch? {
      MinNodeIn(tr.l);
      WantMin(tr.l, lb, lb', tr.n, if n in Nodes(tr.l) then n else MinNode(tr.l));
    }
  }

  lemma {:induction false} MinNodeIn(tr: Tree)
    requires tr.Branch?
    ensures MinNode(tr) in Nodes(tr)
  {
    if tr.l.Branch? {
      MinNodeIn(tr.l);
    }
  }

  /** Moving the upper neighbour shows only in the right thread of the rightmost node. */
  lemma {:induction false} WantMax(tr: Tree, lb: Node?, rb: Node?, rb': Node?, n: Node)
    requires tr.Branch? && Distinct(tr) && n in Nodes(tr)
    ensures MaxNode(tr) in Nodes(tr) && Want(tr, lb, rb, MaxNode(tr)).rthread
    ensures Want(tr, lb, rb', n) == if n == MaxNode(tr) then Want(tr, lb, rb, n).(rt := rb') else Want(tr, lb, rb, n)
  {
    if tr.r.Branch? {
      MaxNodeIn(tr.r);
      WantMax(tr.r, tr.n, rb, rb', if n in Nodes(tr.r) then n else MaxNode(tr.r));
    }
  }

  lemma {:induction false} MaxNodeIn(tr: Tree)
    requires tr.Branch?
    ensures MaxNode(tr) in Nodes(tr)
  {
    if tr.r.Branch? {
      MaxNodeIn(tr.r);
    }
  }

  /** The rightmost node holds the greatest binding. */
  lemma {:induction false} MaxNodeHolds(tr: Tree, lb: Node?, rb: Node?)
    requires tr.Branch? && Distinct(tr)
    ensures MaxNode(tr) in Nodes(tr)
    ensures var v := Want(tr, lb, rb, MaxNode(tr)); v.item == Max(tr).key && v.cont == Max(tr).cont
  {
    if tr.r.Branch? {
      MaxNodeHolds(tr.r, tr.n, rb);
    }
  }

  // ---------- the four rotations, field by field ----------

  function TurnedT(vt: View, l: Node, vl: View, balT: Bal): View {
    vt.(lt := if vl.rthread then l else vl.rt, lthread := vl.rthread, bal := balT)
  }

  function TurnedL(vl: View, t: Node, balL: Bal): View {
    vl.(rt := t, rthread := false, bal := balL)
  }

  function TurnedTMirror(vt: View, r: Node, vr: View, balT: Bal): View {
    vt.(rt := if vr.lthread then r else vr.lt, rthread := vr.lthread, bal := balT)
  }

  function TurnedRMirror(vr: View, t: Node, balR: Bal): View {
    vr.(lt := t, lthread := false, bal := balR)
  }

  method TurnRight(t: Node, l: Node, balT: Bal, balL: Bal)
    requires l != t
    modifies t, l
    ensures Fields(t) == TurnedT(old(Fields(t)), l, old(Fields(l)), balT)
    ensures Fields(l) == TurnedL(old(Fields(l)), t, balL)
  {
    if l.RThread() {
      t.lt := l;
    } else {
      t.lt := l.rt;
    }
    t.SetLThread(l.RThread());
    l.rt := t;
    l.SetRThread(false);
    t.SetBf(balT);
    l.SetBf(balL);
  }

  method TurnLeft(t: Node, r: Node, balT: Bal, balR: Bal)
    requires r != t
    modifies t, r
    ensures Fields(t) == TurnedTMirror(old(Fields(t)), r, old(Fields(r)), balT)
    ensures Fields(r) == TurnedRMirror(old(Fields(r)), t, balR)
  {
    if r.LThread() {
      t.rt := r;
    } else {
      t.rt := r.lt;
    }
    t.SetRThread(r.LThread());
    r.lt := t;
    r.SetLThread(false);
    t.SetBf(balT);
    r.SetBf(balR);
  }

  /** The balance marks a double rotation leaves on the two outer nodes, from that of the middle node. */
  function RightOuter(mid: Bal): Bal {
    if mid == LeftHeavy then RightHeavy else Even
  }

  function LeftOuter(mid: Bal): Bal {
    if mid == RightHeavy then LeftHeavy else Even
  }

  function Middle(vm: View, l: Node, r: Node): View {
    vm.(lt := l, lthread := false, rt := r, rthread := false, bal := Even)
  }

  method SetMarks(l: Node, m: Node, r: Node)
    requires l != m && r != m && l != r
    modifies l`stat, m`stat, r`stat
    ensures Fields(l) == old(Fields(l)).(bal := LeftOuter(old(m.Bf())))
    ensures Fields(r) == old(Fields(r)).(bal := RightOuter(old(m.Bf())))
    ensures Fields(m) == old(Fields(m)).(bal := Even)
  {
    if m.Bf() == LeftHeavy {
      r.SetBf(RightHeavy);
    } else {
      r.SetBf(Even);
    }
    if m.Bf() == RightHeavy {
      l.SetBf(LeftHeavy);
    } else {
      l.SetBf(Even);
    }
    m.SetBf(Even);
  }

  method TurnLeftRight(t: Node, l: Node, r: Node)
    requires l != t && r != t && l != r
    modifies t, l, r
    ensures Fields(l) == TurnedTMirror(old(Fields(l)), r, old(Fields(r)), LeftOuter(old(r.Bf())))
    ensures Fields(t) == TurnedT(old(Fields(t)), r, old(Fields(r)), RightOuter(old(r.Bf())))
    ensures Fields(r) == Middle(old(Fields(r)), l, t)
  {
    l.SetRThread(r.LThread());
    if r.LThread() {
      l.rt := r;
    } else {
      l.rt := r.lt;
    }
    r.lt := l;
    r.SetLThread(false);
    t.SetLThread(r.RThread());
    if r.RThread() {
      t.lt := r;
    } else {
      t.lt := r.rt;
    }
    r.rt := t;
    r.SetRThread(false);
    SetMarks(l, r, t);
  }

  method TurnRightLeft(t: Node, r: Node, l: Node)
    requires r != t && l != t && l != r
    modifies t, r, l
    ensures Fields(r) == TurnedT(old(Fields(r)), l, old(Fields(l)), RightOuter(old(l.Bf())))
    ensures Fields(t) == TurnedTMirror(old(Fields(t)), l, old(Fields(l)), LeftOuter(old(l.Bf())))
    ensures Fields(l) == Middle(old(Fields(l)), t, r)
  {
    r.SetLThread(l.RThread());
    if l.RThread() {
      r.lt := l;
    } else {
      r.lt := l.rt;
    }
    l.rt := r;
    l.SetRThread(false);
    t.SetRThread(l.LThread());
    if l.LThread() {
      t.rt := l;
    } else {
      t.rt := l.lt;
    }
    l.lt := t;
    l.SetLThread(false);
    SetMarks(t, l, r);
  }

  // ---------- the rotations as operations on trees ----------

  lemma {:induction false} WantRotateRight(tr: Tree, balT: Bal, balL: Bal, lb: Node?, rb: Node?, n: Node)
    requires tr.Branch? && tr.l.Branch? && Distinct(tr) && n in Nodes(tr)
    ensures var u, t, l := RotateRight(tr, balT, balL), tr.n, tr.l.n;
      n in Nodes(u) && Want(u, lb, rb, n) ==
        if n == t then TurnedT(Root(tr, lb, rb), l, Root(tr.l, lb, t), balT)
        else if n == l then TurnedL(Root(tr.l, lb, t), t, balL)
        else Want(tr, lb, rb, n)
  {
    RotateRightOwns(tr, balT, balL);
  }

  lemma {:induction false} WantRotateLeft(tr: Tree, balT: Bal, balR: Bal, lb: Node?, rb: Node?, n: Node)
    requires tr.Branch? && tr.r.Branch? && Distinct(tr) && n in Nodes(tr)
    ensures var u, t, r := RotateLeft(tr, balT, balR), tr.n, tr.r.n;
      n in Nodes(u) && Want(u, lb, rb, n) ==
        if n == t then TurnedTMirror(Root(tr, lb, rb), r, Root(tr.r, t, rb), balT)
        else if n == r then TurnedRMirror(Root(tr.r, t, rb), t, balR)
        else Want(tr, lb, rb, n)
  {
    RotateLeftOwns(tr, balT, balR);
  }

  lemma {:induction false} WantRotateLeftRight(tr: Tree, lb: Node?, rb: Node?, n: Node)
    requires tr.Branch? && tr.l.Branch? && tr.l.r.Branch? && Distinct(tr) && n in Nodes(tr)
    ensures var u, t, l, r := RotateLeftRight(tr), tr.n, tr.l.n, tr.l.r.n;
      n in Nodes(u) && Want(u, lb, rb, n) ==
        if n == l then TurnedTMirror(Root(tr.l, lb, t), r, Root(tr.l.r, l, t), LeftOuter(tr.l.r.bal))
        else if n == t then TurnedT(Root(tr, lb, rb), r, Root(tr.l.r, l, t), RightOuter(tr.l.r.bal))
        else if n == r then Middle(Root(tr.l.r, l, t), l, t)
        else Want(tr, lb, rb, n)
  {
    RotateLeftRightOwns(tr);
    if n in Nodes(tr.l) {
      WantLeft(tr, lb, rb, n);
      if n in Nodes(tr.l.r) {
        WantRight(tr.l, lb, tr.n, n);
      }
    }
  }

  lemma {:induction false} WantRotateRightLeft(tr: Tree, lb: Node?, rb: Node?, n: Node)
    requires tr.Branch? && tr.r.Branch? && tr.r.l.Branch? && Distinct(tr) && n in Nodes(tr)
    ensures var u, t, r, l := RotateRightLeft(tr), tr.n, tr.r.n, tr.r.l.n;
      n in Nodes(u) && Want(u, lb, rb, n) ==
        if n == r then TurnedT(Root(tr.r, t, rb), l, Root(tr.r.l, t, r), RightOuter(tr.r.l.bal))
        else if n == t then TurnedTMirror(Root(tr, lb, rb), l, Root(tr.r.l, t, r), LeftOuter(tr.r.l.bal))
        else if n == l then Middle(Root(tr.r.l, t, r), t, r)
        else Want(tr, lb, rb, n)
  {
    RotateRightLeftOwns(tr);
    if n in Nodes(tr.r) {
      WantRight(tr, lb, rb, n);
      if n in Nodes(tr.r.l) {
        WantLeft(tr.r, tr.n, rb, n);
      }
    }
  }

  method DoRotateRight(t: Node, balT: Bal, balL: Bal, ghost tr: Tree, ghost lb: Node?, ghost rb: Node?,
                       ghost ns: set<Node>)
    returns (l: Node)
    requires tr.Branch? && tr.l.Branch? && tr.n == t && Owns(tr, ns) && Rep(tr, lb, rb)
    modifies ns
    ensures Rep(RotateRight(tr, balT, balL), lb, rb) && l == tr.l.n
  {
    assert Fields(t) == Root(tr, lb, rb);
    l := t.lt;
    WantLeft(tr, lb, rb, l);
    assert Fields(l) == Root(tr.l, lb, t);
    TurnRight(t, l, balT, balL);
    RotateRightOwns(tr, balT, balL);
    forall n | n in ns
      ensures Fields(n) == Want(RotateRight(tr, balT, balL), lb, rb, n)
    {
      WantRotateRight(tr, balT, balL, lb, rb, n);
      assert n != t && n != l ==> Fields(n) == old(Fields(n));
    }
  }

  method DoRotateLeft(t: Node, balT: Bal, balR: Bal, ghost tr: Tree, ghost lb: Node?, ghost rb: Node?,
                      ghost ns: set<Node>)
    returns (r: Node)
    requires tr.Branch? && tr.r.Branch? && tr.n == t && Owns(tr, ns) && Rep(tr, lb, rb)
    modifies ns
    ensures Rep(RotateLeft(tr, balT, balR), lb, rb) && r == tr.r.n
  {
    assert Fields(t) == Root(tr, lb, rb);
    r := t.rt;
    WantRight(tr, lb, rb, r);
    assert Fields(r) == Root(tr.r, t, rb);
    TurnLeft(t, r, balT, balR);
    RotateLeftOwns(tr, balT, balR);
    forall n | n in ns
      ensures Fields(n) == Want(RotateLeft(tr, balT, balR), lb, rb, n)
    {
      WantRotateLeft(tr, balT, balR, lb, rb, n);
      assert n != t && n != r ==> Fields(n) == old(Fields(n));
    }
  }

  method DoRotateLeftRight(t: Node, ghost tr: Tree, ghost lb: Node?, ghost rb: Node?, ghost ns: set<Node>)
    returns (r: Node)
    requires tr.Branch? && tr.l.Branch? && tr.l.r.Branch? && tr.n == t && Owns(tr, ns) && Rep(tr, lb, rb)
    modifies ns
    ensures Rep(RotateLeftRight(tr), lb, rb) && r == tr.l.r.n
  {
    assert Fields(t) == Root(tr, lb, rb);
    var l := t.lt;
    WantLeft(tr, lb, rb, l);
    assert Fields(l) == Root(tr.l, lb, t);
    r := l.rt;
    WantRight(tr.l, lb, t, r);
    WantLeft(tr, lb, rb, r);
    assert Fields(r) == Root(tr.l.r, l, t);
    TurnLeftRight(t, l, r);
    RotateLeftRightOwns(tr);
    forall n | n in ns
      ensures Fields(n) == Want(RotateLeftRight(tr), lb, rb, n)
    {
      WantRotateLeftRight(tr, lb, rb, n);
      assert n != t && n != l && n != r ==> Fields(n) == old(Fields(n));
    }
  }

  method DoRotateRightLeft(t: Node, ghost tr: Tree, ghost lb: Node?, ghost rb: Node?, ghost ns: set<Node>)
    returns (l: Node)
    requires tr.Branch? && tr.r.Branch? && tr.r.l.Branch? && tr.n == t && Owns(tr, ns) && Rep(tr, lb, rb)
    modifies ns
    ensures Rep(RotateRightLeft(tr), lb, rb) && l == tr.r.l.n
  {
    assert Fields(t) == Root(tr, lb, rb);
    var r := t.rt;
    WantRight(tr, lb, rb, r);
    assert Fields(r) == Root(tr.r, t, rb);
    l := r.lt;
    WantLeft(tr.r, t, rb, l);
    WantRight(tr, lb, rb, l);
    assert Fields(l) == Root(tr.r.l, t, r);
    TurnRightLeft(t, r, l);
    RotateRightLeftOwns(tr);
    forall n | n in ns
      ensures Fields(n) == Want(RotateRightLeft(tr), lb, rb, n)
    {
      WantRotateRightLeft(tr, lb, rb, n);
      assert n != t && n != r && n != l ==> Fields(n) == old(Fields(n));
    }
  }

  method Mark(t: Node, b: Bal, ghost tr: Tree, ghost lb: Node?, ghost rb: Node?, ghost ns: set<Node>)
    requires tr.Branch? && tr.n == t && Owns(tr, ns) && Rep(tr, lb, rb)
    modifies ns
    ensures Rep(tr.(bal := b), lb, rb)
  {
    assert Fields(t) == Root(tr, lb, rb);
    t.SetBf(b);
    assert Nodes(tr.(bal := b)) == ns;
    forall n | n in ns
      ensures Fields(n) == Want(tr.(bal := b), lb, rb, n)
    {
      WantBal(tr, b, lb, rb, n);
      assert n != t ==> Fields(n) == old(Fields(n));
    }
  }
}
