/** Where each node of a tree stands in the key order. */
module AvlPlaces {
  import opened OidOrder
  import opened AvlTree
  import opened AvlContents
  import opened AvlNodes

  function IndexOf(tr: Tree, n: Node): nat
    requires n in Nodes(tr)
  {
    if n == tr.n then |Items(tr.l)|
    else if n in Nodes(tr.l) then IndexOf(tr.l, n)
    else |Items(tr.l)| + 1 + IndexOf(tr.r, n)
  }

  lemma PartAt<X>(a: seq<X>, x: X, b: seq<X>, i: nat)
    requires i < |a| + 1 + |b|
    ensures (a + [x] + b)[i] == if i < |a| then a[i] else if i == |a| then x else b[i - |a| - 1]
  {
  }

  /** Each node stands in the key order exactly where its binding does. */
  lemma {:induction false} IndexOfPlace(tr: Tree, lb: Node?, rb: Node?, n: Node)
    requires n in Nodes(tr)
    ensures IndexOf(tr, n) < |Items(tr)| && Order(tr)[IndexOf(tr, n)] == n
    ensures Items(tr)[IndexOf(tr, n)] == Item(Want(tr, lb, rb, n).item, Want(tr, lb, rb, n).cont)
  {
    if n in Nodes(tr.l) && n != tr.n {
      IndexOfPlace(tr.l, lb, tr.n, n);
    } else if n != tr.n {
      IndexOfPlace(tr.r, tr.n, rb, n);
    }
    PartAt(Items(tr.l), Item(tr.key, tr.cont), Items(tr.r), IndexOf(tr, n));
    PartAt(Order(tr.l), tr.n, Order(tr.r), IndexOf(tr, n));
  }

  lemma {:induction false} OrderInNodes(tr: Tree, i: nat)
    requires i < |Order(tr)|
    ensures Order(tr)[i] in Nodes(tr)
  {
    var m := |Order(tr.l)|;
    if i < m {
      OrderInNodes(tr.l, i);
    } else if i > m {
      OrderInNodes(tr.r, i - m - 1);
    }
  }

  lemma OrderEmpty(tr: Tree)
    ensures tr.Leaf? <==> Order(tr) == []
  {
  }

  lemma {:induction false} IndexOfOrder(tr: Tree, i: nat)
    requires Distinct(tr) && i < |Order(tr)|
    ensures Order(tr)[i] in Nodes(tr) && IndexOf(tr, Order(tr)[i]) == i
  {
    OrderInNodes(tr, i);
    var m := |Order(tr.l)|;
    if i < m {
      IndexOfOrder(tr.l, i);
    } else if i > m {
      IndexOfOrder(tr.r, i - m - 1);
    }
  }

  lemma {:induction false} MinNodeFirst(tr: Tree)
    requires tr.Branch?
    ensures |Order(tr)| > 0 && MinNode(tr) == Order(tr)[0]
  {
    if tr.l.Branch? {
      MinNodeFirst(tr.l);
    }
  }

  lemma {:induction false} MaxNodeLast(tr: Tree)
    requires tr.Branch?
    ensures |Order(tr)| > 0 && MaxNode(tr) == Order(tr)[|Order(tr)| - 1]
  {
    if tr.r.Branch? {
      MaxNodeLast(tr.r);
    }
  }

  /** The node at which the search for `k` ends, found or not. */
  function Stop(tr: Tree, k: Oid): Node
    requires tr.Branch?
  {
    if k == tr.key then tr.n
    else if Less(k, tr.key) then (if tr.l.Leaf? then tr.n else Stop(tr.l, k))
    else (if tr.r.Leaf? then tr.n else Stop(tr.r, k))
  }

  /** The search ends at the key, or at one of the two neighbours it would have. */
  lemma {:induction false} StopPlace(tr: Tree, k: Oid)
    requires tr.Branch? && Distinct(tr)
    ensures Stop(tr, k) in Nodes(tr)
    ensures Has(tr, k) ==> IndexOf(tr, Stop(tr, k)) == Rank(tr, k)
    ensures !Has(tr, k) ==> IndexOf(tr, Stop(tr, k)) == Rank(tr, k) || IndexOf(tr, Stop(tr, k)) + 1 == Rank(tr, k)
  {
    if k != tr.key {
      if Less(k, tr.key) {
        assert Has(tr, k) == Has(tr.l, k);
        if tr.l.Branch? {
          StopPlace(tr.l, k);
        }
      } else {
        assert Has(tr, k) == Has(tr.r, k);
        if tr.r.Branch? {
          StopPlace(tr.r, k);
        }
      }
    }
  }

  // ---------- writing one node's contents ----------

  function SetCont(tr: Tree, n: Node, v: Entry): Tree
    requires n in Nodes(tr)
  {
    if n == tr.n then tr.(cont := v)
    else if n in Nodes(tr.l) then tr.(l := SetCont(tr.l, n, v))
    else tr.(r := SetCont(tr.r, n, v))
  }

  lemma {:induction false} SetContShape(tr: Tree, n: Node, v: Entry)
    requires n in Nodes(tr)
    ensures var u := SetCont(tr, n, v);
      Nodes(u) == Nodes(tr) && Height(u) == Height(tr) && u.Branch? && u.n == tr.n &&
      (Distinct(tr) ==> Distinct(u)) && (Avl(tr) ==> Avl(u))
  {
    if n != tr.n {
      SetContShape(if n in Nodes(tr.l) then tr.l else tr.r, n, v);
    }
  }

  lemma {:induction false} SetContItems(tr: Tree, n: Node, v: Entry)
    requires n in Nodes(tr)
    ensures var i := IndexOf(tr, n);
      i < |Items(tr)| && Items(SetCont(tr, n, v)) == Items(tr)[i := Item(Items(tr)[i].key, v)]
  {
    IndexOfPlace(tr, null, null, n);
    if n != tr.n {
      SetContItems(if n in Nodes(tr.l) then tr.l else tr.r, n, v);
    }
  }

  lemma {:induction false} SetContWant(tr: Tree, n: Node, v: Entry, lb: Node?, rb: Node?, m: Node)
    requires n in Nodes(tr) && m in Nodes(tr) && Distinct(tr)
    ensures m in Nodes(SetCont(tr, n, v))
    ensures Want(SetCont(tr, n, v), lb, rb, m) ==
      if m == n then Want(tr, lb, rb, m).(cont := v) else Want(tr, lb, rb, m)
  {
    SetContShape(tr, n, v);
    if n != tr.n {
      if n in Nodes(tr.l) {
        SetContShape(tr.l, n, v);
        if m in Nodes(tr.l) {
          SetContWant(tr.l, n, v, lb, tr.n, m);
        }
      } else {
        SetContShape(tr.r, n, v);
        if m in Nodes(tr.r) {
          SetContWant(tr.r, n, v, tr.n, rb, m);
        }
      }
    }
  }

  lemma SetItemMap(s: seq<Item>, i: nat, v: Entry)
    requires Sorted(s) && i < |s|
    ensures MapOf(s[i := Item(s[i].key, v)]) == MapOf(s)[s[i].key := v]
  {
    var a, x, b, y := s[..i], s[i], s[i + 1..], Item(s[i].key, v);
    assert s == a + [x] + b && s[i := y] == a + [y] + b;
    MapOfAround(a, x, b);
    MapOfAround(a, y, b);
    assert x.key !in MapOf(b) by {
      LessIrreflexive(x.key);
      SortedParts(a, x, b);
      MapOfKeys(b, x.key);
    }
    OverrideTwice(MapOf(a), x.key, x.cont, v, MapOf(b));
  }

  lemma OverrideTwice(p: map<Oid, Entry>, k: Oid, u: Entry, v: Entry, q: map<Oid, Entry>)
    requires k !in q
    ensures p + map[k := v] + q == (p + map[k := u] + q)[k := v]
  {
  }

  /** Writing through a node rebinds its key and nothing else. */
  lemma SetContCorrect(tr: Tree, n: Node, v: Entry)
    requires n in Nodes(tr) && Sorted(Items(tr))
    ensures IndexOf(tr, n) < |Items(tr)|
    ensures Sorted(Items(SetCont(tr, n, v))) && |Items(SetCont(tr, n, v))| == |Items(tr)|
    ensures Contents(SetCont(tr, n, v)) == Contents(tr)[Items(tr)[IndexOf(tr, n)].key := v]
  {
    SetContItems(tr, n, v);
    SetItemMap(Items(tr), IndexOf(tr, n), v);
  }

  // ---------- the node an insertion reports ----------

  function NodeOf(tr: Tree, k: Oid): Node
    requires Has(tr, k)
  {
    if k == tr.key then tr.n else if Less(k, tr.key) then NodeOf(tr.l, k) else NodeOf(tr.r, k)
  }

  lemma {:induction false} NodeOfWant(tr: Tree, k: Oid, lb: Node?, rb: Node?)
    requires Has(tr, k) && Distinct(tr)
    ensures NodeOf(tr, k) in Nodes(tr) && Want(tr, lb, rb, NodeOf(tr, k)).item == k
  {
    if k != tr.key {
      if Less(k, tr.key) {
        NodeOfWant(tr.l, k, lb, tr.n);
      } else {
        NodeOfWant(tr.r, k, tr.n, rb);
      }
    }
  }

  lemma {:induction false} LeftGrewWant(tr: Tree, lb: Node?, rb: Node?, n: Node)
    requires tr.Branch? && Distinct(tr) && n in Nodes(tr)
    ensures n in Nodes(LeftGrew(tr).0) && Want(LeftGrew(tr).0, lb, rb, n).item == Want(tr, lb, rb, n).item
  {
    LeftGrewOwns(tr);
    if tr.bal != LeftHeavy {
      WantBal(tr, LeftGrew(tr).0.bal, lb, rb, n);
    } else if tr.l.Branch? {
      WantLeft(tr, lb, rb, tr.l.n);
      if tr.l.bal == LeftHeavy {
        WantRotateRight(tr, Even, Even, lb, rb, n);
      } else if tr.l.r.Branch? {
        WantLeft(tr, lb, rb, tr.l.r.n);
        WantRight(tr.l, lb, tr.n, tr.l.r.n);
        WantRotateLeftRight(tr, lb, rb, n);
      }
    }
  }

  lemma {:induction false} RightGrewWant(tr: Tree, lb: Node?, rb: Node?, n: Node)
    requires tr.Branch? && Distinct(tr) && n in Nodes(tr)
    ensures n in Nodes(RightGrew(tr).0) && Want(RightGrew(tr).0, lb, rb, n).item == Want(tr, lb, rb, n).item
  {
    RightGrewOwns(tr);
    if tr.bal != RightHeavy {
      WantBal(tr, RightGrew(tr).0.bal, lb, rb, n);
    } else if tr.r.Branch? {
      WantRight(tr, lb, rb, tr.r.n);
      if tr.r.bal == RightHeavy {
        WantRotateLeft(tr, Even, Even, lb, rb, n);
      } else if tr.r.l.Branch? {
        WantRight(tr, lb, rb, tr.r.l.n);
        WantLeft(tr.r, tr.n, rb, tr.r.l.n);
        WantRotateRightLeft(tr, lb, rb, n);
      }
    }
  }

  lemma {:induction false} InsertNodeKey(tr: Tree, k: Oid, v: Entry, nn: Node, lb: Node?, rb: Node?)
    requires Distinct(tr) && !Has(tr, k) && nn !in Nodes(tr)
    ensures nn in Nodes(Insert(tr, k, v, nn).0) && Want(Insert(tr, k, v, nn).0, lb, rb, nn).item == k
  {
    if tr.Branch? {
      if Less(k, tr.key) {
        var l' := Insert(tr.l, k, v, nn).0;
        InsertOwns(tr.l, k, v, nn);
        InsertNodeKey(tr.l, k, v, nn, lb, tr.n);
        WantLeft(tr.(l := l'), lb, rb, nn);
        LeftGrewWant(tr.(l := l'), lb, rb, nn);
      } else {
        var r' := Insert(tr.r, k, v, nn).0;
        InsertOwns(tr.r, k, v, nn);
        InsertNodeKey(tr.r, k, v, nn, tr.n, rb);
        WantRight(tr.(r := r'), lb, rb, nn);
        RightGrewWant(tr.(r := r'), lb, rb, nn);
      }
    }
  }
}
