/** Searches of an OID-keyed list and of its cursor, over the threaded AVL map that holds it. */
module OidList {
  import opened OidOrder
  import opened AvlTree
  import opened AvlContents
  import opened AvlNodes
  import opened AvlPlaces
  import opened AvlMap

  function KeysOf(s: seq<Item>): (ks: seq<Oid>)
    ensures |ks| == |s| && forall i :: 0 <= i < |s| ==> ks[i] == s[i].key
  {
    seq(|s|, i requires 0 <= i < |s| => s[i].key)
  }

  /** Position of the greatest key not above `k`, -1 if there is none. */
  function LowerIndex(s: seq<Item>, k: Oid): (j: int)
    ensures -1 <= j < |s|
  {
    LastNotAbove(KeysOf(s), k)
  }

  /** Position of the least key not below `k`, the length of the list if there is none. */
  function UpperIndex(s: seq<Item>, k: Oid): (j: nat)
    ensures j <= |s|
  {
    var i := LowerIndex(s, k);
    if i >= 0 && s[i].key == k then i else i + 1
  }

  lemma LowerIndexSpec(s: seq<Item>, k: Oid)
    requires Sorted(s)
    ensures forall i :: 0 <= i < |s| ==> (i <= LowerIndex(s, k) <==> LessEq(s[i].key, k))
  {
    hide Less, KeysOf, LastNotAbove;
    LessOrder();
    LastNotAboveSpec(KeysOf(s), k);
    assert forall i :: 0 <= i < |s| ==> KeysOf(s)[i] == s[i].key;
  }

  lemma UpperIndexSpec(s: seq<Item>, k: Oid)
    requires Sorted(s)
    ensures forall i :: 0 <= i < |s| ==> (i >= UpperIndex(s, k) <==> LessEq(k, s[i].key))
  {
    hide Less;
    LessOrder();
    LowerIndexSpec(s, k);
  }

  lemma LowerIndexIs(s: seq<Item>, k: Oid, j: int)
    requires Sorted(s) && -1 <= j < |s|
    requires (j >= 0 ==> LessEq(s[j].key, k)) && forall i :: j < i < |s| ==> Less(k, s[i].key)
    ensures LowerIndex(s, k) == j
  {
    hide Less, LowerIndex;
    LessOrder();
    LowerIndexSpec(s, k);
    var l := LowerIndex(s, k);
    assert l >= 0 ==> LessEq(s[l].key, k);
  }

  lemma UpperIndexIs(s: seq<Item>, k: Oid, j: nat)
    requires Sorted(s) && j <= |s|
    requires (j < |s| ==> LessEq(k, s[j].key)) && forall i :: 0 <= i < j ==> Less(s[i].key, k)
    ensures UpperIndex(s, k) == j
  {
    hide Less, UpperIndex;
    LessOrder();
    UpperIndexSpec(s, k);
    var u := UpperIndex(s, k);
    assert u < |s| ==> LessEq(k, s[u].key);
  }

  /** The node at position `j` of the key order; null outside. */
  ghost function NodeAt(tr: Tree, j: int): Node? {
    if 0 <= j < |Order(tr)| then Order(tr)[j] else null
  }

  class List {
    const content: AvlMap

    constructor ()
      ensures fresh(content) && content.Valid() && content.Model() == map[]
    {
      content := new AvlMap(0);
    }

    /** What a node at position `j` holds. */
    lemma At(t: Node?, j: int)
      requires content.Valid() && t == NodeAt(content.tree, j)
      ensures t != null <==> 0 <= j < |Items(content.tree)|
      ensures t != null ==> t in content.Repr && IndexOf(content.tree, t) == j
      ensures t != null ==> Items(content.tree)[j] == Item(t.item, t.cont)
      ensures |Order(content.tree)| == |Items(content.tree)| && Sorted(Items(content.tree))
    {
      if t != null {
        IndexOfOrder(content.tree, j);
        IndexOfPlace(content.tree, null, null, t);
        assert Fields(t) == Want(content.tree, null, null, t);
      }
    }

    method SeekInexact(key: Oid) returns (t: Node?, ghost j: int)
      requires content.Valid()
      ensures t == NodeAt(content.tree, j) && (t == null <==> Items(content.tree) == [])
      ensures t != null ==> Rising(Items(content.tree), key, j)
    {
      hide Less;
      ghost var visited;
      t, visited := content.SeekInexact(key);
      j := -1;
      if t != null {
        j := IndexOf(content.tree, t);
        IndexOfPlace(content.tree, null, null, t);
        NearRank(content.tree, key, j);
      }
    }

    method First() returns (t: Node?)
      requires content.Valid()
      ensures t == NodeAt(content.tree, 0)
    {
      t := content.First();
      EndNodes(content.tree);
    }

    method Last() returns (t: Node?)
      requires content.Valid()
      ensures t == NodeAt(content.tree, |Items(content.tree)| - 1)
    {
      t := content.Last();
      EndNodes(content.tree);
    }

    method Next(t: Node, ghost j: int) returns (n: Node?)
      requires content.Valid() && t == NodeAt(content.tree, j)
      ensures n == NodeAt(content.tree, j + 1)
    {
      At(t, j);
      n := content.Next(t);
    }

    method Prev(t: Node, ghost j: int) returns (n: Node?)
      requires content.Valid() && t == NodeAt(content.tree, j)
      ensures n == NodeAt(content.tree, j - 1)
    {
      At(t, j);
      n := content.Prev(t);
    }

    /** Forward while below `key`, but not past the last key. */
    method RunUp(t0: Node, key: Oid, ghost j0: int) returns (t: Node, ghost j: int)
      requires content.Valid() && t0 == NodeAt(content.tree, j0)
      ensures t == NodeAt(content.tree, j) && Rising(Items(content.tree), key, j)
    {
      hide Less, NodeAt, Items, Order, Sorted, Contents, Rising, AvlMap.Valid;
      t, j := t0, j0;
      At(t, j);
      var last := Last();
      At(last, |Items(content.tree)| - 1);
      while t != last && Less(t.item, key)
        invariant t == NodeAt(content.tree, j)
        decreases |Items(content.tree)| - j
      {
        At(t, j);
        At(NodeAt(content.tree, j + 1), j + 1);
        t := Next(t, j);
        j := j + 1;
      }
      At(t, j);
      RisingFrom(Items(content.tree), key, j);
    }

    /** Backward while above `key`, but not past the first key. */
    method RunDown(t0: Node, key: Oid, ghost j0: int) returns (t: Node, ghost j: int)
      requires content.Valid() && t0 == NodeAt(content.tree, j0)
      ensures t == NodeAt(content.tree, j) && Falling(Items(content.tree), key, j)
    {
      hide Less, NodeAt, Items, Order, Sorted, Contents, Falling, AvlMap.Valid;
      t, j := t0, j0;
      At(t, j);
      var first := First();
      At(first, 0);
      while t != first && Less(key, t.item)
        invariant t == NodeAt(content.tree, j)
        decreases j
      {
        At(t, j);
        At(NodeAt(content.tree, j - 1), j - 1);
        t := Prev(t, j);
        j := j - 1;
      }
      At(t, j);
      FallingFrom(Items(content.tree), key, j);
    }

    /** Backward until a key that is not above `key`. */
    method DownTo(t0: Node, key: Oid, ghost j0: int) returns (t: Node?)
      requires content.Valid() && t0 == NodeAt(content.tree, j0) && Rising(Items(content.tree), key, j0)
      ensures t == NodeAt(content.tree, LowerIndex(Items(content.tree), key))
    {
      hide Less, NodeAt, Items, Order, Sorted, Contents, AvlMap.Valid;
      t := t0;
      ghost var s, j := Items(content.tree), j0;
      At(t, j);
      while t != null && Less(key, t.item)
        invariant t == NodeAt(content.tree, j) && -1 <= j < |s| && Rising(s, key, j)
        decreases j + 1
      {
        At(t, j);
        At(NodeAt(content.tree, j - 1), j - 1);
        t := Prev(t, j);
        j := j - 1;
      }
      At(t, j);
      LessTotal(key, if t == null then key else t.item);
      LowerIndexIs(s, key, j);
    }

    /** Forward until a key that is not below `key`. */
    method UpTo(t0: Node, key: Oid, ghost j0: int) returns (t: Node?)
      requires content.Valid() && t0 == NodeAt(content.tree, j0) && Falling(Items(content.tree), key, j0)
      ensures t == NodeAt(content.tree, UpperIndex(Items(content.tree), key))
    {
      hide Less, NodeAt, Items, Order, Sorted, Contents, AvlMap.Valid;
      t := t0;
      ghost var s, j := Items(content.tree), j0;
      At(t, j);
      while t != null && Less(t.item, key)
        invariant t == NodeAt(content.tree, j) && 0 <= j <= |s| && Falling(s, key, j)
        decreases |s| - j
      {
        At(t, j);
        At(NodeAt(content.tree, j + 1), j + 1);
        t := Next(t, j);
        j := j + 1;
      }
      At(t, j);
      LessTotal(key, if t == null then key else t.item);
      UpperIndexIs(s, key, j);
    }

    method FindLower(key: Oid) returns (t: Node?)
      requires content.Valid()
      ensures t == NodeAt(content.tree, LowerIndex(Items(content.tree), key))
    {
      hide NodeAt, Items, Order, Contents, Rising;
      ghost var j;
      t, j := SeekInexact(key);
      if t != null {
        t, j := RunUp(t, key, j);
        t := DownTo(t, key, j);
      } else {
        NoNode(content.tree);
      }
    }

    method FindUpper(key: Oid) returns (t: Node?)
      requires content.Valid()
      ensures t == NodeAt(content.tree, UpperIndex(Items(content.tree), key))
    {
      hide NodeAt, Items, Order, Contents, Falling;
      ghost var j;
      t, j := SeekInexact(key);
      if t != null {
        t, j := RunDown(t, key, j);
        t := UpTo(t, key, j);
      } else {
        NoNode(content.tree);
      }
    }

    /** The entry after that of `key`; none if the key is not in the list. */
    method FindNext(key: Oid) returns (t: Node?)
      requires content.Valid()
      ensures t == if key !in content.Model() then null
                   else NodeAt(content.tree, LowerIndex(Items(content.tree), key) + 1)
    {
      hide NodeAt, Items, Order, Contents, Less, Rank;
      ghost var visited;
      t, visited := content.Seek(key);
      if t != null {
        ghost var j := IndexOf(content.tree, t);
        SoughtAt(t, key);
        t := Next(t, j);
      }
    }

    lemma SoughtAt(t: Node, key: Oid)
      requires content.Valid() && key in content.Model() && t in content.Repr
      requires IndexOf(content.tree, t) == Rank(content.tree, key)
      ensures t == NodeAt(content.tree, IndexOf(content.tree, t))
      ensures IndexOf(content.tree, t) == LowerIndex(Items(content.tree), key)
    {
      hide Less;
      LessOrder();
      IndexOfPlace(content.tree, null, null, t);
      ContentsKeys(content.tree, key);
      LowerIndexIs(Items(content.tree), key, Rank(content.tree, key));
    }

    /** Cursor lookup: to the greatest key not above `key`; the cursor stays where it is if there is none. */
    method Lookup(cursor: Node?, key: Oid) returns (found: bool, cursor': Node?)
      requires content.Valid()
      ensures found <==> LowerIndex(Items(content.tree), key) >= 0
      ensures cursor' == if found then NodeAt(content.tree, LowerIndex(Items(content.tree), key)) else cursor
    {
      hide NodeAt, Items, Order, Contents, Rising, Less;
      var i;
      ghost var j;
      i, j := SeekInexact(key);
      if i == null {
        NoNode(content.tree);
        return false, cursor;
      }
      i := DownTo(i, key, j);
      At(i, LowerIndex(Items(content.tree), key));
      found, cursor' := i != null, if i != null then i else cursor;
    }
  }

  /** All later keys are above `key`. */
  ghost predicate Rising(s: seq<Item>, key: Oid, j: int) {
    forall i :: 0 <= i < |s| && j < i ==> Less(key, s[i].key)
  }

  /** All earlier keys are below `key`. */
  ghost predicate Falling(s: seq<Item>, key: Oid, j: int) {
    forall i :: 0 <= i < |s| && i < j ==> Less(s[i].key, key)
  }

  lemma RisingFrom(s: seq<Item>, key: Oid, j: nat)
    requires Sorted(s) && j < |s| && (j == |s| - 1 || !Less(s[j].key, key))
    ensures Rising(s, key, j)
  {
    hide Less;
    LessOrder();
  }

  lemma FallingFrom(s: seq<Item>, key: Oid, j: nat)
    requires Sorted(s) && j < |s| && (j == 0 || !Less(key, s[j].key))
    ensures Falling(s, key, j)
  {
    hide Less;
    LessOrder();
  }

  lemma NearRank(tr: Tree, key: Oid, j: int)
    requires Sorted(Items(tr)) && (j == Rank(tr, key) || (j + 1 == Rank(tr, key) && !Has(tr, key)))
    ensures Rising(Items(tr), key, j)
  {
    hide Less;
    LessOrder();
    RankPosition(tr, key);
  }

  lemma NoNode(tr: Tree)
    requires Items(tr) == []
    ensures forall j :: NodeAt(tr, j) == null
  {
  }

  lemma EndNodes(tr: Tree)
    ensures tr.Branch? ==> |Order(tr)| == |Items(tr)| > 0
    ensures tr.Branch? ==> NodeAt(tr, 0) == Order(tr)[0] && NodeAt(tr, |Items(tr)| - 1) == Order(tr)[|Order(tr)| - 1]
  {
    if tr.Branch? {
      MinNodeFirst(tr);
    }
  }
}
