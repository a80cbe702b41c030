/** A conceptual table: cells addressed column by column, and the search for the next one. */
module MibTables {
  import opened OidOrder

  datatype Option<T> = None | Some(value: T)

  /** A row by its index; `open[c]` says that its cell in column c is readable and valid. */
  datatype Row = Row(index: Oid, open: seq<bool>)

  datatype Pos = Pos(col: nat, row: nat)

  predicate Before(p: Pos, q: Pos) {
    p.col < q.col || (p.col == q.col && p.row < q.row)
  }

  /** `key` is the identifier of the table's entry object; every row has one cell for each column. */
  datatype Table = Table(key: Oid, cols: seq<SubId>, rows: seq<Row>) {

    predicate WellFormed() {
      && |cols| > 0
      && (forall c, d :: 0 <= c < d < |cols| ==> cols[c] < cols[d])
      && (forall r, s :: 0 <= r < s < |rows| ==> Less(rows[r].index, rows[s].index))
      && (forall r :: 0 <= r < |rows| ==> |rows[r].open| == |cols|)
    }

    predicate Has(p: Pos) {
      p.col < |cols| && p.row < |rows|
    }

    function Cell(p: Pos): Oid
      requires Has(p)
    {
      key + ([cols[p.col]] + rows[p.row].index)
    }

    predicate Open(p: Pos)
      requires WellFormed() && Has(p)
    {
      rows[p.row].open[p.col]
    }

    /** `r` is the position of the least cell above `o`, or there is none. */
    ghost predicate IsNext(o: Oid, r: Option<Pos>) {
      match r
      case None => forall q | Has(q) :: LessEq(Cell(q), o)
      case Some(p) => Has(p) && Less(o, Cell(p)) && forall q | Has(q) && Before(q, p) :: LessEq(Cell(q), o)
    }

    /** The same among the open cells. */
    ghost predicate IsSucc(o: Oid, r: Option<Pos>)
      requires WellFormed()
    {
      match r
      case None => forall q | Has(q) && Open(q) :: LessEq(Cell(q), o)
      case Some(p) =>
        && Has(p) && Open(p) && Less(o, Cell(p))
        && forall q | Has(q) && Open(q) && Before(q, p) :: LessEq(Cell(q), o)
    }

    /** The full scan, in the order of positions. */
    function Scan(o: Oid, p: Pos): (r: Option<Pos>)
      requires WellFormed()
      ensures r.Some? ==> Has(r.value)
      decreases |cols| - p.col, |rows| - p.row
    {
      if p.col >= |cols| then None
      else if p.row >= |rows| then Scan(o, Pos(p.col + 1, 0))
      else if Open(p) && Less(o, Cell(p)) then Some(p)
      else Scan(o, Pos(p.col, p.row + 1))
    }

    function Succ(o: Oid): (r: Option<Pos>)
      requires WellFormed()
      ensures r.Some? ==> Has(r.value)
    {
      Scan(o, Pos(0, 0))
    }
  }

  // ---------- the order of cells ----------

  /** Cells are ordered column by column, and by index within a column. */
  lemma CellOrder(t: Table, p: Pos, q: Pos)
    requires t.WellFormed() && t.Has(p) && t.Has(q)
    ensures Less(t.Cell(p), t.Cell(q)) <==> Before(p, q)
  {
    var a, b := t.rows[p.row].index, t.rows[q.row].index;
    LessPrefix(t.key, [t.cols[p.col]] + a, [t.cols[q.col]] + b);
    LessHead(t.cols[p.col], a, t.cols[q.col], b);
    if p.row == q.row {
      LessIrreflexive(a);
    } else {
      LessTotal(a, b);
    }
  }

  /** In terms of positions, the least cell above `o` is the least in the order of identifiers. */
  lemma NextIsLeast(t: Table, o: Oid, p: Pos, q: Pos)
    requires t.WellFormed() && t.IsNext(o, Some(p)) && t.Has(q) && Less(o, t.Cell(q))
    ensures LessEq(t.Cell(p), t.Cell(q))
  {
    LessTotal(o, t.Cell(q));
    CellOrder(t, p, q);
    CellOrder(t, q, p);
    assert !Before(q, p);
  }

  lemma {:induction false} ScanFinds(t: Table, o: Oid, p: Pos)
    requires t.WellFormed()
    requires forall q | t.Has(q) && t.Open(q) && Before(q, p) :: LessEq(t.Cell(q), o)
    ensures t.IsSucc(o, t.Scan(o, p))
    decreases |t.cols| - p.col, |t.rows| - p.row
  {
    hide Less, Table.Cell, Table.Open;
    LessOrder();
    if p.col < |t.cols| {
      if p.row >= |t.rows| {
        ScanFinds(t, o, Pos(p.col + 1, 0));
      } else if !(t.Open(p) && Less(o, t.Cell(p))) {
        ScanFinds(t, o, Pos(p.col, p.row + 1));
      }
    }
  }

  /** There is only one answer, and the full scan finds it. */
  lemma SuccUnique(t: Table, o: Oid, r: Option<Pos>)
    requires t.WellFormed() && t.IsSucc(o, r)
    ensures r == t.Succ(o) && t.IsSucc(o, t.Succ(o))
  {
    hide Less, Table.Cell, Table.Open, Table.Scan;
    LessOrder();
    ScanFinds(t, o, Pos(0, 0));
  }

  // ---------- the search with its shortcuts ----------

  /** The index part of an identifier. */
  function Index(t: Table, o: Oid): Oid
    requires |o| > |t.key|
  {
    o[|t.key| + 1..]
  }

  function Indexes(rows: seq<Row>): (ks: seq<Oid>)
    ensures |ks| == |rows| && forall i :: 0 <= i < |rows| ==> ks[i] == rows[i].index
  {
    seq(|rows|, i requires 0 <= i < |rows| => rows[i].index)
  }

  /** Lookup among the rows: the one with the greatest index not above `ind`, -1 if there is none. */
  function RowLookup(rows: seq<Row>, ind: Oid): (i: int)
    ensures -1 <= i < |rows|
  {
    LastNotAbove(Indexes(rows), ind)
  }

  lemma RowLookupSpec(rows: seq<Row>, ind: Oid)
    ensures var i := RowLookup(rows, ind);
      (i >= 0 ==> LessEq(rows[i].index, ind)) && forall j :: i < j < |rows| ==> !LessEq(rows[j].index, ind)
  {
    hide Less, Indexes, LastNotAbove;
    LastNotAboveSpec(Indexes(rows), ind);
    assert forall j :: 0 <= j < |rows| ==> Indexes(rows)[j] == rows[j].index;
  }

  /** An identifier from the first cell on and below some later one has an index part. */
  lemma HasIndex(t: Table, o: Oid, p: Pos)
    requires t.WellFormed() && t.Has(p) && LessEq(t.Cell(Pos(0, 0)), o) && Less(o, t.Cell(p))
    ensures |o| > |t.key| && o == t.key + ([o[|t.key|]] + Index(t, o))
  {
    hide Less;
    BetweenPrefix(t.key, [t.cols[0]] + t.rows[0].index, [t.cols[p.col]] + t.rows[p.row].index, o);
    NotEmpty(t.cols[0], t.rows[0].index, o[|t.key|..]);
    SplitAt(t.key, o);
  }

  lemma NotEmpty(c: SubId, a: Oid, o: Oid)
    requires LessEq([c] + a, o)
    ensures |o| > 0
  {
  }

  lemma SplitAt(key: Oid, o: Oid)
    requires |o| > |key| && o[..|key|] == key
    ensures o == key + ([o[|key|]] + o[|key| + 1..])
  {
  }

  /** Comparison with a cell is comparison of the column, then of the index. */
  lemma IndexOrder(t: Table, o: Oid, p: Pos)
    requires t.WellFormed() && t.Has(p) && |o| > |t.key| && o == t.key + ([o[|t.key|]] + Index(t, o))
    ensures var c, ind := o[|t.key|], Index(t, o);
      && (Less(t.Cell(p), o) <==> t.cols[p.col] < c || (t.cols[p.col] == c && Less(t.rows[p.row].index, ind)))
      && (Less(o, t.Cell(p)) <==> c < t.cols[p.col] || (c == t.cols[p.col] && Less(ind, t.rows[p.row].index)))
  {
    var c, ind := o[|t.key|], Index(t, o);
    var i := t.rows[p.row].index;
    LessPrefix(t.key, [t.cols[p.col]] + i, [c] + ind);
    LessPrefix(t.key, [c] + ind, [t.cols[p.col]] + i);
    LessHead(t.cols[p.col], i, c, ind);
    LessHead(c, ind, t.cols[p.col], i);
  }

  /** Positioning the row cursor skips only rows whose cell is not above `o`. */
  lemma LookupSkips(t: Table, o: Oid, col: nat, r: nat)
    requires t.WellFormed() && col < |t.cols| && r < |t.rows|
    requires Less(t.Cell(Pos(col, 0)), o) && Less(o, t.Cell(Pos(col, |t.rows| - 1)))
    requires |o| > |t.key| && o == t.key + ([o[|t.key|]] + Index(t, o)) && r < RowLookup(t.rows, Index(t, o))
    ensures Less(t.Cell(Pos(col, r)), o)
  {
    hide Less, Table.Cell, RowLookup, Index;
    LessOrder();
    var l := RowLookup(t.rows, Index(t, o));
    RowLookupSpec(t.rows, Index(t, o));
    IndexOrder(t, o, Pos(col, 0));
    IndexOrder(t, o, Pos(col, |t.rows| - 1));
    IndexOrder(t, o, Pos(col, r));
    assert Less(t.rows[r].index, t.rows[l].index);
  }

  method FindNext(t: Table, o: Oid) returns (r: Option<Pos>)
    requires t.WellFormed()
    ensures t.IsNext(o, r)
  {
    hide Less, Table.Cell, Index;
    LessOrder();
    if t.rows == [] {
      return None;
    }
    if Less(o, t.Cell(Pos(0, 0))) {
      return Some(Pos(0, 0));
    }
    var bottom, col := |t.rows| - 1, 0;
    while col < |t.cols| && !Less(o, t.Cell(Pos(col, bottom)))
      invariant col <= |t.cols|
      invariant forall q | t.Has(q) && q.col < col :: LessEq(t.Cell(q), o)
    {
      ColumnPassed(t, o, col);
      col := col + 1;
    }
    if col == |t.cols| {
      return None;
    }
    HasIndex(t, o, Pos(col, bottom));
    var ind, row := Index(t, o), 0;
    if |ind| > 0 && Less(t.Cell(Pos(col, 0)), o) {
      var l := RowLookup(t.rows, ind);
      forall x: nat | x < l ensures LessEq(t.Cell(Pos(col, x)), o) {
        LookupSkips(t, o, col, x);
      }
      if l >= 0 {
        row := l;
      }
    }
    while row < |t.rows|
      invariant row <= |t.rows|
      invariant forall x: nat | x < row :: LessEq(t.Cell(Pos(col, x)), o)
    {
      if Less(o, t.Cell(Pos(col, row))) {
        return Some(Pos(col, row));
      }
      row := row + 1;
    }
    return None;
  }

  /** A column whose last cell is not above `o` has no cell above `o`. */
  lemma ColumnPassed(t: Table, o: Oid, col: nat)
    requires t.WellFormed() && col < |t.cols| && |t.rows| > 0 && !Less(o, t.Cell(Pos(col, |t.rows| - 1)))
    ensures forall q | t.Has(q) && q.col == col :: LessEq(t.Cell(q), o)
  {
    hide Less, Table.Cell;
    LessOrder();
    forall q | t.Has(q) && q.col == col ensures LessEq(t.Cell(q), o) {
      CellOrder(t, q, Pos(col, |t.rows| - 1));
    }
  }

  method FindSucc(t: Table, o: Oid) returns (r: Option<Pos>)
    requires t.WellFormed()
    ensures r == t.Succ(o)
  {
    hide Less, Table.Cell, Table.Scan;
    LessOrder();
    r := FindNext(t, o);
    while r.Some? && !t.Open(r.value)
      invariant match r
        case None => forall q | t.Has(q) && t.Open(q) :: LessEq(t.Cell(q), o)
        case Some(p) =>
          && t.Has(p) && Less(o, t.Cell(p))
          && forall q | t.Has(q) && t.Open(q) && Before(q, p) :: LessEq(t.Cell(q), o)
      decreases if r.Some? then |t.cols| - r.value.col else 0, if r.Some? then |t.rows| - r.value.row else 0
    {
      var p := r.value;
      r := FindNext(t, t.Cell(p));
      NextAfter(t, o, p, r);
    }
    SuccUnique(t, o, r);
  }

  lemma NextAfter(t: Table, o: Oid, p: Pos, r: Option<Pos>)
    requires t.WellFormed() && t.Has(p) && !t.Open(p) && Less(o, t.Cell(p)) && t.IsNext(t.Cell(p), r)
    requires forall q | t.Has(q) && t.Open(q) && Before(q, p) :: LessEq(t.Cell(q), o)
    ensures r.Some? ==> Before(p, r.value) && Less(o, t.Cell(r.value))
    ensures forall q | t.Has(q) && t.Open(q) && (r.Some? ==> Before(q, r.value)) :: LessEq(t.Cell(q), o)
  {
    hide Less, Table.Cell, Table.Open;
    LessOrder();
    if r.Some? {
      CellOrder(t, p, r.value);
    }
    forall q | t.Has(q) && t.Open(q) && (r.Some? ==> Before(q, r.value)) ensures LessEq(t.Cell(q), o) {
      CellOrder(t, p, q);
    }
  }
}
