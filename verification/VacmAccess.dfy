/** Access-table lookup of view-based access control: which row decides. */
module VacmAccess {
  import opened OidOrder

  type Octets = Oid

  /** A row of the access table; `exact` is the value of its context-match column. */
  datatype Row = Row(group: Octets, prefix: Octets, model: SubId, level: SubId, active: bool, exact: int,
                     read: string, write: string, notify: string)

  datatype ViewType = Read | Write | Notify

  const ANY_MODEL: SubId := 0

  const EXACT := 1
  const PREFIX := 2

  datatype Request = Request(group: Octets, context: Octets, model: SubId, level: int)

  /** The row's index: both strings with their lengths, then model and level. */
  function Index(r: Row): Oid
    requires |r.group| <= SUBID_MAX && |r.prefix| <= SUBID_MAX
  {
    ([|r.group|] + r.group) + ([|r.prefix|] + r.prefix + [r.model, r.level])
  }

  ghost predicate Rows(t: seq<Row>) {
    && (forall i :: 0 <= i < |t| ==> |t[i].group| <= SUBID_MAX && |t[i].prefix| <= SUBID_MAX)
    && (forall i, j :: 0 <= i < j < |t| ==> Less(Index(t[i]), Index(t[j])))
  }

  predicate Matches(r: Row, q: Request) {
    && r.active && r.group == q.group
    && (r.model == q.model || r.model == ANY_MODEL)
    && r.level <= q.level
    && ((r.exact == EXACT && r.prefix == q.context)
        || (r.exact == PREFIX && |r.prefix| <= |q.context| && r.prefix == q.context[..|r.prefix|]))
  }

  /** The rank of a matching row: model match, exact context, prefix length, security level, in this order. */
  datatype Rank = Rank(model: bool, exact: bool, prefix: nat, level: nat)

  function RankOf(r: Row, q: Request): Rank {
    Rank(r.model == q.model, r.exact == EXACT, |r.prefix|, r.level)
  }

  predicate Higher(a: Rank, b: Rank) {
    if a.model != b.model then a.model
    else if a.exact != b.exact then a.exact
    else if a.prefix != b.prefix then a.prefix > b.prefix
    else a.level > b.level
  }

  /** Matching rows of equal rank have the same index. */
  lemma SameRank(r: Row, s: Row, q: Request)
    requires Matches(r, q) && Matches(s, q) && RankOf(r, q) == RankOf(s, q)
    ensures r.group == s.group && r.prefix == s.prefix && r.model == s.model && r.level == s.level
  {
  }

  /** `b` is the position of the matching row of highest rank among the first `n`, -1 if none matches. */
  ghost predicate Best(t: seq<Row>, q: Request, n: nat, b: int) {
    && -1 <= b < n <= |t|
    && (b >= 0 ==> Matches(t[b], q))
    && forall j :: 0 <= j < n && Matches(t[j], q) ==> b >= 0 && (j == b || Higher(RankOf(t[b], q), RankOf(t[j], q)))
  }

  /** The comparison the scan makes against the best row so far. */
  predicate Replaces(found: Rank, r: Row, q: Request) {
    if !found.model && r.model == q.model then true
    else if !found.model || r.model == q.model then
      if !found.exact && r.exact == EXACT then true
      else if !found.exact || r.exact == EXACT then
        found.prefix < |r.prefix| || (found.prefix == |r.prefix| && found.level < r.level)
      else false
    else false
  }

  lemma ReplacesHigher(found: Rank, r: Row, q: Request)
    ensures Replaces(found, r, q) <==> Higher(RankOf(r, q), found)
  {
  }

  lemma HigherTotal(a: Rank, b: Rank)
    ensures Higher(a, b) || a == b || Higher(b, a)
  {
  }

  lemma HigherTransitive(a: Rank, b: Rank, c: Rank)
    requires Higher(a, b) && Higher(b, c)
    ensures Higher(a, c)
  {
  }

  function Indexes(t: seq<Row>): (ks: seq<Oid>)
    requires forall i :: 0 <= i < |t| ==> |t[i].group| <= SUBID_MAX && |t[i].prefix| <= SUBID_MAX
    ensures |ks| == |t| && forall i :: 0 <= i < |t| ==> ks[i] == Index(t[i])
  {
    seq(|t|, i requires 0 <= i < |t| => Index(t[i]))
  }

  /** Cursor lookup: the last row whose index is not above `k`, -1 if there is none. */
  function Lookup(t: seq<Row>, k: Oid): (i: int)
    requires Rows(t)
    ensures -1 <= i < |t|
    ensures i >= 0 ==> LessEq(Index(t[i]), k)
  {
    LastNotAboveSpec(Indexes(t), k);
    LastNotAbove(Indexes(t), k)
  }

  lemma GroupBelow(r: Row)
    requires |r.group| <= SUBID_MAX && |r.prefix| <= SUBID_MAX
    ensures Less([|r.group|] + r.group, Index(r))
  {
    hide Less;
    PrefixLess([|r.group|] + r.group, [|r.prefix|] + r.prefix + [r.model, r.level]);
  }

  /** Starting at the looked-up row skips none of the group's rows. */
  lemma LookupSkips(t: seq<Row>, group: Octets, j: nat)
    requires Rows(t) && |group| <= SUBID_MAX && j < Lookup(t, [|group|] + group)
    ensures t[j].group != group
  {
    hide Less, Index, Lookup;
    var k := [|group|] + group;
    var l := Lookup(t, k);
    if t[j].group == group {
      GroupBelow(t[j]);
      LessTransitive(k, Index(t[j]), Index(t[l]));
      LessTotal(k, Index(t[l]));
    }
  }

  lemma BestExtends(t: seq<Row>, q: Request, n: nat, b: int)
    requires Rows(t) && n < |t| && Best(t, q, n, b)
    ensures Best(t, q, n + 1,
      if !Matches(t[n], q) then b
      else if b < 0 || Replaces(RankOf(t[b], q), t[n], q) then n
      else b)
  {
    hide Less, Replaces, Matches, Higher;
    if Matches(t[n], q) && b >= 0 {
      ReplacesHigher(RankOf(t[b], q), t[n], q);
      HigherTotal(RankOf(t[b], q), RankOf(t[n], q));
      if RankOf(t[b], q) == RankOf(t[n], q) {
        SameRank(t[b], t[n], q);
        LessIrreflexive(Index(t[b]));
      }
      if Higher(RankOf(t[n], q), RankOf(t[b], q)) {
        forall j | 0 <= j < n && Matches(t[j], q) && j != b ensures Higher(RankOf(t[n], q), RankOf(t[j], q)) {
          HigherTransitive(RankOf(t[n], q), RankOf(t[b], q), RankOf(t[j], q));
        }
      }
    }
  }

  method GetViewName(t: seq<Row>, q: Request, viewType: ViewType) returns (found: bool, viewName: string, ghost b: int)
    requires Rows(t) && |q.group| <= SUBID_MAX
    ensures Best(t, q, |t|, b) && found == (b >= 0)
    ensures found ==>
              viewName == match viewType
                          case Read => t[b].read
                          case Write => t[b].write
                          case Notify => t[b].notify
  {
    hide Less, Replaces, Matches, Higher;
    found, viewName := false, "";
    var foundRow, foundRank := 0, Rank(false, false, 0, 0);
    var cur := Lookup(t, [|q.group|] + q.group);
    if cur < 0 {
      cur := 0;
    }
    b := -1;
    SkippedNone(t, q, cur);
    while cur < |t|
      invariant 0 <= cur <= |t| && Best(t, q, cur, b)
      invariant found == (b >= 0) && (found ==> foundRow == b && foundRank == RankOf(t[b], q))
    {
      BestExtends(t, q, cur, b);
      if Matches(t[cur], q) {
        if !found || Replaces(foundRank, t[cur], q) {
          found, foundRow, foundRank := true, cur, RankOf(t[cur], q);
          b := cur;
        }
      }
      cur := cur + 1;
    }
    if found {
      match viewType
      case Read => viewName := t[foundRow].read;
      case Write => viewName := t[foundRow].write;
      case Notify => viewName := t[foundRow].notify;
    }
  }

  lemma SkippedNone(t: seq<Row>, q: Request, n: nat)
    requires Rows(t) && |q.group| <= SUBID_MAX && (n == 0 || n == Lookup(t, [|q.group|] + q.group))
    ensures Best(t, q, n, -1)
  {
    forall j | 0 <= j < n ensures !Matches(t[j], q) {
      LookupSkips(t, q.group, j);
    }
  }

  lemma BestFound(t: seq<Row>, q: Request, a: int, r: Row)
    requires Best(t, q, |t|, a) && r in t && Matches(r, q)
    ensures a >= 0 && t[a] in t && Matches(t[a], q) && (t[a] == r || Higher(RankOf(t[a], q), RankOf(r, q)))
  {
    hide Matches, Higher;
  }

  /** The row that decides does not depend on the order of the scan: any two lists of the same rows agree. */
  lemma OrderIndependent(t: seq<Row>, u: seq<Row>, q: Request, a: int, b: int)
    requires (forall r :: r in t <==> r in u) && Best(t, q, |t|, a) && Best(u, q, |u|, b)
    ensures (a >= 0 <==> b >= 0) && (a >= 0 ==> t[a] == u[b])
  {
    hide Matches, Higher;
    if a >= 0 {
      BestFound(u, q, b, t[a]);
    }
    if b >= 0 {
      BestFound(t, q, a, u[b]);
      NotBoth(RankOf(t[a], q), RankOf(u[b], q));
    }
  }

  lemma NotBoth(a: Rank, b: Rank)
    ensures !(Higher(a, b) && Higher(b, a))
  {
  }
}
