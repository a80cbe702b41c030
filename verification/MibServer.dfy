/** The GETNEXT request as it runs: cursor loops over the context and, inside a table, over its cells. */
module MibServer {
  import opened OidOrder
  import opened MibTables
  import opened MibSearch

  class Request {
    var oid: Oid
    var endOfMibView: bool

    constructor (o: Oid)
      ensures oid == o && !endOfMibView
    {
      oid, endOfMibView := o, false;
    }
  }

  class Mib {
    const context: seq<Entry>

    constructor (t: seq<Entry>)
      requires Context(t)
      ensures context == t
    {
      context := t;
    }

    /** `entry` is the position of the entry to ask, the length of the context if there is none. */
    method FindNext(oid: Oid) returns (entry: nat, nextOid: Option<Pos>)
      requires Context(context)
      ensures Next(entry, nextOid) == FindNextEntry(context, oid)
    {
      hide Less, Entry.WellFormed, Entry.Key, Entry.MaxKey, FindLower, FindUpper, Table.Succ;
      var t := context;
      nextOid := None;
      var err := FindManagingObject(t, oid);
      if !err.Success? {
        entry := FindUpper(t, oid);
        ghost var upper := entry;
        while entry < |t| && t[entry].IsEmpty()
          invariant upper <= entry <= |t| && SkipEmpty(t, entry) == SkipEmpty(t, upper)
        {
          entry := entry + 1;
        }
        return;
      }
      entry := err.i;
      if t[entry].Tabular? {
        TableWellFormed(t[entry]);
        nextOid := FindSucc(t[entry].table, oid);
        if nextOid.Some? {
          return;
        }
      }
      entry := entry + 1;
      while entry < |t| && t[entry].IsEmpty()
        invariant err.i + 1 <= entry <= |t| && SkipEmpty(t, entry) == SkipEmpty(t, err.i + 1)
      {
        entry := entry + 1;
      }
    }

    method NextAccessControl(view: View, entry: Entry, oid: Oid, nextOid: Option<Pos>)
      returns (allowed: bool, target: Oid)
      requires entry.WellFormed() && (nextOid.Some? ==> entry.Tabular? && entry.table.Has(nextOid.value))
      ensures Access(allowed, target) == NextAccess(entry, view, oid, nextOid)
    {
      hide Less, Table.Succ, Table.Cell;
      match entry
      case Leaf(key) =>
        allowed, target := view(key), key;
      case Tabular(table) =>
        var p := nextOid;
        if p == None {
          p := FindSucc(table, oid);
        }
        ghost var first := p;
        while p.Some? && !view(table.Cell(p.value))
          invariant p.Some? ==> table.Has(p.value)
          invariant FirstInView(table, view, p) == FirstInView(table, view, first)
          decreases if p.Some? then |table.cols| - p.value.col else 0, if p.Some? then |table.rows| - p.value.row else 0
        {
          SuccBehind(table, p.value);
          p := FindSucc(table, table.Cell(p.value));
        }
        if p == None {
          return false, entry.MaxKey();
        }
        return true, table.Cell(p.value);
    }

    /** The GETNEXT arm: the request ends with the object to be answered, or with endOfMibView. */
    method ProcessGetNext(req: Request, view: View)
      requires Context(context)
      modifies req
      ensures req.endOfMibView <==> GetNext(context, view, old(req.oid)) == None
      ensures req.oid == if req.endOfMibView then old(req.oid) else GetNext(context, view, old(req.oid)).value
    {
      hide Less, Entry.WellFormed, Entry.Key, Entry.MaxKey, Passed, FindNextEntry, NextAccess, Done;
      req.endOfMibView := false;
      var tmpoid, allowed := req.oid, false;
      while !allowed
        invariant !allowed ==> GetNext(context, view, tmpoid) == GetNext(context, view, old(req.oid))
        invariant allowed ==> GetNext(context, view, old(req.oid)) == Some(tmpoid)
        invariant req.oid == old(req.oid) && !req.endOfMibView
        decreases !allowed, |context| - Passed(context, tmpoid)
      {
        var entry, nextOid := FindNext(tmpoid);
        NextEntrySpec(context, tmpoid);
        if entry == |context| {
          req.endOfMibView := true;
          return;
        }
        ghost var asked := tmpoid;
        allowed, tmpoid := NextAccessControl(view, context[entry], tmpoid, nextOid);
        if !allowed {
          RefusedAtMaxKey(context[entry], view, asked, nextOid);
          PassedMore(context, asked, entry);
        }
      }
      req.oid := tmpoid;
    }
  }

  lemma TableWellFormed(e: Entry)
    requires e.WellFormed() && e.Tabular?
    ensures e.table.WellFormed()
  {
  }
}
