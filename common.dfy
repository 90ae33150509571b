/** Values shared by both schemas: identifiers, column value types, the
    error taxonomy of the store, and the two table-rewriting loops every
    cascading delete is built from. */
module Common {

  /** A primary key. The source generates them with `uuid6()`; here they are
      abstract values that the caller supplies. */
  type Id = nat

  datatype Option<+T> = None | Some(value: T)

  /** The ways a store operation can be refused. */
  datatype Error =
    | NotFound             // the row or the link does not exist
    | UniqueViolation      // a primary key or a unique column collides
    | ForeignKeyViolation  // a referenced parent is missing, or a delete would leave a dangling reference
    | NotNullViolation     // the ORM would set a non-optional foreign key to null

  datatype Result<+T> = Ok(value: T) | Err(error: Error)

  datatype Outcome = Pass | Fail(error: Error)

  /** The state `after` and the verdict `r` of an operation whose meaning is
      `res`: a refused operation changes nothing. */
  ghost predicate Reflects<T>(before: T, res: Result<T>, after: T, r: Outcome)
  {
    match res
    case Ok(v) => r == Pass && after == v
    case Err(e) => r == Fail(e) && after == before
  }

  /** A naive (timezone-less) timestamp, as the TIMESTAMP(timezone=False) columns store. */
  datatype DateTime = DateTime(year: int, month: int, day: int, hour: int, minute: int, second: int, microsecond: int)

  /** The contents of a JSONB column, treated as an opaque whole value. */
  datatype Json =
    | JNull
    | JBool(b: bool)
    | JNumber(n: int)
    | JString(s: string)
    | JArray(items: seq<Json>)
    | JObject(fields: map<string, Json>)

  /** `after` is `before` with exactly one new row `k` holding `v`. */
  ghost predicate Added<K, V>(before: map<K, V>, after: map<K, V>, k: K, v: V)
  {
    && k !in before
    && after.Keys == before.Keys + {k}
    && after[k] == v
    && forall x :: x in before ==> after[x] == before[x]
  }

  /** The composite primary key (match_id, prev_player_id, new_player_id)
      of `substitution`, the same in both schemas. */
  datatype SubKey = SubKey(matchId: Id, prevPlayerId: Id, newPlayerId: Id)

  /** A join table row names two rows. */
  type Link = (Id, Id)

  /** The rows of a join table that survive when the rows `left` (first
      column) and `right` (second column) are deleted. */
  function Unlinked(links: set<Link>, left: set<Id>, right: set<Id>): set<Link>
  {
    set l | l in links && l.0 !in left && l.1 !in right
  }

  /** Removes the rows keyed by `gone` from a table, one row at a time. */
  method RemoveRows<K, V>(table: map<K, V>, gone: set<K>) returns (r: map<K, V>)
    ensures r == table - gone
  {
    r := table;
    var todo := gone;
    while todo != {}
      invariant todo <= gone
      invariant r == table - (gone - todo)
      decreases todo
    {
      var k :| k in todo;
      r := r - {k};
      todo := todo - {k};
    }
  }

  /** Scans a join table and keeps the rows that touch none of the deleted rows. */
  method DropLinks(links: set<Link>, left: set<Id>, right: set<Id>) returns (r: set<Link>)
    ensures r == Unlinked(links, left, right)
  {
    r := {};
    var todo := links;
    while todo != {}
      invariant todo <= links
      invariant r == Unlinked(links - todo, left, right)
      decreases todo
    {
      var l :| l in todo;
      if l.0 !in left && l.1 !in right {
        r := r + {l};
      }
      todo := todo - {l};
    }
  }

  /** The rows of a join table that name `k` in their second column. */
  function Fiber(links: set<Link>, k: Id): set<Link>
  {
    set l | l in links && l.1 == k
  }

  /** The rows linked to `k` through the second column. */
  function Partners(links: set<Link>, k: Id): set<Id>
  {
    set l | l in links && l.1 == k :: l.0
  }

  /** Deleting the row `k` on the second side of a join table removes one
      join row per partner of `k`, and no other row. */
  lemma {:induction false} UnlinkRightCount(links: set<Link>, k: Id)
    ensures Unlinked(links, {}, {k}) == links - Fiber(links, k)
    ensures |Unlinked(links, {}, {k})| == |links| - |Partners(links, k)|
  {
    assert Unlinked(links, {}, {k}) == links - Fiber(links, k);
    FiberCount(links, k);
  }

  lemma {:induction false} FiberCount(links: set<Link>, k: Id)
    ensures |Fiber(links, k)| == |Partners(links, k)|
    decreases |links|
  {
    if links == {} {
      assert Fiber(links, k) == {};
      assert Partners(links, k) == {};
    } else {
      var l :| l in links;
      FiberCount(links - {l}, k);
      FiberStep(links, l, k);
    }
  }

  /** Taking one row out of a join table shrinks the rows naming `k` and
      the partners of `k` by the same number. */
  lemma FiberStep(links: set<Link>, l: Link, k: Id)
    requires l in links
    ensures |Fiber(links, k)| - |Fiber(links - {l}, k)| == |Partners(links, k)| - |Partners(links - {l}, k)|
  {
    var rest := links - {l};
    if l.1 == k {
      assert Fiber(links, k) == Fiber(rest, k) + {l};
      assert Partners(links, k) == Partners(rest, k) + {l.0};
      assert l.0 !in Partners(rest, k);
    } else {
      assert Fiber(links, k) == Fiber(rest, k);
      assert Partners(links, k) == Partners(rest, k);
    }
  }
}
