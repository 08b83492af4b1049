/** The query builder: a subject table name plus an ordered clause list. Every
    builder call returns a new query value; none changes the one it is given. */
module SimpleQueries {
  import opened Results
  import opened ObjectReferences

  datatype OrderByDirection = Ascending | Descending

  datatype Clause =
    | WhereClause(criteria: SimpleExpression)
    | SkipClause(count: int)
    | TakeClause(count: int)
    | OrderByClause(reference: ObjectReference, direction: OrderByDirection)
    | JoinClause(table: ObjectReference, joinExpression: SimpleExpression)
    | ForUpdateClause(skipLockedRows: bool)

  /** The clause types, as `Clauses.OfType<T>()` tells them apart. */
  datatype ClauseKind = WhereKind | SkipKind | TakeKind | OrderByKind | JoinKind | ForUpdateKind

  function KindOf(c: Clause): ClauseKind {
    match c
    case WhereClause(_) => WhereKind
    case SkipClause(_) => SkipKind
    case TakeClause(_) => TakeKind
    case OrderByClause(_, _) => OrderByKind
    case JoinClause(_, _) => JoinKind
    case ForUpdateClause(_) => ForUpdateKind
  }

  /** `JoinClause.Name`: the alias of the joined table, or its name. */
  function JoinName(c: Clause): string
    requires c.JoinClause?
  {
    AliasOrName(c.table)
  }

  /** A query: the subject table, the clauses in call order, and a table passed
      to `Join` that is still waiting for its `On`. */
  datatype SimpleQuery = SimpleQuery(tableName: string, clauses: seq<Clause>, pendingJoin: Option<ObjectReference>)

  /** `new SimpleQuery(adapter, tableName)`. */
  function NewQuery(tableName: string): (q: SimpleQuery)
    ensures q.tableName == tableName && q.pendingJoin.None?
    ensures forall k :: OfKind(q.clauses, k) == []
  {
    SimpleQuery(tableName, [], None)
  }

  /** `Clauses.OfType<T>()`: the clauses of one kind, in their original order. */
  function OfKind(cs: seq<Clause>, k: ClauseKind): (r: seq<Clause>)
    ensures forall c :: c in r <==> c in cs && KindOf(c) == k
    ensures |r| <= |cs|
  {
    if cs == [] then []
    else (if KindOf(cs[0]) == k then [cs[0]] else []) + OfKind(cs[1..], k)
  }

  /** The clauses not of kind k, in their original order. */
  function WithoutKind(cs: seq<Clause>, k: ClauseKind): (r: seq<Clause>)
    ensures forall c :: c in r <==> c in cs && KindOf(c) != k
  {
    if cs == [] then []
    else (if KindOf(cs[0]) != k then [cs[0]] else []) + WithoutKind(cs[1..], k)
  }

  lemma {:induction false} OfKindConcat(a: seq<Clause>, b: seq<Clause>, k: ClauseKind)
    ensures OfKind(a + b, k) == OfKind(a, k) + OfKind(b, k)
  {
    if a == [] {
      assert a + b == b;
    } else {
      assert (a + b)[0] == a[0];
      assert (a + b)[1..] == a[1..] + b;
      OfKindConcat(a[1..], b, k);
    }
  }

  lemma {:induction false} OfKindWithout(cs: seq<Clause>, k: ClauseKind, j: ClauseKind)
    ensures OfKind(WithoutKind(cs, k), j) == if j == k then [] else OfKind(cs, j)
  {
    if cs != [] {
      var head := if KindOf(cs[0]) != k then [cs[0]] else [];
      assert WithoutKind(cs, k) == head + WithoutKind(cs[1..], k);
      OfKindConcat(head, WithoutKind(cs[1..], k), j);
      OfKindWithout(cs[1..], k, j);
      assert OfKind(cs, j) == (if KindOf(cs[0]) == j then [cs[0]] else []) + OfKind(cs[1..], j);
    }
  }

  /** Appending one clause extends its own kind's view by that clause and leaves
      every other kind's view as it was. */
  lemma AppendOneClause(cs: seq<Clause>, c: Clause)
    ensures OfKind(cs + [c], KindOf(c)) == OfKind(cs, KindOf(c)) + [c]
    ensures forall k :: k != KindOf(c) ==> OfKind(cs + [c], k) == OfKind(cs, k)
  {
    forall k
      ensures OfKind(cs + [c], k) == OfKind(cs, k) + OfKind([c], k)
    {
      OfKindConcat(cs, [c], k);
    }
  }

  /** Putting c in place of every earlier clause of its kind leaves c as the only
      clause of that kind and every other kind's view as it was. */
  lemma ReplaceClause(cs: seq<Clause>, c: Clause)
    ensures OfKind(WithoutKind(cs, KindOf(c)) + [c], KindOf(c)) == [c]
    ensures forall k :: k != KindOf(c) ==> OfKind(WithoutKind(cs, KindOf(c)) + [c], k) == OfKind(cs, k)
  {
    var rest := WithoutKind(cs, KindOf(c));
    forall k
      ensures OfKind(rest + [c], k) == OfKind(rest, k) + OfKind([c], k)
      ensures OfKind(rest, k) == if k == KindOf(c) then [] else OfKind(cs, k)
    {
      OfKindConcat(rest, [c], k);
      OfKindWithout(cs, KindOf(c), k);
    }
  }

  function Append(q: SimpleQuery, c: Clause): SimpleQuery {
    q.(clauses := q.clauses + [c])
  }

  function Replace(q: SimpleQuery, c: Clause): SimpleQuery {
    q.(clauses := WithoutKind(q.clauses, KindOf(c)) + [c])
  }

  /** `Where(criteria)`: keeps every earlier clause, in order, and adds one. */
  function Where(q: SimpleQuery, criteria: SimpleExpression): (r: SimpleQuery)
    ensures r.tableName == q.tableName && r.pendingJoin == q.pendingJoin
    ensures |r.clauses| == |q.clauses| + 1 && r.clauses[..|q.clauses|] == q.clauses
  {
    Append(q, WhereClause(criteria))
  }

  /** `Skip(count)`: the new count takes the place of any earlier one. */
  function Skip(q: SimpleQuery, count: int): (r: SimpleQuery)
    ensures r.tableName == q.tableName && r.pendingJoin == q.pendingJoin
    ensures forall c :: c in r.clauses <==> c == SkipClause(count) || (c in q.clauses && !c.SkipClause?)
  {
    Replace(q, SkipClause(count))
  }

  /** `Take(count)`: the new count takes the place of any earlier one. */
  function Take(q: SimpleQuery, count: int): (r: SimpleQuery)
    ensures r.tableName == q.tableName && r.pendingJoin == q.pendingJoin
    ensures forall c :: c in r.clauses <==> c == TakeClause(count) || (c in q.clauses && !c.TakeClause?)
  {
    Replace(q, TakeClause(count))
  }

  /** `OrderBy(reference[, direction])`: keeps every earlier clause, in order,
      and adds one ordering after them. */
  function OrderBy(q: SimpleQuery, reference: ObjectReference, direction: OrderByDirection := Ascending): (r: SimpleQuery)
    ensures r.tableName == q.tableName && r.pendingJoin == q.pendingJoin
    ensures |r.clauses| == |q.clauses| + 1 && r.clauses[..|q.clauses|] == q.clauses
  {
    Append(q, OrderByClause(reference, direction))
  }

  /** `OrderByDescending(reference)`: appends, like every OrderBy, rather than
      starting a new chain. */
  function OrderByDescending(q: SimpleQuery, reference: ObjectReference): (r: SimpleQuery)
    ensures r.tableName == q.tableName && r.pendingJoin == q.pendingJoin
    ensures |r.clauses| == |q.clauses| + 1 && r.clauses[..|q.clauses|] == q.clauses
    ensures r.clauses[|q.clauses|] == OrderByClause(reference, Descending)
  {
    OrderBy(q, reference, Descending)
  }

  /** `ThenBy` adds a secondary ordering; without an earlier OrderBy it fails. */
  function ThenBy(q: SimpleQuery, reference: ObjectReference, direction: OrderByDirection := Ascending): (r: Result<SimpleQuery>)
    ensures r.Err? <==> OfKind(q.clauses, OrderByKind) == []
    ensures r.Err? ==> r.error.InvalidOperation?
    ensures r.Ok? ==> OfKind(r.value.clauses, OrderByKind) == OfKind(q.clauses, OrderByKind) + [OrderByClause(reference, direction)]
    ensures r.Ok? ==> r.value == OrderBy(q, reference, direction)
  {
    if OfKind(q.clauses, OrderByKind) == [] then
      Err(InvalidOperation("ThenBy requires an existing OrderBy"))
    else
      AppendOneClause(q.clauses, OrderByClause(reference, direction));
      Ok(OrderBy(q, reference, direction))
  }

  function ThenByDescending(q: SimpleQuery, reference: ObjectReference): (r: Result<SimpleQuery>)
    ensures r.Err? <==> OfKind(q.clauses, OrderByKind) == []
    ensures r.Err? ==> r.error.InvalidOperation?
    ensures r.Ok? ==> OfKind(r.value.clauses, OrderByKind) == OfKind(q.clauses, OrderByKind) + [OrderByClause(reference, Descending)]
    ensures r.Ok? ==> r.value == OrderBy(q, reference, Descending)
  {
    ThenBy(q, reference, Descending)
  }

  /** `Join(table)`: remembers the table until `On` supplies the join
      expression, and adds no clause yet. */
  function Join(q: SimpleQuery, table: ObjectReference): (r: SimpleQuery)
    ensures r.tableName == q.tableName && r.clauses == q.clauses && r.pendingJoin == Some(table)
  {
    q.(pendingJoin := Some(table))
  }

  /** `On(expression)`: completes the pending join; fails without one. */
  function On(q: SimpleQuery, joinExpression: SimpleExpression): (r: Result<SimpleQuery>)
    ensures r.Err? <==> q.pendingJoin.None?
    ensures r.Err? ==> r.error.InvalidOperation?
    ensures r.Ok? ==> && r.value.pendingJoin.None? && r.value.tableName == q.tableName
                      && r.value.clauses == q.clauses + [JoinClause(q.pendingJoin.value, joinExpression)]
  {
    match q.pendingJoin
    case None => Err(InvalidOperation("On requires a preceding Join"))
    case Some(t) => Ok(Append(q, JoinClause(t, joinExpression)).(pendingJoin := None))
  }

  /** `Join(table, column: target)`, the named-argument form: joins on
      `table.column == target`. */
  function JoinBy(q: SimpleQuery, table: ObjectReference, column: string, target: ObjectReference): (r: SimpleQuery)
    ensures r.tableName == q.tableName && r.pendingJoin == q.pendingJoin
    ensures |r.clauses| == |q.clauses| + 1 && r.clauses[..|q.clauses|] == q.clauses
  {
    Append(q, JoinClause(table, Compare(OwnedBy(column, table), Eq, Reference(target))))
  }

  /** `ForUpdate(skipLockedRows)`: the new lock request takes the place of any earlier one. */
  function ForUpdate(q: SimpleQuery, skipLockedRows: bool): (r: SimpleQuery)
    ensures r.tableName == q.tableName && r.pendingJoin == q.pendingJoin
    ensures forall c :: c in r.clauses <==> c == ForUpdateClause(skipLockedRows) || (c in q.clauses && !c.ForUpdateClause?)
  {
    Replace(q, ForUpdateClause(skipLockedRows))
  }

  /** `ClearForUpdate()`: drops every lock request and nothing else. */
  function ClearForUpdate(q: SimpleQuery): (r: SimpleQuery)
    ensures r.tableName == q.tableName && r.pendingJoin == q.pendingJoin
    ensures forall c :: c in r.clauses <==> c in q.clauses && !c.ForUpdateClause?
  {
    q.(clauses := WithoutKind(q.clauses, ForUpdateKind))
  }

  // ---- What each builder call does to the clause list ----

  /** Where adds its criteria itself, unchanged, as one more WhereClause. */
  lemma WhereAddsCriteria(q: SimpleQuery, criteria: SimpleExpression)
    ensures OfKind(Where(q, criteria).clauses, WhereKind) == OfKind(q.clauses, WhereKind) + [WhereClause(criteria)]
    ensures forall k :: k != WhereKind ==> OfKind(Where(q, criteria).clauses, k) == OfKind(q.clauses, k)
    ensures OfKind(Where(NewQuery(q.tableName), criteria).clauses, WhereKind) == [WhereClause(criteria)]
  {
    AppendOneClause(q.clauses, WhereClause(criteria));
    AppendOneClause([], WhereClause(criteria));
  }

  /** Skip leaves exactly one SkipClause, holding its count. */
  lemma SkipSetsCount(q: SimpleQuery, count: int)
    ensures OfKind(Skip(q, count).clauses, SkipKind) == [SkipClause(count)]
    ensures forall k :: k != SkipKind ==> OfKind(Skip(q, count).clauses, k) == OfKind(q.clauses, k)
  {
    ReplaceClause(q.clauses, SkipClause(count));
  }

  /** Take leaves exactly one TakeClause, holding its count. */
  lemma TakeSetsCount(q: SimpleQuery, count: int)
    ensures OfKind(Take(q, count).clauses, TakeKind) == [TakeClause(count)]
    ensures forall k :: k != TakeKind ==> OfKind(Take(q, count).clauses, k) == OfKind(q.clauses, k)
  {
    ReplaceClause(q.clauses, TakeClause(count));
  }

  /** OrderBy appends one OrderByClause; its direction defaults to Ascending,
      and OrderByDescending records Descending. */
  lemma OrderBySetsDirection(q: SimpleQuery, r: ObjectReference, d: OrderByDirection)
    ensures OfKind(OrderBy(q, r, d).clauses, OrderByKind) == OfKind(q.clauses, OrderByKind) + [OrderByClause(r, d)]
    ensures forall k :: k != OrderByKind ==> OfKind(OrderBy(q, r, d).clauses, k) == OfKind(q.clauses, k)
    ensures OfKind(OrderBy(NewQuery(q.tableName), r).clauses, OrderByKind) == [OrderByClause(r, Ascending)]
    ensures OfKind(OrderByDescending(NewQuery(q.tableName), r).clauses, OrderByKind) == [OrderByClause(r, Descending)]
  {
    assert OrderBy(q, r, d).clauses == q.clauses + [OrderByClause(r, d)];
    AppendOneClause(q.clauses, OrderByClause(r, d));
    var empty := NewQuery(q.tableName);
    assert OrderBy(empty, r).clauses == [] + [OrderByClause(r, Ascending)];
    AppendOneClause([], OrderByClause(r, Ascending));
    assert OrderByDescending(empty, r).clauses == [] + [OrderByClause(r, Descending)];
    AppendOneClause([], OrderByClause(r, Descending));
  }

  /** `OrderBy(a, da).ThenBy(b, db)` yields the two orderings in call order. */
  lemma OrderByThenBy(tableName: string, a: ObjectReference, da: OrderByDirection, b: ObjectReference, db: OrderByDirection)
    ensures var first := OrderBy(NewQuery(tableName), a, da);
            var r := ThenBy(first, b, db);
            r.Ok? && OfKind(r.value.clauses, OrderByKind) == [OrderByClause(a, da), OrderByClause(b, db)]
  {
    var first := OrderBy(NewQuery(tableName), a, da);
    assert first.clauses == [] + [OrderByClause(a, da)];
    AppendOneClause([], OrderByClause(a, da));
    assert OfKind(first.clauses, OrderByKind) == [OrderByClause(a, da)];
  }

  /** OrderBy never starts a new chain: `OrderBy(A).ThenBy(B).OrderByDescending(C)`
      is the clause list `[OrderBy(A, Ascending), OrderBy(B, Ascending), OrderBy(C, Descending)]`. */
  lemma OrderByAppendsToChain(tableName: string, a: ObjectReference, b: ObjectReference, c: ObjectReference)
    ensures var r := ThenBy(OrderBy(NewQuery(tableName), a), b);
            r.Ok? && OrderByDescending(r.value, c).clauses
                     == [OrderByClause(a, Ascending), OrderByClause(b, Ascending), OrderByClause(c, Descending)]
  {
    var first := OrderBy(NewQuery(tableName), a);
    assert first.clauses == [OrderByClause(a, Ascending)];
    AppendOneClause([], OrderByClause(a, Ascending));
    assert OfKind(first.clauses, OrderByKind) != [];
    var second := OrderBy(first, b, Ascending);
    assert ThenBy(first, b) == Ok(second);
    assert second.clauses == [OrderByClause(a, Ascending), OrderByClause(b, Ascending)];
    assert OrderByDescending(second, c) == OrderBy(second, c, Descending);
  }

  /** `Join(t.As(alias)).On(e)` adds one JoinClause named by the alias, whose
      table is the aliased reference and whose expression is e. */
  lemma JoinOnSetsJoin(q: SimpleQuery, t: ObjectReference, alias: string, e: SimpleExpression)
    ensures var r := On(Join(q, As(t, alias)), e);
            && r.Ok?
            && OfKind(r.value.clauses, JoinKind) == OfKind(q.clauses, JoinKind) + [JoinClause(As(t, alias), e)]
            && JoinName(JoinClause(As(t, alias), e)) == alias
            && forall k :: k != JoinKind ==> OfKind(r.value.clauses, k) == OfKind(q.clauses, k)
  {
    AppendOneClause(q.clauses, JoinClause(As(t, alias), e));
  }

  /** The named-argument form adds one JoinClause whose table is the one given. */
  lemma JoinByAddsClause(q: SimpleQuery, t: ObjectReference, column: string, target: ObjectReference)
    ensures var cs := OfKind(JoinBy(q, t, column, target).clauses, JoinKind);
            && |cs| == |OfKind(q.clauses, JoinKind)| + 1
            && cs[|cs| - 1] == JoinClause(t, Compare(OwnedBy(column, t), Eq, Reference(target)))
  {
    var c := JoinClause(t, Compare(OwnedBy(column, t), Eq, Reference(target)));
    assert JoinBy(q, t, column, target).clauses == q.clauses + [c];
    AppendOneClause(q.clauses, c);
    assert KindOf(c) == JoinKind;
  }

  /** ForUpdate leaves exactly one ForUpdateClause, with its flag. */
  lemma ForUpdateSets(q: SimpleQuery, b: bool)
    ensures OfKind(ForUpdate(q, b).clauses, ForUpdateKind) == [ForUpdateClause(b)]
    ensures forall k :: k != ForUpdateKind ==> OfKind(ForUpdate(q, b).clauses, k) == OfKind(q.clauses, k)
  {
    ReplaceClause(q.clauses, ForUpdateClause(b));
  }

  /** A second ForUpdate replaces the first: only the latest flag remains. */
  lemma ForUpdateReplaces(q: SimpleQuery, b: bool, b': bool)
    ensures OfKind(ForUpdate(ForUpdate(q, b), b').clauses, ForUpdateKind) == [ForUpdateClause(b')]
  {
    ForUpdateSets(ForUpdate(q, b), b');
  }

  /** ClearForUpdate removes every ForUpdateClause and nothing else. */
  lemma ClearForUpdateRemoves(q: SimpleQuery)
    ensures OfKind(ClearForUpdate(q).clauses, ForUpdateKind) == []
    ensures forall k :: k != ForUpdateKind ==> OfKind(ClearForUpdate(q).clauses, k) == OfKind(q.clauses, k)
  {
    forall k
      ensures OfKind(WithoutKind(q.clauses, ForUpdateKind), k) == if k == ForUpdateKind then [] else OfKind(q.clauses, k)
    {
      OfKindWithout(q.clauses, ForUpdateKind, k);
    }
  }

  /** The join fixture: `db.foo.Query().Join(bar.As("quux")).On(db.foo.id == quux.foo_id)`. */
  lemma JoinOnFixture()
    ensures var quux := As(NewReference("bar"), "quux");
            var e := Compare(ColumnOf("foo", "id"), Eq, Reference(OwnedBy("foo_id", quux)));
            var r := On(Join(NewQuery("foo"), quux), e);
            && r.Ok?
            && OfKind(r.value.clauses, JoinKind) == [JoinClause(quux, e)]
            && JoinName(JoinClause(quux, e)) == "quux"
            && e.left == Reference(ColumnOf("foo", "id"))
            && e.right == Reference(OwnedBy("foo_id", quux))
            && e.kind == Equal
  {
    var quux := As(NewReference("bar"), "quux");
    var e := Compare(ColumnOf("foo", "id"), Eq, Reference(OwnedBy("foo_id", quux)));
    JoinOnSetsJoin(NewQuery("foo"), NewReference("bar"), "quux", e);
  }
}
