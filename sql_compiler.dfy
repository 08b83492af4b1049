/** Compilation of queries and of insert, update and delete commands into SQL
    text and an ordered parameter list. The text is a token sequence, so letter
    case and whitespace are abstract: `", "` and `","` are both one Comma. */
module SqlCompiler {
  import opened Results
  import opened ObjectReferences
  import opened Schema
  import SimpleQueries

  datatype Keyword = SELECT | FROM | WHERE | BETWEEN | AND | OR | IN | NOT | INSERT_INTO | VALUES | UPDATE | SET | DELETE_FROM

  /** The suffix of a parameter name: `@p1`, `@p1_start`, `@p1_end`, `@p1_0`. */
  datatype Suffix = Plain | Start | End | Item(position: nat)

  datatype Token =
    | Kw(keyword: Keyword)
    /** `[schema].[table]` */
    | TableName(schemaName: string, table: string)
    /** `[schema].[table].[column]` */
    | QualifiedColumn(schemaName: string, table: string, column: string)
    /** `[column]` */
    | ColumnName(column: string)
    | Operator(op: Comparison)
    /** `@p<index><suffix>` */
    | Parameter(index: nat, suffix: Suffix)
    | Comma | LParen | RParen

  /** A compiled statement: its text, and the values bound to its parameters in order. */
  datatype Command = Command(text: seq<Token>, parameters: seq<Value>)

  /** The schema the compiler resolves names against, and the pluralization service. */
  datatype Context = Context(tables: seq<Table>, pluralizer: Pluralizer)

  /** A named argument (`Name: "Steve"`) or a record property. */
  datatype Argument = Argument(name: string, value: Value)

  /** A named criterion (`FindAllById(1.to(10))`, `Delete(Id: 1)`): a column
      name and what it must equal, which may be a range or a list. */
  datatype Criterion = Criterion(name: string, operand: Operand)

  // ---- Token sequences ----

  /** The parameter tokens of a text, in order. */
  function Placeholders(ts: seq<Token>): (r: seq<Token>)
    ensures |r| <= |ts| && forall i :: 0 <= i < |r| ==> r[i].Parameter?
  {
    if ts == [] then []
    else (if ts[0].Parameter? then [ts[0]] else []) + Placeholders(ts[1..])
  }

  lemma {:induction false} PlaceholdersConcat(a: seq<Token>, b: seq<Token>)
    ensures Placeholders(a + b) == Placeholders(a) + Placeholders(b)
  {
    if a == [] {
      assert a + b == b;
    } else {
      assert (a + b)[0] == a[0] && (a + b)[1..] == a[1..] + b;
      PlaceholdersConcat(a[1..], b);
    }
  }

  lemma {:induction false} PlaceholdersOfNone(ts: seq<Token>)
    requires forall i :: 0 <= i < |ts| ==> !ts[i].Parameter?
    ensures Placeholders(ts) == []
  {
    if ts != [] {
      PlaceholdersOfNone(ts[1..]);
    }
  }

  lemma {:induction false} PlaceholdersOfAll(ts: seq<Token>)
    requires forall i :: 0 <= i < |ts| ==> ts[i].Parameter?
    ensures Placeholders(ts) == ts
  {
    if ts != [] {
      PlaceholdersOfAll(ts[1..]);
    }
  }

  /** Items separated by commas. */
  function Joined(ts: seq<Token>): seq<Token> {
    if |ts| <= 1 then ts else [ts[0], Comma] + Joined(ts[1..])
  }

  lemma {:induction false} JoinedLength(ts: seq<Token>)
    ensures |ts| > 0 ==> |Joined(ts)| == 2 * |ts| - 1
  {
    if |ts| > 1 {
      JoinedLength(ts[1..]);
    }
  }

  lemma {:induction false} JoinedItem(ts: seq<Token>, i: nat)
    requires i < |ts|
    ensures 2 * i < |Joined(ts)| && Joined(ts)[2 * i] == ts[i]
  {
    JoinedLength(ts);
    if i > 0 {
      JoinedItem(ts[1..], i - 1);
      assert Joined(ts) == [ts[0], Comma] + Joined(ts[1..]);
    }
  }

  lemma {:induction false} JoinedComma(ts: seq<Token>, i: nat)
    requires i + 1 < |ts|
    ensures 2 * i + 1 < |Joined(ts)| && Joined(ts)[2 * i + 1] == Comma
  {
    JoinedLength(ts);
    if i > 0 {
      JoinedComma(ts[1..], i - 1);
      assert Joined(ts) == [ts[0], Comma] + Joined(ts[1..]);
    }
  }

  /** Item i of a comma list sits at position 2i, with a comma after every item but the last. */
  lemma JoinedShape(ts: seq<Token>)
    ensures |ts| > 0 ==> |Joined(ts)| == 2 * |ts| - 1
    ensures forall i :: 0 <= i < |ts| ==> Joined(ts)[2 * i] == ts[i]
    ensures forall i :: 0 <= i < |ts| - 1 ==> Joined(ts)[2 * i + 1] == Comma
  {
    JoinedLength(ts);
    forall i | 0 <= i < |ts| ensures Joined(ts)[2 * i] == ts[i] {
      JoinedItem(ts, i);
    }
    forall i | 0 <= i < |ts| - 1 ensures Joined(ts)[2 * i + 1] == Comma {
      JoinedComma(ts, i);
    }
  }

  lemma {:induction false} PlaceholdersJoined(ts: seq<Token>)
    ensures Placeholders(Joined(ts)) == Placeholders(ts)
  {
    if |ts| > 1 {
      PlaceholdersJoined(ts[1..]);
      PlaceholdersConcat([ts[0], Comma], Joined(ts[1..]));
      PlaceholdersConcat([ts[0]], ts[1..]);
      assert [ts[0]] + ts[1..] == ts;
      assert Placeholders([ts[0], Comma]) == Placeholders([ts[0]]) by {
        PlaceholdersConcat([ts[0]], [Comma]);
        assert [ts[0]] + [Comma] == [ts[0], Comma];
      }
    }
  }

  /** Parameter names never repeat, so binding by position and by name agree. */
  predicate Distinct(ps: seq<Token>) {
    forall i, j :: 0 <= i < j < |ps| ==> ps[i] != ps[j]
  }

  /** Every parameter in ps has an index in [lo, hi). */
  predicate IndicesWithin(ps: seq<Token>, lo: nat, hi: nat) {
    forall i :: 0 <= i < |ps| ==> ps[i].Parameter? && lo <= ps[i].index < hi
  }

  /** Where a placeholder stands among those sharing its index: `_start`
      before `_end`, `_0` before `_1` before `_2` ... */
  function SuffixRank(s: Suffix): nat {
    match s
    case Plain => 0
    case Start => 0
    case End => 1
    case Item(i) => i
  }

  /** Placeholder a comes before placeholder b in parameter order. */
  predicate Before(a: Token, b: Token) {
    && a.Parameter? && b.Parameter?
    && (a.index < b.index || (a.index == b.index && SuffixRank(a.suffix) < SuffixRank(b.suffix)))
  }

  /** The placeholders appear in the text in parameter order, so the i-th value
      of a fragment goes to the i-th parameter by name as well as by position. */
  predicate InOrder(ps: seq<Token>) {
    forall i, j :: 0 <= i < j < |ps| ==> Before(ps[i], ps[j])
  }

  lemma DistinctConcat(a: seq<Token>, b: seq<Token>, lo: nat, mid: nat, hi: nat)
    requires lo <= mid <= hi
    requires Distinct(a) && Distinct(b) && IndicesWithin(a, lo, mid) && IndicesWithin(b, mid, hi)
    requires InOrder(a) && InOrder(b)
    ensures Distinct(a + b) && IndicesWithin(a + b, lo, hi) && InOrder(a + b)
  {
    var ab := a + b;
    forall i | 0 <= i < |ab| ensures ab[i].Parameter? && lo <= ab[i].index < hi {
      if i < |a| {
        assert ab[i] == a[i] && a[i].Parameter? && lo <= a[i].index < mid;
      } else {
        assert ab[i] == b[i - |a|] && b[i - |a|].Parameter? && mid <= b[i - |a|].index < hi;
      }
    }
    forall i, j | 0 <= i < j < |ab| ensures ab[i] != ab[j] && Before(ab[i], ab[j]) {
      if i < |a| && j >= |a| {
        assert ab[i] == a[i] && ab[j] == b[j - |a|];
        assert a[i].index < mid <= b[j - |a|].index;
      } else if i < |a| {
        assert ab[i] == a[i] && ab[j] == a[j];
      } else {
        assert ab[i] == b[i - |a|] && ab[j] == b[j - |a|];
      }
    }
  }

  // ---- Name resolution ----

  /** The table a column reference belongs to must be the subject table: joins
      discovered through a reference's owner chain are not compiled here. */
  function ResolveColumn(ctx: Context, subject: Table, r: ObjectReference): (res: Result<Column>)
    ensures res.Ok? <==> && r.owner.Some? && r.owner.value.owner.None?
                         && Find(ctx.tables, r.owner.value.name, ctx.pluralizer) == Ok(subject)
                         && FindColumn(subject, r.name, ctx.pluralizer).Ok?
    ensures res.Ok? ==> res == FindColumn(subject, r.name, ctx.pluralizer) && res.value in subject.columns
    ensures r.owner.None? ==> res == Err(UnresolvableObject(r.name))
    ensures r.owner.Some? && r.owner.value.owner.Some? ==> res.Err? && res.error.Unsupported?
  {
    match r.owner
    case None => Err(UnresolvableObject(r.name))
    case Some(o) =>
      if o.owner.Some? then Err(Unsupported("implicit join through " + o.name))
      else
        var t :- Find(ctx.tables, o.name, ctx.pluralizer);
        if t != subject then Err(Unsupported("implicit join to " + o.name))
        else FindColumn(t, r.name, ctx.pluralizer)
  }

  function ColumnToken(t: Table, c: Column): Token {
    QualifiedColumn(t.schema, t.actualName, c.actualName)
  }

  // ---- WHERE text ----

  /** A compiled piece of text, its parameter values, and the next free parameter index. */
  datatype Fragment = Fragment(text: seq<Token>, values: seq<Value>, next: nat)

  /** The placeholders of an N-element list: `@pN_0,@pN_1,...`. */
  function ItemParameters(n: nat, count: nat): (r: seq<Token>)
    ensures |r| == count && forall i :: 0 <= i < count ==> r[i] == Parameter(n, Item(i))
  {
    seq(count, i requires 0 <= i < count => Parameter(n, Item(i)))
  }

  /** One comparison whose left side is a resolved column. A literal takes one
      parameter, a range two (`_start`, `_end`), a list one per element
      (`_0`, `_1`, ...); all of them share the one index n. A null literal has
      no `= @p` form (it would need `is null`) and is refused. */
  function FormatComparison(ctx: Context, t: Table, column: Token, op: Comparison, right: Operand, n: nat): (r: Result<Fragment>)
    ensures r.Ok? ==> r.value.next == if right.Reference? then n else n + 1
  {
    match right
    case Literal(v) =>
      if v == DbNull then Err(Unsupported("comparison with null"))
      else Ok(Fragment([column, Operator(op), Parameter(n, Plain)], [v], n + 1))
    case Range(s, e) =>
      if op == Eq then Ok(Fragment([column] + Between(n), [s, e], n + 1))
      else if op == Ne then Ok(Fragment([column, Kw(NOT)] + Between(n), [s, e], n + 1))
      else Err(Unsupported("range with an ordering operator"))
    case ValueList(items) =>
      var list := [Kw(IN), LParen] + Joined(ItemParameters(n, |items|)) + [RParen];
      if items == [] then Err(Unsupported("empty list"))
      else if op == Eq then Ok(Fragment([column] + list, items, n + 1))
      else if op == Ne then Ok(Fragment([column, Kw(NOT)] + list, items, n + 1))
      else Err(Unsupported("list with an ordering operator"))
    case Reference(other) =>
      var c :- ResolveColumn(ctx, t, other);
      Ok(Fragment([column, Operator(op), ColumnToken(t, c)], [], n))
    case Expression(_) =>
      Err(Unsupported("expression on the right of a comparison"))
  }

  /** The text of a criteria expression over the subject table, numbering its
      parameters from n in left-to-right order. */
  function FormatExpression(ctx: Context, t: Table, e: SimpleExpression, n: nat): (r: Result<Fragment>)
    ensures r.Ok? ==> r.value.next >= n
    decreases e
  {
    match ComparisonOf(e.kind)
    case None =>
      if e.left.Expression? && e.right.Expression? then
        var l :- FormatExpression(ctx, t, e.left.expr, n);
        var r :- FormatExpression(ctx, t, e.right.expr, l.next);
        var word := if e.kind == And then AND else OR;
        Ok(Fragment([LParen] + l.text + [Kw(word)] + r.text + [RParen], l.values + r.values, r.next))
      else Err(Unsupported("operands of And and Or must be expressions"))
    case Some(op) => FormatLeaf(ctx, t, e.left, op, e.right, n)
  }

  /** A comparison node: its left operand must be a column of the subject table. */
  function FormatLeaf(ctx: Context, t: Table, left: Operand, op: Comparison, right: Operand, n: nat): (r: Result<Fragment>)
    ensures r.Ok? ==> r.value.next >= n
  {
    match left
    case Reference(ref) =>
      var c :- ResolveColumn(ctx, t, ref);
      FormatComparison(ctx, t, ColumnToken(t, c), op, right, n)
    case _ => Err(Unsupported("left operand of a comparison must be a column"))
  }

  /** Every value of a fragment is bound by exactly one placeholder, the i-th
      value by the i-th placeholder of the text; the placeholders appear in
      parameter order, their names are distinct and their indices run from n
      up to the fragment's next free index. */
  predicate Binds(f: Fragment, n: nat) {
    && |Placeholders(f.text)| == |f.values|
    && Distinct(Placeholders(f.text))
    && InOrder(Placeholders(f.text))
    && IndicesWithin(Placeholders(f.text), n, f.next)
    && f.next >= n
  }

  lemma ComparisonBindsAll(ctx: Context, t: Table, column: Token, op: Comparison, right: Operand, n: nat)
    requires !column.Parameter?
    ensures var r := FormatComparison(ctx, t, column, op, right, n);
            r.Ok? ==> Binds(r.value, n)
  {
    match right
    case Literal(v) => LiteralBinds(ctx, t, column, op, v, n);
    case Range(s, e) => RangeBinds(ctx, t, column, op, s, e, n);
    case ValueList(items) => ListBinds(ctx, t, column, op, items, n);
    case Reference(other) => ReferenceBinds(ctx, t, column, op, other, n);
    case Expression(_) =>
  }

  /** A literal binds its one value to `@pN`; null is refused. */
  lemma LiteralBinds(ctx: Context, t: Table, column: Token, op: Comparison, v: Value, n: nat)
    requires !column.Parameter?
    ensures var r := FormatComparison(ctx, t, column, op, Literal(v), n);
            && (r.Err? <==> v == DbNull)
            && (r.Ok? ==> && Binds(r.value, n)
                          && Placeholders(r.value.text) == [Parameter(n, Plain)]
                          && r.value.values == [v])
  {
    LiteralPlaceholders(column, op, n);
  }

  /** A range binds its start to `@pN_start` and its end to `@pN_end`, in that order. */
  lemma RangeBinds(ctx: Context, t: Table, column: Token, op: Comparison, s: Value, e: Value, n: nat)
    requires !column.Parameter?
    ensures var r := FormatComparison(ctx, t, column, op, Range(s, e), n);
            r.Ok? ==> && Binds(r.value, n)
                      && Placeholders(r.value.text) == [Parameter(n, Start), Parameter(n, End)]
                      && r.value.values == [s, e]
  {
    var ps := [Parameter(n, Start), Parameter(n, End)];
    assert Distinct(ps) && InOrder(ps) && IndicesWithin(ps, n, n + 1) by {
      assert ps[0] != ps[1] && Before(ps[0], ps[1]);
    }
    if op == Eq {
      RangePlaceholders([column], n);
    } else if op == Ne {
      RangePlaceholders([column, Kw(NOT)], n);
    }
  }

  /** A list binds element i to `@pN_i`, in list order. */
  lemma ListBinds(ctx: Context, t: Table, column: Token, op: Comparison, items: seq<Value>, n: nat)
    requires !column.Parameter?
    ensures var r := FormatComparison(ctx, t, column, op, ValueList(items), n);
            r.Ok? ==> && Binds(r.value, n)
                      && Placeholders(r.value.text) == ItemParameters(n, |items|)
                      && r.value.values == items
  {
    var r := FormatComparison(ctx, t, column, op, ValueList(items), n);
    if r.Ok? {
      var ps := ItemParameters(n, |items|);
      var list := [Kw(IN), LParen] + Joined(ps) + [RParen];
      assert r.value.text == [column] + list || r.value.text == [column, Kw(NOT)] + list;
      assert r.value.values == items && r.value.next == n + 1;
      ListPlaceholders(column, n, |items|);
      ItemParametersBind(n, |items|);
    }
  }

  lemma ItemParametersBind(n: nat, count: nat)
    ensures Distinct(ItemParameters(n, count)) && IndicesWithin(ItemParameters(n, count), n, n + 1)
    ensures InOrder(ItemParameters(n, count))
  {
    var ps := ItemParameters(n, count);
    forall i, j | 0 <= i < j < |ps| ensures ps[i] != ps[j] && Before(ps[i], ps[j]) {
      assert ps[i].suffix == Item(i) && ps[j].suffix == Item(j);
    }
  }

  lemma ReferenceBinds(ctx: Context, t: Table, column: Token, op: Comparison, other: ObjectReference, n: nat)
    requires !column.Parameter?
    ensures var r := FormatComparison(ctx, t, column, op, Reference(other), n);
            r.Ok? ==> Binds(r.value, n)
  {
    var c := ResolveColumn(ctx, t, other);
    if c.Ok? {
      var text := [column, Operator(op), ColumnToken(t, c.value)];
      assert FormatComparison(ctx, t, column, op, Reference(other), n) == Ok(Fragment(text, [], n));
      PlaceholdersOfNone(text);
    }
  }

  lemma PlaceholdersCons(x: Token, ts: seq<Token>)
    ensures Placeholders([x] + ts) == (if x.Parameter? then [x] else []) + Placeholders(ts)
  {
    assert ([x] + ts)[1..] == ts;
  }

  lemma LiteralPlaceholders(column: Token, op: Comparison, n: nat)
    requires !column.Parameter?
    ensures Placeholders([column, Operator(op), Parameter(n, Plain)]) == [Parameter(n, Plain)]
  {
    var p := Parameter(n, Plain);
    PlaceholdersCons(p, []);
    PlaceholdersCons(Operator(op), [p]);
    PlaceholdersCons(column, [Operator(op), p]);
    assert [column] + [Operator(op), p] == [column, Operator(op), p];
    assert [Operator(op)] + [p] == [Operator(op), p];
  }

  /** The tokens of `BETWEEN @pN_start AND @pN_end`. */
  function Between(n: nat): seq<Token> {
    [Kw(BETWEEN), Parameter(n, Start), Kw(AND), Parameter(n, End)]
  }

  lemma BetweenPlaceholders(n: nat)
    ensures Placeholders(Between(n)) == [Parameter(n, Start), Parameter(n, End)]
  {
    var s, e := Parameter(n, Start), Parameter(n, End);
    PlaceholdersCons(e, []);
    PlaceholdersCons(Kw(AND), [e]);
    assert [Kw(AND)] + [e] == [Kw(AND), e];
    PlaceholdersCons(s, [Kw(AND), e]);
    assert [s] + [Kw(AND), e] == [s, Kw(AND), e];
    PlaceholdersCons(Kw(BETWEEN), [s, Kw(AND), e]);
    assert [Kw(BETWEEN)] + [s, Kw(AND), e] == Between(n);
  }

  lemma RangePlaceholders(lead: seq<Token>, n: nat)
    requires forall i :: 0 <= i < |lead| ==> !lead[i].Parameter?
    ensures Placeholders(lead + Between(n)) == [Parameter(n, Start), Parameter(n, End)]
  {
    BetweenPlaceholders(n);
    PlaceholdersConcat(lead, Between(n));
    PlaceholdersOfNone(lead);
  }

  lemma ListPlaceholders(column: Token, n: nat, count: nat)
    requires !column.Parameter?
    ensures var list := [Kw(IN), LParen] + Joined(ItemParameters(n, count)) + [RParen];
            && Placeholders([column] + list) == ItemParameters(n, count)
            && Placeholders([column, Kw(NOT)] + list) == ItemParameters(n, count)
  {
    var items := ItemParameters(n, count);
    var list := [Kw(IN), LParen] + Joined(items) + [RParen];
    PlaceholdersJoined(items);
    PlaceholdersOfAll(items);
    PlaceholdersConcat([Kw(IN), LParen], Joined(items));
    PlaceholdersConcat([Kw(IN), LParen] + Joined(items), [RParen]);
    PlaceholdersOfNone([Kw(IN), LParen]);
    PlaceholdersOfNone([RParen]);
    PlaceholdersConcat([column], list);
    PlaceholdersOfNone([column]);
    PlaceholdersConcat([column, Kw(NOT)], list);
    PlaceholdersOfNone([column, Kw(NOT)]);
  }

  /** A comparison whose left side resolves renders that column against its right operand. */
  lemma ComparisonRenders(ctx: Context, t: Table, r: ObjectReference, c: Column, op: Comparison, right: Operand, n: nat)
    requires ResolveColumn(ctx, t, r) == Ok(c)
    ensures FormatExpression(ctx, t, Compare(r, op, right), n) == FormatComparison(ctx, t, ColumnToken(t, c), op, right, n)
  {
    var e := Compare(r, op, right);
    assert ComparisonOf(e.kind) == Some(op);
    ExpressionLeaf(ctx, t, e, n);
    LeafRenders(ctx, t, r, c, op, right, n);
  }

  lemma ExpressionLeaf(ctx: Context, t: Table, e: SimpleExpression, n: nat)
    requires ComparisonOf(e.kind).Some?
    ensures FormatExpression(ctx, t, e, n) == FormatLeaf(ctx, t, e.left, ComparisonOf(e.kind).value, e.right, n)
  {
  }

  lemma LeafRenders(ctx: Context, t: Table, r: ObjectReference, c: Column, op: Comparison, right: Operand, n: nat)
    requires ResolveColumn(ctx, t, r) == Ok(c)
    ensures FormatLeaf(ctx, t, Reference(r), op, right, n) == FormatComparison(ctx, t, ColumnToken(t, c), op, right, n)
  {
  }

  /** `column op v` renders `[column] op @pN` with the single parameter v;
      a comparison with null is refused. */
  lemma LiteralRendersComparison(ctx: Context, t: Table, r: ObjectReference, c: Column, op: Comparison, v: Value, n: nat)
    requires ResolveColumn(ctx, t, r) == Ok(c)
    ensures var f := FormatExpression(ctx, t, Compare(r, op, Literal(v)), n);
            && (v != DbNull ==> f == Ok(Fragment([ColumnToken(t, c), Operator(op), Parameter(n, Plain)], [v], n + 1)))
            && (v == DbNull ==> f == Err(Unsupported("comparison with null")))
  {
    ComparisonRenders(ctx, t, r, c, op, Literal(v), n);
  }

  /** `column == a.to(b)` renders `[column] between @pN_start and @pN_end` with
      parameters [a, b]; `!=` puts `not` before `between`; the ordering
      operators have no range form. */
  lemma RangeRendersBetween(ctx: Context, t: Table, r: ObjectReference, c: Column, op: Comparison, lo: Value, hi: Value, n: nat)
    requires ResolveColumn(ctx, t, r) == Ok(c)
    ensures var f := FormatExpression(ctx, t, Compare(r, op, Range(lo, hi)), n);
            && (op == Eq ==> f == Ok(Fragment([ColumnToken(t, c)] + Between(n), [lo, hi], n + 1)))
            && (op == Ne ==> f == Ok(Fragment([ColumnToken(t, c), Kw(NOT)] + Between(n), [lo, hi], n + 1)))
            && (op != Eq && op != Ne ==> f.Err?)
  {
    ComparisonRenders(ctx, t, r, c, op, Range(lo, hi), n);
  }

  /** `column == [v0, ..., vk]` renders `[column] in (@pN_0,...,@pN_k)` with the
      list as parameters in list order; `!=` puts `not` before `in`; an empty
      list and the ordering operators are errors. */
  lemma ListRendersIn(ctx: Context, t: Table, r: ObjectReference, c: Column, op: Comparison, items: seq<Value>, n: nat)
    requires ResolveColumn(ctx, t, r) == Ok(c)
    ensures var f := FormatExpression(ctx, t, Compare(r, op, ValueList(items)), n);
            var list := [Kw(IN), LParen] + Joined(ItemParameters(n, |items|)) + [RParen];
            && (items != [] && op == Eq ==> f == Ok(Fragment([ColumnToken(t, c)] + list, items, n + 1)))
            && (items != [] && op == Ne ==> f == Ok(Fragment([ColumnToken(t, c), Kw(NOT)] + list, items, n + 1)))
            && (items == [] || (op != Eq && op != Ne) ==> f.Err?)
  {
    ComparisonRenders(ctx, t, r, c, op, ValueList(items), n);
  }

  /** A one-element list is still set membership, `[column] in (@pN_0)`, not an equality. */
  lemma SingletonListStaysIn(ctx: Context, t: Table, column: Token, v: Value, n: nat)
    ensures FormatComparison(ctx, t, column, Eq, ValueList([v]), n)
            == Ok(Fragment([column, Kw(IN), LParen, Parameter(n, Item(0)), RParen], [v], n + 1))
  {
    ListComparison(ctx, t, column, Eq, [v], n);
    SingletonList(n);
    var list := [Kw(IN), LParen, Parameter(n, Item(0)), RParen];
    assert [column] + list == [column, Kw(IN), LParen, Parameter(n, Item(0)), RParen];
  }

  lemma ListComparison(ctx: Context, t: Table, column: Token, op: Comparison, items: seq<Value>, n: nat)
    requires items != [] && (op == Eq || op == Ne)
    ensures var list := [Kw(IN), LParen] + Joined(ItemParameters(n, |items|)) + [RParen];
            FormatComparison(ctx, t, column, op, ValueList(items), n)
              == Ok(Fragment((if op == Eq then [column] else [column, Kw(NOT)]) + list, items, n + 1))
  {
  }

  lemma SingletonList(n: nat)
    ensures [Kw(IN), LParen] + Joined(ItemParameters(n, 1)) + [RParen] == [Kw(IN), LParen, Parameter(n, Item(0)), RParen]
  {
    assert ItemParameters(n, 1) == [Parameter(n, Item(0))];
  }

  /** Inside the parentheses of an `in` list, element i of the list is bound by
      `@pN_i` at position 2i, with commas between. */
  lemma ItemListShape(n: nat, count: nat)
    ensures count > 0 ==> |Joined(ItemParameters(n, count))| == 2 * count - 1
    ensures forall i :: 0 <= i < count ==> Joined(ItemParameters(n, count))[2 * i] == Parameter(n, Item(i))
    ensures forall i :: 0 <= i < count - 1 ==> Joined(ItemParameters(n, count))[2 * i + 1] == Comma
  {
    JoinedShape(ItemParameters(n, count));
  }

  /** `!=` against a list is the `in` text with `not` inserted after the column,
      with the same parameter names and values. */
  lemma NotInNegatesIn(ctx: Context, t: Table, r: ObjectReference, items: seq<Value>, n: nat)
    requires items != []
    ensures var eq := FormatExpression(ctx, t, Compare(r, Eq, ValueList(items)), n);
            var ne := FormatExpression(ctx, t, Compare(r, Ne, ValueList(items)), n);
            && eq.Ok? == ne.Ok?
            && (eq.Ok? ==> && ne.value.text == [eq.value.text[0], Kw(NOT)] + eq.value.text[1..]
                           && ne.value.values == eq.value.values == items)
  {
  }

  /** Joining two bound fragments with And or Or keeps every value bound. */
  lemma LogicalBinds(l: Fragment, r: Fragment, word: Keyword, n: nat)
    requires Binds(l, n) && Binds(r, l.next)
    ensures Binds(Fragment([LParen] + l.text + [Kw(word)] + r.text + [RParen], l.values + r.values, r.next), n)
  {
    var opening := [LParen] + l.text;
    var middle := [Kw(word)] + r.text;
    var closing := middle + [RParen];
    assert [LParen] + l.text + [Kw(word)] + r.text + [RParen] == opening + closing;
    PlaceholdersCons(LParen, l.text);
    assert Placeholders(opening) == Placeholders(l.text);
    PlaceholdersCons(Kw(word), r.text);
    assert Placeholders(middle) == Placeholders(r.text);
    PlaceholdersConcat(middle, [RParen]);
    PlaceholdersCons(RParen, []);
    assert Placeholders(closing) == Placeholders(r.text);
    PlaceholdersConcat(opening, closing);
    DistinctConcat(Placeholders(l.text), Placeholders(r.text), n, l.next, r.next);
  }

  /** `a && b` renders `(a and b)` and `a || b` renders `(a or b)`: the left
      operand's text and parameters come first, the right operand's numbering
      continues where the left one stopped, and a failure of either operand
      is a failure of the whole. */
  lemma LogicalRenders(ctx: Context, t: Table, a: SimpleExpression, b: SimpleExpression, n: nat)
    ensures var fa := FormatExpression(ctx, t, a, n);
            var both := FormatExpression(ctx, t, AndAlso(a, b), n);
            var either := FormatExpression(ctx, t, OrElse(a, b), n);
            && (fa.Err? ==> both.Err? && either.Err?)
            && (fa.Ok? && FormatExpression(ctx, t, b, fa.value.next).Err? ==> both.Err? && either.Err?)
            && (fa.Ok? && FormatExpression(ctx, t, b, fa.value.next).Ok? ==>
                  var l, r := fa.value, FormatExpression(ctx, t, b, fa.value.next).value;
                  && both == Ok(Fragment([LParen] + l.text + [Kw(AND)] + r.text + [RParen], l.values + r.values, r.next))
                  && either == Ok(Fragment([LParen] + l.text + [Kw(OR)] + r.text + [RParen], l.values + r.values, r.next)))
  {
  }

  /** Every value of a compiled criteria expression is bound by exactly one
      placeholder, in order; placeholder names are distinct and their indices
      are those from n up to the next free one. */
  lemma {:induction false} ExpressionBindsAll(ctx: Context, t: Table, e: SimpleExpression, n: nat)
    ensures var r := FormatExpression(ctx, t, e, n);
            r.Ok? ==> Binds(r.value, n)
    decreases e
  {
    var r := FormatExpression(ctx, t, e, n);
    if r.Ok? {
      match ComparisonOf(e.kind)
      case None =>
        var a, b := e.left.expr, e.right.expr;
        var l := FormatExpression(ctx, t, a, n).value;
        ExpressionBindsAll(ctx, t, a, n);
        ExpressionBindsAll(ctx, t, b, l.next);
        LogicalBinds(l, FormatExpression(ctx, t, b, l.next).value, if e.kind == And then AND else OR, n);
      case Some(op) =>
        var c := ResolveColumn(ctx, t, e.left.ref).value;
        ComparisonBindsAll(ctx, t, ColumnToken(t, c), op, e.right, n);
    }
  }

  // ---- SELECT ----

  /** `[schema].[table].[column]` for every column of t, in declared order. */
  function Columns(t: Table): (r: seq<Token>)
    ensures |r| == |t.columns| && forall i :: 0 <= i < |r| ==> r[i] == ColumnToken(t, t.columns[i])
  {
    seq(|t.columns|, i requires 0 <= i < |t.columns| => ColumnToken(t, t.columns[i]))
  }

  /** `select <all columns> from [schema].[table]` */
  function SelectHead(t: Table): seq<Token> {
    [Kw(SELECT)] + Joined(Columns(t)) + [Kw(FROM), TableName(t.schema, t.actualName)]
  }

  /** The select list names every column of the table once, in declared order,
      separated by commas, and the head binds no parameter. */
  lemma SelectHeadShape(t: Table)
    ensures |SelectHead(t)| >= 1 + 2 * |t.columns|
    ensures forall i :: 0 <= i < |t.columns| ==> SelectHead(t)[1 + 2 * i] == ColumnToken(t, t.columns[i])
    ensures forall i :: 0 <= i < |t.columns| - 1 ==> SelectHead(t)[2 + 2 * i] == Comma
    ensures Placeholders(SelectHead(t)) == []
  {
    JoinedShape(Columns(t));
    JoinedLength(Columns(t));
    PlaceholdersJoined(Columns(t));
    PlaceholdersOfNone(Columns(t));
    PlaceholdersConcat([Kw(SELECT)] + Joined(Columns(t)), [Kw(FROM), TableName(t.schema, t.actualName)]);
    PlaceholdersConcat([Kw(SELECT)], Joined(Columns(t)));
    PlaceholdersOfNone([Kw(SELECT)]);
    PlaceholdersOfNone([Kw(FROM), TableName(t.schema, t.actualName)]);
  }

  /** ` where <criteria>`, or nothing. */
  function WhereText(ctx: Context, t: Table, criteria: Option<SimpleExpression>, n: nat): Result<Fragment> {
    match criteria
    case None => Ok(Fragment([], [], n))
    case Some(e) =>
      var w :- FormatExpression(ctx, t, e, n);
      Ok(Fragment([Kw(WHERE)] + w.text, w.values, w.next))
  }

  lemma WhereBinds(ctx: Context, t: Table, criteria: Option<SimpleExpression>, n: nat)
    ensures var r := WhereText(ctx, t, criteria, n);
            r.Ok? ==> Binds(r.value, n)
  {
    if criteria.Some? {
      var w := FormatExpression(ctx, t, criteria.value, n);
      ExpressionBindsAll(ctx, t, criteria.value, n);
      if w.Ok? {
        PlaceholdersConcat([Kw(WHERE)], w.value.text);
        PlaceholdersOfNone([Kw(WHERE)]);
      }
    }
  }

  /** Every parameter of a command is bound by exactly one placeholder, the
      placeholder names are distinct, and they are numbered from `first` on. */
  predicate CommandBinds(c: Command, first: nat) {
    && |Placeholders(c.text)| == |c.parameters|
    && Distinct(Placeholders(c.text))
    && InOrder(Placeholders(c.text))
    && forall i :: 0 <= i < |Placeholders(c.text)| ==> Placeholders(c.text)[i].index >= first
  }

  /** `Find(criteria)` and `All()`: every column of the resolved table, filtered
      by the criteria, where-parameters numbered from 1. */
  function CompileFind(ctx: Context, tableName: string, criteria: Option<SimpleExpression>): (r: Result<Command>)
    ensures Find(ctx.tables, tableName, ctx.pluralizer).Err? ==> r == Err(Find(ctx.tables, tableName, ctx.pluralizer).error)
    ensures r.Ok? ==> exists t :: Find(ctx.tables, tableName, ctx.pluralizer) == Ok(t) && SelectHead(t) <= r.value.text
  {
    var t :- Find(ctx.tables, tableName, ctx.pluralizer);
    var w :- WhereText(ctx, t, criteria, 1);
    Ok(Command(SelectHead(t) + w.text, w.values))
  }

  lemma FindBindsAll(ctx: Context, tableName: string, criteria: Option<SimpleExpression>)
    ensures var r := CompileFind(ctx, tableName, criteria);
            r.Ok? ==> CommandBinds(r.value, 1)
  {
    var f := Find(ctx.tables, tableName, ctx.pluralizer);
    if f.Ok? {
      var t := f.value;
      var w := WhereText(ctx, t, criteria, 1);
      WhereBinds(ctx, t, criteria, 1);
      if w.Ok? {
        SelectHeadShape(t);
        PlaceholdersConcat(SelectHead(t), w.value.text);
      }
    }
  }

  /** How a find with criteria is assembled from its resolved table and its where text. */
  lemma FindAssembles(ctx: Context, tableName: string, t: Table, e: SimpleExpression, f: Fragment)
    requires Find(ctx.tables, tableName, ctx.pluralizer) == Ok(t)
    requires FormatExpression(ctx, t, e, 1) == Ok(f)
    ensures CompileFind(ctx, tableName, Some(e)) == Ok(Command(SelectHead(t) + ([Kw(WHERE)] + f.text), f.values))
  {
    assert WhereText(ctx, t, Some(e), 1) == Ok(Fragment([Kw(WHERE)] + f.text, f.values, f.next));
  }

  /** The criteria a list of named arguments stands for: each argument is an
      equality on the column it names, joined with And from the left. */
  function CriteriaFor(tableName: string, args: seq<Criterion>): (r: Option<SimpleExpression>)
    ensures r.None? <==> args == []
    ensures |args| == 1 ==> r == Some(Compare(ColumnOf(tableName, args[0].name), Eq, args[0].operand))
  {
    Conjunction(seq(|args|, i requires 0 <= i < |args| => Compare(ColumnOf(tableName, args[i].name), Eq, args[i].operand)))
  }

  /** `a && b && c` as `(a && b) && c`. */
  function Conjunction(es: seq<SimpleExpression>): (r: Option<SimpleExpression>)
    ensures r.None? <==> es == []
    ensures |es| == 1 ==> r == Some(es[0])
  {
    if es == [] then None
    else if |es| == 1 then Some(es[0])
    else Some(AndAlso(Conjunction(es[..|es| - 1]).value, es[|es| - 1]))
  }

  /** `FindBy<Column>(value)` and `FindBy(Column: value, ...)`. */
  function CompileFindBy(ctx: Context, tableName: string, args: seq<Criterion>): (r: Result<Command>)
    ensures args == [] ==> r == CompileFind(ctx, tableName, None)
  {
    CompileFind(ctx, tableName, CriteriaFor(tableName, args))
  }

  /** How a one-criterion `FindBy` is assembled from its resolved table and its where text. */
  lemma FindByAssembles(ctx: Context, tableName: string, c: Criterion, t: Table, f: Fragment)
    requires Find(ctx.tables, tableName, ctx.pluralizer) == Ok(t)
    requires FormatExpression(ctx, t, Compare(ColumnOf(tableName, c.name), Eq, c.operand), 1) == Ok(f)
    ensures CompileFindBy(ctx, tableName, [c]) == Ok(Command(SelectHead(t) + ([Kw(WHERE)] + f.text), f.values))
  {
    FindAssembles(ctx, tableName, t, Compare(ColumnOf(tableName, c.name), Eq, c.operand), f);
  }

  /** A query built with the clause builder. Only its Where clauses are
      compiled, combined with And in the order they were added. */
  function CompileQuery(ctx: Context, q: SimpleQueries.SimpleQuery): (r: Result<Command>)
    ensures (q.pendingJoin.Some? || exists i :: 0 <= i < |q.clauses| && !q.clauses[i].WhereClause?) ==> r.Err? && r.error.Unsupported?
  {
    if q.pendingJoin.Some? then Err(Unsupported("join without a join condition"))
    else if exists i :: 0 <= i < |q.clauses| && !q.clauses[i].WhereClause? then
      Err(Unsupported("only where clauses are compiled"))
    else
      var cs := q.clauses;
      CompileFind(ctx, q.tableName, Conjunction(seq(|cs|, i requires 0 <= i < |cs| => cs[i].criteria)))
  }

  /** A query with one where clause compiles like `Find` with that criteria. */
  lemma QueryWithOneWhere(ctx: Context, tableName: string, e: SimpleExpression)
    ensures CompileQuery(ctx, SimpleQueries.Where(SimpleQueries.NewQuery(tableName), e)) == CompileFind(ctx, tableName, Some(e))
  {
    var q := SimpleQueries.Where(SimpleQueries.NewQuery(tableName), e);
    SimpleQueries.WhereAddsCriteria(SimpleQueries.NewQuery(tableName), e);
    assert q.clauses == [SimpleQueries.WhereClause(e)];
  }

  /** A query with only where clauses compiles like `Find` with their conjunction. */
  lemma QueryOfWheres(ctx: Context, q: SimpleQueries.SimpleQuery, es: seq<SimpleExpression>)
    requires q.pendingJoin.None?
    requires |q.clauses| == |es| && forall i :: 0 <= i < |es| ==> q.clauses[i] == SimpleQueries.WhereClause(es[i])
    ensures CompileQuery(ctx, q) == CompileFind(ctx, q.tableName, Conjunction(es))
  {
    var cs := q.clauses;
    assert forall i :: 0 <= i < |cs| ==> cs[i].WhereClause?;
    var criteria := seq(|cs|, i requires 0 <= i < |cs| => cs[i].criteria);
    forall i | 0 <= i < |es| ensures criteria[i] == es[i] {
      assert cs[i] == SimpleQueries.WhereClause(es[i]);
    }
    assert criteria == es;
  }

  /** Two where clauses are compiled as their conjunction, in the order they were added. */
  lemma QueryWithTwoWheres(ctx: Context, tableName: string, a: SimpleExpression, b: SimpleExpression)
    ensures CompileQuery(ctx, SimpleQueries.Where(SimpleQueries.Where(SimpleQueries.NewQuery(tableName), a), b))
            == CompileFind(ctx, tableName, Some(AndAlso(a, b)))
  {
    var q := SimpleQueries.Where(SimpleQueries.Where(SimpleQueries.NewQuery(tableName), a), b);
    assert q.clauses == [SimpleQueries.WhereClause(a), SimpleQueries.WhereClause(b)];
    QueryOfWheres(ctx, q, [a, b]);
    assert [a, b][..1] == [a];
  }

  // ---- Resolving argument names ----

  /** Resolves each name to a column of t, in order; the first name that does
      not resolve is the error. */
  function ResolveColumns(t: Table, names: seq<string>, p: Pluralizer): (r: Result<seq<Column>>)
    ensures r.Ok? ==> |r.value| == |names|
  {
    TryMap(name => FindColumn(t, name, p), names)
  }

  /** The names resolve exactly when each of them does, and then to the columns
      they resolve to one by one, in order. */
  lemma ResolveColumnsMeaning(t: Table, names: seq<string>, p: Pluralizer)
    ensures var r := ResolveColumns(t, names, p);
            && (r.Ok? <==> forall i :: 0 <= i < |names| ==> FindColumn(t, names[i], p).Ok?)
            && (r.Ok? ==> forall i :: 0 <= i < |names| ==> FindColumn(t, names[i], p) == Ok(r.value[i]))
  {
    TryMapMeaning(name => FindColumn(t, name, p), names);
  }

  lemma ResolveColumnsCons(t: Table, name: string, names: seq<string>, p: Pluralizer, c: Column, cs: seq<Column>)
    requires FindColumn(t, name, p) == Ok(c) && ResolveColumns(t, names, p) == Ok(cs)
    ensures ResolveColumns(t, [name] + names, p) == Ok([c] + cs)
  {
    TryMapCons(name => FindColumn(t, name, p), name, names, c, cs);
  }

  /** The columns of t at positions ks, and their names. */
  function ColumnsAt(t: Table, ks: seq<nat>): seq<Column>
    requires forall j :: 0 <= j < |ks| ==> ks[j] < |t.columns|
  {
    if ks == [] then [] else [t.columns[ks[0]]] + ColumnsAt(t, ks[1..])
  }

  function NamesAt(t: Table, ks: seq<nat>): seq<string>
    requires forall j :: 0 <= j < |ks| ==> ks[j] < |t.columns|
  {
    if ks == [] then [] else [t.columns[ks[0]].actualName] + NamesAt(t, ks[1..])
  }

  /** In a table whose column names are distinct, naming columns exactly
      resolves them to those columns. */
  lemma {:induction false} ResolveExactNames(t: Table, ks: seq<nat>, p: Pluralizer)
    requires forall j :: 0 <= j < |ks| ==> ks[j] < |t.columns|
    requires forall i, k :: 0 <= i < |t.columns| && 0 <= k < |t.columns| && i != k ==> t.columns[i].actualName != t.columns[k].actualName
    ensures ResolveColumns(t, NamesAt(t, ks), p) == Ok(ColumnsAt(t, ks))
  {
    if ks != [] {
      ResolveExactNames(t, ks[1..], p);
      ExactColumnWins(t, ks[0], p);
      ResolveColumnsCons(t, t.columns[ks[0]].actualName, NamesAt(t, ks[1..]), p, t.columns[ks[0]], ColumnsAt(t, ks[1..]));
    }
  }

  function NamesOf(args: seq<Argument>): (r: seq<string>)
    ensures |r| == |args| && forall i :: 0 <= i < |args| ==> r[i] == args[i].name
  {
    seq(|args|, i requires 0 <= i < |args| => args[i].name)
  }

  function ValuesOf(args: seq<Argument>): (r: seq<Value>)
    ensures |r| == |args| && forall i :: 0 <= i < |args| ==> r[i] == args[i].value
  {
    seq(|args|, i requires 0 <= i < |args| => args[i].value)
  }

  // ---- INSERT ----

  /** `@p0, @p1, ...`: insert parameters are numbered from 0. */
  function InsertParameters(count: nat): (r: seq<Token>)
    ensures |r| == count && forall i :: 0 <= i < count ==> r[i] == Parameter(i, Plain)
  {
    seq(count, i requires 0 <= i < count => Parameter(i, Plain))
  }

  function ColumnNameTokens(cols: seq<Column>): (r: seq<Token>)
    ensures |r| == |cols| && forall i :: 0 <= i < |cols| ==> r[i] == ColumnName(cols[i].actualName)
  {
    seq(|cols|, i requires 0 <= i < |cols| => ColumnName(cols[i].actualName))
  }

  /** `insert into [schema].[table] ([c0],[c1]) values (@p0,@p1)`, one column
      and one parameter per argument, in argument order. */
  function CompileInsert(ctx: Context, tableName: string, data: seq<Argument>): (r: Result<Command>)
    ensures r.Ok? ==> r.value.parameters == ValuesOf(data)
  {
    var t :- Find(ctx.tables, tableName, ctx.pluralizer);
    var cols :- ResolveColumns(t, NamesOf(data), ctx.pluralizer);
    Ok(Command(InsertText(t, cols, |data|), ValuesOf(data)))
  }

  function InsertText(t: Table, cols: seq<Column>, count: nat): seq<Token> {
    [Kw(INSERT_INTO), TableName(t.schema, t.actualName), LParen] + Joined(ColumnNameTokens(cols))
      + ([RParen, Kw(VALUES), LParen] + Joined(InsertParameters(count)) + [RParen])
  }

  /** How an insert is assembled from its resolved table and columns. */
  lemma InsertAssembles(ctx: Context, tableName: string, data: seq<Argument>, t: Table, cols: seq<Column>)
    requires Find(ctx.tables, tableName, ctx.pluralizer) == Ok(t)
    requires ResolveColumns(t, NamesOf(data), ctx.pluralizer) == Ok(cols)
    ensures CompileInsert(ctx, tableName, data) == Ok(Command(InsertText(t, cols, |data|), ValuesOf(data)))
  {
  }

  /** Argument i is bound by `@p<i>`: the placeholders in the text are exactly
      @p0 .. @p(n-1) in order, and the parameter list is the argument values. */
  lemma InsertBindsByPosition(ctx: Context, tableName: string, data: seq<Argument>)
    ensures var r := CompileInsert(ctx, tableName, data);
            r.Ok? ==> Placeholders(r.value.text) == InsertParameters(|data|) && r.value.parameters == ValuesOf(data)
  {
    var r := CompileInsert(ctx, tableName, data);
    if r.Ok? {
      var t := Find(ctx.tables, tableName, ctx.pluralizer).value;
      var cols := ResolveColumns(t, NamesOf(data), ctx.pluralizer).value;
      InsertTextPlaceholders(t, cols, |data|);
    }
  }

  lemma InsertTextPlaceholders(t: Table, cols: seq<Column>, count: nat)
    ensures Placeholders(InsertText(t, cols, count)) == InsertParameters(count)
  {
    var head := [Kw(INSERT_INTO), TableName(t.schema, t.actualName), LParen] + Joined(ColumnNameTokens(cols));
    var tail := [RParen, Kw(VALUES), LParen] + Joined(InsertParameters(count)) + [RParen];
    InsertColumnsPlaceholders(t, cols);
    InsertValuesPlaceholders(count);
    PlaceholdersConcat(head, tail);
  }

  /** The column list binds no parameter. */
  lemma InsertColumnsPlaceholders(t: Table, cols: seq<Column>)
    ensures Placeholders([Kw(INSERT_INTO), TableName(t.schema, t.actualName), LParen] + Joined(ColumnNameTokens(cols))) == []
  {
    var lead := [Kw(INSERT_INTO), TableName(t.schema, t.actualName), LParen];
    PlaceholdersConcat(lead, Joined(ColumnNameTokens(cols)));
    PlaceholdersOfNone(lead);
    PlaceholdersJoined(ColumnNameTokens(cols));
    PlaceholdersOfNone(ColumnNameTokens(cols));
  }

  /** The values list binds its parameters, in order. */
  lemma InsertValuesPlaceholders(count: nat)
    ensures Placeholders([RParen, Kw(VALUES), LParen] + Joined(InsertParameters(count)) + [RParen]) == InsertParameters(count)
  {
    var lead := [RParen, Kw(VALUES), LParen];
    var ps := Joined(InsertParameters(count));
    PlaceholdersConcat(lead + ps, [RParen]);
    PlaceholdersCons(RParen, []);
    PlaceholdersConcat(lead, ps);
    PlaceholdersOfNone(lead);
    PlaceholdersJoined(InsertParameters(count));
    PlaceholdersOfAll(InsertParameters(count));
  }

  /** The insert text names the resolved column of argument i at position 3 + 2i. */
  lemma InsertNamesColumnsInOrder(t: Table, cols: seq<Column>, count: nat)
    ensures |InsertText(t, cols, count)| > 2 * |cols| + 2
    ensures forall i :: 0 <= i < |cols| ==> InsertText(t, cols, count)[3 + 2 * i] == ColumnName(cols[i].actualName)
  {
    JoinedShape(ColumnNameTokens(cols));
    JoinedLength(ColumnNameTokens(cols));
  }

  // ---- UPDATE ----

  /** An argument paired with the column its name resolved to. */
  datatype Binding = Binding(column: Column, value: Value)

  function Bindings(cols: seq<Column>, args: seq<Argument>): (r: seq<Binding>)
    requires |cols| == |args|
    ensures |r| == |args| && forall i :: 0 <= i < |args| ==> r[i] == Binding(cols[i], args[i].value)
  {
    seq(|args|, i requires 0 <= i < |args| => Binding(cols[i], args[i].value))
  }

  /** The bindings whose column is not a key column, in order. */
  function NonKey(bs: seq<Binding>, keys: seq<Column>): (r: seq<Binding>)
    ensures forall b :: b in r <==> b in bs && b.column !in keys
    ensures |r| <= |bs|
  {
    if bs == [] then []
    else (if bs[0].column in keys then [] else [bs[0]]) + NonKey(bs[1..], keys)
  }

  /** Dropping the key columns keeps the other bindings in their original
      order: each binding is kept or dropped on its own, and the filter
      distributes over concatenation. */
  lemma {:induction false} NonKeyKeepsOrder(a: seq<Binding>, b: seq<Binding>, keys: seq<Column>)
    ensures NonKey(a + b, keys) == NonKey(a, keys) + NonKey(b, keys)
    ensures |a| == 1 ==> NonKey(a, keys) == if a[0].column in keys then [] else a
    decreases |a|
  {
    if |a| == 1 {
      assert a[1..] == [];
    }
    if a == [] {
      assert a + b == b;
    } else {
      var head := if a[0].column in keys then [] else [a[0]];
      assert (a + b)[0] == a[0];
      assert (a + b)[1..] == a[1..] + b;
      assert NonKey(a + b, keys) == head + NonKey(a[1..] + b, keys);
      assert NonKey(a, keys) == head + NonKey(a[1..], keys);
      NonKeyKeepsOrder(a[1..], b, keys);
    }
  }

  /** The value given for a key column: that of the first binding to it. */
  function KeyValue(bs: seq<Binding>, key: Column): (r: Option<Value>)
    ensures r.Some? <==> exists i :: 0 <= i < |bs| && bs[i].column == key
    ensures r.Some? ==> exists i :: 0 <= i < |bs| && bs[i] == Binding(key, r.value)
  {
    if bs == [] then None
    else if bs[0].column == key then Some(bs[0].value)
    else
      var r := KeyValue(bs[1..], key);
      assert r.Some? ==> bs[1..][0] in bs[1..];
      r
  }

  /** The values of the key columns, in key order; a key with no value is an error. */
  function KeyValues(bs: seq<Binding>, keys: seq<Column>): (r: Result<seq<Value>>)
    ensures r.Ok? <==> forall k :: k in keys ==> KeyValue(bs, k).Some?
    ensures r.Ok? ==> |r.value| == |keys| && forall i :: 0 <= i < |keys| ==> KeyValue(bs, keys[i]) == Some(r.value[i])
    ensures r.Err? ==> r.error.InvalidOperation?
  {
    if keys == [] then Ok([])
    else
      match KeyValue(bs, keys[0])
      case None =>
        assert keys[0] in keys;
        Err(InvalidOperation("no value given for key column " + keys[0].actualName))
      case Some(v) =>
        assert forall k :: k in keys <==> k == keys[0] || k in keys[1..];
        var rest :- KeyValues(bs, keys[1..]);
        Ok([v] + rest)
  }

  /** `l0 = @pN <sep> l1 = @p(N+1) ...`: one equality per left-hand token. */
  function Equalities(lefts: seq<Token>, separator: Token, n: nat): seq<Token>
    decreases |lefts|
  {
    if lefts == [] then []
    else if |lefts| == 1 then [lefts[0], Operator(Eq), Parameter(n, Plain)]
    else [lefts[0], Operator(Eq), Parameter(n, Plain), separator] + Equalities(lefts[1..], separator, n + 1)
  }

  /** `@pN, @p(N+1), ...` */
  function Consecutive(n: nat, count: nat): (r: seq<Token>)
    ensures |r| == count && forall i :: 0 <= i < count ==> r[i] == Parameter(n + i, Plain)
  {
    seq(count, i requires 0 <= i < count => Parameter(n + i, Plain))
  }

  /** Equality i of a list binds `@p(N+i)`. */
  lemma {:induction false} EqualitiesPlaceholders(lefts: seq<Token>, separator: Token, n: nat)
    requires forall i :: 0 <= i < |lefts| ==> !lefts[i].Parameter?
    requires !separator.Parameter?
    ensures Placeholders(Equalities(lefts, separator, n)) == Consecutive(n, |lefts|)
    decreases |lefts|
  {
    if |lefts| == 1 {
      LiteralPlaceholders(lefts[0], Eq, n);
      assert Consecutive(n, 1) == [Parameter(n, Plain)];
    } else if |lefts| > 1 {
      EqualitiesPlaceholders(lefts[1..], separator, n + 1);
      EqualityStep(lefts[0], separator, n, Equalities(lefts[1..], separator, n + 1));
      assert [Parameter(n, Plain)] + Consecutive(n + 1, |lefts| - 1) == Consecutive(n, |lefts|);
    }
  }

  /** One equality and its separator contribute the one placeholder `@pN`. */
  lemma EqualityStep(left: Token, separator: Token, n: nat, rest: seq<Token>)
    requires !left.Parameter? && !separator.Parameter?
    ensures Placeholders([left, Operator(Eq), Parameter(n, Plain), separator] + rest) == [Parameter(n, Plain)] + Placeholders(rest)
  {
    var p := Parameter(n, Plain);
    LiteralPlaceholders(left, Eq, n);
    assert [left, Operator(Eq), p, separator] == [left, Operator(Eq), p] + [separator];
    PlaceholdersConcat([left, Operator(Eq), p], [separator]);
    PlaceholdersCons(separator, []);
    PlaceholdersConcat([left, Operator(Eq), p, separator], rest);
  }

  function SetColumns(bs: seq<Binding>): (r: seq<Token>)
    ensures |r| == |bs| && forall i :: 0 <= i < |bs| ==> r[i] == ColumnName(bs[i].column.actualName)
  {
    seq(|bs|, i requires 0 <= i < |bs| => ColumnName(bs[i].column.actualName))
  }

  function BindingValues(bs: seq<Binding>): (r: seq<Value>)
    ensures |r| == |bs| && forall i :: 0 <= i < |bs| ==> r[i] == bs[i].value
  {
    seq(|bs|, i requires 0 <= i < |bs| => bs[i].value)
  }

  function KeyColumns(t: Table, keys: seq<Column>): (r: seq<Token>)
    ensures |r| == |keys| && forall i :: 0 <= i < |keys| ==> r[i] == ColumnToken(t, keys[i])
  {
    seq(|keys|, i requires 0 <= i < |keys| => ColumnToken(t, keys[i]))
  }

  function UpdateText(t: Table, updated: seq<Binding>, keys: seq<Column>): seq<Token> {
    [Kw(UPDATE), TableName(t.schema, t.actualName), Kw(SET)] + Equalities(SetColumns(updated), Comma, 1)
      + ([Kw(WHERE)] + Equalities(KeyColumns(t, keys), Kw(AND), 1 + |updated|))
  }

  /** `UpdateBy<Keys>(...)`: sets every non-key column given, in argument order,
      numbered from @p1, and selects the row by the key columns, whose
      parameters continue the numbering. */
  function CompileUpdateBy(ctx: Context, tableName: string, keyNames: seq<string>, data: seq<Argument>): (r: Result<Command>)
    ensures keyNames == [] ==> r.Err?
  {
    var t :- Find(ctx.tables, tableName, ctx.pluralizer);
    var keys :- ResolveColumns(t, keyNames, ctx.pluralizer);
    var cols :- ResolveColumns(t, NamesOf(data), ctx.pluralizer);
    var bs := Bindings(cols, data);
    var keyValues :- KeyValues(bs, keys);
    var updated := NonKey(bs, keys);
    if keys == [] then Err(InvalidOperation("no key columns"))
    else if updated == [] then Err(InvalidOperation("no columns to update"))
    else Ok(Command(UpdateText(t, updated, keys), BindingValues(updated) + keyValues))
  }

  /** How an update is assembled from its resolved table, key columns, argument
      columns and key values. */
  lemma UpdateAssembles(ctx: Context, tableName: string, keyNames: seq<string>, data: seq<Argument>,
                        t: Table, keys: seq<Column>, cols: seq<Column>, keyValues: seq<Value>, updated: seq<Binding>)
    requires Find(ctx.tables, tableName, ctx.pluralizer) == Ok(t)
    requires ResolveColumns(t, keyNames, ctx.pluralizer) == Ok(keys)
    requires ResolveColumns(t, NamesOf(data), ctx.pluralizer) == Ok(cols)
    requires KeyValues(Bindings(cols, data), keys) == Ok(keyValues)
    requires NonKey(Bindings(cols, data), keys) == updated
    requires keys != [] && updated != []
    ensures CompileUpdateBy(ctx, tableName, keyNames, data) == Ok(Command(UpdateText(t, updated, keys), BindingValues(updated) + keyValues))
  {
  }

  /** Parameter i of an update is bound by `@p(i+1)`: the set values come first
      in argument order, then the key values in key order. */
  lemma UpdateBindsByPosition(ctx: Context, tableName: string, keyNames: seq<string>, data: seq<Argument>)
    ensures var r := CompileUpdateBy(ctx, tableName, keyNames, data);
            r.Ok? ==> Placeholders(r.value.text) == Consecutive(1, |r.value.parameters|)
  {
    var r := CompileUpdateBy(ctx, tableName, keyNames, data);
    if r.Ok? {
      var t := Find(ctx.tables, tableName, ctx.pluralizer).value;
      var keys := ResolveColumns(t, keyNames, ctx.pluralizer).value;
      var cols := ResolveColumns(t, NamesOf(data), ctx.pluralizer).value;
      var bs := Bindings(cols, data);
      var updated := NonKey(bs, keys);
      UpdateTextPlaceholders(t, updated, keys);
    }
  }

  lemma UpdateTextPlaceholders(t: Table, updated: seq<Binding>, keys: seq<Column>)
    ensures Placeholders(UpdateText(t, updated, keys)) == Consecutive(1, |updated| + |keys|)
  {
    var head := [Kw(UPDATE), TableName(t.schema, t.actualName), Kw(SET)];
    var sets := Equalities(SetColumns(updated), Comma, 1);
    var wheres := Equalities(KeyColumns(t, keys), Kw(AND), 1 + |updated|);
    assert UpdateText(t, updated, keys) == (head + sets) + ([Kw(WHERE)] + wheres);
    UpdateSetPlaceholders(head, SetColumns(updated));
    UpdateWherePlaceholders(KeyColumns(t, keys), 1 + |updated|);
    PlaceholdersConcat(head + sets, [Kw(WHERE)] + wheres);
    ConsecutiveConcat(1, |updated|, |keys|);
  }

  lemma UpdateSetPlaceholders(head: seq<Token>, columns: seq<Token>)
    requires forall i :: 0 <= i < |head| ==> !head[i].Parameter?
    requires forall i :: 0 <= i < |columns| ==> !columns[i].Parameter?
    ensures Placeholders(head + Equalities(columns, Comma, 1)) == Consecutive(1, |columns|)
  {
    PlaceholdersConcat(head, Equalities(columns, Comma, 1));
    PlaceholdersOfNone(head);
    EqualitiesPlaceholders(columns, Comma, 1);
  }

  lemma UpdateWherePlaceholders(keys: seq<Token>, n: nat)
    requires forall i :: 0 <= i < |keys| ==> !keys[i].Parameter?
    ensures Placeholders([Kw(WHERE)] + Equalities(keys, Kw(AND), n)) == Consecutive(n, |keys|)
  {
    PlaceholdersCons(Kw(WHERE), Equalities(keys, Kw(AND), n));
    EqualitiesPlaceholders(keys, Kw(AND), n);
  }

  lemma ConsecutiveConcat(n: nat, a: nat, b: nat)
    ensures Consecutive(n, a) + Consecutive(n + a, b) == Consecutive(n, a + b)
  {
  }

  /** A bulk update of one record is that record's update. */
  lemma UpdateAllOfOne(ctx: Context, tableName: string, data: seq<Argument>)
    ensures CompileUpdate(ctx, tableName, data).Ok? ==>
              CompileUpdateAll(ctx, tableName, [data]) == Ok([CompileUpdate(ctx, tableName, data).value])
    ensures CompileUpdate(ctx, tableName, data).Err? ==> CompileUpdateAll(ctx, tableName, [data]).Err?
  {
    var records := [data];
    assert records[0] == data && records[1..] == [];
    assert CompileUpdateAll(ctx, tableName, records[1..]) == Ok([]);
    var u := CompileUpdate(ctx, tableName, data);
    if u.Ok? {
      assert [u.value] + [] == [u.value];
    }
  }

  /** `Update(record)`: the key is the table's primary key. */
  function CompileUpdate(ctx: Context, tableName: string, data: seq<Argument>): (r: Result<Command>)
    ensures (exists t :: Find(ctx.tables, tableName, ctx.pluralizer) == Ok(t) && t.primaryKey == []) ==> r.Err? && r.error.InvalidOperation?
    ensures forall t :: Find(ctx.tables, tableName, ctx.pluralizer) == Ok(t) && t.primaryKey != [] ==>
              r == CompileUpdateBy(ctx, tableName, t.primaryKey, data)
    ensures Find(ctx.tables, tableName, ctx.pluralizer).Err? ==> r == Err(Find(ctx.tables, tableName, ctx.pluralizer).error)
  {
    var t :- Find(ctx.tables, tableName, ctx.pluralizer);
    if t.primaryKey == [] then Err(InvalidOperation("table has no primary key"))
    else CompileUpdateBy(ctx, tableName, t.primaryKey, data)
  }

  /** `Update(records)`: one update per record, in order; the first failure is the result. */
  function CompileUpdateAll(ctx: Context, tableName: string, records: seq<seq<Argument>>): (r: Result<seq<Command>>)
    ensures r.Ok? ==> |r.value| == |records|
  {
    TryMap(data => CompileUpdate(ctx, tableName, data), records)
  }

  /** A bulk update succeeds exactly when every record's update does, and then
      holds those updates in record order. */
  lemma UpdateAllMeaning(ctx: Context, tableName: string, records: seq<seq<Argument>>)
    ensures var r := CompileUpdateAll(ctx, tableName, records);
            && (r.Ok? <==> forall i :: 0 <= i < |records| ==> CompileUpdate(ctx, tableName, records[i]).Ok?)
            && (r.Ok? ==> forall i :: 0 <= i < |records| ==> CompileUpdate(ctx, tableName, records[i]) == Ok(r.value[i]))
  {
    TryMapMeaning(data => CompileUpdate(ctx, tableName, data), records);
  }

  /** An object of a static type: its declared properties, in order, and the
      ones that were given a value. */
  datatype StaticRecord = StaticRecord(properties: seq<string>, values: map<string, Value>)

  /** Every declared property becomes an argument; one never given a value is bound as DBNull. */
  function RecordArguments(r: StaticRecord): (args: seq<Argument>)
    ensures NamesOf(args) == r.properties
    ensures forall i :: 0 <= i < |args| && r.properties[i] !in r.values ==> args[i].value == DbNull
    ensures forall i :: 0 <= i < |args| && r.properties[i] in r.values ==> args[i].value == r.values[r.properties[i]]
  {
    seq(|r.properties|, i requires 0 <= i < |r.properties| =>
      Argument(r.properties[i], if r.properties[i] in r.values then r.values[r.properties[i]] else DbNull))
  }

  /** A declared property the record leaves unset is written as DBNull: its
      column has a SET binding to DBNull, and the parameter at that binding's
      position is DBNull. */
  lemma UnsetPropertyBindsNull(ctx: Context, tableName: string, keyNames: seq<string>, rec: StaticRecord,
                               t: Table, keys: seq<Column>, cols: seq<Column>, i: nat)
    requires Find(ctx.tables, tableName, ctx.pluralizer) == Ok(t)
    requires ResolveColumns(t, keyNames, ctx.pluralizer) == Ok(keys)
    requires ResolveColumns(t, rec.properties, ctx.pluralizer) == Ok(cols)
    requires i < |rec.properties| && rec.properties[i] !in rec.values && cols[i] !in keys
    ensures var r := CompileUpdateBy(ctx, tableName, keyNames, RecordArguments(rec));
            var updated := NonKey(Bindings(cols, RecordArguments(rec)), keys);
            r.Ok? ==> exists k :: && 0 <= k < |updated| && k < |r.value.parameters|
                                  && updated[k] == Binding(cols[i], DbNull) && r.value.parameters[k] == DbNull
  {
    var args := RecordArguments(rec);
    var r := CompileUpdateBy(ctx, tableName, keyNames, args);
    var bs := Bindings(cols, args);
    var updated := NonKey(bs, keys);
    assert bs[i] == Binding(cols[i], DbNull);
    assert Binding(cols[i], DbNull) in updated;
    var k :| 0 <= k < |updated| && updated[k] == Binding(cols[i], DbNull);
    if r.Ok? {
      var kv := KeyValues(bs, keys);
      if kv.Ok? && keys != [] && updated != [] {
        UpdateAssembles(ctx, tableName, keyNames, args, t, keys, cols, kv.value, updated);
        assert r.value.parameters == BindingValues(updated) + kv.value;
        assert r.value.parameters[k] == BindingValues(updated)[k];
      }
    }
  }

  // ---- DELETE ----

  /** `delete from [schema].[table] where <criteria>`, where-parameters numbered from 1. */
  function CompileDelete(ctx: Context, tableName: string, criteria: SimpleExpression): (r: Result<Command>)
    ensures Find(ctx.tables, tableName, ctx.pluralizer).Err? ==> r == Err(Find(ctx.tables, tableName, ctx.pluralizer).error)
    ensures r.Ok? ==> exists t :: Find(ctx.tables, tableName, ctx.pluralizer) == Ok(t) && [Kw(DELETE_FROM), TableName(t.schema, t.actualName), Kw(WHERE)] <= r.value.text
  {
    var t :- Find(ctx.tables, tableName, ctx.pluralizer);
    var w :- FormatExpression(ctx, t, criteria, 1);
    Ok(Command([Kw(DELETE_FROM), TableName(t.schema, t.actualName), Kw(WHERE)] + w.text, w.values))
  }

  lemma DeleteBindsAll(ctx: Context, tableName: string, criteria: SimpleExpression)
    ensures var r := CompileDelete(ctx, tableName, criteria);
            r.Ok? ==> CommandBinds(r.value, 1)
  {
    var f := Find(ctx.tables, tableName, ctx.pluralizer);
    if f.Ok? {
      var t := f.value;
      var w := FormatExpression(ctx, t, criteria, 1);
      ExpressionBindsAll(ctx, t, criteria, 1);
      if w.Ok? {
        PlaceholdersConcat([Kw(DELETE_FROM), TableName(t.schema, t.actualName), Kw(WHERE)], w.value.text);
        PlaceholdersOfNone([Kw(DELETE_FROM), TableName(t.schema, t.actualName), Kw(WHERE)]);
      }
    }
  }

  /** How a delete is assembled from its resolved table and its where text. */
  lemma DeleteAssembles(ctx: Context, tableName: string, c: Criterion, t: Table, f: Fragment)
    requires Find(ctx.tables, tableName, ctx.pluralizer) == Ok(t)
    requires FormatExpression(ctx, t, Compare(ColumnOf(tableName, c.name), Eq, c.operand), 1) == Ok(f)
    ensures CompileDeleteBy(ctx, tableName, [c]) == Ok(Command([Kw(DELETE_FROM), TableName(t.schema, t.actualName), Kw(WHERE)] + f.text, f.values))
  {
  }

  /** `Delete(Column: value, ...)` and `DeleteBy<Column>(value)`: deleting
      requires at least one criterion. */
  function CompileDeleteBy(ctx: Context, tableName: string, args: seq<Criterion>): (r: Result<Command>)
    ensures args == [] ==> r.Err? && r.error.InvalidOperation?
    ensures args != [] ==> r == CompileDelete(ctx, tableName, CriteriaFor(tableName, args).value)
  {
    match CriteriaFor(tableName, args)
    case None => Err(InvalidOperation("delete needs criteria"))
    case Some(e) => CompileDelete(ctx, tableName, e)
  }
}
