# Simple.Data query model in Dafny

This project models the query model of Simple.Data, a data-access layer that
names tables and columns at call time and compiles those names into
parameterized SQL. The repository's own implementation of that model is not
part of this model. The unit and behaviour tests that pin its behaviour down
are, so the model follows what those tests assert. Where they leave a case
open, the model makes a choice of its own; each such choice is listed under
"Left out".

Everything here is a value transformation: each builder call returns a new
query, a lookup returns a stored table, and a compilation returns a command.
The model is therefore written with datatypes, functions and lemmas, with no
classes and no loops.

It has five parts.

- `Results` (`results.dfy`) holds the `Option` and `Result` wrappers and the
  error kinds. They are `InvalidOperation`, `UnresolvableObject`,
  `AmbiguousName` and `Unsupported`. The part also holds `TryMap`, which maps
  a fallible function over a sequence and stops at the first failure.
- `ObjectReferences` (`object_reference.dfy`) holds object references and
  simple expressions. A reference is a name with an optional owner and an
  optional alias, and owner chains are inductive, hence finite and acyclic.
  `GetTop` walks to the root. Equality is structural. The six comparison
  operators build a `SimpleExpression` with the reference on the left, the
  operand on the right and the matching tag. `AndAlso` and `OrElse` wrap two
  expressions. No test combines expressions this way. The compiler uses
  `AndAlso` to join several named criteria.
- `SimpleQueries` (`simple_query.dfy`) holds the `SimpleQuery` builder: a
  subject table name and an ordered clause list. It also keeps the table of a
  `Join` that still waits for its `On`. `Clauses.OfType<T>()` is `OfKind`.
- `Schema` (`table_collection.dfy`) holds tables and `TableCollection.Find`.
  Find tries the rules in order:
  1. exact;
  2. case-insensitive;
  3. plural or singular;
  4. snake_case or CamelCase (underscores removed, then upper-cased);
  5. rule 4 combined with plural or singular.

  The first rule that accepts any stored name decides. If it accepts exactly
  one, that name is picked. If it accepts several, the search is ambiguous,
  and no later rule is tried. When no rule accepts any stored name, the search
  is unresolvable. Columns are found the
  same way, without the pluralization rules. The pluralization service is a
  parameter (`Pluralizer`), constrained only by what the fixtures need.
- `SqlCompiler` (`sql_compiler.dfy`) compiles Find, FindBy, a query of where
  clauses, Insert, UpdateBy, Update (by primary key, including a bulk update
  of several records) and Delete. Each produces a `Command`: a token sequence,
  plus the values bound to its parameters in order.
  - Parameter tokens carry their index and suffix: `@p1`, `@p1_start`,
    `@p1_end`, `@p1_0`.
  - Where parameters are numbered from 1. Insert parameters are numbered from
    0. Update numbers its SET parameters from 1 and continues the numbering
    into WHERE.
  - `Binds` and `CommandBinds` state that the i-th value is bound by the i-th
    placeholder of the text. They also state that the placeholders appear in
    parameter order: by index, then `_start` before `_end` and `_0` before
    `_1`. Placeholder names are distinct.
- `RangeAndArrayFind` and `TransactionSql` instantiate the behaviour tests'
  mocked `dbo.Users` schema. Each test's expected SQL and parameter list is
  proved equal to what the compiler produces.

The SQL text is a sequence of tokens. Letter case and whitespace are not
modelled: the tests compare lower-cased text, and they separate the select
list with `", "` in one test and `","` in another, so both are `Comma`.

## Model

| member | source | states |
|---|---|---|
| `ObjectReferences.NewReference` | Simple.Data.UnitTest/ObjectReferenceTest.cs:54 | A reference built from a name alone has no owner and keeps its name. |
| `ObjectReferences.OwnedBy` | Simple.Data.UnitTest/ObjectReferenceTest.cs:55-56 | A reference built with an owner has the owner's path followed by its own segment. |
| `ObjectReferences.As` | Simple.Data.UnitTest/SimpleQueryTest.cs:162-164 | An aliased reference keeps its name and owner and answers to the alias. |
| `ObjectReferences.Segments` | Simple.Data.UnitTest/ObjectReferenceTest.cs:63 | A path is never empty and ends with the reference's own segment; it has one segment exactly when the reference has no owner. |
| `ObjectReferences.GetTop` | Simple.Data.UnitTest/ObjectReferenceTest.cs:52-59 | GetTop has no owner and is the first segment of the path. |
| `ObjectReferences.AncestorIsShorter` | Simple.Data.UnitTest/ObjectReferenceTest.cs:54-56 | A proper ancestor has a strictly shorter path, so an owner chain can never loop back to a reference. |
| `ObjectReferences.GetTopIsRootAncestor` | Simple.Data.UnitTest/ObjectReferenceTest.cs:52-59 | GetTop of a top-level reference is itself; for an owned reference it is a proper ancestor. |
| `ObjectReferences.GetTopFixture` | Simple.Data.UnitTest/ObjectReferenceTest.cs:52-59 | For the chain quux, bar, foo, GetTop returns foo. |
| `ObjectReferences.EqualIffSameSegments` | Simple.Data.UnitTest/ObjectReferenceTest.cs:63 | Two references are equal if and only if their paths (names and aliases) are equal. |
| `ObjectReferences.ComparisonOf` | Simple.Data.UnitTest/ObjectReferenceTest.cs:61-66 | Every comparison tag comes from exactly the operator that produces it; And and Or come from no operator. |
| `ObjectReferences.Compare` | Simple.Data.UnitTest/ObjectReferenceTest.cs:15-49 | Each comparison operator builds a node with the reference on the left, the operand on the right, and a tag that reads back as that operator. |
| `ObjectReferences.CompareRoundTrip` | Simple.Data.UnitTest/ObjectReferenceTest.cs:61-66 | A comparison node reads back as the reference, operator and operand it was built from, and only the node built from them reads back so. |
| `ObjectReferences.OperatorTags` | Simple.Data.UnitTest/ObjectReferenceTest.cs:15-49 | `==`, `!=`, `>`, `<`, `>=` and `<=` build Equal, NotEqual, GreaterThan, LessThan, GreaterThanOrEqual and LessThanOrEqual, each with the reference on the left and the operand on the right; distinct operators give distinct tags. |
| `ObjectReferences.AndAlso` | Simple.Data.BehaviourTest/TransactionTest.cs:45-56 | `AndAlso(a, b)` wraps both operands unchanged, and its tag is neither a comparison nor Or. |
| `ObjectReferences.OrElse` | Simple.Data.BehaviourTest/TransactionTest.cs:45-56 | `OrElse(a, b)` wraps both operands unchanged, and its tag is neither a comparison nor And. |
| `ObjectReferences.LogicalRoundTrip` | Simple.Data.BehaviourTest/TransactionTest.cs:45-56 | An And or Or node never reads back as a comparison; And and Or nodes are never equal; each determines both of its operands. |
| `ObjectReferences.ColumnReferenceFixture` | Simple.Data.UnitTest/ObjectReferenceTest.cs:61-66 | `Db.foo.id` is the path foo, id, and differs from `Db.foo.name`, from `Db.bar.id` and from a bare `id`. `Db.foo.id == 1` reads back as that reference, Equal and the literal 1. |
| `SimpleQueries.NewQuery` | Simple.Data.UnitTest/SimpleQueryTest.cs:16 | A new query has the given table, no pending join and no clause of any kind. |
| `SimpleQueries.OfKind` | Simple.Data.UnitTest/SimpleQueryTest.cs:19 | The clauses of one kind are exactly the clauses of that kind in the list. |
| `SimpleQueries.WithoutKind` | Simple.Data.UnitTest/SimpleQueryTest.cs:194-202 | Filtering out a kind keeps exactly the clauses of the other kinds. |
| `SimpleQueries.OfKindConcat` | Simple.Data.UnitTest/SimpleQueryTest.cs:95-96 | Selecting a kind distributes over concatenation of clause lists, so order is kept. |
| `SimpleQueries.OfKindWithout` | Simple.Data.UnitTest/SimpleQueryTest.cs:200-201 | Filtering out a kind leaves none of it and leaves each other kind as it was. |
| `SimpleQueries.AppendOneClause` | Simple.Data.UnitTest/SimpleQueryTest.cs:14-20 | Appending a clause adds it last among its kind and changes no other kind. |
| `SimpleQueries.ReplaceClause` | Simple.Data.UnitTest/SimpleQueryTest.cs:180-191 | Replacing a clause leaves it as the only one of its kind and changes no other kind. |
| `SimpleQueries.Where` | Simple.Data.UnitTest/SimpleQueryTest.cs:14-20 | Where keeps the table, the pending join and every earlier clause in order, and adds exactly one clause. |
| `SimpleQueries.Skip` | Simple.Data.UnitTest/SimpleQueryTest.cs:22-29 | After Skip(n) the clauses are the new SkipClause(n) and the earlier clauses that are not SkipClauses; table and pending join are kept. |
| `SimpleQueries.Take` | Simple.Data.UnitTest/SimpleQueryTest.cs:31-38 | After Take(n) the clauses are the new TakeClause(n) and the earlier clauses that are not TakeClauses; table and pending join are kept. |
| `SimpleQueries.OrderBy` | Simple.Data.UnitTest/SimpleQueryTest.cs:40-56 | OrderBy keeps the table, the pending join and every earlier clause in order, and adds exactly one clause. |
| `SimpleQueries.OrderByDescending` | Simple.Data.UnitTest/SimpleQueryTest.cs:103-110 | OrderByDescending keeps every earlier clause in order and adds the ordering (r, Descending) after them. |
| `SimpleQueries.ThenBy` | Simple.Data.UnitTest/SimpleQueryTest.cs:135-144 | ThenBy fails, with an invalid-operation error, if and only if there is no OrderBy clause yet. Otherwise it adds the ordering last among the orderings and is the same as OrderBy, which keeps everything else. |
| `SimpleQueries.ThenByDescending` | Simple.Data.UnitTest/SimpleQueryTest.cs:121-145 | ThenByDescending fails, with an invalid-operation error, if and only if there is no OrderBy clause yet; otherwise it adds (r, Descending) last among the orderings, and the result is exactly OrderBy with Descending, so the table, the pending join and every earlier clause are kept. |
| `SimpleQueries.Join` | Simple.Data.UnitTest/SimpleQueryTest.cs:157-169 | Join keeps the table and the clauses unchanged and records the table as the pending join. |
| `SimpleQueries.On` | Simple.Data.UnitTest/SimpleQueryTest.cs:157-169 | On fails, with an invalid-operation error, if and only if no Join is pending. Otherwise the result has the same table, the earlier clauses followed by one JoinClause of the pending table and the expression, and no pending join. |
| `SimpleQueries.JoinBy` | Simple.Data.UnitTest/SimpleQueryTest.cs:147-155 | The named-argument Join keeps the table, the pending join and every earlier clause in order, and adds exactly one clause. |
| `SimpleQueries.ForUpdate` | Simple.Data.UnitTest/SimpleQueryTest.cs:171-191 | After ForUpdate(b) the clauses are the new ForUpdateClause(b) and the earlier clauses that are not ForUpdateClauses; table and pending join are kept. |
| `SimpleQueries.ClearForUpdate` | Simple.Data.UnitTest/SimpleQueryTest.cs:193-202 | ClearForUpdate keeps exactly the clauses that are not ForUpdateClauses, and the table and pending join. |
| `SimpleQueries.WhereAddsCriteria` | Simple.Data.UnitTest/SimpleQueryTest.cs:14-20 | Where adds one WhereClause holding the criteria itself and changes no other kind; on a new query it is the single WhereClause. |
| `SimpleQueries.SkipSetsCount` | Simple.Data.UnitTest/SimpleQueryTest.cs:22-29 | After Skip(n) there is exactly one SkipClause, with count n, and no other kind changes. |
| `SimpleQueries.TakeSetsCount` | Simple.Data.UnitTest/SimpleQueryTest.cs:31-38 | After Take(n) there is exactly one TakeClause, with count n, and no other kind changes. |
| `SimpleQueries.OrderBySetsDirection` | Simple.Data.UnitTest/SimpleQueryTest.cs:40-56 | OrderBy adds an OrderByClause with the reference and direction and changes no other kind; on a new query OrderBy(r) is the single clause (r, Ascending), and OrderByDescending(r) (lines 104-110) is the single clause (r, Descending). |
| `SimpleQueries.OrderByThenBy` | Simple.Data.UnitTest/SimpleQueryTest.cs:79-132 | OrderBy(a, da) then ThenBy(b, db) succeeds with exactly the clauses (a, da), (b, db) in call order. |
| `SimpleQueries.OrderByAppendsToChain` | Simple.Data.UnitTest/SimpleQueryTest.cs:91-101 | OrderBy(A).ThenBy(B).OrderByDescending(C) is exactly the clause list (A, Ascending), (B, Ascending), (C, Descending): a later OrderBy appends rather than starting a new chain. |
| `SimpleQueries.JoinOnSetsJoin` | Simple.Data.UnitTest/SimpleQueryTest.cs:157-169 | Join(t.As(alias)).On(e) succeeds, adds one JoinClause whose table is the aliased reference, whose name is the alias and whose expression is e, and changes no other kind. |
| `SimpleQueries.JoinByAddsClause` | Simple.Data.UnitTest/SimpleQueryTest.cs:147-155 | The named-argument Join adds one JoinClause, last, whose table is the one given and whose expression equates `table.column` with the target. |
| `SimpleQueries.JoinOnFixture` | Simple.Data.UnitTest/SimpleQueryTest.cs:157-169 | `db.foo.Query().Join(bar.As("quux")).On(db.foo.id == quux.foo_id)` gives the single join named quux, with an Equal expression whose left operand is `db.foo.id` and whose right operand is `quux.foo_id`. |
| `SimpleQueries.ForUpdateSets` | Simple.Data.UnitTest/SimpleQueryTest.cs:171-178 | After ForUpdate(b) there is exactly one ForUpdateClause, with SkipLockedRows b, and no other kind changes. |
| `SimpleQueries.ForUpdateReplaces` | Simple.Data.UnitTest/SimpleQueryTest.cs:180-191 | A second ForUpdate(b') replaces the first, leaving one ForUpdateClause with b'. |
| `SimpleQueries.ClearForUpdateRemoves` | Simple.Data.UnitTest/SimpleQueryTest.cs:193-202 | ClearForUpdate leaves no ForUpdateClause and changes no other kind. |
| `Schema.MatchIndices` | Simple.Data.Ado.Test/TableCollectionTest.cs:77-83 | Gives exactly the positions of the stored names a rule accepts, in increasing order. |
| `Schema.FindIndex` | Simple.Data.Ado.Test/TableCollectionTest.cs:20-75 | A hit is a stored name some rule accepts. The search is unresolvable if and only if no rule accepts any stored name. An ambiguous search has two stored names accepted by the same rule. |
| `Schema.FindIndexPrecedence` | Simple.Data.Ado.Test/TableCollectionTest.cs:20-75 | The rules are applied in precedence order. A hit is the only name accepted by the first rule that accepts any name. An ambiguity means that first rule accepts two or more names. |
| `Schema.Find` | Simple.Data.Ado.Test/TableCollectionTest.cs:77-83 | A found table is one of the stored tables, with its actual name; a failure is an unresolvable or an ambiguous name. |
| `Schema.FindMeaning` | Simple.Data.Ado.Test/TableCollectionTest.cs:77-83 | A found table's actual name answers the search under one of the table rules; Find is unresolvable if and only if no stored table answers under any rule. |
| `Schema.FindPrecedence` | Simple.Data.Ado.Test/TableCollectionTest.cs:20-75 | The table found is the only hit of the first table rule that accepts any stored name; an ambiguity means that first rule accepts two or more tables. |
| `Schema.FindColumn` | Simple.Data.BehaviourTest/TransactionTest.cs:45-56 | A found column is one of the table's columns; a failure is an unresolvable or an ambiguous name. |
| `Schema.FindColumnMeaning` | Simple.Data.BehaviourTest/TransactionTest.cs:45-56 | A found column's name answers the search under a column rule; FindColumn is unresolvable if and only if no column answers under any rule. |
| `Schema.FindColumnPrecedence` | Simple.Data.BehaviourTest/TransactionTest.cs:45-56 | The column found is the only hit of the first column rule that accepts any column name; an ambiguity means that first rule accepts two or more columns. |
| `Schema.ExactMatchWins` | Simple.Data.Ado.Test/TableCollectionTest.cs:20-24 | Searching for a table's own actual name, when no other table has that name, finds that table whatever the other names are. |
| `Schema.ExactColumnWins` | Simple.Data.BehaviourTest/TransactionTest.cs:65-68 | Searching for a column's own actual name, when no other column has that name, finds that column. |
| `Schema.RulesNest` | Simple.Data.Ado.Test/TableCollectionTest.cs:29-75 | An exact match is a case-insensitive match, and a case-insensitive match is a snake/camel match. |
| `Schema.FindInSingleTable` | Simple.Data.Ado.Test/TableCollectionTest.cs:77-83 | In a collection of one table, Find succeeds if and only if some rule accepts its name, and then returns that table. |
| `Schema.SnakeJoin` | Simple.Data.Ado.Test/TableCollectionTest.cs:53-57 | Joining two underscore-free words with an underscore and removing underscores gives the CamelCase concatenation. |
| `Schema.HomogenizedFixtureNames` | Simple.Data.Ado.Test/TableCollectionTest.cs:53-75 | USER_PROFILE, UserProfile and USERPROFILE all homogenize to USERPROFILE, and UserProfiles and USERPROFILES to USERPROFILES. |
| `Schema.FindExactAndCaseInsensitive` | Simple.Data.Ado.Test/TableCollectionTest.cs:20-33 | For any pluralizer, searching "Users" finds the table named "Users", and searching "Users" finds a table stored as "USERS", so the match ignores case and the table keeps its stored name. |
| `Schema.FindPluralAndSingular` | Simple.Data.Ado.Test/TableCollectionTest.cs:38-51 | "User" finds "Users", and "Users" finds "User". |
| `Schema.FindSnakeFromCamel` | Simple.Data.Ado.Test/TableCollectionTest.cs:53-63 | "UserProfile" and "UserProfiles" both find "USER_PROFILE". |
| `Schema.FindCamelFromSnake` | Simple.Data.Ado.Test/TableCollectionTest.cs:65-75 | "USER_PROFILE" finds "UserProfile", and it also finds "UserProfiles". |
| `SqlCompiler.JoinedShape` | Simple.Data.BehaviourTest/RangeAndArrayFindTest.cs:34 | A comma-separated list puts the i-th item at position 2i and a comma between each pair of items. |
| `SqlCompiler.PlaceholdersJoined` | Simple.Data.BehaviourTest/RangeAndArrayFindTest.cs:45 | Separating a list with commas adds no placeholder and keeps the order of those it has. |
| `SqlCompiler.ResolveColumn` | Simple.Data.BehaviourTest/TransactionTest.cs:39 | A column reference resolves if and only if it is owned by a top-level reference that finds the subject table and its name finds a column; it then gives that column. A reference without an owner is unresolvable. One owned through a longer chain is unsupported. |
| `SqlCompiler.ItemParametersBind` | Simple.Data.BehaviourTest/RangeAndArrayFindTest.cs:45 | The placeholders of a list are pairwise distinct, in parameter order `_0`, `_1`, ..., and all carry the list's index. |
| `SqlCompiler.FormatComparison` | Simple.Data.BehaviourTest/RangeAndArrayFindTest.cs:28-72 | A comparison with a literal, range or list uses up one parameter index; one against another column uses none. |
| `SqlCompiler.FormatExpression` | Simple.Data.BehaviourTest/TransactionTest.cs:39-41 | Formatting an expression never moves the parameter numbering backwards. |
| `SqlCompiler.ComparisonBindsAll` | Simple.Data.BehaviourTest/RangeAndArrayFindTest.cs:28-61 | In every comparison fragment the i-th value is bound by the i-th placeholder. The placeholders are distinct, in parameter order, with indices in the fragment's own numbering range. |
| `SqlCompiler.LiteralBinds` | Simple.Data.BehaviourTest/TransactionTest.cs:41-42 | A literal comparison fails exactly for null; otherwise its one placeholder is `@pn` and binds the literal. |
| `SqlCompiler.RangeBinds` | Simple.Data.BehaviourTest/RangeAndArrayFindTest.cs:34-36 | The placeholders of a range are exactly `@pn_start` then `@pn_end`, and its values are the start then the end. |
| `SqlCompiler.ListBinds` | Simple.Data.BehaviourTest/RangeAndArrayFindTest.cs:45-48 | The placeholders of a list are exactly `@pn_0`, `@pn_1`, ... in that order, and its values are the items in list order. |
| `SqlCompiler.ListPlaceholders` | Simple.Data.BehaviourTest/RangeAndArrayFindTest.cs:45 | The placeholders of an `in` or `not in` list over N items are `@pn_0` to `@pn_{N-1}`, in order. |
| `SqlCompiler.ComparisonRenders` | Simple.Data.BehaviourTest/TransactionTest.cs:39-41 | A comparison whose reference resolves to a column renders as that qualified column followed by the operator's test of the operand. |
| `SqlCompiler.LiteralRendersComparison` | Simple.Data.BehaviourTest/TransactionTest.cs:39-42 | `col op literal` renders `[col] op @pn`, binding the literal; a comparison with null is rejected as unsupported. |
| `SqlCompiler.RangeRendersBetween` | Simple.Data.BehaviourTest/RangeAndArrayFindTest.cs:28-37 | `col == lo.to(hi)` renders `[col] between @pn_start and @pn_end` with parameters lo, hi; `!=` renders `not between`; ordering operators are rejected. |
| `SqlCompiler.ListRendersIn` | Simple.Data.BehaviourTest/RangeAndArrayFindTest.cs:39-49 | `col == [v0..vk]` renders `[col] in (@pn_0,...,@pn_k)` with the items as parameters in array order; `!=` renders `not in` with the same placeholders; an empty list or an ordering operator is rejected. |
| `SqlCompiler.ListComparison` | Simple.Data.BehaviourTest/RangeAndArrayFindTest.cs:39-61 | A non-empty list compared with `==` or `!=` is an in list, negated for `!=`, binding the items in order. |
| `SqlCompiler.ItemListShape` | Simple.Data.BehaviourTest/RangeAndArrayFindTest.cs:45 | Inside the parentheses, item i is `@pn_i` at position 2i, with commas between the items. |
| `SqlCompiler.SingletonListStaysIn` | Simple.Data.BehaviourTest/RangeAndArrayFindTest.cs:44-45 | A one-element array still renders `in (@pn_0)`, never `=`. |
| `SqlCompiler.NotInNegatesIn` | Simple.Data.BehaviourTest/RangeAndArrayFindTest.cs:51-61 | For a non-empty array, `!=` succeeds exactly when `==` does, and its text is the `==` text with `not` after the column, with the same parameters. |
| `SqlCompiler.LogicalRenders` | Simple.Data.BehaviourTest/TransactionTest.cs:45-56 | `AndAlso(a, b)` renders `(a and b)` and `OrElse(a, b)` renders `(a or b)`. The left operand's text and values come first, and the right operand's numbering continues after them. A failure of either operand fails the whole. |
| `SqlCompiler.ExpressionBindsAll` | Simple.Data.BehaviourTest/RangeAndArrayFindTest.cs:28-72 | In every expression, however nested, the i-th value is bound by the i-th placeholder. The placeholders are distinct and in parameter order, so values follow left-to-right tree order. |
| `SqlCompiler.WhereBinds` | Simple.Data.BehaviourTest/TransactionTest.cs:41-42 | The where text binds its values the same way and adds no placeholder of its own. |
| `SqlCompiler.SelectHeadShape` | Simple.Data.BehaviourTest/TransactionTest.cs:22-30 | The select head lists column i of the table at position 1 + 2i, with commas between the columns, and has no placeholder. |
| `SqlCompiler.CompileFind` | Simple.Data.BehaviourTest/TransactionTest.cs:32-43 | An unresolvable table fails with Find's error; a compiled Find starts with the select-all-columns head of the resolved table. |
| `SqlCompiler.FindBindsAll` | Simple.Data.BehaviourTest/TransactionTest.cs:32-43 | In a compiled Find the i-th parameter is bound by the i-th placeholder. The placeholders are distinct, in parameter order, and numbered from 1. |
| `SqlCompiler.FindAssembles` | Simple.Data.BehaviourTest/TransactionTest.cs:32-43 | Find(e) is the select head, `where` and e's text, with e's values as the parameters. |
| `SqlCompiler.CriteriaFor` | Simple.Data.BehaviourTest/TransactionTest.cs:45-56 | Named criteria give no expression exactly when there are none; one criterion `Name: v` is `Users.Name == v`. |
| `SqlCompiler.Conjunction` | Simple.Data.BehaviourTest/TransactionTest.cs:45-56 | Several criteria give no expression exactly when there are none, and one criterion is used as it is. |
| `SqlCompiler.CompileFindBy` | Simple.Data.BehaviourTest/TransactionTest.cs:45-56 | FindBy with no criteria is Find with no where clause. |
| `SqlCompiler.FindByAssembles` | Simple.Data.BehaviourTest/TransactionTest.cs:45-56 | FindBy with one criterion is the select head and the where text of `column == value`. |
| `SqlCompiler.CompileQuery` | Simple.Data.BehaviourTest/RangeAndArrayFindTest.cs:51-61 | A query with a pending join or any clause other than Where is rejected as unsupported. |
| `SqlCompiler.QueryWithOneWhere` | Simple.Data.BehaviourTest/RangeAndArrayFindTest.cs:56 | `Query().Where(e)` compiles exactly like `Find(e)`. |
| `SqlCompiler.QueryOfWheres` | Simple.Data.BehaviourTest/RangeAndArrayFindTest.cs:56 | A query of where clauses compiles like Find with the conjunction of their criteria. |
| `SqlCompiler.QueryWithTwoWheres` | Simple.Data.BehaviourTest/RangeAndArrayFindTest.cs:51-61 | `Where(a).Where(b)` compiles like `Find(a && b)`. |
| `SqlCompiler.ResolveColumns` | Simple.Data.BehaviourTest/TransactionTest.cs:65-68 | Resolving a list of column names gives one column per name. |
| `SqlCompiler.ResolveColumnsMeaning` | Simple.Data.BehaviourTest/TransactionTest.cs:65-68 | The list resolves if and only if every name resolves, and then its i-th column is the one its i-th name finds. |
| `SqlCompiler.ResolveExactNames` | Simple.Data.BehaviourTest/TransactionTest.cs:65-68 | When column names are distinct, the actual names of any columns resolve to exactly those columns, in the order given. |
| `SqlCompiler.CompileInsert` | Simple.Data.BehaviourTest/TransactionTest.cs:58-72 | The parameters of a compiled insert are the argument values in argument order. |
| `SqlCompiler.InsertAssembles` | Simple.Data.BehaviourTest/TransactionTest.cs:58-72 | Insert is `insert into [table] (columns) values (@p0,...)` over the resolved argument columns. |
| `SqlCompiler.InsertBindsByPosition` | Simple.Data.BehaviourTest/TransactionTest.cs:68-70 | In a compiled insert, the i-th placeholder is `@pi` and binds the i-th argument's value. |
| `SqlCompiler.InsertTextPlaceholders` | Simple.Data.BehaviourTest/TransactionTest.cs:68 | The only placeholders of an insert text are its values list. |
| `SqlCompiler.InsertNamesColumnsInOrder` | Simple.Data.BehaviourTest/TransactionTest.cs:65-68 | The column list of an insert names only the supplied columns, in argument order. |
| `SqlCompiler.NonKey` | Simple.Data.BehaviourTest/TransactionTest.cs:81-84 | The SET bindings are exactly the given bindings whose column is not a key column. |
| `SqlCompiler.NonKeyKeepsOrder` | Simple.Data.BehaviourTest/TransactionTest.cs:81-84 | Dropping the key columns keeps the other bindings in their original order. The filter distributes over concatenation, and each binding is kept or dropped on its own. |
| `SqlCompiler.KeyValue` | Simple.Data.BehaviourTest/TransactionTest.cs:81-87 | A key has a value exactly when some binding names its column, and that value is one bound to it. |
| `SqlCompiler.KeyValues` | Simple.Data.BehaviourTest/TransactionTest.cs:81-87 | The key values exist exactly when every key column is given, and are then in key order; a missing key is an invalid operation. |
| `SqlCompiler.EqualitiesPlaceholders` | Simple.Data.BehaviourTest/TransactionTest.cs:84 | A list of `[col] = @p` equalities numbers its placeholders consecutively from its start index. |
| `SqlCompiler.CompileUpdateBy` | Simple.Data.BehaviourTest/TransactionTest.cs:74-89 | An update without key columns fails. |
| `SqlCompiler.UpdateAssembles` | Simple.Data.BehaviourTest/TransactionTest.cs:74-89 | UpdateBy is `update [table] set` the non-key columns in argument order, `where` the key columns, with the SET values followed by the key values as parameters. |
| `SqlCompiler.UpdateBindsByPosition` | Simple.Data.BehaviourTest/TransactionTest.cs:84-87 | In a compiled update, the placeholders are `@p1`, `@p2`, and so on, one per parameter, in order. |
| `SqlCompiler.UpdateTextPlaceholders` | Simple.Data.BehaviourTest/TransactionTest.cs:84 | The SET placeholders start at `@p1` and the WHERE placeholders continue after them. |
| `SqlCompiler.CompileUpdate` | Simple.Data.BehaviourTest/TransactionTest.cs:91-110 | Update by record fails with Find's error for an unknown table, and with an invalid operation when the table has no primary key. Otherwise it is UpdateBy on the table's primary key columns. |
| `SqlCompiler.CompileUpdateAll` | Simple.Data.BehaviourTest/TransactionTest.cs:157-180 | A bulk update gives one command per record. |
| `SqlCompiler.UpdateAllMeaning` | Simple.Data.BehaviourTest/TransactionTest.cs:157-180 | A bulk update succeeds if and only if every record's update does, and its i-th command is the i-th record's update. |
| `SqlCompiler.UpdateAllOfOne` | Simple.Data.BehaviourTest/TransactionTest.cs:157-180 | A bulk update of one record gives exactly that record's single update, and fails when it fails. |
| `SqlCompiler.UnsetPropertyBindsNull` | Simple.Data.BehaviourTest/TransactionTest.cs:133-155 | A non-key property the static object never sets has a SET binding of its column to DBNull, and the parameter at that position is DBNull. |
| `SqlCompiler.CompileDelete` | Simple.Data.BehaviourTest/TransactionTest.cs:206-219 | An unresolvable table fails with Find's error; a compiled delete starts `delete from [table] where`. |
| `SqlCompiler.DeleteBindsAll` | Simple.Data.BehaviourTest/TransactionTest.cs:216-217 | In a compiled delete the i-th parameter is bound by the i-th placeholder. The placeholders are distinct, in parameter order, and numbered from 1. |
| `SqlCompiler.DeleteAssembles` | Simple.Data.BehaviourTest/TransactionTest.cs:206-219 | Delete with one criterion is `delete from [table] where` followed by the text of `column == value`. |
| `SqlCompiler.CompileDeleteBy` | Simple.Data.BehaviourTest/TransactionTest.cs:221-234 | Delete without criteria is an invalid operation; with criteria it deletes where their conjunction holds. |
| `RangeAndArrayFind.SelectListsAllColumns` | Simple.Data.BehaviourTest/RangeAndArrayFindTest.cs:15-26 | The select head of the mocked Users table lists Id, Name, Password, Age and JoinDate, in that order. |
| `RangeAndArrayFind.UsersResolve` | Simple.Data.BehaviourTest/RangeAndArrayFindTest.cs:18 | "Users" finds the mocked table. |
| `RangeAndArrayFind.ColumnResolves` | Simple.Data.BehaviourTest/RangeAndArrayFindTest.cs:19-23 | `Users.c` resolves to column c for each of the five columns. |
| `RangeAndArrayFind.IdRange` | Simple.Data.BehaviourTest/RangeAndArrayFindTest.cs:33-34 | `Id == 1.to(10)` renders `[Id] between @p1_start and @p1_end`, binding 1 and 10. |
| `RangeAndArrayFind.FindByWithIntRange` | Simple.Data.BehaviourTest/RangeAndArrayFindTest.cs:28-37 | `FindAllById(1.to(10))` is the select head, `where [id] between @p1_start and @p1_end`, with parameters 1, 10. |
| `RangeAndArrayFind.ThreeItems` | Simple.Data.BehaviourTest/RangeAndArrayFindTest.cs:45 | The list of three items is `in (@p1_0,@p1_1,@p1_2)`. |
| `RangeAndArrayFind.IdList` | Simple.Data.BehaviourTest/RangeAndArrayFindTest.cs:39-61 | `Id == [1,2,3]` renders `[Id] in (...)` and `Id != [1,2,3]` renders `[Id] not in (...)`, binding 1, 2, 3. |
| `RangeAndArrayFind.FindByWithIntArray` | Simple.Data.BehaviourTest/RangeAndArrayFindTest.cs:39-49 | `FindAllById(new[] {1, 2, 3})` is the select head, `where [id] in (@p1_0,@p1_1,@p1_2)`, with parameters 1, 2, 3. |
| `RangeAndArrayFind.QueryWithNotEqualIntArray` | Simple.Data.BehaviourTest/RangeAndArrayFindTest.cs:51-61 | `Query().Where(Id != new[] {1, 2, 3})` is the select head, `where [id] not in (@p1_0,@p1_1,@p1_2)`, with parameters 1, 2, 3. |
| `RangeAndArrayFind.JoinDateRange` | Simple.Data.BehaviourTest/RangeAndArrayFindTest.cs:68-69 | A date range on JoinDate renders `[JoinDate] between @p1_start and @p1_end`, binding both dates. |
| `RangeAndArrayFind.FindByWithDateRange` | Simple.Data.BehaviourTest/RangeAndArrayFindTest.cs:63-72 | `FindAllByJoinDate(2011-01-01 to 2011-01-31)` is the select head, `where [joindate] between @p1_start and @p1_end`, with the two dates as parameters. |
| `TransactionSql.SelectListsAllColumns` | Simple.Data.BehaviourTest/TransactionTest.cs:18-30 | The select head of the mocked Users table lists Id, Name, Password and Age, in that order. |
| `TransactionSql.UsersResolve` | Simple.Data.BehaviourTest/TransactionTest.cs:21 | "Users" finds the mocked table. |
| `TransactionSql.ColumnFound` | Simple.Data.BehaviourTest/TransactionTest.cs:22-25 | Each column's own name finds that column. |
| `TransactionSql.ColumnResolves` | Simple.Data.BehaviourTest/TransactionTest.cs:39 | `Users.c` resolves to column c for each of the four columns. |
| `TransactionSql.FindEqualWithInt32` | Simple.Data.BehaviourTest/TransactionTest.cs:32-43 | `Find(Users.Id == 1)` is the select head, `where [id] = @p1`, with parameter 1. |
| `TransactionSql.FindByDynamicSingleColumn` | Simple.Data.BehaviourTest/TransactionTest.cs:45-56 | `FindByName("Foo")` is the select head, `where [name] = @p1`, with parameter "Foo". |
| `TransactionSql.SteveColumns` | Simple.Data.BehaviourTest/TransactionTest.cs:65 | The arguments Name and Age resolve to the columns Name and Age. |
| `TransactionSql.InsertWithNamedArguments` | Simple.Data.BehaviourTest/TransactionTest.cs:58-72 | `Insert(Name: "Steve", Age: 50)` is `insert into [dbo].[Users] ([Name],[Age]) values (@p0,@p1)`, with parameters "Steve", 50. |
| `TransactionSql.SteveByIdBindings` | Simple.Data.BehaviourTest/TransactionTest.cs:81-84 | For Id: 1, Name: "Steve", Age: 50, the key value is 1 and the SET bindings are Name and Age. |
| `TransactionSql.UpdateByIdWithNamedArguments` | Simple.Data.BehaviourTest/TransactionTest.cs:74-89 | `UpdateById(Id: 1, Name: "Steve", Age: 50)` is `update [dbo].[Users] set [Name] = @p1, [Age] = @p2 where [Id] = @p3`, with parameters "Steve", 50, 1; the same holds for `UpdateById(record)` (lines 112-131). |
| `TransactionSql.UpdateUsesPrimaryKey` | Simple.Data.BehaviourTest/TransactionTest.cs:26 | Update by record updates by the primary key Id. |
| `TransactionSql.UpdateWithDynamicObject` | Simple.Data.BehaviourTest/TransactionTest.cs:91-110 | `Update(record)` with Id, Name and Age gives the same text and parameters as UpdateById. |
| `TransactionSql.StaticUserArguments` | Simple.Data.BehaviourTest/TransactionTest.cs:138-143 | The User object gives the arguments Id 1, Name "Steve", Password DBNull, Age 50. |
| `TransactionSql.StaticUserBindings` | Simple.Data.BehaviourTest/TransactionTest.cs:146-149 | For the User object, the key value is 1 and the SET bindings are Name, Password and Age. |
| `TransactionSql.UpdateByWithStaticObject` | Simple.Data.BehaviourTest/TransactionTest.cs:182-204 | `UpdateById(user)` is `set [Name] = @p1, [Password] = @p2, [Age] = @p3 where [Id] = @p4`, with parameters "Steve", DBNull, 50, 1. |
| `TransactionSql.UpdateWithStaticObject` | Simple.Data.BehaviourTest/TransactionTest.cs:133-155 | `Update(user)` gives the same text and parameters, with DBNull for the Password that was never set. |
| `TransactionSql.BulkUpdateWithStaticObject` | Simple.Data.BehaviourTest/TransactionTest.cs:157-180 | `Update(new[] {user})` gives exactly one command, equal to the single-object update. |
| `TransactionSql.DeleteById` | Simple.Data.BehaviourTest/TransactionTest.cs:206-234 | `Delete(Id: 1)` and `DeleteById(1)` are both `delete from [dbo].[Users] where [Id] = @p1`, with parameter 1. |

## Left out

- Simple.Data/Composer.cs (assembly loading, reflection and exception translation) is I/O and runtime plumbing, so it is not part of this model.
- Simple.Data.SqlCe40/Properties/AssemblyInfo.cs holds assembly attributes only.
- Provider discovery (Simple.Data.Ado.Test/ProviderHelperTest.cs) is a foreign call into a plugin container.
- Materialization into user types (ConcreteTypeCreatorTest.cs) and dynamic records with cast caching (DynamicRecordTest.cs) are reflection and runtime dispatch, and include floating point.
- The pluralization rules (PluralizationTest.cs) belong to an external library. `Pluralizer` is an abstract parameter, and each fixture requires only the word pairs it uses (User and Users, USERPROFILE and USERPROFILES).
- Dynamic name-based calls (`OrderByBar()`, `ThenByQuux()`, `FindAllById`, `FindByName`, `UpdateById`, `DeleteById`, SimpleQueryTest.cs:58-76 and 112-119) are not modelled as dispatch. The fixtures are written against the explicit calls those names map onto: `CompileFindBy` with a criterion, `CompileUpdateBy` with key "Id", `CompileDeleteBy`.
- The integration tests under Simple.Data.SqlTest and Simple.Data.SqlCe40Test depend on the contents of a live database. They cover paging results, Having, With eager loading and schema Reset.
- The mocked connection, the transaction and its commit flag, and the execution of commands are not modelled. The model produces only the command a call would send.
- Letter case and whitespace of the SQL text: the text is a token sequence. Identifiers keep the case of the schema, and the tests compare lower-cased text.
- Compilation of OrderBy, Skip/Take paging, Join and ForUpdate clauses into SQL is not modelled. A query holding any of them compiles to an `Unsupported` error. The builder still models those clauses fully.
- Implicit joins through a reference owned by another table, or by a longer chain, are rejected as `Unsupported` rather than turned into a join.
- Having, Select and With clauses have no builder operation in the tests, so they are not modelled.
- A comparison with a null literal is rejected as `Unsupported` instead of being rendered as `is null`. Sub-expressions on the right of a comparison are rejected the same way.
- The date strings `"2011-01-01".to("2011-01-31")` are taken as already-parsed `Date` values; parsing dates is not modelled.
- An update that has key columns but no other column to set fails with `InvalidOperation`. The tests do not exercise this case, so the error kind is a modelling decision.
- The order of the static `User` class's properties (Id, Name, Password, Age) is not shown. It is taken from the SET order the tests assert.
- An ambiguous name is reported as `AmbiguousName`, a separate kind from `UnresolvableObject`; both are failures to resolve the name. Resolution stops at the first rule that accepts more than one stored name, instead of going on to later rules. No test shows an ambiguous name, so both choices are modelling decisions.
- Schema.Upper: folds only the ASCII letters a to z. .NET's `ToUpper` also folds other letters. Every name in the tests is ASCII.
- SqlCompiler.CompileDeleteBy: a delete without criteria is refused with `InvalidOperation` so that the model never deletes every row. No test exercises this case, so the error is a modelling decision.
- SqlCompiler.RecordArguments: a property missing from the record's values stands for a property holding null, bound as DBNull. An unset property of a value type holds that type's default in .NET (0 for an `int`), and the model does not supply such defaults. In the test the unset `Password` is a string, so null is right there.
- ObjectReferences.AndAlso and ObjectReferences.OrElse: no test in the core combines expressions with `&&` or `||`. Their rows cite the named-criteria FindBy, whose form with several criteria the model joins with `AndAlso`.
- SqlCompiler.Conjunction: several where clauses, and several named criteria, are joined with `and` from the left. The tests compile only a single criterion, so this is a modelling decision. `QueryWithTwoWheres`, `QueryOfWheres` and `LogicalRenders` state what follows from it.
- SqlCompiler.CompileUpdateBy: its own contract states only that an update without keys fails. Its full behaviour is in `UpdateAssembles`, `UpdateBindsByPosition` and `KeyValues`.
- SqlCompiler.CompileFindBy: its own contract covers only the call without criteria. The one-criterion case is `FindByAssembles`.
