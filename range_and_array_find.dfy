/** The mocked `Users` schema of the range and array tests, and the SQL those
    tests expect for ranges, `in` lists and `not in` lists. */
module RangeAndArrayFind {
  import opened Results
  import opened ObjectReferences
  import opened Schema
  import opened SqlCompiler
  import SimpleQueries

  /** `dbo.Users(Id, Name, Password, Age, JoinDate)`, primary key Id. */
  function Users(): Table {
    Table("Users", "dbo", BaseTable,
          [Column("Id"), Column("Name"), Column("Password"), Column("Age"), Column("JoinDate")], ["Id"])
  }

  function Database(p: Pluralizer): Context {
    Context([Users()], p)
  }

  function UsersColumn(name: string): Token {
    QualifiedColumn("dbo", "Users", name)
  }

  /** `select [dbo].[users].[id],...,[dbo].[users].[joindate] from [dbo].[users]` */
  function ExpectedSelect(): seq<Token> {
    [Kw(SELECT), UsersColumn("Id"), Comma, UsersColumn("Name"), Comma, UsersColumn("Password"), Comma,
     UsersColumn("Age"), Comma, UsersColumn("JoinDate"), Kw(FROM), TableName("dbo", "Users")]
  }

  /** Every column of the table, in the order the schema declares them. */
  lemma SelectListsAllColumns()
    ensures SelectHead(Users()) == ExpectedSelect()
  {
    var cols := Columns(Users());
    assert cols == [UsersColumn("Id"), UsersColumn("Name"), UsersColumn("Password"), UsersColumn("Age"), UsersColumn("JoinDate")];
    assert cols[1..][1..][1..][1..] == [UsersColumn("JoinDate")];
  }

  lemma UsersResolve(p: Pluralizer)
    ensures Find([Users()], "Users", p) == Ok(Users())
  {
    ExactMatchWins([Users()], 0, p);
  }

  lemma ColumnResolves(p: Pluralizer, k: nat)
    requires k < 5
    ensures ResolveColumn(Database(p), Users(), ColumnOf("Users", Users().columns[k].actualName)) == Ok(Users().columns[k])
  {
    UsersResolve(p);
    ExactColumnWins(Users(), k, p);
  }

  lemma IdRange(p: Pluralizer)
    ensures FormatExpression(Database(p), Users(), Compare(ColumnOf("Users", "Id"), Eq, Range(Int(1), Int(10))), 1)
            == Ok(Fragment([UsersColumn("Id")] + Between(1), [Int(1), Int(10)], 2))
  {
    ColumnResolves(p, 0);
    RangeRendersBetween(Database(p), Users(), ColumnOf("Users", "Id"), Column("Id"), Eq, Int(1), Int(10), 1);
  }

  lemma IdRangeAssembled(p: Pluralizer)
    ensures CompileFindBy(Database(p), "Users", [Criterion("Id", Range(Int(1), Int(10)))])
            == Ok(Command(ExpectedSelect() + ([Kw(WHERE)] + ([UsersColumn("Id")] + Between(1))), [Int(1), Int(10)]))
  {
    IdRange(p);
    UsersResolve(p);
    SelectListsAllColumns();
    FindByAssembles(Database(p), "Users", Criterion("Id", Range(Int(1), Int(10))), Users(), Fragment([UsersColumn("Id")] + Between(1), [Int(1), Int(10)], 2));
  }

  lemma BetweenText(column: string)
    ensures ExpectedSelect() + ([Kw(WHERE)] + ([UsersColumn(column)] + Between(1)))
            == ExpectedSelect() + [Kw(WHERE), UsersColumn(column), Kw(BETWEEN), Parameter(1, Start), Kw(AND), Parameter(1, End)]
  {
  }

  /** `FindAllById(1.to(10))`: `where [id] between @p1_start and @p1_end`, parameters [1, 10]. */
  lemma FindByWithIntRange(p: Pluralizer)
    ensures CompileFindBy(Database(p), "Users", [Criterion("Id", Range(Int(1), Int(10)))])
            == Ok(Command(ExpectedSelect() + [Kw(WHERE), UsersColumn("Id"), Kw(BETWEEN), Parameter(1, Start), Kw(AND), Parameter(1, End)],
                          [Int(1), Int(10)]))
  {
    IdRangeAssembled(p);
    BetweenText("Id");
  }

  function ExpectedList(): seq<Token> {
    [Kw(IN), LParen, Parameter(1, Item(0)), Comma, Parameter(1, Item(1)), Comma, Parameter(1, Item(2)), RParen]
  }

  lemma ThreeItems()
    ensures [Kw(IN), LParen] + Joined(ItemParameters(1, 3)) + [RParen] == ExpectedList()
  {
    var ps := ItemParameters(1, 3);
    assert ps == [Parameter(1, Item(0)), Parameter(1, Item(1)), Parameter(1, Item(2))];
    assert ps[1..][1..] == [Parameter(1, Item(2))];
  }

  lemma IdList(p: Pluralizer, op: Comparison)
    requires op == Eq || op == Ne
    ensures FormatExpression(Database(p), Users(), Compare(ColumnOf("Users", "Id"), op, ValueList([Int(1), Int(2), Int(3)])), 1)
            == Ok(Fragment((if op == Eq then [UsersColumn("Id")] else [UsersColumn("Id"), Kw(NOT)]) + ExpectedList(), [Int(1), Int(2), Int(3)], 2))
  {
    ColumnResolves(p, 0);
    ThreeItems();
    ListRendersIn(Database(p), Users(), ColumnOf("Users", "Id"), Column("Id"), op, [Int(1), Int(2), Int(3)], 1);
  }

  lemma IdArrayAssembled(p: Pluralizer)
    ensures CompileFindBy(Database(p), "Users", [Criterion("Id", ValueList([Int(1), Int(2), Int(3)]))])
            == Ok(Command(ExpectedSelect() + ([Kw(WHERE)] + ([UsersColumn("Id")] + ExpectedList())), [Int(1), Int(2), Int(3)]))
  {
    IdList(p, Eq);
    UsersResolve(p);
    SelectListsAllColumns();
    FindByAssembles(Database(p), "Users", Criterion("Id", ValueList([Int(1), Int(2), Int(3)])), Users(), Fragment([UsersColumn("Id")] + ExpectedList(), [Int(1), Int(2), Int(3)], 2));
  }

  lemma InText(lead: seq<Token>)
    ensures ExpectedSelect() + ([Kw(WHERE)] + (lead + ExpectedList())) == ExpectedSelect() + [Kw(WHERE)] + lead + ExpectedList()
  {
  }

  /** `FindAllById(new[] { 1, 2, 3 })`: `where [id] in (@p1_0,@p1_1,@p1_2)`, parameters [1, 2, 3]. */
  lemma FindByWithIntArray(p: Pluralizer)
    ensures CompileFindBy(Database(p), "Users", [Criterion("Id", ValueList([Int(1), Int(2), Int(3)]))])
            == Ok(Command(ExpectedSelect() + [Kw(WHERE)] + [UsersColumn("Id")] + ExpectedList(), [Int(1), Int(2), Int(3)]))
  {
    IdArrayAssembled(p);
    InText([UsersColumn("Id")]);
  }

  lemma NotInAssembled(p: Pluralizer)
    ensures var q := SimpleQueries.Where(SimpleQueries.NewQuery("Users"), Compare(ColumnOf("Users", "Id"), Ne, ValueList([Int(1), Int(2), Int(3)])));
            CompileQuery(Database(p), q)
            == Ok(Command(ExpectedSelect() + ([Kw(WHERE)] + ([UsersColumn("Id"), Kw(NOT)] + ExpectedList())), [Int(1), Int(2), Int(3)]))
  {
    var e := Compare(ColumnOf("Users", "Id"), Ne, ValueList([Int(1), Int(2), Int(3)]));
    var f := Fragment([UsersColumn("Id"), Kw(NOT)] + ExpectedList(), [Int(1), Int(2), Int(3)], 2);
    QueryWithOneWhere(Database(p), "Users", e);
    IdList(p, Ne);
    UsersResolve(p);
    SelectListsAllColumns();
    FindAssembles(Database(p), "Users", Users(), e, f);
  }

  /** `Query().Where(Users.Id != new[] { 1, 2, 3 })`: `where [id] not in (@p1_0,@p1_1,@p1_2)`. */
  lemma QueryWithNotEqualIntArray(p: Pluralizer)
    ensures var q := SimpleQueries.Where(SimpleQueries.NewQuery("Users"), Compare(ColumnOf("Users", "Id"), Ne, ValueList([Int(1), Int(2), Int(3)])));
            CompileQuery(Database(p), q)
            == Ok(Command(ExpectedSelect() + [Kw(WHERE)] + [UsersColumn("Id"), Kw(NOT)] + ExpectedList(), [Int(1), Int(2), Int(3)]))
  {
    NotInAssembled(p);
    InText([UsersColumn("Id"), Kw(NOT)]);
  }

  lemma JoinDateRange(p: Pluralizer)
    ensures FormatExpression(Database(p), Users(), Compare(ColumnOf("Users", "JoinDate"), Eq, Range(Date(2011, 1, 1), Date(2011, 1, 31))), 1)
            == Ok(Fragment([UsersColumn("JoinDate")] + Between(1), [Date(2011, 1, 1), Date(2011, 1, 31)], 2))
  {
    ColumnResolves(p, 4);
    RangeRendersBetween(Database(p), Users(), ColumnOf("Users", "JoinDate"), Column("JoinDate"), Eq, Date(2011, 1, 1), Date(2011, 1, 31), 1);
  }

  lemma DateRangeAssembled(p: Pluralizer)
    ensures CompileFindBy(Database(p), "Users", [Criterion("JoinDate", Range(Date(2011, 1, 1), Date(2011, 1, 31)))])
            == Ok(Command(ExpectedSelect() + ([Kw(WHERE)] + ([UsersColumn("JoinDate")] + Between(1))), [Date(2011, 1, 1), Date(2011, 1, 31)]))
  {
    JoinDateRange(p);
    UsersResolve(p);
    SelectListsAllColumns();
    FindByAssembles(Database(p), "Users", Criterion("JoinDate", Range(Date(2011, 1, 1), Date(2011, 1, 31))), Users(),
                    Fragment([UsersColumn("JoinDate")] + Between(1), [Date(2011, 1, 1), Date(2011, 1, 31)], 2));
  }

  /** `FindAllByJoinDate(2011-01-01 to 2011-01-31)`: the same between shape on
      the date column, the two dates as parameters. */
  lemma FindByWithDateRange(p: Pluralizer)
    ensures CompileFindBy(Database(p), "Users", [Criterion("JoinDate", Range(Date(2011, 1, 1), Date(2011, 1, 31)))])
            == Ok(Command(ExpectedSelect() + [Kw(WHERE), UsersColumn("JoinDate"), Kw(BETWEEN), Parameter(1, Start), Kw(AND), Parameter(1, End)],
                          [Date(2011, 1, 1), Date(2011, 1, 31)]))
  {
    DateRangeAssembled(p);
    BetweenText("JoinDate");
  }
}
