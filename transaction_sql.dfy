/** The mocked `Users` schema of the transaction tests, and the SQL and
    parameters those tests expect for each verb. */
module TransactionSql {
  import opened Results
  import opened ObjectReferences
  import opened Schema
  import opened SqlCompiler

  /** `dbo.Users(Id, Name, Password, Age)`, primary key Id. */
  function Users(): Table {
    Table("Users", "dbo", BaseTable, [Column("Id"), Column("Name"), Column("Password"), Column("Age")], ["Id"])
  }

  function Database(p: Pluralizer): Context {
    Context([Users()], p)
  }

  function UsersColumn(name: string): Token {
    QualifiedColumn("dbo", "Users", name)
  }

  /** `select [dbo].[Users].[Id], [dbo].[Users].[Name], [dbo].[Users].[Password], [dbo].[Users].[Age] from [dbo].[Users]` */
  function ExpectedSelect(): seq<Token> {
    [Kw(SELECT), UsersColumn("Id"), Comma, UsersColumn("Name"), Comma, UsersColumn("Password"), Comma,
     UsersColumn("Age"), Kw(FROM), TableName("dbo", "Users")]
  }

  lemma SelectListsAllColumns()
    ensures SelectHead(Users()) == ExpectedSelect()
  {
    var cols := Columns(Users());
    assert cols == [UsersColumn("Id"), UsersColumn("Name"), UsersColumn("Password"), UsersColumn("Age")];
    assert cols[1..][1..][1..] == [UsersColumn("Age")];
  }

  lemma UsersResolve(p: Pluralizer)
    ensures Find([Users()], "Users", p) == Ok(Users())
  {
    ExactMatchWins([Users()], 0, p);
  }

  lemma ColumnFound(p: Pluralizer, k: nat)
    requires k < 4
    ensures FindColumn(Users(), Users().columns[k].actualName, p) == Ok(Users().columns[k])
  {
    ExactColumnWins(Users(), k, p);
  }

  lemma ColumnResolves(p: Pluralizer, k: nat)
    requires k < 4
    ensures ResolveColumn(Database(p), Users(), ColumnOf("Users", Users().columns[k].actualName)) == Ok(Users().columns[k])
  {
    UsersResolve(p);
    ColumnFound(p, k);
  }

  // ---- Find ----

  lemma IdEqualsOne(p: Pluralizer)
    ensures FormatExpression(Database(p), Users(), Compare(ColumnOf("Users", "Id"), Eq, Literal(Int(1))), 1)
            == Ok(Fragment([UsersColumn("Id"), Operator(Eq), Parameter(1, Plain)], [Int(1)], 2))
  {
    ColumnResolves(p, 0);
    LiteralRendersComparison(Database(p), Users(), ColumnOf("Users", "Id"), Column("Id"), Eq, Int(1), 1);
  }

  lemma FindAssembled(p: Pluralizer)
    ensures CompileFind(Database(p), "Users", Some(Compare(ColumnOf("Users", "Id"), Eq, Literal(Int(1)))))
            == Ok(Command(ExpectedSelect() + ([Kw(WHERE)] + [UsersColumn("Id"), Operator(Eq), Parameter(1, Plain)]), [Int(1)]))
  {
    IdEqualsOne(p);
    UsersResolve(p);
    SelectListsAllColumns();
    FindAssembles(Database(p), "Users", Users(), Compare(ColumnOf("Users", "Id"), Eq, Literal(Int(1))),
                  Fragment([UsersColumn("Id"), Operator(Eq), Parameter(1, Plain)], [Int(1)], 2));
  }

  lemma EqualityText(column: string)
    ensures ExpectedSelect() + ([Kw(WHERE)] + [UsersColumn(column), Operator(Eq), Parameter(1, Plain)])
            == ExpectedSelect() + [Kw(WHERE), UsersColumn(column), Operator(Eq), Parameter(1, Plain)]
  {
  }

  /** `Find(Users.Id == 1)`: all columns, `where [dbo].[users].[id] = @p1`, parameters [1]. */
  lemma FindEqualWithInt32(p: Pluralizer)
    ensures CompileFind(Database(p), "Users", Some(Compare(ColumnOf("Users", "Id"), Eq, Literal(Int(1)))))
            == Ok(Command(ExpectedSelect() + [Kw(WHERE), UsersColumn("Id"), Operator(Eq), Parameter(1, Plain)], [Int(1)]))
  {
    FindAssembled(p);
    EqualityText("Id");
  }

  lemma NameEqualsFoo(p: Pluralizer)
    ensures FormatExpression(Database(p), Users(), Compare(ColumnOf("Users", "Name"), Eq, Literal(Str("Foo"))), 1)
            == Ok(Fragment([UsersColumn("Name"), Operator(Eq), Parameter(1, Plain)], [Str("Foo")], 2))
  {
    ColumnResolves(p, 1);
    LiteralRendersComparison(Database(p), Users(), ColumnOf("Users", "Name"), Column("Name"), Eq, Str("Foo"), 1);
  }

  lemma FindByAssembled(p: Pluralizer)
    ensures CompileFindBy(Database(p), "Users", [Criterion("Name", Literal(Str("Foo")))])
            == Ok(Command(ExpectedSelect() + ([Kw(WHERE)] + [UsersColumn("Name"), Operator(Eq), Parameter(1, Plain)]), [Str("Foo")]))
  {
    NameEqualsFoo(p);
    UsersResolve(p);
    SelectListsAllColumns();
    FindByAssembles(Database(p), "Users", Criterion("Name", Literal(Str("Foo"))), Users(),
                    Fragment([UsersColumn("Name"), Operator(Eq), Parameter(1, Plain)], [Str("Foo")], 2));
  }

  /** `FindByName("Foo")`: all columns, `where [dbo].[Users].[name] = @p1`, parameters ["Foo"]. */
  lemma FindByDynamicSingleColumn(p: Pluralizer)
    ensures CompileFindBy(Database(p), "Users", [Criterion("Name", Literal(Str("Foo")))])
            == Ok(Command(ExpectedSelect() + [Kw(WHERE), UsersColumn("Name"), Operator(Eq), Parameter(1, Plain)], [Str("Foo")]))
  {
    FindByAssembled(p);
    EqualityText("Name");
  }

  // ---- Insert ----

  function SteveAged50(): seq<Argument> {
    [Argument("Name", Str("Steve")), Argument("Age", Int(50))]
  }

  /** Users' column names are distinct. */
  lemma DistinctColumnNames()
    ensures forall i, k :: 0 <= i < 4 && 0 <= k < 4 && i != k ==> Users().columns[i].actualName != Users().columns[k].actualName
  {
  }

  lemma SteveNames()
    ensures NamesOf(SteveAged50()) == NamesAt(Users(), [1, 3])
    ensures ColumnsAt(Users(), [1, 3]) == [Column("Name"), Column("Age")]
  {
  }

  lemma SteveColumns(p: Pluralizer)
    ensures ResolveColumns(Users(), NamesOf(SteveAged50()), p) == Ok([Column("Name"), Column("Age")])
  {
    DistinctColumnNames();
    ResolveExactNames(Users(), [1, 3], p);
    SteveNames();
  }

  lemma InsertTextOfSteve()
    ensures InsertText(Users(), [Column("Name"), Column("Age")], 2)
            == [Kw(INSERT_INTO), TableName("dbo", "Users"), LParen, ColumnName("Name"), Comma, ColumnName("Age"), RParen,
                Kw(VALUES), LParen, Parameter(0, Plain), Comma, Parameter(1, Plain), RParen]
  {
    assert ColumnNameTokens([Column("Name"), Column("Age")]) == [ColumnName("Name"), ColumnName("Age")];
    assert InsertParameters(2) == [Parameter(0, Plain), Parameter(1, Plain)];
  }

  lemma InsertAssembled(p: Pluralizer)
    ensures CompileInsert(Database(p), "Users", SteveAged50())
            == Ok(Command(InsertText(Users(), [Column("Name"), Column("Age")], 2), ValuesOf(SteveAged50())))
  {
    UsersResolve(p);
    SteveColumns(p);
    InsertAssembles(Database(p), "Users", SteveAged50(), Users(), [Column("Name"), Column("Age")]);
  }

  /** `Insert(Name: "Steve", Age: 50)`: `insert into [dbo].[Users] ([Name],[Age]) values (@p0,@p1)`,
      parameters ["Steve", 50]. */
  lemma InsertWithNamedArguments(p: Pluralizer)
    ensures CompileInsert(Database(p), "Users", SteveAged50())
            == Ok(Command([Kw(INSERT_INTO), TableName("dbo", "Users"), LParen, ColumnName("Name"), Comma, ColumnName("Age"), RParen,
                           Kw(VALUES), LParen, Parameter(0, Plain), Comma, Parameter(1, Plain), RParen],
                          [Str("Steve"), Int(50)]))
  {
    InsertAssembled(p);
    InsertTextOfSteve();
    SteveValues();
  }

  lemma SteveValues()
    ensures ValuesOf(SteveAged50()) == [Str("Steve"), Int(50)]
  {
  }

  // ---- Update ----

  /** `UpdateById(Id: 1, Name: "Steve", Age: 50)`, and a dynamic record with those members in that order. */
  function SteveById(): seq<Argument> {
    [Argument("Id", Int(1)), Argument("Name", Str("Steve")), Argument("Age", Int(50))]
  }

  /** `new User { Id = 1, Name = "Steve", Age = 50 }`: Password is declared but never set. */
  function StaticUser(): StaticRecord {
    StaticRecord(["Id", "Name", "Password", "Age"], map["Id" := Int(1), "Name" := Str("Steve"), "Age" := Int(50)])
  }

  lemma StaticUserArguments()
    ensures RecordArguments(StaticUser())
            == [Argument("Id", Int(1)), Argument("Name", Str("Steve")), Argument("Password", DbNull), Argument("Age", Int(50))]
  {
    var args := RecordArguments(StaticUser());
    assert "Password" !in StaticUser().values;
    assert args[2].value == DbNull;
  }

  lemma IdNames()
    ensures NamesAt(Users(), [0]) == ["Id"] && ColumnsAt(Users(), [0]) == [Column("Id")]
  {
  }

  lemma IdKey(p: Pluralizer)
    ensures ResolveColumns(Users(), ["Id"], p) == Ok([Column("Id")])
  {
    DistinctColumnNames();
    ResolveExactNames(Users(), [0], p);
    IdNames();
  }

  lemma SteveByIdNames()
    ensures NamesOf(SteveById()) == NamesAt(Users(), [0, 1, 3])
    ensures ColumnsAt(Users(), [0, 1, 3]) == [Column("Id"), Column("Name"), Column("Age")]
  {
  }

  lemma SteveByIdColumns(p: Pluralizer)
    ensures ResolveColumns(Users(), NamesOf(SteveById()), p) == Ok([Column("Id"), Column("Name"), Column("Age")])
  {
    DistinctColumnNames();
    ResolveExactNames(Users(), [0, 1, 3], p);
    SteveByIdNames();
  }

  lemma SteveByIdBindings()
    ensures var bs := Bindings([Column("Id"), Column("Name"), Column("Age")], SteveById());
            && KeyValues(bs, [Column("Id")]) == Ok([Int(1)])
            && NonKey(bs, [Column("Id")]) == [Binding(Column("Name"), Str("Steve")), Binding(Column("Age"), Int(50))]
  {
    var bs := Bindings([Column("Id"), Column("Name"), Column("Age")], SteveById());
    assert bs == [Binding(Column("Id"), Int(1)), Binding(Column("Name"), Str("Steve")), Binding(Column("Age"), Int(50))];
    assert bs[1..][1..] == [Binding(Column("Age"), Int(50))];
    assert [Int(1)] + [] == [Int(1)];
  }

  function SteveUpdate(): seq<Binding> {
    [Binding(Column("Name"), Str("Steve")), Binding(Column("Age"), Int(50))]
  }

  function ExpectedUpdate(): seq<Token> {
    [Kw(UPDATE), TableName("dbo", "Users"), Kw(SET),
     ColumnName("Name"), Operator(Eq), Parameter(1, Plain), Comma, ColumnName("Age"), Operator(Eq), Parameter(2, Plain),
     Kw(WHERE), UsersColumn("Id"), Operator(Eq), Parameter(3, Plain)]
  }

  lemma UpdateTextOfSteve()
    ensures UpdateText(Users(), SteveUpdate(), [Column("Id")]) == ExpectedUpdate()
  {
    assert SetColumns(SteveUpdate()) == [ColumnName("Name"), ColumnName("Age")];
    assert KeyColumns(Users(), [Column("Id")]) == [UsersColumn("Id")];
    assert [ColumnName("Name"), ColumnName("Age")][1..] == [ColumnName("Age")];
  }

  lemma UpdateByIdAssembled(p: Pluralizer)
    ensures CompileUpdateBy(Database(p), "Users", ["Id"], SteveById())
            == Ok(Command(UpdateText(Users(), SteveUpdate(), [Column("Id")]), BindingValues(SteveUpdate()) + [Int(1)]))
  {
    UsersResolve(p);
    IdKey(p);
    SteveByIdColumns(p);
    SteveByIdBindings();
    UpdateAssembles(Database(p), "Users", ["Id"], SteveById(), Users(), [Column("Id")],
                    [Column("Id"), Column("Name"), Column("Age")], [Int(1)], SteveUpdate());
  }

  lemma SteveParameters()
    ensures BindingValues(SteveUpdate()) + [Int(1)] == [Str("Steve"), Int(50), Int(1)]
  {
    assert BindingValues(SteveUpdate()) == [Str("Steve"), Int(50)];
  }

  /** `UpdateById(Id: 1, Name: "Steve", Age: 50)` and `UpdateById(record)`:
      `update [dbo].[Users] set [Name] = @p1, [Age] = @p2 where [dbo].[Users].[Id] = @p3`,
      parameters ["Steve", 50, 1]. */
  lemma UpdateByIdWithNamedArguments(p: Pluralizer)
    ensures CompileUpdateBy(Database(p), "Users", ["Id"], SteveById())
            == Ok(Command(ExpectedUpdate(), [Str("Steve"), Int(50), Int(1)]))
  {
    UpdateByIdAssembled(p);
    UpdateTextOfSteve();
    SteveParameters();
  }

  /** The key of `Update(record)` is the primary key, so it compiles as `UpdateById`. */
  lemma UpdateUsesPrimaryKey(p: Pluralizer, data: seq<Argument>)
    ensures CompileUpdate(Database(p), "Users", data) == CompileUpdateBy(Database(p), "Users", ["Id"], data)
  {
    UsersResolve(p);
  }

  /** `Update(record)` with a dynamic record holding Id, Name and Age. */
  lemma UpdateWithDynamicObject(p: Pluralizer)
    ensures CompileUpdate(Database(p), "Users", SteveById())
            == Ok(Command(ExpectedUpdate(), [Str("Steve"), Int(50), Int(1)]))
  {
    UpdateUsesPrimaryKey(p, SteveById());
    UpdateByIdWithNamedArguments(p);
  }

  lemma StaticUserNames()
    ensures NamesOf(RecordArguments(StaticUser())) == NamesAt(Users(), [0, 1, 2, 3])
    ensures ColumnsAt(Users(), [0, 1, 2, 3]) == Users().columns
  {
    assert NamesOf(RecordArguments(StaticUser())) == StaticUser().properties;
  }

  lemma StaticUserColumns(p: Pluralizer)
    ensures ResolveColumns(Users(), NamesOf(RecordArguments(StaticUser())), p) == Ok(Users().columns)
  {
    DistinctColumnNames();
    ResolveExactNames(Users(), [0, 1, 2, 3], p);
    StaticUserNames();
  }

  function StaticUpdate(): seq<Binding> {
    [Binding(Column("Name"), Str("Steve")), Binding(Column("Password"), DbNull), Binding(Column("Age"), Int(50))]
  }

  function StaticBindings(): seq<Binding> {
    [Binding(Column("Id"), Int(1)), Binding(Column("Name"), Str("Steve")), Binding(Column("Password"), DbNull), Binding(Column("Age"), Int(50))]
  }

  lemma StaticUserBound()
    ensures Bindings(Users().columns, RecordArguments(StaticUser())) == StaticBindings()
  {
    StaticUserArguments();
  }

  lemma StaticKeyValues()
    ensures KeyValues(StaticBindings(), [Column("Id")]) == Ok([Int(1)])
  {
    assert [Int(1)] + [] == [Int(1)];
  }

  lemma StaticNonKey()
    ensures NonKey(StaticBindings(), [Column("Id")]) == StaticUpdate()
  {
    var bs := StaticBindings();
    assert bs[1..] == StaticUpdate();
    assert StaticUpdate()[1..][1..] == [Binding(Column("Age"), Int(50))];
  }

  lemma StaticUserBindings()
    ensures var bs := Bindings(Users().columns, RecordArguments(StaticUser()));
            && KeyValues(bs, [Column("Id")]) == Ok([Int(1)])
            && NonKey(bs, [Column("Id")]) == StaticUpdate()
  {
    StaticUserBound();
    StaticKeyValues();
    StaticNonKey();
  }

  function ExpectedStaticUpdate(): seq<Token> {
    [Kw(UPDATE), TableName("dbo", "Users"), Kw(SET),
     ColumnName("Name"), Operator(Eq), Parameter(1, Plain), Comma,
     ColumnName("Password"), Operator(Eq), Parameter(2, Plain), Comma,
     ColumnName("Age"), Operator(Eq), Parameter(3, Plain),
     Kw(WHERE), UsersColumn("Id"), Operator(Eq), Parameter(4, Plain)]
  }

  lemma StaticUpdateText()
    ensures UpdateText(Users(), StaticUpdate(), [Column("Id")]) == ExpectedStaticUpdate()
  {
    var sets := [ColumnName("Name"), ColumnName("Password"), ColumnName("Age")];
    assert SetColumns(StaticUpdate()) == sets;
    assert KeyColumns(Users(), [Column("Id")]) == [UsersColumn("Id")];
    assert sets[1..][1..] == [ColumnName("Age")];
  }

  lemma StaticUpdateAssembled(p: Pluralizer)
    ensures CompileUpdateBy(Database(p), "Users", ["Id"], RecordArguments(StaticUser()))
            == Ok(Command(UpdateText(Users(), StaticUpdate(), [Column("Id")]), BindingValues(StaticUpdate()) + [Int(1)]))
  {
    UsersResolve(p);
    IdKey(p);
    StaticUserColumns(p);
    StaticUserBindings();
    UpdateAssembles(Database(p), "Users", ["Id"], RecordArguments(StaticUser()), Users(), [Column("Id")],
                    Users().columns, [Int(1)], StaticUpdate());
  }

  lemma StaticParameters()
    ensures BindingValues(StaticUpdate()) + [Int(1)] == [Str("Steve"), DbNull, Int(50), Int(1)]
  {
    assert BindingValues(StaticUpdate()) == [Str("Steve"), DbNull, Int(50)];
  }

  /** `UpdateById(user)` with a static User whose Password was not set:
      `update [dbo].[Users] set [Name] = @p1, [Password] = @p2, [Age] = @p3 where [dbo].[Users].[Id] = @p4`,
      parameters ["Steve", DBNull, 50, 1]. */
  lemma UpdateByWithStaticObject(p: Pluralizer)
    ensures CompileUpdateBy(Database(p), "Users", ["Id"], RecordArguments(StaticUser()))
            == Ok(Command(ExpectedStaticUpdate(), [Str("Steve"), DbNull, Int(50), Int(1)]))
  {
    StaticUpdateAssembled(p);
    StaticUpdateText();
    StaticParameters();
  }

  /** `Update(user)`: the same statement, keyed by the primary key. */
  lemma UpdateWithStaticObject(p: Pluralizer)
    ensures CompileUpdate(Database(p), "Users", RecordArguments(StaticUser()))
            == Ok(Command(ExpectedStaticUpdate(), [Str("Steve"), DbNull, Int(50), Int(1)]))
  {
    UpdateUsesPrimaryKey(p, RecordArguments(StaticUser()));
    UpdateByWithStaticObject(p);
  }

  /** `Update(new[] { user })`: one statement, the same as the single update. */
  lemma BulkUpdateWithStaticObject(p: Pluralizer)
    ensures CompileUpdateAll(Database(p), "Users", [RecordArguments(StaticUser())])
            == Ok([Command(ExpectedStaticUpdate(), [Str("Steve"), DbNull, Int(50), Int(1)])])
  {
    UpdateWithStaticObject(p);
    UpdateAllOfOne(Database(p), "Users", RecordArguments(StaticUser()));
  }

  // ---- Delete ----

  lemma DeleteAssembled(p: Pluralizer)
    ensures CompileDeleteBy(Database(p), "Users", [Criterion("Id", Literal(Int(1)))])
            == Ok(Command([Kw(DELETE_FROM), TableName("dbo", "Users"), Kw(WHERE)] + [UsersColumn("Id"), Operator(Eq), Parameter(1, Plain)], [Int(1)]))
  {
    IdEqualsOne(p);
    UsersResolve(p);
    DeleteAssembles(Database(p), "Users", Criterion("Id", Literal(Int(1))), Users(),
                    Fragment([UsersColumn("Id"), Operator(Eq), Parameter(1, Plain)], [Int(1)], 2));
  }

  /** `Delete(Id: 1)` and `DeleteById(1)`: `delete from [dbo].[Users] where [dbo].[Users].[Id] = @p1`,
      parameters [1]. */
  lemma DeleteById(p: Pluralizer)
    ensures CompileDeleteBy(Database(p), "Users", [Criterion("Id", Literal(Int(1)))])
            == Ok(Command([Kw(DELETE_FROM), TableName("dbo", "Users"), Kw(WHERE), UsersColumn("Id"), Operator(Eq), Parameter(1, Plain)], [Int(1)]))
  {
    DeleteAssembled(p);
    DeleteText();
  }

  lemma DeleteText()
    ensures [Kw(DELETE_FROM), TableName("dbo", "Users"), Kw(WHERE)] + [UsersColumn("Id"), Operator(Eq), Parameter(1, Plain)]
            == [Kw(DELETE_FROM), TableName("dbo", "Users"), Kw(WHERE), UsersColumn("Id"), Operator(Eq), Parameter(1, Plain)]
  {
  }
}
