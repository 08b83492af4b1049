/** The schema model and its fuzzy name resolution (`TableCollection.Find`). */
module Schema {
  import opened Results

  datatype TableType = BaseTable | View

  datatype Column = Column(actualName: string)

  /** A table: actual name, owning schema, type, columns in declared order and
      primary key column names in key order. */
  datatype Table = Table(actualName: string, schema: string, tableType: TableType, columns: seq<Column>, primaryKey: seq<string>)

  /** The pluggable pluralization service; its linguistic rules are outside this model. */
  datatype Pluralizer = Pluralizer(pluralize: string -> string, singularize: string -> string, isPlural: string -> bool)

  function UpperChar(c: char): char {
    if 'a' <= c <= 'z' then (c as int - 32) as char else c
  }

  /** Upper-casing, the case folding used to compare names (ASCII letters only). */
  function Upper(s: string): string {
    seq(|s|, i requires 0 <= i < |s| => UpperChar(s[i]))
  }

  function RemoveUnderscores(s: string): string {
    if s == [] then []
    else (if s[0] == '_' then [] else [s[0]]) + RemoveUnderscores(s[1..])
  }

  /** The form in which snake_case and CamelCase spellings of a name agree:
      underscores removed, then upper-cased. */
  function Homogenize(s: string): string {
    Upper(RemoveUnderscores(s))
  }

  lemma {:induction false} RemoveUnderscoresConcat(a: string, b: string)
    ensures RemoveUnderscores(a + b) == RemoveUnderscores(a) + RemoveUnderscores(b)
  {
    if a == [] {
      assert a + b == b;
    } else {
      var head := if a[0] == '_' then [] else [a[0]];
      assert (a + b)[0] == a[0] && (a + b)[1..] == a[1..] + b;
      RemoveUnderscoresConcat(a[1..], b);
      calc {
        RemoveUnderscores(a + b);
        head + RemoveUnderscores(a[1..] + b);
        head + (RemoveUnderscores(a[1..]) + RemoveUnderscores(b));
        { assert head + (RemoveUnderscores(a[1..]) + RemoveUnderscores(b)) == (head + RemoveUnderscores(a[1..])) + RemoveUnderscores(b); }
        RemoveUnderscores(a) + RemoveUnderscores(b);
      }
    }
  }

  lemma {:induction false} NoUnderscores(s: string)
    requires '_' !in s
    ensures RemoveUnderscores(s) == s
  {
    if s != [] {
      assert s == [s[0]] + s[1..];
      NoUnderscores(s[1..]);
    }
  }

  /** The resolution rules, tried in this order. */
  datatype Rule = Exact | IgnoreCase | PluralOrSingular | SnakeOrCamel | SnakeOrCamelPlural

  const TableRules: seq<Rule> := [Exact, IgnoreCase, PluralOrSingular, SnakeOrCamel, SnakeOrCamelPlural]

  /** Column names are resolved without the pluralization rules. */
  const ColumnRules: seq<Rule> := [Exact, IgnoreCase, SnakeOrCamel]

  /** Whether a stored name answers a search name under one rule. */
  predicate Matches(rule: Rule, actual: string, search: string, p: Pluralizer) {
    match rule
    case Exact => actual == search
    case IgnoreCase => Upper(actual) == Upper(search)
    case PluralOrSingular =>
      || Upper(actual) == Upper(p.pluralize(search))
      || (p.isPlural(search) && Upper(actual) == Upper(p.singularize(search)))
    case SnakeOrCamel => Homogenize(actual) == Homogenize(search)
    case SnakeOrCamelPlural =>
      var h := Homogenize(search);
      || Homogenize(actual) == Homogenize(p.pluralize(h))
      || (p.isPlural(h) && Homogenize(actual) == Homogenize(p.singularize(h)))
  }

  predicate AnyRuleMatches(rules: seq<Rule>, actual: string, search: string, p: Pluralizer) {
    exists rule :: rule in rules && Matches(rule, actual, search, p)
  }

  /** The positions, from `from` on, of the names a rule accepts, in increasing order. */
  function MatchIndices(names: seq<string>, rule: Rule, search: string, p: Pluralizer, from: nat): (r: seq<nat>)
    requires from <= |names|
    ensures forall i :: i in r <==> from <= i < |names| && Matches(rule, names[i], search, p)
    ensures forall a, b :: 0 <= a < b < |r| ==> r[a] < r[b]
    decreases |names| - from
  {
    if from == |names| then []
    else
      var rest := MatchIndices(names, rule, search, p, from + 1);
      assert forall b :: 0 <= b < |rest| ==> rest[b] in rest;
      if Matches(rule, names[from], search, p) then [from] + rest else rest
  }

  /** Tries the rules in order: the first rule that accepts exactly one name
      picks it; one that accepts several makes the search ambiguous; when no
      rule accepts any name the search is unresolvable. */
  function FindIndex(names: seq<string>, rules: seq<Rule>, search: string, p: Pluralizer): (r: Result<nat>)
    ensures r.Ok? ==> r.value < |names| && AnyRuleMatches(rules, names[r.value], search, p)
    ensures r.Err? ==> r.error == UnresolvableObject(search) || r.error == AmbiguousName(search)
    ensures r == Err(UnresolvableObject(search)) <==>
              forall i :: 0 <= i < |names| ==> !AnyRuleMatches(rules, names[i], search, p)
    ensures r == Err(AmbiguousName(search)) ==>
              exists rule, i, j :: rule in rules && 0 <= i < j < |names|
                && Matches(rule, names[i], search, p) && Matches(rule, names[j], search, p)
    decreases |rules|
  {
    if rules == [] then Err(UnresolvableObject(search))
    else
      var hits := MatchIndices(names, rules[0], search, p, 0);
      if |hits| == 1 then
        assert hits[0] in hits;
        Ok(hits[0])
      else if |hits| > 1 then
        assert rules[0] in rules && hits[0] < hits[1];
        assert hits[0] in hits && hits[1] in hits;
        Err(AmbiguousName(search))
      else
        var r := FindIndex(names, rules[1..], search, p);
        assert forall rule :: rule in rules <==> rule == rules[0] || rule in rules[1..];
        assert forall i :: 0 <= i < |names| ==> !Matches(rules[0], names[i], search, p);
        r
  }

  /** Rule j is the first of the rules that accepts any of the names. */
  predicate FirstRuleWithHits(names: seq<string>, rules: seq<Rule>, search: string, p: Pluralizer, j: nat) {
    && j < |rules|
    && MatchIndices(names, rules[j], search, p, 0) != []
    && forall k :: 0 <= k < j ==> MatchIndices(names, rules[k], search, p, 0) == []
  }

  /** The rules are tried in precedence order: the first rule that accepts any
      name decides, with its single hit as the answer or its several hits as an
      ambiguity, and no looser rule is consulted after it. */
  lemma {:induction false} FindIndexPrecedence(names: seq<string>, rules: seq<Rule>, search: string, p: Pluralizer)
    ensures var r := FindIndex(names, rules, search, p);
            && (r.Ok? ==> exists j: nat :: FirstRuleWithHits(names, rules, search, p, j)
                                      && MatchIndices(names, rules[j], search, p, 0) == [r.value])
            && (r == Err(AmbiguousName(search)) ==>
                  exists j: nat :: FirstRuleWithHits(names, rules, search, p, j)
                              && |MatchIndices(names, rules[j], search, p, 0)| > 1)
    decreases |rules|
  {
    if rules != [] {
      var hits := MatchIndices(names, rules[0], search, p, 0);
      if |hits| == 1 {
        assert hits == [hits[0]];
        assert FirstRuleWithHits(names, rules, search, p, 0);
      } else if |hits| > 1 {
        assert FirstRuleWithHits(names, rules, search, p, 0);
      } else {
        var tail := rules[1..];
        FindIndexPrecedence(names, tail, search, p);
        var r := FindIndex(names, tail, search, p);
        assert FindIndex(names, rules, search, p) == r;
        if r.Ok? || r == Err(AmbiguousName(search)) {
          var j: nat :| FirstRuleWithHits(names, tail, search, p, j)
                   && (r.Ok? ==> MatchIndices(names, tail[j], search, p, 0) == [r.value])
                   && (r.Err? ==> |MatchIndices(names, tail[j], search, p, 0)| > 1);
          assert rules[j + 1] == tail[j];
          assert FirstRuleWithHits(names, rules, search, p, j + 1) by {
            forall k | 0 <= k < j + 1
              ensures MatchIndices(names, rules[k], search, p, 0) == []
            {
              if k > 0 {
                assert rules[k] == tail[k - 1];
              }
            }
          }
        }
      }
    }
  }

  function Names(tables: seq<Table>): (r: seq<string>)
    ensures |r| == |tables| && forall i :: 0 <= i < |tables| ==> r[i] == tables[i].actualName
  {
    seq(|tables|, i requires 0 <= i < |tables| => tables[i].actualName)
  }

  /** `TableCollection.Find(name)`: the stored table, with its actual name, that
      the name resolves to. */
  function Find(tables: seq<Table>, search: string, p: Pluralizer): (r: Result<Table>)
    ensures r.Ok? ==> r.value in tables
    ensures r.Err? ==> r.error == UnresolvableObject(search) || r.error == AmbiguousName(search)
  {
    var i :- FindIndex(Names(tables), TableRules, search, p);
    Ok(tables[i])
  }

  /** A found table answers the search under some rule, and the search is
      unresolvable exactly when no rule accepts any stored table. */
  lemma FindMeaning(tables: seq<Table>, search: string, p: Pluralizer)
    ensures var r := Find(tables, search, p);
            && (r.Ok? ==> AnyRuleMatches(TableRules, r.value.actualName, search, p))
            && (r == Err(UnresolvableObject(search)) <==>
                  forall t :: t in tables ==> !AnyRuleMatches(TableRules, t.actualName, search, p))
  {
    var names := Names(tables);
    var i := FindIndex(names, TableRules, search, p);
    assert forall t :: t in tables ==> exists k :: 0 <= k < |tables| && tables[k] == t && names[k] == t.actualName;
  }

  /** Table lookup follows rule precedence: the first rule that accepts any
      stored name decides, and the table found is that rule's only hit; an
      ambiguity means that rule accepts two or more tables. */
  lemma FindPrecedence(tables: seq<Table>, search: string, p: Pluralizer)
    ensures var r := Find(tables, search, p);
            var names := Names(tables);
            && (r.Ok? ==> exists j: nat, i: nat :: && FirstRuleWithHits(names, TableRules, search, p, j)
                                         && MatchIndices(names, TableRules[j], search, p, 0) == [i]
                                         && i < |tables| && r.value == tables[i])
            && (r == Err(AmbiguousName(search)) ==>
                  exists j: nat :: FirstRuleWithHits(names, TableRules, search, p, j)
                              && |MatchIndices(names, TableRules[j], search, p, 0)| > 1)
  {
    FindIndexPrecedence(Names(tables), TableRules, search, p);
  }

  function ColumnNames(t: Table): (r: seq<string>)
    ensures |r| == |t.columns| && forall i :: 0 <= i < |r| ==> r[i] == t.columns[i].actualName
  {
    seq(|t.columns|, i requires 0 <= i < |t.columns| => t.columns[i].actualName)
  }

  /** `Table.FindColumn(name)`: the column of t the name resolves to. */
  function FindColumn(t: Table, search: string, p: Pluralizer): (r: Result<Column>)
    ensures r.Ok? ==> r.value in t.columns
    ensures r.Err? ==> r.error == UnresolvableObject(search) || r.error == AmbiguousName(search)
  {
    var i :- FindIndex(ColumnNames(t), ColumnRules, search, p);
    Ok(t.columns[i])
  }

  /** The same for columns, under the column rules. */
  lemma FindColumnMeaning(t: Table, search: string, p: Pluralizer)
    ensures var r := FindColumn(t, search, p);
            && (r.Ok? ==> AnyRuleMatches(ColumnRules, r.value.actualName, search, p))
            && (r == Err(UnresolvableObject(search)) <==>
                  forall c :: c in t.columns ==> !AnyRuleMatches(ColumnRules, c.actualName, search, p))
  {
    var names := ColumnNames(t);
    var i := FindIndex(names, ColumnRules, search, p);
    assert forall c :: c in t.columns ==> exists k :: 0 <= k < |t.columns| && t.columns[k] == c && names[k] == c.actualName;
  }

  /** Column lookup follows the column rules' precedence in the same way. */
  lemma FindColumnPrecedence(t: Table, search: string, p: Pluralizer)
    ensures var r := FindColumn(t, search, p);
            var names := ColumnNames(t);
            && (r.Ok? ==> exists j: nat, i: nat :: && FirstRuleWithHits(names, ColumnRules, search, p, j)
                                         && MatchIndices(names, ColumnRules[j], search, p, 0) == [i]
                                         && i < |t.columns| && r.value == t.columns[i])
            && (r == Err(AmbiguousName(search)) ==>
                  exists j: nat :: FirstRuleWithHits(names, ColumnRules, search, p, j)
                              && |MatchIndices(names, ColumnRules[j], search, p, 0)| > 1)
  {
    FindIndexPrecedence(ColumnNames(t), ColumnRules, search, p);
  }

  /** An exact, unique name always wins, whatever looser rules would also accept. */
  lemma ExactMatchWins(tables: seq<Table>, k: nat, p: Pluralizer)
    requires k < |tables|
    requires forall i :: 0 <= i < |tables| && i != k ==> tables[i].actualName != tables[k].actualName
    ensures Find(tables, tables[k].actualName, p) == Ok(tables[k])
  {
    SingleHit(Names(tables), Exact, tables[k].actualName, p, 0, k);
  }

  /** The same for the columns of a table. */
  lemma ExactColumnWins(t: Table, k: nat, p: Pluralizer)
    requires k < |t.columns|
    requires forall i :: 0 <= i < |t.columns| && i != k ==> t.columns[i].actualName != t.columns[k].actualName
    ensures FindColumn(t, t.columns[k].actualName, p) == Ok(t.columns[k])
  {
    SingleHit(ColumnNames(t), Exact, t.columns[k].actualName, p, 0, k);
  }

  /** When only position k can match, the matching positions are [k] or nothing. */
  lemma {:induction false} SingleHit(names: seq<string>, rule: Rule, search: string, p: Pluralizer, from: nat, k: nat)
    requires from <= |names| && k < |names|
    requires forall i :: from <= i < |names| && i != k ==> !Matches(rule, names[i], search, p)
    ensures MatchIndices(names, rule, search, p, from)
            == if from <= k && Matches(rule, names[k], search, p) then [k] else []
    decreases |names| - from
  {
    if from < |names| {
      SingleHit(names, rule, search, p, from + 1, k);
    }
  }

  /** The rules order the cases of the tests: exact implies case-insensitive,
      and case-insensitive implies the snake/camel rule. */
  lemma {:induction false} UpperHomogenize(a: string, b: string)
    requires Upper(a) == Upper(b)
    ensures Homogenize(a) == Homogenize(b)
  {
    if a != [] {
      assert Upper(a)[0] == UpperChar(a[0]) && Upper(b)[0] == UpperChar(b[0]);
      assert UpperChar(a[0]) == '_' <==> a[0] == '_';
      assert UpperChar(b[0]) == '_' <==> b[0] == '_';
      assert Upper(a[1..]) == Upper(a)[1..];
      assert Upper(b[1..]) == Upper(b)[1..];
      UpperHomogenize(a[1..], b[1..]);
      var ha := if a[0] == '_' then [] else [a[0]];
      var hb := if b[0] == '_' then [] else [b[0]];
      UpperConcat(ha, RemoveUnderscores(a[1..]));
      UpperConcat(hb, RemoveUnderscores(b[1..]));
    }
  }

  lemma UpperConcat(a: string, b: string)
    ensures Upper(a + b) == Upper(a) + Upper(b)
  {
  }

  lemma RulesNest(actual: string, search: string, p: Pluralizer)
    ensures Matches(Exact, actual, search, p) ==> Matches(IgnoreCase, actual, search, p)
    ensures Matches(IgnoreCase, actual, search, p) ==> Matches(SnakeOrCamel, actual, search, p)
  {
    if Upper(actual) == Upper(search) {
      UpperHomogenize(actual, search);
    }
  }

  /** The whole contract of the tests' helper: in a collection that holds one
      table, a search succeeds exactly when some rule accepts the table's name,
      and then it returns that table with its actual name. */
  lemma FindInSingleTable(t: Table, search: string, p: Pluralizer)
    ensures Find([t], search, p).Ok? <==> AnyRuleMatches(TableRules, t.actualName, search, p)
    ensures Find([t], search, p).Ok? ==> Find([t], search, p).value == t
  {
    FindMeaning([t], search, p);
  }

  // ---- The fixtures: a collection holding one table, searched by another spelling ----

  function Named(actualName: string): Table {
    Table(actualName, "", BaseTable, [], [])
  }

  /** What the fixtures assume of the pluralization service, and nothing more. */
  predicate FixturePluralizer(p: Pluralizer) {
    && p.pluralize("User") == "Users"
    && p.isPlural("Users") && p.singularize("Users") == "User"
    && p.pluralize("USERPROFILE") == "USERPROFILES"
    && p.isPlural("USERPROFILES") && p.singularize("USERPROFILES") == "USERPROFILE"
  }

  /** "Users" finds "Users"; "Users" finds a table stored as "USERS", so matching ignores case. */
  lemma FindExactAndCaseInsensitive(p: Pluralizer)
    ensures Find([Named("Users")], "Users", p) == Ok(Named("Users"))
    ensures Find([Named("USERS")], "Users", p) == Ok(Named("USERS"))
  {
    FindInSingleTable(Named("Users"), "Users", p);
    assert Matches(Exact, "Users", "Users", p);
    FindInSingleTable(Named("USERS"), "Users", p);
    UpperUsers();
    assert Matches(IgnoreCase, "USERS", "Users", p);
  }

  lemma UpperUsers()
    ensures Upper("Users") == "USERS" == Upper("USERS")
  {
  }

  /** "User" finds "Users" and "Users" finds "User". */
  lemma FindPluralAndSingular(p: Pluralizer)
    requires FixturePluralizer(p)
    ensures Find([Named("Users")], "User", p) == Ok(Named("Users"))
    ensures Find([Named("User")], "Users", p) == Ok(Named("User"))
  {
    FindInSingleTable(Named("Users"), "User", p);
    assert Matches(PluralOrSingular, "Users", "User", p);
    FindInSingleTable(Named("User"), "Users", p);
    assert Matches(PluralOrSingular, "User", "Users", p);
  }

  /** Joining two underscore-free words with an underscore is undone by removing underscores. */
  lemma SnakeJoin(a: string, b: string)
    requires '_' !in a && '_' !in b
    ensures RemoveUnderscores(a + "_" + b) == a + b
  {
    NoUnderscores(a);
    NoUnderscores(b);
    CleanJoin(a, b);
  }

  lemma CleanJoin(a: string, b: string)
    requires RemoveUnderscores(a) == a && RemoveUnderscores(b) == b
    ensures RemoveUnderscores(a + "_" + b) == a + b
  {
    var u := "_";
    assert RemoveUnderscores(u) == [] by {
      assert u[0] == '_' && u[1..] == [];
    }
    calc {
      RemoveUnderscores(a + u + b);
      { RemoveUnderscoresConcat(a + u, b); }
      RemoveUnderscores(a + u) + RemoveUnderscores(b);
      { RemoveUnderscoresConcat(a, u); }
      RemoveUnderscores(a) + RemoveUnderscores(u) + RemoveUnderscores(b);
      a + [] + b;
      { assert a + [] == a; }
      a + b;
    }
  }

  lemma RemoveUnderscoresSnake()
    ensures RemoveUnderscores("USER_PROFILE") == "USERPROFILE"
  {
    SnakeJoin("USER", "PROFILE");
    assert "USER" + "_" + "PROFILE" == "USER_PROFILE";
    assert "USER" + "PROFILE" == "USERPROFILE";
  }

  lemma UpperProfile()
    ensures Upper("USERPROFILE") == "USERPROFILE"
    ensures Upper("UserProfile") == "USERPROFILE"
  {
  }

  lemma UpperProfiles()
    ensures Upper("USERPROFILES") == "USERPROFILES"
    ensures Upper("UserProfiles") == "USERPROFILES"
  {
  }

  lemma HomogenizedFixtureNames()
    ensures Homogenize("USER_PROFILE") == "USERPROFILE"
    ensures Homogenize("UserProfile") == "USERPROFILE"
    ensures Homogenize("UserProfiles") == "USERPROFILES"
    ensures Homogenize("USERPROFILE") == "USERPROFILE"
    ensures Homogenize("USERPROFILES") == "USERPROFILES"
  {
    HomogenizedSnakeName(); HomogenizedCamelName(); HomogenizedPluralCamelName(); HomogenizedUpperName(); HomogenizedPluralUpperName();
  }
  lemma HomogenizedSnakeName() ensures Homogenize("USER_PROFILE") == "USERPROFILE" { RemoveUnderscoresSnake(); UpperProfile(); }
  lemma HomogenizedCamelName() ensures Homogenize("UserProfile") == "USERPROFILE" { NoUnderscores("UserProfile"); UpperProfile(); }
  lemma HomogenizedPluralCamelName() ensures Homogenize("UserProfiles") == "USERPROFILES" { NoUnderscores("UserProfiles"); UpperProfiles(); }
  lemma HomogenizedUpperName() ensures Homogenize("USERPROFILE") == "USERPROFILE" { NoUnderscores("USERPROFILE"); UpperProfile(); }
  lemma HomogenizedPluralUpperName() ensures Homogenize("USERPROFILES") == "USERPROFILES" { NoUnderscores("USERPROFILES"); UpperProfiles(); }

  /** "UserProfile" and "UserProfiles" find "USER_PROFILE". */
  lemma FindSnakeFromCamel(p: Pluralizer)
    requires FixturePluralizer(p)
    ensures Find([Named("USER_PROFILE")], "UserProfile", p) == Ok(Named("USER_PROFILE"))
    ensures Find([Named("USER_PROFILE")], "UserProfiles", p) == Ok(Named("USER_PROFILE"))
  {
    HomogenizedFixtureNames();
    FindInSingleTable(Named("USER_PROFILE"), "UserProfile", p);
    assert Matches(SnakeOrCamel, "USER_PROFILE", "UserProfile", p);
    FindInSingleTable(Named("USER_PROFILE"), "UserProfiles", p);
    assert Matches(SnakeOrCamelPlural, "USER_PROFILE", "UserProfiles", p);
  }

  /** "USER_PROFILE" finds "UserProfile", and also "UserProfiles". */
  lemma FindCamelFromSnake(p: Pluralizer)
    requires FixturePluralizer(p)
    ensures Find([Named("UserProfile")], "USER_PROFILE", p) == Ok(Named("UserProfile"))
    ensures Find([Named("UserProfiles")], "USER_PROFILE", p) == Ok(Named("UserProfiles"))
  {
    HomogenizedFixtureNames();
    FindInSingleTable(Named("UserProfile"), "USER_PROFILE", p);
    assert Matches(SnakeOrCamel, "UserProfile", "USER_PROFILE", p);
    FindInSingleTable(Named("UserProfiles"), "USER_PROFILE", p);
    assert Matches(SnakeOrCamelPlural, "UserProfiles", "USER_PROFILE", p);
  }
}
