/**
 * The FROM reference and WHERE clause of a catalog query, as text, and what a
 * reader of SQL gets back from that text.
 */
module CatalogClause {
  import opened Wrappers
  import opened Text
  import opened CatalogFilter

  // ----- reading quoted tokens and conditions back

  /** After an opening quote: the token's value and the text after its closing quote. */
  function ReadQuoted(s: string, q: char): Option<(string, string)>
    decreases |s|
  {
    if s == [] then None
    else if s[0] != q then
      match ReadQuoted(s[1..], q) case None => None case Some((v, rest)) => Some(([s[0]] + v, rest))
    else if |s| > 1 && s[1] == q then
      match ReadQuoted(s[2..], q) case None => None case Some((v, rest)) => Some(([q] + v, rest))
    else Some(([], s[1..]))
  }

  /** A doubled token is read as one whole token, whatever follows its closing quote. */
  lemma {:induction false} QuotedIsOneToken(v: string, q: char, rest: string)
    requires rest == [] || rest[0] != q
    ensures ReadQuoted(Doubled(v, q) + [q] + rest, q) == Some((v, rest))
    decreases |v|
  {
    var s := Doubled(v, q) + [q] + rest;
    if v == [] {
      assert s == [q] + rest && s[1..] == rest;
    } else {
      QuotedIsOneToken(v[1..], q, rest);
      var t := Doubled(v[1..], q) + [q] + rest;
      assert v == [v[0]] + v[1..];
      if v[0] == q {
        assert s == [q, q] + t && s[2..] == t;
      } else {
        assert s == [v[0]] + t && s[1..] == t;
      }
    }
  }

  /** What follows a given prefix. */
  function After(s: string, prefix: string): Option<string> {
    if prefix <= s then Some(s[|prefix|..]) else None
  }

  lemma AfterPrefix(prefix: string, rest: string)
    ensures After(prefix + rest, prefix) == Some(rest)
  {
  }

  const LIKE_TAIL := " ESCAPE '\\'"

  /** One condition at the front of the text, and the text after it. */
  function ReadCondition(s: string): Option<(Condition, string)> {
    match SplitOnce(s, ' ')
    case None => None
    case Some((column, tail)) =>
      match After(tail, "= '")
      case Some(t) => (match ReadQuoted(t, '\'') case None => None case Some((v, rest)) => Some((Equals(column, v), rest)))
      case None =>
        match After(tail, "LIKE '")
        case None => None
        case Some(t) =>
          match ReadQuoted(t, '\'')
          case None => None
          case Some((v, rest)) =>
            match After(rest, LIKE_TAIL) case None => None case Some(r) => Some((Like(column, v), r))
  }

  lemma ReadsEquals(column: string, value: string, rest: string)
    requires ' ' !in column && (rest == [] || rest[0] == ' ')
    ensures ReadCondition(Render(Equals(column, value)) + rest) == Some((Equals(column, value), rest))
  {
    hide ReadQuoted, SplitOnce, Doubled;
    var t := Doubled(value, '\'') + ['\''] + rest;
    assert Render(Equals(column, value)) + rest == column + [' '] + ("= '" + t);
    SplitOnceAt(column, ' ', "= '" + t);
    AfterPrefix("= '", t);
    QuotedIsOneToken(value, '\'', rest);
  }

  lemma RenderedLike(column: string, pattern: string, rest: string)
    ensures Render(Like(column, pattern)) + rest
         == column + [' '] + ("LIKE '" + (Doubled(pattern, '\'') + ['\''] + (LIKE_TAIL + rest)))
  {
    hide Doubled;
  }

  lemma ReadsLike(column: string, pattern: string, rest: string)
    requires ' ' !in column && (rest == [] || rest[0] == ' ')
    ensures ReadCondition(Render(Like(column, pattern)) + rest) == Some((Like(column, pattern), rest))
  {
    hide ReadQuoted, SplitOnce, Doubled, Render;
    var t := Doubled(pattern, '\'') + ['\''] + (LIKE_TAIL + rest);
    RenderedLike(column, pattern, rest);
    SplitOnceAt(column, ' ', "LIKE '" + t);
    assert ("LIKE '" + t)[0] == 'L' && "= '"[0] == '=';
    assert After("LIKE '" + t, "= '") == None;
    AfterPrefix("LIKE '", t);
    assert (LIKE_TAIL + rest)[0] == ' ';
    QuotedIsOneToken(pattern, '\'', LIKE_TAIL + rest);
    AfterPrefix(LIKE_TAIL, rest);
  }

  /** A rendered condition reads back as itself, whatever its literal contains. */
  lemma ReadsRendered(c: Condition, rest: string)
    requires ' ' !in c.column && (rest == [] || rest[0] == ' ')
    ensures ReadCondition(Render(c) + rest) == Some((c, rest))
  {
    hide ReadCondition, Render;
    match c
    case Equals(column, value) => ReadsEquals(column, value, rest);
    case Like(column, pattern) => ReadsLike(column, pattern, rest);
  }

  // ----- the WHERE clause

  function JoinAnd(conditions: seq<string>): string
    requires conditions != []
  {
    if |conditions| == 1 then conditions[0]
    else conditions[0] + " AND " + JoinAnd(conditions[1..])
  }

  function WhereText(conditions: seq<string>): string {
    if conditions == [] then "" else " WHERE " + JoinAnd(conditions)
  }

  function ReadConditions(s: string): Option<seq<Condition>>
    decreases |s|
  {
    match ReadCondition(s)
    case None => None
    case Some((c, rest)) =>
      if rest == [] then Some([c])
      else
        match After(rest, " AND ")
        case None => None
        case Some(t) =>
          if |t| < |s| then
            match ReadConditions(t) case None => None case Some(cs) => Some([c] + cs)
          else None
  }

  function ReadWhere(s: string): Option<seq<Condition>> {
    if s == [] then Some([]) else match After(s, " WHERE ") case None => None case Some(t) => ReadConditions(t)
  }

  function Rendered(cs: seq<Condition>): (texts: seq<string>)
    ensures |texts| == |cs|
  {
    seq(|cs|, i requires 0 <= i < |cs| => Render(cs[i]))
  }

  lemma {:induction false} ReadsJoined(cs: seq<Condition>)
    requires cs != [] && forall i :: 0 <= i < |cs| ==> ' ' !in cs[i].column
    ensures ReadConditions(JoinAnd(Rendered(cs))) == Some(cs)
    decreases |cs|
  {
    hide ReadCondition, Render;
    var texts := Rendered(cs);
    if |cs| == 1 {
      assert JoinAnd(texts) == Render(cs[0]) + [];
      ReadsRendered(cs[0], []);
      assert cs == [cs[0]];
    } else {
      assert texts[1..] == Rendered(cs[1..]);
      var rest := JoinAnd(texts[1..]);
      assert JoinAnd(texts) == Render(cs[0]) + (" AND " + rest);
      ReadsRendered(cs[0], " AND " + rest);
      AfterPrefix(" AND ", rest);
      ReadsJoined(cs[1..]);
      assert cs == [cs[0]] + cs[1..];
    }
  }

  /** The clause reads back as exactly the conditions it was built from, in order. */
  lemma ClauseReadsBack(cs: seq<Condition>)
    requires forall i :: 0 <= i < |cs| ==> ' ' !in cs[i].column
    ensures ReadWhere(WhereText(Rendered(cs))) == Some(cs)
  {
    if cs != [] {
      ReadsJoined(cs);
      AfterPrefix(" WHERE ", JoinAnd(Rendered(cs)));
    }
  }

  /** An argument that restricts anything: absent, empty and a lone `%` do not. */
  predicate Restricts(arg: Option<string>) {
    arg.Some? && arg.value != "" && arg.value != "%"
  }

  /** The conditions for named columns and their arguments, in order. */
  function Filters(columns: seq<string>, args: seq<Option<string>>): (cs: seq<Condition>)
    requires |columns| == |args|
    ensures forall i :: 0 <= i < |cs| ==> cs[i].column in columns
  {
    if columns == [] then []
    else
      var front := Filters(columns[..|columns| - 1], args[..|args| - 1]);
      var arg := args[|args| - 1];
      if Restricts(arg) then front + [Filter(columns[|columns| - 1], arg.value)] else front
  }

  const TABLE_COLUMNS := ["table_catalog", "table_schema", "table_name"]
  const COLUMN_COLUMNS := TABLE_COLUMNS + ["column_name"]

  function Extended(conditions: seq<string>, column: string, arg: Option<string>): seq<string> {
    if Restricts(arg) then conditions + [Render(Filter(column, arg.value))] else conditions
  }

  method AddFilter(conditions: seq<string>, column: string, arg: Option<string>) returns (more: seq<string>)
    ensures more == Extended(conditions, column, arg)
  {
    more := conditions;
    if arg.Some? && arg.value != "" && arg.value != "%" {
      more := PushFilter(conditions, column, arg.value);
    }
  }

  lemma FiltersSnoc(columns: seq<string>, args: seq<Option<string>>, column: string, arg: Option<string>)
    requires |columns| == |args|
    ensures Rendered(Filters(columns + [column], args + [arg]))
         == Extended(Rendered(Filters(columns, args)), column, arg)
  {
    assert (columns + [column])[..|columns|] == columns && (args + [arg])[..|args|] == args;
  }

  lemma TableFilters(catalog: Option<string>, schema: Option<string>, table: Option<string>)
    ensures Rendered(Filters(TABLE_COLUMNS, [catalog, schema, table]))
         == Extended(Extended(Extended([], "table_catalog", catalog), "table_schema", schema), "table_name", table)
  {
    hide Extended;
    assert Rendered(Filters([], [])) == [];
    hide Filters, Rendered;
    FiltersSnoc([], [], "table_catalog", catalog);
    FiltersSnoc(["table_catalog"], [catalog], "table_schema", schema);
    FiltersSnoc(["table_catalog", "table_schema"], [catalog, schema], "table_name", table);
    assert [] + ["table_catalog"] == ["table_catalog"] && [] + [catalog] == [catalog];
    assert ["table_catalog"] + ["table_schema"] == ["table_catalog", "table_schema"];
    assert ["table_catalog", "table_schema"] + ["table_name"] == TABLE_COLUMNS;
    assert [catalog] + [schema] == [catalog, schema] && [catalog, schema] + [table] == [catalog, schema, table];
  }

  method BuildTablesWhereClause(catalog: Option<string>, schema: Option<string>, table: Option<string>)
    returns (clause: string)
    ensures clause == WhereText(Rendered(Filters(TABLE_COLUMNS, [catalog, schema, table])))
    ensures Sayable(catalog) && Sayable(schema) && Sayable(table) ==>
              && ReadWhere(clause).Some?
              && forall row :: Selects(ReadWhere(clause).value, row) <==>
                   && Accepts(catalog, row, "table_catalog")
                   && Accepts(schema, row, "table_schema")
                   && Accepts(table, row, "table_name")
  {
    if Sayable(catalog) && Sayable(schema) && Sayable(table) {
      TablesClauseMeans(catalog, schema, table);
    }
    hide Sayable, Accepts, Selects, ReadWhere;
    hide Filters, Rendered, Extended;
    TableFilters(catalog, schema, table);
    var conditions := AddFilter([], "table_catalog", catalog);
    conditions := AddFilter(conditions, "table_schema", schema);
    conditions := AddFilter(conditions, "table_name", table);
    if conditions == [] {
      clause := "";
    } else {
      clause := " WHERE " + JoinAnd(conditions);
    }
  }

  method BuildColumnsWhereClause(catalog: Option<string>, schema: Option<string>,
                                 table: Option<string>, column: Option<string>)
    returns (clause: string)
    ensures clause == WhereText(Rendered(Filters(COLUMN_COLUMNS, [catalog, schema, table, column])))
    ensures Sayable(catalog) && Sayable(schema) && Sayable(table) && Sayable(column) ==>
              && ReadWhere(clause).Some?
              && forall row :: Selects(ReadWhere(clause).value, row) <==>
                   && Accepts(catalog, row, "table_catalog")
                   && Accepts(schema, row, "table_schema")
                   && Accepts(table, row, "table_name")
                   && Accepts(column, row, "column_name")
  {
    if Sayable(catalog) && Sayable(schema) && Sayable(table) && Sayable(column) {
      ColumnsClauseMeans(catalog, schema, table, column);
    }
    hide Sayable, Accepts, Selects, ReadWhere;
    hide Filters, Rendered, Extended;
    TableFilters(catalog, schema, table);
    FiltersSnoc(TABLE_COLUMNS, [catalog, schema, table], "column_name", column);
    assert [catalog, schema, table] + [column] == [catalog, schema, table, column];
    var conditions := AddFilter([], "table_catalog", catalog);
    conditions := AddFilter(conditions, "table_schema", schema);
    conditions := AddFilter(conditions, "table_name", table);
    conditions := AddFilter(conditions, "column_name", column);
    if conditions == [] {
      clause := "";
    } else {
      clause := " WHERE " + JoinAnd(conditions);
    }
  }

  // ----- what the clause selects

  /** Whether every condition accepts the row's name in its column. */
  ghost predicate Selects(cs: seq<Condition>, row: map<string, string>) {
    forall c :: c in cs ==> c.column in row && Answer(c, row[c.column]) == Some(true)
  }

  ghost predicate RowMatches(columns: seq<string>, args: seq<Option<string>>, row: map<string, string>)
    requires |columns| == |args|
  {
    forall i :: 0 <= i < |columns| && Restricts(args[i]) ==>
      columns[i] in row && OdbcMatches(args[i].value, row[columns[i]])
  }

  /** One argument's condition accepts a row iff the row's name matches the argument. */
  lemma FilterSelects(column: string, p: string, row: map<string, string>)
    requires Translatable(p)
    ensures column in row && Answer(Filter(column, p), row[column]) == Some(true)
       <==> column in row && OdbcMatches(p, row[column])
  {
    hide Filter, OdbcMatches, Answer, Translatable;
    FilterIsRightIff(column, p);
  }

  lemma SelectsSnoc(cs: seq<Condition>, c: Condition, row: map<string, string>)
    ensures Selects(cs + [c], row)
       <==> Selects(cs, row) && c.column in row && Answer(c, row[c.column]) == Some(true)
  {
    hide Answer;
    assert forall d :: d in cs + [c] <==> d in cs || d == c;
  }

  lemma MatchesSnoc(columns: seq<string>, args: seq<Option<string>>, row: map<string, string>)
    requires |columns| == |args| && columns != []
    ensures var n := |columns| - 1;
            RowMatches(columns, args, row) <==>
              && RowMatches(columns[..n], args[..n], row)
              && (Restricts(args[n]) ==> columns[n] in row && OdbcMatches(args[n].value, row[columns[n]]))
  {
    hide OdbcMatches;
  }

  lemma {:induction false} FiltersSelect(columns: seq<string>, args: seq<Option<string>>, row: map<string, string>)
    requires |columns| == |args|
    requires forall i :: 0 <= i < |args| && Restricts(args[i]) ==> Translatable(args[i].value)
    ensures Selects(Filters(columns, args), row) <==> RowMatches(columns, args, row)
    decreases |columns|
  {
    hide OdbcMatches, Answer, Translatable, Filter;
    if columns != [] {
      var n := |columns| - 1;
      FiltersSelect(columns[..n], args[..n], row);
      MatchesSnoc(columns, args, row);
      hide RowMatches;
      if Restricts(args[n]) {
        var c := Filter(columns[n], args[n].value);
        FilterColumn(columns[n], args[n].value);
        FilterSelects(columns[n], args[n].value, row);
        SelectsSnoc(Filters(columns[..n], args[..n]), c, row);
      }
    }
  }

  lemma FilterColumn(column: string, p: string)
    ensures Filter(column, p).column == column
  {
  }

  /**
   * End to end: reading the emitted clause back and evaluating it selects a row
   * iff the row's names match every argument's ODBC pattern.
   */
  lemma ClauseSelectsMatches(columns: seq<string>, args: seq<Option<string>>, row: map<string, string>)
    requires |columns| == |args| && forall c :: c in columns ==> ' ' !in c
    requires forall i :: 0 <= i < |args| && Restricts(args[i]) ==> Translatable(args[i].value)
    ensures var cs := ReadWhere(WhereText(Rendered(Filters(columns, args))));
            cs.Some? && (Selects(cs.value, row) <==> RowMatches(columns, args, row))
  {
    ClauseReadsBack(Filters(columns, args));
    FiltersSelect(columns, args, row);
  }

  /** A row passes an argument that is absent, empty or a lone `%`, or whose pattern its name matches. */
  predicate Accepts(arg: Option<string>, row: map<string, string>, column: string) {
    match arg
    case None => true
    case Some("") => true
    case Some("%") => true
    case Some(pattern) => column in row && OdbcMatches(pattern, row[column])
  }

  /** An argument whose pattern, if it has one, the translation keeps. */
  predicate Sayable(arg: Option<string>) {
    match arg
    case None => true
    case Some("") => true
    case Some("%") => true
    case Some(pattern) => Translatable(pattern)
  }

  lemma AcceptsIs(arg: Option<string>, row: map<string, string>, column: string)
    ensures Accepts(arg, row, column)
       <==> (Restricts(arg) ==> column in row && OdbcMatches(arg.value, row[column]))
    ensures Sayable(arg) <==> (Restricts(arg) ==> Translatable(arg.value))
  {
    hide OdbcMatches, Translatable;
  }

  lemma TableColumnsHaveNoSpace()
    ensures forall c :: c in COLUMN_COLUMNS ==> ' ' !in c
    ensures forall c :: c in TABLE_COLUMNS ==> c in COLUMN_COLUMNS
  {
  }

  /** The tables clause, read back, selects the rows that pass all three arguments. */
  lemma TablesClauseMeans(catalog: Option<string>, schema: Option<string>, table: Option<string>)
    requires Sayable(catalog) && Sayable(schema) && Sayable(table)
    ensures var cs := ReadWhere(WhereText(Rendered(Filters(TABLE_COLUMNS, [catalog, schema, table]))));
            && cs.Some?
            && forall row :: Selects(cs.value, row) <==>
                 && Accepts(catalog, row, "table_catalog")
                 && Accepts(schema, row, "table_schema")
                 && Accepts(table, row, "table_name")
  {
    hide OdbcMatches, Translatable, Restricts, Selects, ReadWhere, WhereText, Rendered, Filters, Sayable, Accepts;
    var args := [catalog, schema, table];
    TableColumnsHaveNoSpace();
    forall row: map<string, string>
      ensures var cs := ReadWhere(WhereText(Rendered(Filters(TABLE_COLUMNS, args))));
              cs.Some? && (Selects(cs.value, row) <==>
                && Accepts(catalog, row, "table_catalog")
                && Accepts(schema, row, "table_schema")
                && Accepts(table, row, "table_name"))
    {
      AcceptsIs(catalog, row, "table_catalog");
      AcceptsIs(schema, row, "table_schema");
      AcceptsIs(table, row, "table_name");
      ClauseSelectsMatches(TABLE_COLUMNS, args, row);
      assert RowMatches(TABLE_COLUMNS, args, row) <==>
        && Accepts(catalog, row, "table_catalog")
        && Accepts(schema, row, "table_schema")
        && Accepts(table, row, "table_name") by {
        assert TABLE_COLUMNS[0] == "table_catalog" && args[0] == catalog;
        assert TABLE_COLUMNS[1] == "table_schema" && args[1] == schema;
        assert TABLE_COLUMNS[2] == "table_name" && args[2] == table;
      }
    }
    var none: map<string, string> := map[];
    AcceptsIs(catalog, none, "table_catalog");
    AcceptsIs(schema, none, "table_schema");
    AcceptsIs(table, none, "table_name");
    ClauseSelectsMatches(TABLE_COLUMNS, args, none);
  }

  /** The columns clause likewise, with the column's name. */
  lemma ColumnsClauseMeans(catalog: Option<string>, schema: Option<string>,
                           table: Option<string>, column: Option<string>)
    requires Sayable(catalog) && Sayable(schema) && Sayable(table) && Sayable(column)
    ensures var cs := ReadWhere(WhereText(Rendered(Filters(COLUMN_COLUMNS, [catalog, schema, table, column]))));
            && cs.Some?
            && forall row :: Selects(cs.value, row) <==>
                 && Accepts(catalog, row, "table_catalog")
                 && Accepts(schema, row, "table_schema")
                 && Accepts(table, row, "table_name")
                 && Accepts(column, row, "column_name")
  {
    hide OdbcMatches, Translatable, Restricts, Selects, ReadWhere, WhereText, Rendered, Filters, Sayable, Accepts;
    var args := [catalog, schema, table, column];
    TableColumnsHaveNoSpace();
    forall row: map<string, string>
      ensures var cs := ReadWhere(WhereText(Rendered(Filters(COLUMN_COLUMNS, args))));
              cs.Some? && (Selects(cs.value, row) <==>
                && Accepts(catalog, row, "table_catalog")
                && Accepts(schema, row, "table_schema")
                && Accepts(table, row, "table_name")
                && Accepts(column, row, "column_name"))
    {
      AcceptsIs(catalog, row, "table_catalog");
      AcceptsIs(schema, row, "table_schema");
      AcceptsIs(table, row, "table_name");
      AcceptsIs(column, row, "column_name");
      ClauseSelectsMatches(COLUMN_COLUMNS, args, row);
      assert RowMatches(COLUMN_COLUMNS, args, row) <==>
        && Accepts(catalog, row, "table_catalog")
        && Accepts(schema, row, "table_schema")
        && Accepts(table, row, "table_name")
        && Accepts(column, row, "column_name") by {
        assert COLUMN_COLUMNS[0] == "table_catalog" && args[0] == catalog;
        assert COLUMN_COLUMNS[1] == "table_schema" && args[1] == schema;
        assert COLUMN_COLUMNS[2] == "table_name" && args[2] == table;
        assert COLUMN_COLUMNS[3] == "column_name" && args[3] == column;
      }
    }
    var none: map<string, string> := map[];
    AcceptsIs(catalog, none, "table_catalog");
    AcceptsIs(schema, none, "table_schema");
    AcceptsIs(table, none, "table_name");
    AcceptsIs(column, none, "column_name");
    ClauseSelectsMatches(COLUMN_COLUMNS, args, none);
  }

  // ----- the FROM reference

  /** The catalog a query is qualified with, if the argument names exactly one. */
  function QualifyingCatalog(catalog: Option<string>): Option<string> {
    if Restricts(catalog) && !HasWild(catalog.value) then Some(Unescaped(catalog.value)) else None
  }

  function InformationSchemaRef(catalog: Option<string>, table: string): string {
    match QualifyingCatalog(catalog)
    case Some(name) => "\"" + Doubled(name, '"') + "\".information_schema." + table
    case None => "information_schema." + table
  }

  /** The delimited identifier a reference starts with, if it does. */
  function ReadQualifier(s: string): Option<string> {
    if s == [] || s[0] != '"' then None
    else match ReadQuoted(s[1..], '"') case None => None case Some((v, _)) => Some(v)
  }

  /**
   * FROM and WHERE name the same catalog: the reference is qualified exactly
   * when the catalog argument becomes an equality, and the identifier it is
   * qualified with reads back as the very name the equality compares with.
   */
  lemma FromAndWhereAgree(catalog: Option<string>, table: string)
    ensures var qualifier := ReadQualifier(InformationSchemaRef(catalog, table));
            var condition := if Restricts(catalog) then Some(Filter("table_catalog", catalog.value)) else None;
            && (qualifier.Some? <==> condition.Some? && condition.value.Equals?)
            && (qualifier.Some? ==> condition == Some(Equals("table_catalog", qualifier.value)))
  {
    hide Doubled, ReadQuoted, Unescaped, HasWild, ReadQualifier, InformationSchemaRef;
    QualifierReadsBack(catalog, table);
  }

  lemma QualifierReadsBack(catalog: Option<string>, table: string)
    ensures ReadQualifier(InformationSchemaRef(catalog, table)) == QualifyingCatalog(catalog)
  {
    hide Doubled, ReadQuoted, QualifyingCatalog;
    match QualifyingCatalog(catalog)
    case None =>
      assert InformationSchemaRef(catalog, table)[0] == 'i';
    case Some(name) =>
      var rest := ".information_schema." + table;
      var s := InformationSchemaRef(catalog, table);
      assert s == ['"'] + (Doubled(name, '"') + ['"'] + rest);
      assert s[1..] == Doubled(name, '"') + ['"'] + rest;
      QuotedIsOneToken(name, '"', rest);
  }

  datatype Reference = Reference(catalog: Option<string>, schema: string, table: string)

  /** Reads a table reference: a delimited catalog, if there is one, then a schema and a table. */
  function ReadReference(s: string): Option<Reference> {
    if s != [] && s[0] == '"' then
      match ReadQuoted(s[1..], '"')
      case None => None
      case Some((catalog, rest)) =>
        if rest == [] || rest[0] != '.' then None
        else match SplitOnce(rest[1..], '.')
          case None => None
          case Some((schema, table)) => Some(Reference(Some(catalog), schema, table))
    else match SplitOnce(s, '.')
      case None => None
      case Some((schema, table)) => Some(Reference(None, schema, table))
  }

  /**
   * The reference names the given table of `information_schema`, in the catalog
   * the argument names if it names one, as it is written without its escapes.
   */
  lemma ReferenceReadsBack(catalog: Option<string>, table: string)
    ensures var named := catalog.Some? && catalog.value != "" && catalog.value != "%" && !HasWild(catalog.value);
            ReadReference(InformationSchemaRef(catalog, table))
            == Some(Reference(if named then Some(Unescaped(catalog.value)) else None, "information_schema", table))
  {
    hide Doubled, ReadQuoted, Unescaped, HasWild, SplitOnce;
    var rest := "information_schema" + ['.'] + table;
    SchemaHasNoPoint();
    SplitOnceAt("information_schema", '.', table);
    var s := InformationSchemaRef(catalog, table);
    match QualifyingCatalog(catalog)
    case None =>
      assert s == rest && s[0] == 'i';
    case Some(name) =>
      assert s == ['"'] + (Doubled(name, '"') + ['"'] + (['.'] + rest));
      assert s[1..] == Doubled(name, '"') + ['"'] + (['.'] + rest);
      assert (['.'] + rest)[1..] == rest;
      QuotedIsOneToken(name, '"', ['.'] + rest);
  }

  lemma SchemaHasNoPoint()
    ensures '.' !in "information_schema"
  {
  }
}
