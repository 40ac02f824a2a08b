/** The main-process DuckDB service: the SQL text it builds (quoted column lists,
    the average-expression term, the escaped file path), the conversion of result
    rows to a column list and value arrays, the filter that hides the coordinate
    columns, and the service's initialised state. Executing SQL is a parameter: a
    function from the SQL text to the rows DuckDB returns or its error. */
module DuckDb {
  import opened Common

  const NotInitialized: string := "DuckDB not initialized"

  // ---------------------------------------------------------------------------
  // File path

  /** `filePath.replace(/\\/g, '\\\\')`: every backslash doubled. */
  function EscapePath(p: string): (r: string)
    ensures '\\' !in p ==> r == p
    ensures |r| >= |p|
  {
    if p == [] then []
    else (if p[0] == '\\' then "\\\\" else [p[0]]) + EscapePath(p[1..])
  }

  /** Reading an escaped path back: a doubled backslash is one backslash, a lone one
      is malformed. */
  function UnescapePath(s: string): Option<string>
    decreases |s|
  {
    if s == [] then Some([])
    else if s[0] == '\\' then
      if |s| >= 2 && s[1] == '\\' then
        match UnescapePath(s[2..])
        case Some(rest) => Some("\\" + rest)
        case None => None
      else None
    else
      match UnescapePath(s[1..])
      case Some(rest) => Some([s[0]] + rest)
      case None => None
  }

  /** The escaping loses nothing: the escaped path reads back as the path. */
  lemma {:induction false} EscapeRoundTrip(p: string)
    ensures UnescapePath(EscapePath(p)) == Some(p)
  {
    if p != [] {
      EscapeRoundTrip(p[1..]);
      var e := EscapePath(p);
      if p[0] == '\\' {
        assert e[2..] == EscapePath(p[1..]);
      } else {
        assert e[1..] == EscapePath(p[1..]);
      }
      assert p == [p[0]] + p[1..];
    }
  }

  // ---------------------------------------------------------------------------
  // Column lists

  /** A column name in double quotes. */
  function Quote(col: string): string {
    "\"" + col + "\""
  }

  function Quoted(cols: seq<string>): (r: seq<string>)
    ensures |r| == |cols| && forall i :: 0 <= i < |cols| ==> r[i] == Quote(cols[i])
  {
    seq(|cols|, i requires 0 <= i < |cols| => Quote(cols[i]))
  }

  /** The select list: each column quoted, joined by `", "`. */
  function ColumnList(cols: seq<string>): string {
    Join(Quoted(cols), ", ")
  }

  /** Each part with a space in front. */
  function Spaced(parts: seq<string>): (r: seq<string>)
    ensures |r| == |parts| && forall i :: 0 <= i < |parts| ==> r[i] == " " + parts[i]
  {
    seq(|parts|, i requires 0 <= i < |parts| => " " + parts[i])
  }

  lemma {:induction false} SpacedJoin(parts: seq<string>)
    requires parts != []
    ensures " " + Join(parts, ", ") == Join(Spaced(parts), ",")
  {
    if |parts| > 1 {
      SpacedJoin(parts[1..]);
      assert Spaced(parts)[1..] == Spaced(parts[1..]);
    }
  }

  /** Joining by `", "` is joining by `","` with a space in front of every part but
      the first. */
  lemma CommaSpaceJoin(parts: seq<string>)
    requires parts != []
    ensures Join(parts, ", ") == Join([parts[0]] + Spaced(parts[1..]), ",")
  {
    if |parts| > 1 {
      SpacedJoin(parts[1..]);
      assert ([parts[0]] + Spaced(parts[1..]))[1..] == Spaced(parts[1..]);
    }
  }

  /** Split at its commas, a select list of comma-free names gives back each name
      in quotes, every one after the first behind a space. */
  lemma ColumnListPieces(cols: seq<string>)
    requires cols != []
    requires forall i :: 0 <= i < |cols| ==> ',' !in cols[i]
    ensures |Split(ColumnList(cols), ',')| == |cols|
    ensures forall i :: 0 <= i < |cols| ==>
      Split(ColumnList(cols), ',')[i] == (if i == 0 then "" else " ") + Quote(cols[i])
  {
    var q := Quoted(cols);
    var pieces := [q[0]] + Spaced(q[1..]);
    CommaSpaceJoin(q);
    forall i | 0 <= i < |pieces| ensures ',' !in pieces[i] {
      assert pieces[i] == (if i == 0 then "" else " ") + Quote(cols[i]);
    }
    SplitJoin(pieces, ',');
    assert forall i :: 0 <= i < |cols| ==> pieces[i] == (if i == 0 then "" else " ") + Quote(cols[i]);
  }

  // ---------------------------------------------------------------------------
  // The average-expression term

  /** The arithmetic the term denotes: a column read as a float, a sum, a division
      by a count. */
  datatype Expr = Cast(col: string) | Add(left: Expr, right: Expr) | Div(e: Expr, count: nat)

  /** The SQL text of an expression; `+` is left-associative, so a left-nested sum
      needs no parentheses. */
  function Render(e: Expr): string {
    match e
    case Cast(col) => "CAST(\"" + col + "\" AS FLOAT)"
    case Add(a, b) => Render(a) + " + " + Render(b)
    case Div(a, n) => "(" + Render(a) + ") / " + ToDigits(n, 10)
  }

  /** The value of an expression for a cell, given each column's value. */
  function Eval(e: Expr, value: string -> real): real {
    match e
    case Cast(col) => value(col)
    case Add(a, b) => Eval(a, value) + Eval(b, value)
    case Div(a, n) => if n == 0 then 0.0 else Eval(a, value) / n as real
  }

  /** The sum of the columns, left to right. */
  function SumExpr(cols: seq<string>): Expr
    requires cols != []
  {
    if |cols| == 1 then Cast(cols[0]) else Add(SumExpr(cols[..|cols| - 1]), Cast(cols[|cols| - 1]))
  }

  /** The mean of the columns: the sum, divided by the count when there is more than
      one column. */
  function AverageExpr(cols: seq<string>): Expr
    requires cols != []
  {
    if |cols| > 1 then Div(SumExpr(cols), |cols|) else SumExpr(cols)
  }

  function ColumnSum(cols: seq<string>, value: string -> real): real {
    if cols == [] then 0.0 else ColumnSum(cols[..|cols| - 1], value) + value(cols[|cols| - 1])
  }

  /** The term computes the mean of the expression columns' values. */
  lemma AverageIsMean(cols: seq<string>, value: string -> real)
    requires cols != []
    ensures Eval(AverageExpr(cols), value) == ColumnSum(cols, value) / |cols| as real
  {
    SumIsSum(cols, value);
  }

  lemma {:induction false} SumIsSum(cols: seq<string>, value: string -> real)
    requires cols != []
    ensures Eval(SumExpr(cols), value) == ColumnSum(cols, value)
  {
    if |cols| > 1 {
      SumIsSum(cols[..|cols| - 1], value);
    } else {
      assert cols[..0] == [];
    }
  }

  /** Each expression column as `CAST("col" AS FLOAT)`. */
  function Casts(cols: seq<string>): (r: seq<string>)
    ensures |r| == |cols| && forall i :: 0 <= i < |cols| ==> r[i] == Render(Cast(cols[i]))
  {
    seq(|cols|, i requires 0 <= i < |cols| => Render(Cast(cols[i])))
  }

  /** The sum renders as the casts joined by `" + "`. */
  lemma {:induction false} SumText(cols: seq<string>)
    requires cols != []
    ensures Render(SumExpr(cols)) == Join(Casts(cols), " + ")
  {
    if |cols| > 1 {
      var init := cols[..|cols| - 1];
      SumText(init);
      assert Casts(cols) == Casts(init) + [Render(Cast(cols[|cols| - 1]))];
      JoinSnoc(Casts(init), Render(Cast(cols[|cols| - 1])), " + ");
    }
  }

  /** The average-expression text: for several columns the casts joined by `" + "`
      in parentheses, divided by the count; for one the single cast; for none the
      empty text (which DuckDB then rejects). */
  function AverageSql(cols: seq<string>): (r: string)
    ensures cols == [] ==> r == ""
    ensures |cols| == 1 ==> r == Render(Cast(cols[0]))
    ensures |cols| > 1 ==> r == "(" + Join(Casts(cols), " + ") + ") / " + ToDigits(|cols|, 10)
  {
    if cols == [] then ""
    else
      SumText(cols);
      Render(AverageExpr(cols))
  }

  /** The divisor reads back as the number of expression columns. */
  lemma AverageDivisor(cols: seq<string>)
    requires |cols| > 1
    ensures FromDigits(ToDigits(|cols|, 10), 10) == Some(|cols|)
  {
    DigitsRoundTrip(|cols|, 10);
  }

  // ---------------------------------------------------------------------------
  // Statements

  function SelectSql(filePath: string, columns: seq<string>): string {
    "\n          SELECT " + ColumnList(columns) +
    "\n          FROM read_parquet('" + EscapePath(filePath) + "')\n        "
  }

  function ExpressionSql(filePath: string, geneColumns: seq<string>, expressionColumns: seq<string>,
                         whereClause: string): string {
    "\n          SELECT\n            " + ColumnList(geneColumns) + ",\n            " +
    AverageSql(expressionColumns) + " as avg_expression\n          FROM read_parquet('" +
    EscapePath(filePath) + "')\n          " + whereClause + "\n        "
  }

  function DescribeSql(filePath: string): string {
    "\n          DESCRIBE SELECT * FROM read_parquet('" + EscapePath(filePath) + "')\n        "
  }

  // ---------------------------------------------------------------------------
  // Results

  /** A result row: its properties in key order. */
  type Row = seq<(string, Value)>

  datatype QueryResult = QueryResult(columns: seq<string>, data: seq<seq<Value>>)

  function RowKeys(row: Row): (r: seq<string>)
    ensures |r| == |row| && forall i :: 0 <= i < |row| ==> r[i] == row[i].0
  {
    seq(|row|, i requires 0 <= i < |row| => row[i].0)
  }

  function RowValues(row: Row): (r: seq<Value>)
    ensures |r| == |row| && forall i :: 0 <= i < |row| ==> r[i] == row[i].1
  {
    seq(|row|, i requires 0 <= i < |row| => row[i].1)
  }

  /** `result.map(row => Object.values(row))` and `Object.keys(result[0] || {})`:
      one value array per row, in the row's key order, and the first row's keys as
      the columns (none when there are no rows). */
  function ToQueryResult(rows: seq<Row>): (r: QueryResult)
    ensures rows == [] ==> r.columns == []
    ensures rows != [] ==> (|r.columns| == |rows[0]| &&
      forall k :: 0 <= k < |rows[0]| ==> r.columns[k] == rows[0][k].0)
    ensures |r.data| == |rows|
    ensures forall i :: 0 <= i < |rows| ==> (|r.data[i]| == |rows[i]| &&
      forall k :: 0 <= k < |rows[i]| ==> r.data[i][k] == rows[i][k].1)
  {
    QueryResult(if rows == [] then [] else RowKeys(rows[0]),
                seq(|rows|, i requires 0 <= i < |rows| => RowValues(rows[i])))
  }

  /** Pairing the columns with the first value array gives back the first row. */
  lemma FirstRowRebuilt(rows: seq<Row>)
    requires rows != []
    ensures var r := ToQueryResult(rows);
      seq(|r.columns|, k requires 0 <= k < |r.columns| && k < |r.data[0]| => (r.columns[k], r.data[0][k])) == rows[0]
  {
  }

  /** The coordinate columns that are never offered as genes. */
  const DefaultColumns: seq<string> := ["index", "umap_1", "umap_2"]

  function IsGeneColumn(col: string): bool {
    Lower(col) !in DefaultColumns
  }

  /** The `getParquetColumns` filter: the described columns, in order, less those
      whose lower-case name is a coordinate column. */
  function GeneColumns(described: seq<string>): (r: seq<string>)
    ensures forall c :: c in r <==> c in described && Lower(c) !in DefaultColumns
    ensures forall c :: Lower(c) !in DefaultColumns ==> multiset(r)[c] == multiset(described)[c]
  {
    var r := Filter(described, IsGeneColumn);
    forall c | Lower(c) !in DefaultColumns ensures multiset(r)[c] == multiset(described)[c] {
      FilterCount(described, IsGeneColumn, c);
    }
    r
  }

  /** A table with no coordinate columns loses none. */
  lemma GeneColumnsKeepAll(described: seq<string>)
    requires forall i :: 0 <= i < |described| ==> Lower(described[i]) !in DefaultColumns
    ensures GeneColumns(described) == described
  {
    FilterKeepsAllIff(described, IsGeneColumn);
  }

  /** The name each `DESCRIBE` row gives in its `column_name` property; a row
      without a text name makes `toLowerCase` throw. */
  function ColumnName(row: Row): Option<string> {
    if row == [] then None
    else if row[0].0 == "column_name" then (if row[0].1.Text? then Some(row[0].1.t) else None)
    else ColumnName(row[1..])
  }

  function DescribedNames(rows: seq<Row>): (r: Option<seq<string>>)
    ensures r.Some? ==> (|r.value| == |rows| &&
      forall i :: 0 <= i < |rows| ==> ColumnName(rows[i]) == Some(r.value[i]))
    ensures r.None? ==> exists i :: 0 <= i < |rows| && ColumnName(rows[i]).None?
  {
    if rows == [] then Some([])
    else
      var init := rows[..|rows| - 1];
      match (DescribedNames(init), ColumnName(rows[|rows| - 1]))
      case (Some(names), Some(n)) => Some(names + [n])
      case (None, _) => None
      case (_, None) => None
  }

  // ---------------------------------------------------------------------------
  // The service

  class Service {
    var dbOpen: bool
    var connected: bool
    var isInitialized: bool

    ghost predicate Valid()
      reads this
    {
      dbOpen == connected == isInitialized
    }

    constructor ()
      ensures Valid() && !isInitialized
    {
      dbOpen, connected, isInitialized := false, false, false;
    }

    /** `initialize`: a no-op once initialised; otherwise opens an in-memory
        database and connects (`opens` says whether that succeeds), rethrowing the
        failure and changing nothing when it does not. */
    method Initialize(opens: bool, failure: string) returns (r: Outcome<()>)
      requires Valid()
      modifies this
      ensures Valid()
      ensures old(isInitialized) ==> r.Ok? && isInitialized
      ensures !old(isInitialized) && opens ==> r.Ok? && isInitialized
      ensures !old(isInitialized) && !opens ==> r == Failed(failure) && !isInitialized
    {
      if isInitialized {
        return Ok(());
      }
      if !opens {
        return Failed(failure);
      }
      dbOpen := true;
      connected := true;
      isInitialized := true;
      r := Ok(());
    }

    /** `queryParquetFile`: fails unless connected; otherwise runs the select of the
        quoted columns from the escaped path, and gives the rows as columns and
        value arrays, or DuckDB's error. */
    method QueryParquetFile(filePath: string, columns: seq<string>,
                            execute: string -> Outcome<seq<Row>>) returns (r: Outcome<QueryResult>)
      ensures !connected ==> r == Failed(NotInitialized)
      ensures connected && execute(SelectSql(filePath, columns)).Failed? ==>
        r == Failed(execute(SelectSql(filePath, columns)).message)
      ensures connected && execute(SelectSql(filePath, columns)).Ok? ==>
        r == Ok(ToQueryResult(execute(SelectSql(filePath, columns)).value))
    {
      if !connected {
        return Failed(NotInitialized);
      }
      var result := execute(SelectSql(filePath, columns));
      if result.Failed? {
        return Failed(result.message);
      }
      r := Ok(ToQueryResult(result.value));
    }

    /** `queryParquetFileWithExpression`: as above, selecting the gene columns and
        the mean of the expression columns as `avg_expression`. */
    method QueryParquetFileWithExpression(filePath: string, geneColumns: seq<string>,
                                          expressionColumns: seq<string>, whereClause: string,
                                          execute: string -> Outcome<seq<Row>>) returns (r: Outcome<QueryResult>)
      ensures !connected ==> r == Failed(NotInitialized)
      ensures connected ==>
        var sql := ExpressionSql(filePath, geneColumns, expressionColumns, whereClause);
        r == match execute(sql)
             case Failed(m) => Failed(m)
             case Ok(rows) => Ok(ToQueryResult(rows))
    {
      if !connected {
        return Failed(NotInitialized);
      }
      var sql := ExpressionSql(filePath, geneColumns, expressionColumns, whereClause);
      var result := execute(sql);
      if result.Failed? {
        return Failed(result.message);
      }
      r := Ok(ToQueryResult(result.value));
    }

    /** `getParquetColumns`: fails unless connected; otherwise describes the file
        and gives the column names without the coordinate columns. */
    method GetParquetColumns(filePath: string, execute: string -> Outcome<seq<Row>>, typeError: string)
      returns (r: Outcome<seq<string>>)
      ensures !connected ==> r == Failed(NotInitialized)
      ensures connected && execute(DescribeSql(filePath)).Failed? ==>
        r == Failed(execute(DescribeSql(filePath)).message)
      ensures connected && execute(DescribeSql(filePath)).Ok? ==>
        match DescribedNames(execute(DescribeSql(filePath)).value)
        case None => r == Failed(typeError)
        case Some(names) => r == Ok(GeneColumns(names))
    {
      if !connected {
        return Failed(NotInitialized);
      }
      var result := execute(DescribeSql(filePath));
      if result.Failed? {
        return Failed(result.message);
      }
      var names := DescribedNames(result.value);
      if names.None? {
        return Failed(typeError);
      }
      r := Ok(GeneColumns(names.value));
    }

    /** `close`: closes the connection and the database; the service is no longer
        initialised. */
    method Close()
      modifies this
      ensures Valid() && !isInitialized && !connected && !dbOpen
    {
      connected := false;
      dbOpen := false;
      isInitialized := false;
    }
  }

  /** Initialising twice is initialising once. */
  method InitializeTwice(s: Service, opens: bool, failure: string) returns (first: Outcome<()>, second: Outcome<()>)
    requires s.Valid()
    modifies s
    ensures s.Valid()
    ensures first.Ok? ==> second.Ok? && s.isInitialized
    ensures first.Failed? ==> second == first && !s.isInitialized
  {
    first := s.Initialize(opens, failure);
    second := s.Initialize(opens, failure);
  }
}
