/** The CSV export of a selection: each exported record gets a `total_score`, the
    sum of its selected genes' values (a value that is not a number counts as 0);
    the records are ordered by descending score and written as a header line and
    one comma-separated line per record in a fixed column order. Reading the
    parquet file, writing the file, number parsing and number formatting are
    parameters. */
module Export {
  import opened Common
  import opened ScoreOrder

  /** An exported record: its properties by name. */
  type Record = map<string, Value>

  /** `obj[key]`: the property, or nothing when it is missing. */
  function Get(rec: Record, key: string): Value {
    if key in rec then rec[key] else Null
  }

  /** `parseFloat(v) || 0`: the number the value reads as, or 0 when it reads as
      none. `parseFloat` on text is the parameter `parse` (`None` for `NaN`). */
  function NumberOr0(v: Value, parse: string -> Option<real>): real {
    match v
    case Num(n) => n
    case Text(t) => if parse(t).Some? then parse(t).value else 0.0
    case Null => 0.0
  }

  /** The sum over the selected genes of the record's values. */
  function TotalScore(rec: Record, genes: seq<string>, parse: string -> Option<real>): real {
    if genes == [] then 0.0
    else TotalScore(rec, genes[..|genes| - 1], parse) + NumberOr0(Get(rec, genes[|genes| - 1]), parse)
  }

  lemma {:induction false} TotalScoreAppend(rec: Record, a: seq<string>, b: seq<string>, parse: string -> Option<real>)
    ensures TotalScore(rec, a + b, parse) == TotalScore(rec, a, parse) + TotalScore(rec, b, parse)
  {
    if b == [] {
      assert a + b == a;
    } else {
      assert (a + b)[..|a + b| - 1] == a + b[..|b| - 1];
      TotalScoreAppend(rec, a, b[..|b| - 1], parse);
    }
  }

  /** A gene with no numeric value adds nothing to the score. */
  lemma NonNumericAddsNothing(rec: Record, genes: seq<string>, gene: string, parse: string -> Option<real>)
    requires gene !in rec || rec[gene].Null? || (rec[gene].Text? && parse(rec[gene].t).None?)
    ensures TotalScore(rec, genes + [gene], parse) == TotalScore(rec, genes, parse)
  {
    assert (genes + [gene])[..|genes|] == genes;
  }

  /** The score does not depend on the order in which the genes are listed. */
  lemma {:induction false} TotalScorePermutation(rec: Record, g1: seq<string>, g2: seq<string>, parse: string -> Option<real>)
    requires multiset(g1) == multiset(g2)
    ensures TotalScore(rec, g1, parse) == TotalScore(rec, g2, parse)
    decreases |g1|
  {
    if g1 != [] {
      var x := g1[|g1| - 1];
      var init1 := g1[..|g1| - 1];
      assert g1 == init1 + [x];
      assert x in multiset(g2);
      var i :| 0 <= i < |g2| && g2[i] == x;
      RemoveOne(init1, x, g2, i);
      TotalScorePermutation(rec, init1, g2[..i] + g2[i + 1..], parse);
      TotalScoreWithout(rec, g2, i, parse);
    }
  }

  /** Taking one element out of a list with the same elements as `init + [x]`. */
  lemma RemoveOne(init: seq<string>, x: string, g: seq<string>, i: nat)
    requires i < |g| && g[i] == x && multiset(init + [x]) == multiset(g)
    ensures multiset(init) == multiset(g[..i] + g[i + 1..])
  {
    var rest := g[..i] + g[i + 1..];
    assert g == g[..i] + [x] + g[i + 1..];
    assert multiset(init + [x]) == multiset(init) + multiset{x};
    assert multiset(g) == multiset(g[..i]) + multiset{x} + multiset(g[i + 1..]);
    assert multiset(rest) == multiset(g[..i]) + multiset(g[i + 1..]);
    forall y ensures multiset(init)[y] == multiset(rest)[y] {
      assert multiset(init + [x])[y] == multiset(g)[y];
    }
  }

  /** The score of a list is that of the list without its `i`-th gene plus that gene's
      value. */
  lemma TotalScoreWithout(rec: Record, g: seq<string>, i: nat, parse: string -> Option<real>)
    requires i < |g|
    ensures TotalScore(rec, g, parse) ==
      TotalScore(rec, g[..i] + g[i + 1..], parse) + NumberOr0(Get(rec, g[i]), parse)
  {
    assert g == g[..i] + [g[i]] + g[i + 1..];
    TotalScoreAppend(rec, g[..i] + [g[i]], g[i + 1..], parse);
    TotalScoreAppend(rec, g[..i], [g[i]], parse);
    TotalScoreAppend(rec, g[..i], g[i + 1..], parse);
    assert [g[i]][..0] == [];
  }

  /** The record's `total_score` (0 when it has none). */
  function ScoreOf(rec: Record): real {
    if "total_score" in rec && rec["total_score"].Num? then rec["total_score"].n else 0.0
  }

  /** The record with its `total_score` set. */
  function Scored(rec: Record, genes: seq<string>, parse: string -> Option<real>): (r: Record)
    ensures ScoreOf(r) == TotalScore(rec, genes, parse)
    ensures forall k :: k != "total_score" ==> Get(r, k) == Get(rec, k)
  {
    rec["total_score" := Num(TotalScore(rec, genes, parse))]
  }

  /** The scoring loop: every record gets its `total_score`, summed gene by gene. */
  method ScoreAll(items: array<Record>, genes: seq<string>, parse: string -> Option<real>)
    modifies items
    ensures forall i :: 0 <= i < items.Length ==> items[i] == Scored(old(items[i]), genes, parse)
  {
    for i := 0 to items.Length
      invariant forall k :: 0 <= k < i ==> items[k] == Scored(old(items[k]), genes, parse)
      invariant forall k :: i <= k < items.Length ==> items[k] == old(items[k])
    {
      var item := items[i];
      var totalScore := 0.0;
      for j := 0 to |genes|
        invariant totalScore == TotalScore(item, genes[..j], parse)
      {
        assert genes[..j + 1][..j] == genes[..j];
        totalScore := totalScore + NumberOr0(Get(item, genes[j]), parse);
      }
      assert genes[..|genes|] == genes;
      items[i] := item["total_score" := Num(totalScore)];
    }
  }

  /** The records in descending order of `total_score`. */
  function ByScore(records: seq<Record>): (r: seq<Record>)
    ensures Ordered(r, ScoreOf, false)
    ensures multiset(r) == multiset(records)
  {
    SortByKey(records, ScoreOf, false)
  }

  /** The column order: index, total_score, umap_1, umap_2, then the genes. */
  function ColumnsOrder(genes: seq<string>): (r: seq<string>)
    ensures |r| == 4 + |genes|
    ensures r[..4] == ["index", "total_score", "umap_1", "umap_2"] && r[4..] == genes
  {
    ["index", "total_score", "umap_1", "umap_2"] + genes
  }

  /** How `join` writes a value: a number by `show`, a text as it is, nothing as the
      empty text. */
  function CellText(v: Value, show: real -> string): string {
    match v
    case Num(n) => show(n)
    case Text(t) => t
    case Null => ""
  }

  function Cells(rec: Record, columns: seq<string>, show: real -> string): (r: seq<string>)
    ensures |r| == |columns| && forall i :: 0 <= i < |columns| ==> r[i] == CellText(Get(rec, columns[i]), show)
  {
    seq(|columns|, i requires 0 <= i < |columns| => CellText(Get(rec, columns[i]), show))
  }

  function Lines(records: seq<Record>, columns: seq<string>, show: real -> string): (r: seq<string>)
    ensures |r| == |records| && forall i :: 0 <= i < |records| ==> r[i] == Join(Cells(records[i], columns, show), ",")
  {
    seq(|records|, i requires 0 <= i < |records| => Join(Cells(records[i], columns, show), ","))
  }

  /** The CSV text: the header, a line break, and the record lines separated by line
      breaks (no line break at the end). */
  function CsvText(records: seq<Record>, genes: seq<string>, show: real -> string): string {
    Join(ColumnsOrder(genes), ",") + "\n" + Join(Lines(records, ColumnsOrder(genes), show), "\n")
  }

  /** No column name and no cell holds `c`. */
  predicate FreeOf(records: seq<Record>, genes: seq<string>, show: real -> string, c: char) {
    (forall i :: 0 <= i < |genes| ==> c !in genes[i]) &&
    (forall r, k :: 0 <= r < |records| && 0 <= k < |ColumnsOrder(genes)| ==>
       c !in CellText(Get(records[r], ColumnsOrder(genes)[k]), show))
  }

  /** Split into lines, the CSV is the header followed by one line per record; with
      no records the header's line break leaves one empty line. */
  lemma CsvLines(records: seq<Record>, genes: seq<string>, show: real -> string)
    requires FreeOf(records, genes, show, '\n')
    ensures Split(CsvText(records, genes, show), '\n') ==
      [Join(ColumnsOrder(genes), ",")] + (if records == [] then [""] else Lines(records, ColumnsOrder(genes), show))
  {
    var cols := ColumnsOrder(genes);
    var header := Join(cols, ",");
    var lines := Lines(records, cols, show);
    forall k | 0 <= k < |cols| ensures '\n' !in cols[k] {
      if k >= 4 {
        assert cols[k] == genes[k - 4];
      } else {
        assert cols[k] == cols[..4][k];
      }
    }
    JoinFree(cols, ",", '\n');
    SplitAtFirst(header, '\n', Join(lines, "\n"));
    assert CsvText(records, genes, show) == header + ['\n'] + Join(lines, "\n");
    if records != [] {
      forall r | 0 <= r < |lines| ensures '\n' !in lines[r] {
        JoinFree(Cells(records[r], cols, show), ",", '\n');
      }
      SplitJoin(lines, '\n');
    }
  }

  /** Split at its commas, a record's line gives its cells in column order. */
  lemma CsvCells(records: seq<Record>, genes: seq<string>, show: real -> string, r: nat)
    requires r < |records|
    requires FreeOf(records, genes, show, ',')
    ensures Split(Lines(records, ColumnsOrder(genes), show)[r], ',') == Cells(records[r], ColumnsOrder(genes), show)
  {
    SplitJoin(Cells(records[r], ColumnsOrder(genes), show), ',');
  }

  /** Split at its commas, the header line names the columns in export order: index,
      total_score, umap_1, umap_2, then the genes as given. */
  lemma CsvHeader(genes: seq<string>)
    requires forall i :: 0 <= i < |genes| ==> ',' !in genes[i]
    ensures Split(Join(ColumnsOrder(genes), ","), ',') == ["index", "total_score", "umap_1", "umap_2"] + genes
  {
    var cols := ColumnsOrder(genes);
    forall k | 0 <= k < |cols| ensures ',' !in cols[k] {
      if k >= 4 {
        assert cols[k] == genes[k - 4];
      } else {
        assert cols[k] == cols[..4][k];
      }
    }
    SplitJoin(cols, ',');
  }

  /** Every record scored, in the order given. */
  function ScoredAll(records: seq<Record>, genes: seq<string>, parse: string -> Option<real>): (r: seq<Record>)
    ensures |r| == |records| && forall i :: 0 <= i < |records| ==> r[i] == Scored(records[i], genes, parse)
  {
    seq(|records|, i requires 0 <= i < |records| => Scored(records[i], genes, parse))
  }

  /** The columns the export reads: the genes, then the coordinates and the index. */
  function ExportColumns(genes: seq<string>): seq<string> {
    genes + ["umap_1", "umap_2", "index"]
  }

  function IndexValues(result: seq<Record>): (r: seq<Value>)
    ensures |r| == |result| && forall i :: 0 <= i < |result| ==> r[i] == Get(result[i], "index")
  {
    seq(|result|, i requires 0 <= i < |result| => Get(result[i], "index"))
  }

  /** `writeToCSV`: reads the selected records' genes, coordinates and index by
      their indices (`query`), scores them, orders them by descending score and
      gives the CSV text to be written; a failed read is caught and nothing is
      written. */
  method WriteToCsv(result: seq<Record>, selectedGenes: seq<string>, parquetFile: string,
                    query: (string, seq<string>, seq<Value>) -> Outcome<seq<Record>>,
                    parse: string -> Option<real>, show: real -> string)
    returns (written: Option<string>)
    ensures query(parquetFile, ExportColumns(selectedGenes), IndexValues(result)).Failed? ==> written.None?
    ensures query(parquetFile, ExportColumns(selectedGenes), IndexValues(result)).Ok? ==>
      var rows := query(parquetFile, ExportColumns(selectedGenes), IndexValues(result)).value;
      written == Some(CsvText(ByScore(ScoredAll(rows, selectedGenes, parse)), selectedGenes, show))
  {
    var indices := IndexValues(result);
    var queryResult := query(parquetFile, ExportColumns(selectedGenes), indices);
    if queryResult.Failed? {
      return None;
    }
    var rows := queryResult.value;
    var items := new Record[|rows|](i requires 0 <= i < |rows| => rows[i]);
    ScoreAll(items, selectedGenes, parse);
    assert items[..] == ScoredAll(rows, selectedGenes, parse);
    var sorted := ByScore(items[..]);
    written := Some(CsvText(sorted, selectedGenes, show));
  }
}
