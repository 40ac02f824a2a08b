/** The application shell: choosing a tissue resource and a gene category, the
    re-scoring of the current selection when the data changes, and the assembly of
    per-point gene-expression scores. */
module App {
  import opened Common
  import opened ScoreOrder

  /** A tissue resource; only the fields the handlers read are kept. */
  datatype Resource = Resource(categoryName: string, parquetFile: string)

  /** The gene list that stands for every gene. */
  const AllGenes: string := "All_Genes"

  /** The category value meaning "no category". */
  const DefaultCategory: string := "default"

  /** `resources.find(r => r.category_name === name)`: the first resource of that name. */
  function FindResource(resources: seq<Resource>, name: string): (r: Option<Resource>)
    ensures r.None? <==> forall i :: 0 <= i < |resources| ==> resources[i].categoryName != name
    ensures r.Some? ==>
      (exists i :: 0 <= i < |resources| && resources[i] == r.value &&
        r.value.categoryName == name &&
        forall j :: 0 <= j < i ==> resources[j].categoryName != name)
  {
    if resources == [] then None
    else if resources[0].categoryName == name then Some(resources[0])
    else
      var rest := FindResource(resources[1..], name);
      assert forall i :: 1 <= i < |resources| ==> resources[1..][i - 1] == resources[i];
      if rest.Some? then
        var k :| 0 <= k < |resources[1..]| && resources[1..][k] == rest.value &&
          rest.value.categoryName == name &&
          forall j :: 0 <= j < k ==> resources[1..][j].categoryName != name;
        assert resources[k + 1] == rest.value;
        rest
      else rest
  }

  // ---------------------------------------------------------------------------
  // Re-scoring the selection

  /** `new Map(data.map(p => [p.index, p])).get(index)`: the map keeps the last point
      written under each index. */
  function LastWithIndex(data: seq<DataPoint>, index: string): (r: Option<DataPoint>)
    ensures r.None? <==> forall i :: 0 <= i < |data| ==> data[i].index != index
    ensures r.Some? ==>
      (exists i :: 0 <= i < |data| && data[i] == r.value &&
        r.value.index == index &&
        forall j :: i < j < |data| ==> data[j].index != index)
  {
    if data == [] then None
    else if data[|data| - 1].index == index then Some(data[|data| - 1])
    else
      var init := data[..|data| - 1];
      assert forall i :: 0 <= i < |init| ==> init[i] == data[i];
      LastWithIndex(init, index)
  }

  /** One selected point after re-scoring: the score and colour of the current point
      with its index, when there is one. */
  function Rescored(p: DataPoint, data: seq<DataPoint>): DataPoint {
    match LastWithIndex(data, p.index)
    case Some(current) => p.(score := current.score, color := current.color)
    case None => p
  }

  /** The re-scoring effect: nothing to do when the selection or the data is empty;
      otherwise every selected point, in order, keeps its index and position and takes
      its score and colour from the current point with the same index (the last one
      written, as a `Map` keeps it), or stays as it was when no such point exists. */
  function Rescore(selected: seq<DataPoint>, data: seq<DataPoint>): (r: Option<seq<DataPoint>>)
    ensures r.None? <==> selected == [] || data == []
    ensures r.Some? ==> |r.value| == |selected|
    ensures r.Some? ==> forall i :: 0 <= i < |selected| ==>
      r.value[i].index == selected[i].index && r.value[i].x == selected[i].x &&
      r.value[i].y == selected[i].y && r.value[i].cx == selected[i].cx &&
      r.value[i].cy == selected[i].cy &&
      r.value[i].hasExpressionData == selected[i].hasExpressionData
    ensures r.Some? ==> forall i :: 0 <= i < |selected| ==>
      match LastWithIndex(data, selected[i].index)
      case Some(current) => r.value[i].score == current.score && r.value[i].color == current.color
      case None => r.value[i] == selected[i]
  {
    if |selected| == 0 || |data| == 0 then None
    else Some(seq(|selected|, i requires 0 <= i < |selected| => Rescored(selected[i], data)))
  }

  /** Re-scoring against the same data twice changes nothing the second time: indices
      are kept, so every point finds the same current point again. */
  lemma RescoreIdempotent(selected: seq<DataPoint>, data: seq<DataPoint>)
    requires selected != [] && data != []
    ensures Rescore(Rescore(selected, data).value, data) == Rescore(selected, data)
  {
    var once := Rescore(selected, data).value;
    var twice := Rescore(once, data).value;
    forall i | 0 <= i < |selected| ensures twice[i] == once[i] {
      assert once[i] == Rescored(selected[i], data);
      assert twice[i] == Rescored(once[i], data);
    }
    assert twice == once;
  }

  // ---------------------------------------------------------------------------
  // Gene expression

  /** The indices App builds the expression query's `WHERE` clause from, or `None`
      for the early return when there is no resource, no gene or no base data. With a
      selection the selected indices are the targets, otherwise every base index. */
  function ExpressionTargets(resource: Option<Resource>, genes: seq<string>,
                             baseData: seq<DataPoint>, selected: seq<DataPoint>): (r: Option<seq<string>>)
    ensures r.None? <==> resource.None? || genes == [] || baseData == []
    ensures r.Some? && selected != [] ==>
      |r.value| == |selected| && forall i :: 0 <= i < |selected| ==> r.value[i] == selected[i].index
    ensures r.Some? && selected == [] ==>
      |r.value| == |baseData| && forall i :: 0 <= i < |baseData| ==> r.value[i] == baseData[i].index
  {
    if resource.None? || |genes| == 0 || |baseData| == 0 then None
    else
      var source := if |selected| > 0 then selected else baseData;
      Some(seq(|source|, i requires 0 <= i < |source| => source[i].index))
  }

  /** One row of the query without DuckDB: the parsed value of each column. */
  datatype Row = Row(values: map<string, real>, index: string)

  /** The row holds both coordinates and every selected gene. */
  predicate HasColumns(row: Row, genes: seq<string>) {
    "umap_1" in row.values && "umap_2" in row.values &&
    forall g :: g in genes ==> g in row.values
  }

  /** The sum of the row's values over the genes, in list order. */
  function GeneSum(values: map<string, real>, genes: seq<string>): real
    requires forall g :: g in genes ==> g in values
  {
    if genes == [] then 0.0
    else GeneSum(values, genes[..|genes| - 1]) + values[genes[|genes| - 1]]
  }

  /** The score of a list of genes is the sum of the scores of its two halves, so the
      list may be summed in two parts. */
  lemma {:induction false} GeneSumAppend(values: map<string, real>, a: seq<string>, b: seq<string>)
    requires forall g :: g in a + b ==> g in values
    ensures GeneSum(values, a + b) == GeneSum(values, a) + GeneSum(values, b)
  {
    if b != [] {
      var b' := b[..|b| - 1];
      assert (a + b)[..|a + b| - 1] == a + b';
      GeneSumAppend(values, a, b');
    } else {
      assert a + b == a;
    }
  }

  /** A gene listed once contributes exactly its own value. */
  lemma GeneSumSingle(values: map<string, real>, g: string)
    requires g in values
    ensures GeneSum(values, [g]) == values[g]
  {
    assert [g][..0] == [];
  }

  /** The point a row becomes: its coordinates, its index, the summed score, no colour,
      flagged as carrying expression data. */
  function FallbackPoint(row: Row, genes: seq<string>): (p: DataPoint)
    requires HasColumns(row, genes)
    ensures p.hasExpressionData && p.color.None? && p.index == row.index
    ensures p.x == row.values["umap_1"] && p.y == row.values["umap_2"]
  {
    DataPoint(row.values["umap_1"], row.values["umap_2"], row.index, GeneSum(row.values, genes),
              None, None, None, true)
  }

  /** The fallback path: fill a fresh array with one point per row, its score summed
      gene by gene, then order the points by ascending score. */
  method AssembleFallback(rows: seq<Row>, selection: seq<string>) returns (processed: seq<DataPoint>)
    requires forall i :: 0 <= i < |rows| ==> HasColumns(rows[i], selection)
    ensures Ordered(processed, (p: DataPoint) => p.score, true)
    ensures multiset(processed) ==
      multiset(seq(|rows|, i requires 0 <= i < |rows| => FallbackPoint(rows[i], selection)))
  {
    var points := new DataPoint[|rows|];
    for i := 0 to |rows|
      invariant forall k :: 0 <= k < i ==> points[k] == FallbackPoint(rows[k], selection)
    {
      var d := rows[i];
      var score := 0.0;
      for j := 0 to |selection|
        invariant score == GeneSum(d.values, selection[..j])
      {
        assert selection[..j + 1][..j] == selection[..j];
        score := score + d.values[selection[j]];
      }
      assert selection[..|selection|] == selection;
      points[i] := DataPoint(d.values["umap_1"], d.values["umap_2"], d.index, score, None, None, None, true);
    }
    assert points[..] == seq(|rows|, i requires 0 <= i < |rows| => FallbackPoint(rows[i], selection));
    processed := SortByKey(points[..], (p: DataPoint) => p.score, true);
  }

  /** One row of the DuckDB expression query: `umap_1`, `umap_2`, `index` and the
      averaged expression. */
  datatype ExpressionRow = ExpressionRow(x: real, y: real, index: string, score: real)

  /** The DuckDB path: every row as an expression point, ordered by ascending score. */
  function ExpressionPoints(rows: seq<ExpressionRow>): (r: seq<DataPoint>)
    ensures Ordered(r, (p: DataPoint) => p.score, true)
    ensures multiset(r) == multiset(seq(|rows|, i requires 0 <= i < |rows| =>
      DataPoint(rows[i].x, rows[i].y, rows[i].index, rows[i].score, None, None, None, true)))
  {
    SortByKey(seq(|rows|, i requires 0 <= i < |rows| =>
      DataPoint(rows[i].x, rows[i].y, rows[i].index, rows[i].score, None, None, None, true)),
      (p: DataPoint) => p.score, true)
  }

  // ---------------------------------------------------------------------------
  // The component state the handlers change

  class AppState {
    const resources: seq<Resource>
    const categories: map<string, seq<string>>
    var currentResource: Option<Resource>
    var selectedCategory: string
    var selectedGenes: seq<string>
    var loading: bool
    var minorLoading: bool
    var data: seq<DataPoint>
    var selectedData: seq<DataPoint>

    /** The initial state: no resource, no category, every gene selected, and the
        blocking load pending. */
    constructor (resources: seq<Resource>, categories: map<string, seq<string>>)
      ensures this.resources == resources && this.categories == categories
      ensures currentResource.None? && selectedCategory == ""
      ensures selectedGenes == [AllGenes] && data == [] && selectedData == []
      ensures loading && !minorLoading
    {
      this.resources := resources;
      this.categories := categories;
      currentResource := None;
      selectedCategory := "";
      selectedGenes := [AllGenes];
      loading := true;
      minorLoading := false;
      data := [];
      selectedData := [];
    }

    /** `handleResourceChange`: switch to the named resource (none if no resource has
        that name), reset the category to the default and select every gene. */
    method ResourceChange(name: string)
      modifies this
      ensures loading && currentResource == FindResource(resources, name)
      ensures selectedCategory == DefaultCategory && selectedGenes == [AllGenes]
      ensures minorLoading == old(minorLoading) && data == old(data) && selectedData == old(selectedData)
    {
      loading := true;
      currentResource := FindResource(resources, name);
      selectedCategory := DefaultCategory;
      selectedGenes := [AllGenes];
    }

    /** `handleCategoryChange`: the default category clears the genes, any other one
        selects that category's genes. */
    method CategoryChange(category: string)
      requires category == DefaultCategory || category in categories
      modifies this
      ensures minorLoading && selectedCategory == category
      ensures category == DefaultCategory ==> selectedGenes == []
      ensures category != DefaultCategory ==> selectedGenes == categories[category]
      ensures loading == old(loading) && currentResource == old(currentResource)
      ensures data == old(data) && selectedData == old(selectedData)
    {
      minorLoading := true;
      if category == DefaultCategory {
        selectedGenes := [];
      } else {
        selectedGenes := categories[category];
      }
      selectedCategory := category;
    }

    /** The re-scoring effect run after the data or the genes change. */
    method RescoreEffect()
      modifies this
      ensures Rescore(old(selectedData), data).None? ==> selectedData == old(selectedData)
      ensures Rescore(old(selectedData), data).Some? ==> selectedData == Rescore(old(selectedData), data).value
      ensures data == old(data) && selectedGenes == old(selectedGenes)
      ensures currentResource == old(currentResource) && selectedCategory == old(selectedCategory)
      ensures loading == old(loading) && minorLoading == old(minorLoading)
    {
      if |selectedData| == 0 || |data| == 0 {
        return;
      }
      selectedData := Rescore(selectedData, data).value;
    }
  }
}
