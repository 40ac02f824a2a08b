/** The gene picker: the case-insensitive search, the split of the matching genes
    into a selected and an (optionally truncated) unselected section, and the
    selection changes its checkboxes and buttons make. */
module GeneCheckboxList {
  import opened Common
  import App

  /** `sub` occurs in `s` starting at position `i`. */
  predicate OccursAt(s: string, sub: string, i: int) {
    0 <= i && i + |sub| <= |s| && s[i..i + |sub|] == sub
  }

  /** `s.includes(sub)`: `sub` occurs at some position of `s`. */
  predicate Includes(s: string, sub: string) {
    exists i :: 0 <= i <= |s| - |sub| && OccursAt(s, sub, i)
  }

  /** The search test: the lower-cased gene contains the lower-cased search term. */
  function Matches(search: string): string -> bool {
    gene => Includes(Lower(gene), Lower(search))
  }

  /** `filteredGenes`: every gene for an empty search term, otherwise, in their
      order, exactly the genes containing the term without regard to ASCII case. */
  function FilteredGenes(allGenes: seq<string>, search: string): (r: seq<string>)
    ensures search == [] ==> r == allGenes
    ensures search != [] ==> r == Filter(allGenes, Matches(search))
    ensures search != [] ==> forall g :: g in r <==> g in allGenes && Includes(Lower(g), Lower(search))
  {
    if |search| == 0 then allGenes else Filter(allGenes, Matches(search))
  }

  /** Only the lower-case form of the search term matters: two terms that lower-case
      alike filter alike. */
  lemma SearchIgnoresCase(allGenes: seq<string>, s1: string, s2: string)
    requires Lower(s1) == Lower(s2)
    ensures FilteredGenes(allGenes, s1) == FilteredGenes(allGenes, s2)
  {
    if s1 != [] {
      FilterExt(allGenes, Matches(s1), Matches(s2));
    }
  }

  /** A gene in the current selection; and one that is not. */
  function IsSelected(selectedGenes: seq<string>): string -> bool {
    gene => gene in selectedGenes
  }

  function NotSelected(selectedGenes: seq<string>): string -> bool {
    gene => gene !in selectedGenes
  }

  /** How many unselected genes are listed unless every gene is shown. */
  const UnselectedLimit: nat := 50

  datatype Sections = Sections(selected: seq<string>, unselected: seq<string>)

  /** The two sections: the filtered genes that are selected, in order, and those that
      are not, in order, cut to the first 50 unless every gene is to be shown. */
  function Partition(filtered: seq<string>, selectedGenes: seq<string>, showAllGenes: bool): (r: Sections)
    ensures r.selected == Filter(filtered, IsSelected(selectedGenes))
    ensures showAllGenes ==> r.unselected == Filter(filtered, NotSelected(selectedGenes))
    ensures !showAllGenes ==>
      (|r.unselected| <= UnselectedLimit && r.unselected <= Filter(filtered, NotSelected(selectedGenes)))
    ensures !showAllGenes && |Filter(filtered, NotSelected(selectedGenes))| >= UnselectedLimit ==>
      |r.unselected| == UnselectedLimit
    ensures !showAllGenes && |Filter(filtered, NotSelected(selectedGenes))| < UnselectedLimit ==>
      r.unselected == Filter(filtered, NotSelected(selectedGenes))
    ensures forall g :: g in r.selected ==> g in selectedGenes
    ensures forall g :: g in r.unselected ==> g !in selectedGenes
  {
    var selected := Filter(filtered, IsSelected(selectedGenes));
    var unselected := Filter(filtered, NotSelected(selectedGenes));
    var limited := if showAllGenes then unselected
      else unselected[..if |unselected| < UnselectedLimit then |unselected| else UnselectedLimit];
    assert forall g :: g in limited ==> g in unselected;
    Sections(selected, limited)
  }

  /** With every gene shown the two sections hold exactly the filtered genes: each
      gene as often as it is filtered, in one section and not the other. */
  lemma PartitionCovers(filtered: seq<string>, selectedGenes: seq<string>)
    ensures multiset(Partition(filtered, selectedGenes, true).selected) +
            multiset(Partition(filtered, selectedGenes, true).unselected) == multiset(filtered)
  {
    var r := Partition(filtered, selectedGenes, true);
    forall x ensures multiset(r.selected)[x] + multiset(r.unselected)[x] == multiset(filtered)[x] {
      FilterCount(filtered, IsSelected(selectedGenes), x);
      FilterCount(filtered, NotSelected(selectedGenes), x);
    }
  }

  /** A change to the selection: a checkbox set to `checked`, or a button. */
  datatype Action = Toggle(gene: string, checked: bool) | SelectAll | ClearAll

  function NotAllGenes(g: string): bool { g != App.AllGenes }

  function NotGene(gene: string): string -> bool {
    g => g != gene
  }

  /** The new selection. Select-all gives `All_Genes` alone and clear-all gives
      nothing. Checking `All_Genes` selects it alone and unchecking it selects
      nothing. Checking another gene drops `All_Genes` and appends the gene after the
      others, in their order; unchecking it removes every copy of it and keeps the
      rest in order. */
  function Apply(selectedGenes: seq<string>, action: Action): (r: seq<string>)
    ensures action.SelectAll? ==> r == [App.AllGenes]
    ensures action.ClearAll? ==> r == []
    ensures action.Toggle? && action.gene == App.AllGenes ==>
      r == if action.checked then [App.AllGenes] else []
    ensures action.Toggle? && action.gene != App.AllGenes && action.checked ==>
      |r| > 0 && r[|r| - 1] == action.gene && App.AllGenes !in r &&
      r[..|r| - 1] == Filter(selectedGenes, NotAllGenes) &&
      forall g :: g != App.AllGenes ==> multiset(r[..|r| - 1])[g] == multiset(selectedGenes)[g]
    ensures action.Toggle? && action.gene != App.AllGenes && !action.checked ==>
      action.gene !in r && r == Filter(selectedGenes, NotGene(action.gene)) &&
      forall g :: g != action.gene ==> multiset(r)[g] == multiset(selectedGenes)[g]
  {
    match action
    case SelectAll => [App.AllGenes]
    case ClearAll => []
    case Toggle(gene, checked) =>
      if gene == App.AllGenes then (if checked then [App.AllGenes] else [])
      else if checked then
        var kept := Filter(selectedGenes, NotAllGenes);
        forall g ensures g != App.AllGenes ==> multiset(kept)[g] == multiset(selectedGenes)[g] {
          FilterCount(selectedGenes, NotAllGenes, g);
        }
        assert (kept + [gene])[..|kept|] == kept;
        kept + [gene]
      else
        var kept := Filter(selectedGenes, NotGene(gene));
        forall g ensures g != gene ==> multiset(kept)[g] == multiset(selectedGenes)[g] {
          FilterCount(selectedGenes, NotGene(gene), g);
        }
        kept
  }

  /** Checking a gene that is not selected, then unchecking it, restores a selection
      that did not hold `All_Genes`. */
  lemma CheckThenUncheck(selectedGenes: seq<string>, gene: string)
    requires gene != App.AllGenes && gene !in selectedGenes && App.AllGenes !in selectedGenes
    ensures Apply(Apply(selectedGenes, Toggle(gene, true)), Toggle(gene, false)) == selectedGenes
  {
    var added := Apply(selectedGenes, Toggle(gene, true));
    FilterKeepsAllIff(selectedGenes, NotAllGenes);
    assert added == selectedGenes + [gene];
    FilterAppend(selectedGenes, [gene], NotGene(gene));
    assert Filter([gene], NotGene(gene)) == Filter([], NotGene(gene)) + [];
    FilterKeepsAllIff(selectedGenes, NotGene(gene));
  }

  /** A checkbox's change handler in either section once the checkbox reports its
      new state: a box that becomes checked adds the gene, one that becomes unchecked
      removes it. */
  function ItemChange(selectedGenes: seq<string>, gene: string, nowChecked: bool): (r: seq<string>)
    ensures nowChecked ==> gene in r
    ensures !nowChecked ==> gene !in r
  {
    Apply(selectedGenes, Toggle(gene, nowChecked))
  }

  /** The Selected section's handler as written: it passes the negation of the box's
      new state. */
  function SelectedItemChangeAsWritten(selectedGenes: seq<string>, gene: string, nowChecked: bool): seq<string> {
    Apply(selectedGenes, Toggle(gene, !nowChecked))
  }

  /** Clicking a box in the Selected section (which unchecks it) does not deselect its
      gene: an ordinary gene is appended once more, and `All_Genes` stays selected. */
  lemma SelectedClickKeepsGene(selectedGenes: seq<string>, gene: string)
    requires gene in selectedGenes
    ensures gene in SelectedItemChangeAsWritten(selectedGenes, gene, false)
    ensures gene != App.AllGenes ==>
      multiset(SelectedItemChangeAsWritten(selectedGenes, gene, false))[gene] ==
      multiset(selectedGenes)[gene] + 1
    ensures gene == App.AllGenes ==> SelectedItemChangeAsWritten(selectedGenes, gene, false) == [App.AllGenes]
  {
    if gene != App.AllGenes {
      var r := SelectedItemChangeAsWritten(selectedGenes, gene, false);
      assert r == r[..|r| - 1] + [gene];
    }
  }
}
