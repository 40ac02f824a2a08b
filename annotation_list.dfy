/** The annotation list: one entry per label text (the last record of that text
    wins, as a `Map` keyed by text keeps it), listed in string order of the text,
    and the visibility and highlight of each entry. */
module AnnotationList {
  import opened Common
  import opened PlotSettings

  // ---------------------------------------------------------------------------
  // String order

  /** `a` comes no later than `b` in plain lexicographic order of characters. */
  predicate LexLe(a: string, b: string) {
    a == [] || (b != [] && (a[0] < b[0] || (a[0] == b[0] && LexLe(a[1..], b[1..]))))
  }

  lemma {:induction false} LexTotal(a: string, b: string)
    ensures LexLe(a, b) || LexLe(b, a)
  {
    if a != [] && b != [] && a[0] == b[0] {
      LexTotal(a[1..], b[1..]);
    }
  }

  lemma {:induction false} LexTrans(a: string, b: string, c: string)
    requires LexLe(a, b) && LexLe(b, c)
    ensures LexLe(a, c)
  {
    if a != [] && b != [] && c != [] && a[0] == b[0] && b[0] == c[0] {
      LexTrans(a[1..], b[1..], c[1..]);
    }
  }

  lemma {:induction false} LexAntisym(a: string, b: string)
    requires LexLe(a, b) && LexLe(b, a)
    ensures a == b
  {
    if a != [] && b != [] {
      LexAntisym(a[1..], b[1..]);
      assert a == [a[0]] + a[1..] && b == [b[0]] + b[1..];
    }
  }

  // ---------------------------------------------------------------------------
  // Records keyed by text

  /** The label texts that occur. */
  function Names(s: seq<LabelPoint>): set<string> {
    set x | x in s :: x.name
  }

  /** No two records share a text. */
  predicate DistinctNames(s: seq<LabelPoint>) {
    forall i, j :: 0 <= i < j < |s| ==> s[i].name != s[j].name
  }

  /** Records in string order of their text. */
  predicate SortedByName(s: seq<LabelPoint>) {
    forall i, j :: 0 <= i < j < |s| ==> LexLe(s[i].name, s[j].name)
  }

  /** The last record with the given text, if any: no later record has that text. */
  function LastByName(labels: seq<LabelPoint>, name: string): (r: Option<LabelPoint>)
    ensures r.None? <==> name !in Names(labels)
    ensures r.Some? ==> r.value in labels && r.value.name == name
    ensures r.Some? ==>
      exists i :: 0 <= i < |labels| && labels[i] == r.value &&
        forall j :: i < j < |labels| ==> labels[j].name != name
  {
    if labels == [] then None
    else if labels[|labels| - 1].name == name then Some(labels[|labels| - 1])
    else
      var init := labels[..|labels| - 1];
      assert labels == init + [labels[|labels| - 1]];
      assert Names(labels) == Names(init) + {labels[|labels| - 1].name};
      assert forall i :: 0 <= i < |init| ==> init[i] == labels[i];
      LastByName(init, name)
  }

  /** `map.set(l.label, l)` on the map's entries in key order: the entry with that text
      is overwritten in place, or the record is appended as a new key. */
  function PutByName(entries: seq<LabelPoint>, l: LabelPoint): (r: seq<LabelPoint>)
    requires DistinctNames(entries)
    ensures l in r
    ensures forall y :: y in r <==> y == l || (y in entries && y.name != l.name)
    ensures Names(r) == Names(entries) + {l.name}
    ensures DistinctNames(r)
  {
    if entries == [] then [l]
    else if entries[0].name == l.name then
      ReplaceHead(entries, l);
      [l] + entries[1..]
    else
      var rest := PutByName(entries[1..], l);
      KeepHead(entries, l, rest);
      [entries[0]] + rest
  }

  /** Replacing the head record of the text `l.name` by `l`. */
  lemma ReplaceHead(entries: seq<LabelPoint>, l: LabelPoint)
    requires DistinctNames(entries) && entries != [] && entries[0].name == l.name
    ensures var r := [l] + entries[1..];
      (forall y :: y in r <==> y == l || (y in entries && y.name != l.name)) &&
      Names(r) == Names(entries) + {l.name} && DistinctNames(r)
  {
    var r := [l] + entries[1..];
    assert entries == [entries[0]] + entries[1..];
    forall y | y in entries[1..] ensures y.name != l.name {
      var k :| 0 <= k < |entries[1..]| && entries[1..][k] == y;
      assert entries[k + 1] == y;
    }
    assert forall y :: y in r <==> y == l || y in entries[1..];
    forall i, j | 0 <= i < j < |r| ensures r[i].name != r[j].name {
      assert r[j] == entries[j];
      if i > 0 {
        assert r[i] == entries[i];
      }
    }
  }

  /** Keeping a head record of another text in front of the put into the tail. */
  lemma KeepHead(entries: seq<LabelPoint>, l: LabelPoint, rest: seq<LabelPoint>)
    requires DistinctNames(entries) && entries != [] && entries[0].name != l.name
    requires forall y :: y in rest <==> y == l || (y in entries[1..] && y.name != l.name)
    requires Names(rest) == Names(entries[1..]) + {l.name}
    requires DistinctNames(rest)
    ensures var r := [entries[0]] + rest;
      (forall y :: y in r <==> y == l || (y in entries && y.name != l.name)) &&
      Names(r) == Names(entries) + {l.name} && DistinctNames(r)
  {
    var r := [entries[0]] + rest;
    assert entries == [entries[0]] + entries[1..];
    forall j | 0 <= j < |rest| ensures rest[j].name != entries[0].name {
      assert rest[j] in rest;
      if rest[j] != l {
        var k :| 0 <= k < |entries[1..]| && entries[1..][k] == rest[j];
        assert entries[k + 1] == rest[j];
      }
    }
    forall i, j | 0 <= i < j < |r| ensures r[i].name != r[j].name {
      assert r[j] == rest[j - 1];
      if i > 0 {
        assert r[i] == rest[i - 1];
      }
    }
  }

  /** `new Map(labels.map(l => [l.label, l])).values()`: one entry per text, each the
      last record of its text. */
  function MapValues(labels: seq<LabelPoint>): (r: seq<LabelPoint>)
    ensures DistinctNames(r)
    ensures Names(r) == Names(labels)
    ensures forall y :: y in r ==> LastByName(labels, y.name) == Some(y)
  {
    if labels == [] then []
    else
      var init := labels[..|labels| - 1];
      var last := labels[|labels| - 1];
      var prev := MapValues(init);
      assert labels == init + [last];
      assert Names(labels) == Names(init) + {last.name};
      PutByName(prev, last)
  }

  /** A record no later than every record of a sorted sequence may go in front. */
  lemma ConsSorted(x: LabelPoint, s: seq<LabelPoint>)
    requires SortedByName(s)
    requires forall y :: y in s ==> LexLe(x.name, y.name)
    ensures SortedByName([x] + s)
  {
    var r := [x] + s;
    forall i, j | 0 <= i < j < |r| ensures LexLe(r[i].name, r[j].name) {
      if i == 0 {
        assert r[j] == s[j - 1];
      }
    }
  }

  /** Puts `x` before the first record whose text it does not follow. */
  function InsertByName(x: LabelPoint, s: seq<LabelPoint>): (r: seq<LabelPoint>)
    requires SortedByName(s)
    ensures SortedByName(r)
    ensures multiset(r) == multiset(s) + multiset{x}
    ensures forall y :: y in r <==> y == x || y in s
  {
    if s == [] then [x]
    else if LexLe(x.name, s[0].name) then
      forall y | y in s ensures LexLe(x.name, y.name) {
        var k :| 0 <= k < |s| && s[k] == y;
        if k > 0 {
          LexTrans(x.name, s[0].name, y.name);
        }
      }
      ConsSorted(x, s);
      [x] + s
    else
      LexTotal(x.name, s[0].name);
      var rest := InsertByName(x, s[1..]);
      assert s == [s[0]] + s[1..];
      forall y | y in rest ensures LexLe(s[0].name, y.name) {
        if y != x {
          var k :| 0 <= k < |s[1..]| && s[1..][k] == y;
          assert s[k + 1] == y;
        }
      }
      ConsSorted(s[0], rest);
      [s[0]] + rest
  }

  /** Inserting a record whose text is new keeps the texts distinct. */
  lemma {:induction false} InsertKeepsDistinct(x: LabelPoint, s: seq<LabelPoint>)
    requires SortedByName(s) && DistinctNames(s) && x.name !in Names(s)
    ensures DistinctNames(InsertByName(x, s))
  {
    if s != [] && !LexLe(x.name, s[0].name) {
      assert s == [s[0]] + s[1..];
      assert Names(s[1..]) <= Names(s);
      InsertKeepsDistinct(x, s[1..]);
      var rest := InsertByName(x, s[1..]);
      forall y | y in rest ensures y.name != s[0].name {
        if y != x {
          var k :| 0 <= k < |s[1..]| && s[1..][k] == y;
          assert s[k + 1] == y;
        }
      }
    }
  }

  /** The records in string order of their text, the same records as before. */
  function SortByName(s: seq<LabelPoint>): (r: seq<LabelPoint>)
    ensures SortedByName(r)
    ensures multiset(r) == multiset(s)
    ensures forall y :: y in r <==> y in s
    ensures DistinctNames(s) ==> DistinctNames(r)
  {
    if s == [] then []
    else
      assert s == [s[0]] + s[1..];
      var rest := SortByName(s[1..]);
      if DistinctNames(s) then
        assert s[0].name !in Names(rest);
        InsertKeepsDistinct(s[0], rest);
        InsertByName(s[0], rest)
      else InsertByName(s[0], rest)
  }

  /** `uniqueLabels`: exactly one entry per text that occurs, each the last record of
      its text, in string order of the text. */
  function UniqueLabels(labels: seq<LabelPoint>): (r: seq<LabelPoint>)
    ensures SortedByName(r) && DistinctNames(r)
    ensures Names(r) == Names(labels)
    ensures forall y :: y in r ==> LastByName(labels, y.name) == Some(y)
  {
    var values := MapValues(labels);
    var r := SortByName(values);
    assert Names(r) == Names(values);
    r
  }

  /** The entries follow the text order strictly: with one entry per text, sorted
      means each text is strictly before the next. */
  lemma UniqueLabelsStrictlyOrdered(labels: seq<LabelPoint>, i: nat, j: nat)
    requires i < j < |UniqueLabels(labels)|
    ensures LexLe(UniqueLabels(labels)[i].name, UniqueLabels(labels)[j].name)
    ensures !LexLe(UniqueLabels(labels)[j].name, UniqueLabels(labels)[i].name)
  {
    var r := UniqueLabels(labels);
    if LexLe(r[j].name, r[i].name) {
      LexAntisym(r[i].name, r[j].name);
    }
  }

  // ---------------------------------------------------------------------------
  // Entry state

  /** How an entry is shown: its eye toggle, and whether it is highlighted. */
  datatype EntryState = EntryState(visible: bool, highlighted: bool)

  /** A label is visible when no visibility filter is set or the filter names it; an
      entry is highlighted when the hovered or the selected annotation has its text. */
  function Entry(l: LabelPoint, visibleLabels: set<string>,
                 hovered: Option<LabelPoint>, selected: Option<LabelPoint>): (e: EntryState)
    ensures e.visible <==> visibleLabels == {} || l.name in visibleLabels
    ensures e.highlighted <==>
      (hovered.Some? && hovered.value.name == l.name) || (selected.Some? && selected.value.name == l.name)
  {
    EntryState(|visibleLabels| == 0 || l.name in visibleLabels,
               (hovered.Some? && hovered.value.name == l.name) || (selected.Some? && selected.value.name == l.name))
  }

  /** Over the list's entries (one per text, from `UniqueLabels`), the visible ones
      are exactly the texts the filter names, or every text when no filter is set. */
  lemma VisibleEntries(labels: seq<LabelPoint>, visibleLabels: set<string>,
                       hovered: Option<LabelPoint>, selected: Option<LabelPoint>)
    ensures var u := UniqueLabels(labels);
      (set i | 0 <= i < |u| && Entry(u[i], visibleLabels, hovered, selected).visible :: u[i].name)
        == (if visibleLabels == {} then Names(labels) else visibleLabels * Names(labels))
  {
    VisibleNames(UniqueLabels(labels), visibleLabels, hovered, selected);
  }

  lemma VisibleNames(u: seq<LabelPoint>, visibleLabels: set<string>,
                     hovered: Option<LabelPoint>, selected: Option<LabelPoint>)
    ensures (set i | 0 <= i < |u| && Entry(u[i], visibleLabels, hovered, selected).visible :: u[i].name)
      == (if visibleLabels == {} then Names(u) else visibleLabels * Names(u))
  {
    var shown := set i | 0 <= i < |u| && Entry(u[i], visibleLabels, hovered, selected).visible :: u[i].name;
    var want := if visibleLabels == {} then Names(u) else visibleLabels * Names(u);
    forall n | n in want ensures n in shown {
      var i := NameIndex(u, n);
      assert Entry(u[i], visibleLabels, hovered, selected).visible;
    }
    forall n | n in shown ensures n in want {
      var i :| 0 <= i < |u| && Entry(u[i], visibleLabels, hovered, selected).visible && u[i].name == n;
      assert u[i] in u;
    }
  }

  /** Where some record has `n` as its text, an index of it. */
  lemma NameIndex(s: seq<LabelPoint>, n: string) returns (i: nat)
    requires n in Names(s)
    ensures i < |s| && s[i].name == n
  {
    var y :| y in s && y.name == n;
    i :| i < |s| && s[i] == y;
  }

  /** Two entries of the list are highlighted together only when the hovered and the
      selected annotation have different texts, so at most two are. */
  lemma HighlightedEntries(labels: seq<LabelPoint>, visibleLabels: set<string>,
                           hovered: Option<LabelPoint>, selected: Option<LabelPoint>, i: nat, j: nat)
    requires i < j < |UniqueLabels(labels)|
    requires Entry(UniqueLabels(labels)[i], visibleLabels, hovered, selected).highlighted
    requires Entry(UniqueLabels(labels)[j], visibleLabels, hovered, selected).highlighted
    ensures hovered.Some? && selected.Some? && hovered.value.name != selected.value.name
  {
    var u := UniqueLabels(labels);
    assert u[i].name != u[j].name;
  }
}
