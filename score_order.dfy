/** Ordering records by a numeric key, as `Array.prototype.sort` does with the
    comparators `(a, b) => a.score - b.score` (ascending) and `(a, b) => b.score -
    a.score` (descending). The library sort is given as an insertion sort. */
module ScoreOrder {

  /** `a` may come before `b` in the requested direction. */
  predicate InOrder(a: real, b: real, ascending: bool) {
    if ascending then a <= b else a >= b
  }

  /** Every earlier key is in order with every later key. */
  predicate Ordered<T>(s: seq<T>, key: T -> real, ascending: bool) {
    forall i, j :: 0 <= i < j < |s| ==> InOrder(key(s[i]), key(s[j]), ascending)
  }

  /** Puts `x` before the first element it may precede. */
  function Insert<T>(x: T, s: seq<T>, key: T -> real, ascending: bool): (r: seq<T>)
    requires Ordered(s, key, ascending)
    ensures Ordered(r, key, ascending)
    ensures multiset(r) == multiset(s) + multiset{x}
    ensures |r| == |s| + 1
  {
    if s == [] then [x]
    else if InOrder(key(x), key(s[0]), ascending) then
      OrderedCons(x, s, key, ascending);
      [x] + s
    else
      var rest := Insert(x, s[1..], key, ascending);
      assert s == [s[0]] + s[1..];
      HeadPrecedesRest(x, s, rest, key, ascending);
      OrderedCons(s[0], rest, key, ascending);
      [s[0]] + rest
  }

  /** An element in order with the first of an ordered list may be put in front. */
  lemma OrderedCons<T>(y: T, r: seq<T>, key: T -> real, ascending: bool)
    requires Ordered(r, key, ascending)
    requires r == [] || InOrder(key(y), key(r[0]), ascending)
    ensures Ordered([y] + r, key, ascending)
  {
    forall i, j | 0 <= i < j < |[y] + r|
      ensures InOrder(key(([y] + r)[i]), key(([y] + r)[j]), ascending)
    {
      assert ([y] + r)[j] == r[j - 1];
      if i > 0 {
        assert ([y] + r)[i] == r[i - 1];
      } else if j > 1 {
        assert InOrder(key(r[0]), key(r[j - 1]), ascending);
      }
    }
  }

  /** When `x` goes behind the head, the head is in order with everything the insert
      into the tail holds. */
  lemma HeadPrecedesRest<T>(x: T, s: seq<T>, rest: seq<T>, key: T -> real, ascending: bool)
    requires s != [] && Ordered(s, key, ascending) && !InOrder(key(x), key(s[0]), ascending)
    requires multiset(rest) == multiset(s[1..]) + multiset{x}
    ensures forall j :: 0 <= j < |rest| ==> InOrder(key(s[0]), key(rest[j]), ascending)
  {
    forall j | 0 <= j < |rest| ensures InOrder(key(s[0]), key(rest[j]), ascending) {
      assert rest[j] in multiset(rest);
      if rest[j] != x {
        assert rest[j] in multiset(s[1..]);
        var k :| 0 <= k < |s[1..]| && s[1..][k] == rest[j];
        assert s[k + 1] == rest[j];
      }
    }
  }

  /** The records ordered by their key, with the same multiset of records. */
  function SortByKey<T>(s: seq<T>, key: T -> real, ascending: bool): (r: seq<T>)
    ensures Ordered(r, key, ascending)
    ensures multiset(r) == multiset(s)
    ensures |r| == |s|
  {
    if s == [] then []
    else
      assert s == [s[0]] + s[1..];
      Insert(s[0], SortByKey(s[1..], key, ascending), key, ascending)
  }
}
