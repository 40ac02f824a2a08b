/** Shared vocabulary of the selection engine: optional values, screen vectors,
    the data point record and an order-preserving filter with its lemmas. */
module Common {

  datatype Option<+T> = None | Some(value: T) {
    function GetOr(default: T): T {
      match this
      case Some(v) => v
      case None => default
    }
  }

  /** A screen-space (or data-space) pair of coordinates. */
  datatype Vec = Vec(x: real, y: real)

  /** One scatter-plot point. `cx`/`cy` are the optional pre-computed screen
      coordinates; a missing one reads as 0 wherever the source writes `cx || 0`. */
  datatype DataPoint = DataPoint(
    x: real,
    y: real,
    index: string,
    score: real,
    color: Option<string>,
    cx: Option<real>,
    cy: Option<real>,
    hasExpressionData: bool)

  /** `point.cx || 0` and `point.cy || 0`. */
  function Screen(p: DataPoint): Vec {
    Vec(p.cx.GetOr(0.0), p.cy.GetOr(0.0))
  }

  function Min(a: real, b: real): real { if a <= b then a else b }
  function Max(a: real, b: real): real { if a >= b then a else b }

  /** Squared Euclidean distance. */
  function Dist2(a: Vec, b: Vec): real {
    (a.x - b.x) * (a.x - b.x) + (a.y - b.y) * (a.y - b.y)
  }

  /** `d` is what `Math.sqrt` returns for the squared length `sq`. */
  predicate IsSqrt(d: real, sq: real) {
    d >= 0.0 && d * d == sq
  }

  /** `Array.prototype.filter`: keeps, in order, the elements satisfying `f`. */
  function Filter<T>(s: seq<T>, f: T -> bool): (r: seq<T>)
    ensures |r| <= |s|
    ensures forall i :: 0 <= i < |r| ==> r[i] in s && f(r[i])
    ensures forall i :: 0 <= i < |s| && f(s[i]) ==> s[i] in r
  {
    if s == [] then []
    else Filter(s[..|s| - 1], f) + (if f(s[|s| - 1]) then [s[|s| - 1]] else [])
  }

  /** Extending a prefix by one element keeps that element exactly when it passes. */
  lemma FilterPrefix<T>(s: seq<T>, i: nat, f: T -> bool)
    requires i < |s|
    ensures Filter(s[..i + 1], f) == Filter(s[..i], f) + (if f(s[i]) then [s[i]] else [])
  {
    assert s[..i + 1][..i] == s[..i];
  }

  lemma {:induction false} FilterAppend<T>(a: seq<T>, b: seq<T>, f: T -> bool)
    ensures Filter(a + b, f) == Filter(a, f) + Filter(b, f)
    decreases |b|
  {
    if b == [] {
      assert a + b == a;
    } else {
      var last := b[|b| - 1];
      assert (a + b)[..|a + b| - 1] == a + b[..|b| - 1];
      FilterAppend(a, b[..|b| - 1], f);
    }
  }

  /** Nothing passes, so nothing is kept. */
  lemma {:induction false} FilterNone<T>(s: seq<T>, f: T -> bool)
    requires forall x :: x in s ==> !f(x)
    ensures Filter(s, f) == []
  {
    if s != [] {
      FilterNone(s[..|s| - 1], f);
    }
  }

  /** A filter keeps its whole input exactly when every element passes. */
  lemma {:induction false} FilterKeepsAllIff<T>(s: seq<T>, f: T -> bool)
    ensures |Filter(s, f)| == |s| <==> forall i :: 0 <= i < |s| ==> f(s[i])
    ensures |Filter(s, f)| == |s| ==> Filter(s, f) == s
  {
    if s != [] {
      var init, last := s[..|s| - 1], s[|s| - 1];
      FilterKeepsAllIff(init, f);
      assert forall i :: 0 <= i < |init| ==> init[i] == s[i];
      if f(last) {
        assert Filter(s, f) == Filter(init, f) + [last];
        assert s == init + [last];
      } else {
        assert |Filter(s, f)| < |s|;
      }
    }
  }

  /** Each element occurs in the filtered sequence as often as in the input when it
      passes the test, and not at all otherwise. */
  lemma {:induction false} FilterCount<T>(s: seq<T>, f: T -> bool, x: T)
    ensures multiset(Filter(s, f))[x] == if f(x) then multiset(s)[x] else 0
  {
    if s != [] {
      var init := s[..|s| - 1];
      FilterCount(init, f, x);
      assert s == init + [s[|s| - 1]];
      assert multiset(s) == multiset(init) + multiset{s[|s| - 1]};
    }
  }

  /** Filtering two sequences with the same elements (in any order) gives sequences
      with the same elements. */
  lemma FilterSameMultiset<T>(a: seq<T>, b: seq<T>, f: T -> bool)
    requires multiset(a) == multiset(b)
    ensures multiset(Filter(a, f)) == multiset(Filter(b, f))
  {
    forall x ensures multiset(Filter(a, f))[x] == multiset(Filter(b, f))[x] {
      FilterCount(a, f, x);
      FilterCount(b, f, x);
    }
  }

  /** When `f` holds exactly where one of two mutually exclusive tests `g`, `h` holds,
      filtering by `f` collects the elements of both filters. */
  lemma FilterUnion<T>(s: seq<T>, f: T -> bool, g: T -> bool, h: T -> bool)
    requires forall x :: x in s ==> (f(x) <==> g(x) || h(x)) && !(g(x) && h(x))
    ensures multiset(Filter(s, f)) == multiset(Filter(s, g)) + multiset(Filter(s, h))
  {
    forall x ensures multiset(Filter(s, f))[x] == multiset(Filter(s, g))[x] + multiset(Filter(s, h))[x] {
      FilterCount(s, f, x);
      FilterCount(s, g, x);
      FilterCount(s, h, x);
    }
  }

  /** A second filter whose test implies the first one's makes the first redundant. */
  lemma {:induction false} FilterRedundant<T>(s: seq<T>, outer: T -> bool, inner: T -> bool)
    requires forall x :: x in s && outer(x) ==> inner(x)
    ensures Filter(Filter(s, inner), outer) == Filter(s, outer)
  {
    if s != [] {
      var init := s[..|s| - 1];
      var last := s[|s| - 1];
      FilterRedundant(init, outer, inner);
      FilterAppend(Filter(init, inner), if inner(last) then [last] else [], outer);
      if inner(last) {
        assert Filter([last], outer) == Filter([], outer) + (if outer(last) then [last] else []);
      }
    }
  }

  /** The conjunction of two tests. */
  function Both<T>(f: T -> bool, g: T -> bool): T -> bool {
    x => f(x) && g(x)
  }

  /** Filtering twice is filtering once by both tests. */
  lemma {:induction false} FilterFilter<T>(s: seq<T>, f: T -> bool, g: T -> bool)
    ensures Filter(Filter(s, f), g) == Filter(s, Both(f, g))
  {
    if s != [] {
      var init, last := s[..|s| - 1], s[|s| - 1];
      FilterFilter(init, f, g);
      FilterAppend(Filter(init, f), if f(last) then [last] else [], g);
      if f(last) {
        assert Filter([last], g) == Filter([], g) + (if g(last) then [last] else []);
      }
    }
  }

  /** Two tests that agree on every element give the same filter. */
  lemma {:induction false} FilterExt<T>(s: seq<T>, f: T -> bool, g: T -> bool)
    requires forall x :: x in s ==> f(x) == g(x)
    ensures Filter(s, f) == Filter(s, g)
  {
    if s != [] {
      FilterExt(s[..|s| - 1], f, g);
    }
  }

  // ---------------------------------------------------------------------------
  // Text

  /** `toLowerCase` on the ASCII letters. */
  function LowerChar(c: char): (r: char)
    ensures 'A' <= c <= 'Z' ==> r as int == c as int + 32
    ensures !('A' <= c <= 'Z') ==> r == c
  {
    if 'A' <= c <= 'Z' then (c as int + 32) as char else c
  }

  function Lower(s: string): (r: string)
    ensures |r| == |s|
    ensures forall i :: 0 <= i < |s| ==> r[i] == LowerChar(s[i])
  {
    seq(|s|, i requires 0 <= i < |s| => LowerChar(s[i]))
  }

  /** `parts.join(sep)`: the parts with `sep` between neighbours. */
  function Join(parts: seq<string>, sep: string): string {
    if parts == [] then ""
    else if |parts| == 1 then parts[0]
    else parts[0] + sep + Join(parts[1..], sep)
  }

  /** `s.split(c)`: the pieces between occurrences of `c` (one empty piece for an
      empty string). */
  function Split(s: string, c: char): (r: seq<string>)
    ensures |r| >= 1
  {
    if s == [] then [""]
    else if s[0] == c then [""] + Split(s[1..], c)
    else
      var rest := Split(s[1..], c);
      [[s[0]] + rest[0]] + rest[1..]
  }

  /** Splitting at the first separator gives the text before it, then the pieces of
      the text after it. */
  lemma {:induction false} SplitAtFirst(a: string, c: char, b: string)
    requires c !in a
    ensures Split(a + [c] + b, c) == [a] + Split(b, c)
  {
    if a == [] {
      assert a + [c] + b == [c] + b;
      assert ([c] + b)[1..] == b;
    } else {
      assert (a + [c] + b)[1..] == a[1..] + [c] + b;
      SplitAtFirst(a[1..], c, b);
      assert [a[0]] + a[1..] == a;
    }
  }

  /** A text with no separator is one piece. */
  lemma {:induction false} SplitNone(a: string, c: char)
    requires c !in a
    ensures Split(a, c) == [a]
  {
    if a != [] {
      SplitNone(a[1..], c);
      assert [a[0]] + a[1..] == a;
    }
  }

  /** Joining pieces that do not hold the separator, then splitting, gives the pieces
      back. */
  lemma {:induction false} SplitJoin(parts: seq<string>, c: char)
    requires parts != []
    requires forall i :: 0 <= i < |parts| ==> c !in parts[i]
    ensures Split(Join(parts, [c]), c) == parts
  {
    if |parts| == 1 {
      SplitNone(parts[0], c);
    } else {
      SplitJoin(parts[1..], c);
      SplitAtFirst(parts[0], c, Join(parts[1..], [c]));
      assert parts == [parts[0]] + parts[1..];
    }
  }

  /** A lower-case digit of a value below 36: `0`-`9`, then `a`-`z`. */
  function DigitOf(d: nat): (c: char)
    requires d < 36
    ensures '0' <= c <= '9' || 'a' <= c <= 'z'
  {
    if d < 10 then ('0' as int + d) as char else ('a' as int + d - 10) as char
  }

  /** The value of a lower-case digit. */
  function DigitValue(c: char): (v: Option<nat>)
    ensures v.Some? ==> v.value < 36 && DigitOf(v.value) == c
  {
    if '0' <= c <= '9' then Some(c as int - '0' as int)
    else if 'a' <= c <= 'z' then Some(c as int - 'a' as int + 10)
    else None
  }

  /** `n.toString(base)` for a base from 2 to 36. */
  function ToDigits(n: nat, base: nat): (s: string)
    requires 2 <= base <= 36
    ensures |s| > 0
    decreases n
  {
    if n < base then [DigitOf(n)] else ToDigits(n / base, base) + [DigitOf(n % base)]
  }

  /** Reading digits back (`parseInt(s, base)` on valid digits). */
  function FromDigits(s: string, base: nat): Option<nat> {
    if s == [] then Some(0)
    else match (FromDigits(s[..|s| - 1], base), DigitValue(s[|s| - 1]))
      case (Some(high), Some(d)) => if d < base then Some(base * high + d) else None
      case _ => None
  }

  lemma DigitRoundTrip(d: nat)
    requires d < 36
    ensures DigitValue(DigitOf(d)) == Some(d)
  {
  }

  /** One more digit multiplies the value read so far by the base and adds its own. */
  lemma FromDigitsSnoc(t: string, d: nat, high: nat, base: nat)
    requires 2 <= base <= 36 && d < base && FromDigits(t, base) == Some(high)
    ensures FromDigits(t + [DigitOf(d)], base) == Some(base * high + d)
  {
    var s := t + [DigitOf(d)];
    assert s[..|s| - 1] == t;
    DigitRoundTrip(d);
  }

  /** The spelling of a number reads back as the number. */
  lemma {:induction false} DigitsRoundTrip(n: nat, base: nat)
    requires 2 <= base <= 36
    ensures FromDigits(ToDigits(n, base), base) == Some(n)
    decreases n
  {
    if n < base {
      DigitRoundTrip(n);
      assert ToDigits(n, base)[..0] == [];
    } else {
      var high, low := n / base, n % base;
      DivMod(n, base);
      assert ToDigits(n, base) == ToDigits(high, base) + [DigitOf(low)];
      DigitsRoundTrip(high, base);
      FromDigitsSnoc(ToDigits(high, base), low, high, base);
    }
  }

  lemma DivMod(n: nat, base: nat)
    requires base > 0
    ensures n == base * (n / base) + n % base && n % base < base
    ensures base > 1 && n >= base ==> n / base < n
  {
    if base > 1 && n >= base {
      QuotientSmaller(n, base, n / base, n % base);
    }
  }

  /** A quotient by at least two is below a positive dividend. */
  lemma QuotientSmaller(n: int, base: int, q: int, r: int)
    requires base >= 2 && n >= base && q >= 0 && r >= 0 && n == base * q + r
    ensures q < n
  {
    if q >= n {
      AtLeastDouble(base, q);
    }
  }

  lemma {:induction false} AtLeastDouble(b: int, q: nat)
    requires b >= 2
    ensures b * q >= 2 * q
  {
    if q > 0 {
      AtLeastDouble(b, q - 1);
      assert b * q == b * (q - 1) + b;
    }
  }

  /** Joining one more part appends the separator and the part. */
  lemma {:induction false} JoinSnoc(parts: seq<string>, x: string, sep: string)
    requires parts != []
    ensures Join(parts + [x], sep) == Join(parts, sep) + sep + x
  {
    if |parts| > 1 {
      assert (parts + [x])[1..] == parts[1..] + [x];
      JoinSnoc(parts[1..], x, sep);
    }
  }

  /** A character in neither the parts nor the separator is not in their join. */
  lemma {:induction false} JoinFree(parts: seq<string>, sep: string, c: char)
    requires c !in sep
    requires forall i :: 0 <= i < |parts| ==> c !in parts[i]
    ensures c !in Join(parts, sep)
  {
    if |parts| > 1 {
      JoinFree(parts[1..], sep, c);
    }
  }

  // ---------------------------------------------------------------------------
  // Values from the database

  /** A cell as the database returns it: a number, a text, or nothing (`null` or a
      missing property). */
  datatype Value = Num(n: real) | Text(t: string) | Null

  /** The result of an operation that may throw: its value, or the error's message. */
  datatype Outcome<T> = Ok(value: T) | Failed(message: string)

  /** The least element: a lower bound that occurs in the sequence. */
  function SeqMin(s: seq<real>): (m: real)
    requires s != []
    ensures forall i :: 0 <= i < |s| ==> m <= s[i]
    ensures exists i :: 0 <= i < |s| && m == s[i]
  {
    if |s| == 1 then s[0]
    else
      var rest := SeqMin(s[..|s| - 1]);
      assert forall i :: 0 <= i < |s| - 1 ==> s[..|s| - 1][i] == s[i];
      if s[|s| - 1] < rest then s[|s| - 1] else rest
  }

  /** The greatest element: an upper bound that occurs in the sequence. */
  function SeqMax(s: seq<real>): (m: real)
    requires s != []
    ensures forall i :: 0 <= i < |s| ==> s[i] <= m
    ensures exists i :: 0 <= i < |s| && m == s[i]
  {
    if |s| == 1 then s[0]
    else
      var rest := SeqMax(s[..|s| - 1]);
      assert forall i :: 0 <= i < |s| - 1 ==> s[..|s| - 1][i] == s[i];
      if s[|s| - 1] > rest then s[|s| - 1] else rest
  }
}
