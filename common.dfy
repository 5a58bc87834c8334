/**
 * Building blocks shared by every module of the model: optional values and
 * errors (Python's `None` and raised exceptions), order-preserving filters
 * (the shape every database query of the system takes once the ORM is
 * replaced by sequences), decimal rendering of integers (Python's `str(n)`),
 * a few string predicates, and Python's integer conversions.
 */
module Common {

  datatype Option<T> = None | Some(value: T)

  /** An operation that either returns a value or raises an error carrying a message. */
  datatype Result<T> = Ok(value: T) | Err(error: string)

  /** Seconds in a day; times are whole seconds throughout the model. */
  const Day: int := 86400

  // ---------------------------------------------------------------------------
  // Order-preserving filters (a database query with `filter(...)` over a table
  // whose rows are already in the query's `order_by` order)
  // ---------------------------------------------------------------------------

  function Filter<T(!new)>(s: seq<T>, p: T -> bool): (r: seq<T>)
    ensures |r| <= |s|
  {
    if s == [] then [] else (if p(s[0]) then [s[0]] else []) + Filter(s[1..], p)
  }

  /** The kept elements are exactly the elements that satisfy the predicate. */
  lemma {:induction false} FilterMembers<T(!new)>(s: seq<T>, p: T -> bool)
    ensures forall x :: x in Filter(s, p) <==> x in s && p(x)
  {
    if s != [] {
      FilterMembers(s[1..], p);
      assert s == [s[0]] + s[1..];
    }
  }

  lemma {:induction false} FilterFilter<T(!new)>(s: seq<T>, p: T -> bool, q: T -> bool, pq: T -> bool)
    requires forall x :: pq(x) == (p(x) && q(x))
    ensures Filter(Filter(s, p), q) == Filter(s, pq)
  {
    if s != [] {
      FilterFilter(s[1..], p, q, pq);
      var fp := Filter(s[1..], p);
      if p(s[0]) {
        var x := [s[0]] + fp;
        assert Filter(s, p) == x;
        assert x[0] == s[0] && x[1..] == fp;
        assert Filter(x, q) == (if q(s[0]) then [s[0]] else []) + Filter(fp, q);
      } else {
        assert Filter(s, p) == fp;
      }
    }
  }

  /** Two filters that agree on every element of `s` select the same subsequence. */
  lemma {:induction false} FilterSameOn<T(!new)>(s: seq<T>, p: T -> bool, q: T -> bool)
    requires forall x :: x in s ==> p(x) == q(x)
    ensures Filter(s, p) == Filter(s, q)
  {
    if s != [] {
      assert forall x :: x in s[1..] ==> x in s;
      FilterSameOn(s[1..], p, q);
    }
  }

  lemma {:induction false} FilterAppend<T(!new)>(s: seq<T>, t: seq<T>, p: T -> bool)
    ensures Filter(s + t, p) == Filter(s, p) + Filter(t, p)
  {
    if s == [] {
      assert s + t == t;
    } else {
      var head := if p(s[0]) then [s[0]] else [];
      assert (s + t)[0] == s[0];
      assert (s + t)[1..] == s[1..] + t;
      assert Filter(s + t, p) == head + Filter(s[1..] + t, p);
      FilterAppend(s[1..], t, p);
      assert head + (Filter(s[1..], p) + Filter(t, p)) == (head + Filter(s[1..], p)) + Filter(t, p);
    }
  }

  /** Filtering from index `i` on: the element at `i` when it is kept, then the filtered rest. */
  lemma FilterAt<T(!new)>(s: seq<T>, i: nat, p: T -> bool, rest: seq<T>)
    requires i < |s| && Filter(s[i + 1..], p) == rest
    ensures Filter(s[i..], p) == (if p(s[i]) then [s[i]] else []) + rest
  {
    assert s[i..][0] == s[i] && s[i..][1..] == s[i + 1..];
  }

  /** A filter that every element passes keeps the whole sequence. */
  lemma {:induction false} FilterKeepsAll<T(!new)>(s: seq<T>, p: T -> bool)
    requires forall x :: x in s ==> p(x)
    ensures Filter(s, p) == s
  {
    if s != [] {
      assert forall x :: x in s[1..] ==> x in s;
      FilterKeepsAll(s[1..], p);
      assert s == [s[0]] + s[1..];
    }
  }

  /** A filter that no element passes keeps nothing. */
  lemma {:induction false} FilterKeepsNone<T(!new)>(s: seq<T>, p: T -> bool)
    requires forall x :: x in s ==> !p(x)
    ensures Filter(s, p) == []
  {
    if s != [] {
      assert forall x :: x in s[1..] ==> x in s;
      FilterKeepsNone(s[1..], p);
    }
  }

  lemma FilterCons<T(!new)>(x: T, s: seq<T>, p: T -> bool)
    ensures Filter([x] + s, p) == (if p(x) then [x] else []) + Filter(s, p)
  {
    assert ([x] + s)[1..] == s;
  }

  /** Python's `[f(x) for x in s]`. */
  function MapSeq<A, B>(s: seq<A>, f: A -> B): (r: seq<B>)
    ensures |r| == |s| && forall i :: 0 <= i < |s| ==> r[i] == f(s[i])
  {
    if s == [] then [] else [f(s[0])] + MapSeq(s[1..], f)
  }

  /** A sequence that agrees with `f` at every position of `s` is `MapSeq(s, f)`. */
  lemma MapSeqUnique<A, B>(s: seq<A>, f: A -> B, r: seq<B>)
    requires |r| == |s| && forall i :: 0 <= i < |s| ==> r[i] == f(s[i])
    ensures r == MapSeq(s, f)
  {
  }

  /** Concatenation regrouped, for contexts too large to find it unaided. */
  lemma AppendAssoc<T>(a: seq<T>, b: seq<T>, c: seq<T>)
    ensures a + b + c == a + (b + c)
  {
  }

  lemma {:induction false} FilterMapSeq<A(!new), B(!new)>(s: seq<A>, f: A -> B, p: B -> bool, pf: A -> bool)
    requires forall a :: pf(a) == p(f(a))
    ensures Filter(MapSeq(s, f), p) == MapSeq(Filter(s, pf), f)
  {
    if s != [] {
      FilterMapSeq(s[1..], f, p, pf);
      var m := MapSeq(s, f);
      assert m == [f(s[0])] + MapSeq(s[1..], f);
      FilterCons(f(s[0]), MapSeq(s[1..], f), p);
      if pf(s[0]) {
        assert MapSeq(Filter(s, pf), f) == MapSeq([s[0]] + Filter(s[1..], pf), f);
        assert ([s[0]] + Filter(s[1..], pf))[1..] == Filter(s[1..], pf);
      }
    }
  }

  // ---------------------------------------------------------------------------
  // Stable ordering by an integer key (a query's `order_by` on one column)
  // ---------------------------------------------------------------------------

  predicate SortedBy<T>(s: seq<T>, key: T -> int) {
    forall i, j :: 0 <= i < j < |s| ==> key(s[i]) <= key(s[j])
  }

  /** Inserts `x` before the first element whose key is not below its own. */
  function InsertBy<T>(x: T, s: seq<T>, key: T -> int): seq<T> {
    if s == [] || key(x) <= key(s[0]) then [x] + s
    else [s[0]] + InsertBy(x, s[1..], key)
  }

  /** The elements of `s` by ascending key; elements with equal keys keep their order in `s`. */
  function OrderBy<T>(s: seq<T>, key: T -> int): seq<T> {
    if s == [] then [] else InsertBy(s[0], OrderBy(s[1..], key), key)
  }

  lemma SortedByTail<T>(s: seq<T>, key: T -> int)
    requires s != [] && SortedBy(s, key)
    ensures SortedBy(s[1..], key)
  {
    var tail := s[1..];
    forall i, j | 0 <= i < j < |tail| ensures key(tail[i]) <= key(tail[j]) {
      assert tail[i] == s[i + 1] && tail[j] == s[j + 1];
    }
  }

  /** The head of a sorted sequence has the least key of all its elements. */
  lemma SortedByHeadLeast<T>(s: seq<T>, key: T -> int)
    requires s != [] && SortedBy(s, key)
    ensures forall x :: x in s ==> key(s[0]) <= key(x)
  {
    forall x | x in s ensures key(s[0]) <= key(x) {
      var j :| 0 <= j < |s| && s[j] == x;
    }
  }

  lemma ConsSortedBy<T>(x: T, s: seq<T>, key: T -> int)
    requires SortedBy(s, key) && forall y :: y in s ==> key(x) <= key(y)
    ensures SortedBy([x] + s, key)
  {
    var r := [x] + s;
    forall i, j | 0 <= i < j < |r| ensures key(r[i]) <= key(r[j]) {
      if i == 0 {
        assert r[j] == s[j - 1] && s[j - 1] in s;
      } else {
        assert r[i] == s[i - 1] && r[j] == s[j - 1];
      }
    }
  }

  /** Insertion adds exactly the one element. */
  lemma {:induction false} InsertByPermutes<T>(x: T, s: seq<T>, key: T -> int)
    ensures multiset(InsertBy(x, s, key)) == multiset(s) + multiset{x}
  {
    if !(s == [] || key(x) <= key(s[0])) {
      InsertByPermutes(x, s[1..], key);
      assert s == [s[0]] + s[1..];
    }
  }

  /** Insertion into a sorted sequence keeps it sorted. */
  lemma {:induction false} InsertBySorted<T>(x: T, s: seq<T>, key: T -> int)
    requires SortedBy(s, key)
    ensures SortedBy(InsertBy(x, s, key), key)
  {
    if s == [] || key(x) <= key(s[0]) {
      if s != [] {
        SortedByHeadLeast(s, key);
      }
      ConsSortedBy(x, s, key);
    } else {
      var rest := InsertBy(x, s[1..], key);
      SortedByTail(s, key);
      InsertBySorted(x, s[1..], key);
      InsertByPermutes(x, s[1..], key);
      SortedByHeadLeast(s, key);
      forall y | y in rest ensures key(s[0]) <= key(y) {
        assert y in multiset(rest);
        assert y in s[1..] || y == x;
      }
      ConsSortedBy(s[0], rest, key);
    }
  }

  /** Ordering only rearranges: the result has the same elements, with the same multiplicities. */
  lemma {:induction false} OrderByPermutes<T>(s: seq<T>, key: T -> int)
    ensures multiset(OrderBy(s, key)) == multiset(s)
  {
    if s != [] {
      OrderByPermutes(s[1..], key);
      InsertByPermutes(s[0], OrderBy(s[1..], key), key);
      assert s == [s[0]] + s[1..];
    }
  }

  lemma OrderByMembers<T>(s: seq<T>, key: T -> int)
    ensures forall x :: x in OrderBy(s, key) <==> x in s
  {
    OrderByPermutes(s, key);
    forall x ensures x in OrderBy(s, key) <==> x in s {
      assert x in OrderBy(s, key) <==> x in multiset(OrderBy(s, key));
      assert x in s <==> x in multiset(s);
    }
  }

  /** The result is in ascending key order. */
  lemma {:induction false} OrderBySorted<T>(s: seq<T>, key: T -> int)
    ensures SortedBy(OrderBy(s, key), key)
  {
    if s != [] {
      OrderBySorted(s[1..], key);
      InsertBySorted(s[0], OrderBy(s[1..], key), key);
    }
  }

  /** Rows whose `f` values (their ids, say) are pairwise different. */
  predicate DistinctBy<T, K(==)>(s: seq<T>, f: T -> K) {
    forall i, j :: 0 <= i < j < |s| ==> f(s[i]) != f(s[j])
  }

  /** Inserting a row whose `f` value is new keeps the `f` values pairwise different. */
  lemma {:induction false} InsertByKeepsDistinct<T, K>(x: T, s: seq<T>, key: T -> int, f: T -> K)
    requires DistinctBy(s, f)
    requires forall y :: y in s ==> f(y) != f(x)
    ensures DistinctBy(InsertBy(x, s, key), f)
  {
    var r := InsertBy(x, s, key);
    if s == [] || key(x) <= key(s[0]) {
      forall i, j | 0 <= i < j < |r| ensures f(r[i]) != f(r[j]) {
        assert r[j] == s[j - 1];
        if i > 0 {
          assert r[i] == s[i - 1];
        } else {
          assert s[j - 1] in s;
        }
      }
    } else {
      InsertByKeepsDistinct(x, s[1..], key, f);
      var tail := InsertBy(x, s[1..], key);
      InsertByPermutes(x, s[1..], key);
      forall y | y in tail ensures f(y) != f(s[0]) {
        assert y in multiset(tail);
        if y != x {
          assert y in multiset(s[1..]);
          var k :| 0 <= k < |s[1..]| && s[1..][k] == y;
          assert s[k + 1] == y;
        } else {
          assert s[0] in s;
        }
      }
      forall i, j | 0 <= i < j < |r| ensures f(r[i]) != f(r[j]) {
        assert r[j] == tail[j - 1];
        if i > 0 {
          assert r[i] == tail[i - 1];
        } else {
          assert tail[j - 1] in tail;
        }
      }
    }
  }

  /** Ordering keeps the `f` values of the rows pairwise different. */
  lemma {:induction false} OrderByKeepsDistinct<T, K>(s: seq<T>, key: T -> int, f: T -> K)
    requires DistinctBy(s, f)
    ensures DistinctBy(OrderBy(s, key), f)
  {
    if s != [] {
      var rest := s[1..];
      OrderByKeepsDistinct(rest, key, f);
      OrderByPermutes(rest, key);
      forall y | y in OrderBy(rest, key) ensures f(y) != f(s[0]) {
        assert y in multiset(OrderBy(rest, key));
        assert y in multiset(rest);
        var k :| 0 <= k < |rest| && rest[k] == y;
        assert s[k + 1] == y;
      }
      InsertByKeepsDistinct(s[0], OrderBy(rest, key), key, f);
    }
  }

  /** A sequence already in key order is left as it is. */
  lemma {:induction false} OrderByOfSorted<T>(s: seq<T>, key: T -> int)
    requires SortedBy(s, key)
    ensures OrderBy(s, key) == s
  {
    if s != [] {
      SortedByTail(s, key);
      OrderByOfSorted(s[1..], key);
      assert s == [s[0]] + s[1..];
      if |s| > 1 {
        assert key(s[0]) <= key(s[1]) && s[1..][0] == s[1];
      }
    }
  }

  /** Filtering after an insertion is inserting into the filtered sequence, when the element passes. */
  lemma {:induction false} FilterInsertBy<T(!new)>(x: T, s: seq<T>, key: T -> int, p: T -> bool)
    requires SortedBy(s, key)
    ensures Filter(InsertBy(x, s, key), p) == if p(x) then InsertBy(x, Filter(s, p), key) else Filter(s, p)
  {
    var fs := Filter(s, p);
    if s == [] || key(x) <= key(s[0]) {
      FilterCons(x, s, p);
      if p(x) && fs != [] {
        FilterMembers(s, p);
        assert fs[0] in fs;
        SortedByHeadLeast(s, key);
      }
    } else {
      var tail := s[1..];
      SortedByTail(s, key);
      FilterInsertBy(x, tail, key, p);
      FilterCons(s[0], InsertBy(x, tail, key), p);
      assert s == [s[0]] + tail;
      FilterCons(s[0], tail, p);
      var ft := Filter(tail, p);
      if p(x) && p(s[0]) {
        assert fs == [s[0]] + ft;
        assert fs != [] && fs[0] == s[0] && fs[1..] == ft;
        assert InsertBy(x, fs, key) == [s[0]] + InsertBy(x, ft, key);
      } else if p(x) {
        assert fs == ft;
      } else {
        assert Filter(InsertBy(x, tail, key), p) == ft;
      }
    }
  }

  /** A filter keeps a sorted sequence sorted. */
  lemma {:induction false} FilterKeepsSortedBy<T(!new)>(s: seq<T>, key: T -> int, p: T -> bool)
    requires SortedBy(s, key)
    ensures SortedBy(Filter(s, p), key)
  {
    if s != [] {
      SortedByTail(s, key);
      FilterKeepsSortedBy(s[1..], key, p);
      var r := Filter(s[1..], p);
      if p(s[0]) {
        FilterMembers(s[1..], p);
        SortedByHeadLeast(s, key);
        assert forall x :: x in r ==> x in s;
        ConsSortedBy(s[0], r, key);
      }
    }
  }

  /** Ordering and filtering commute: the query's filter may run before or after its `order_by`. */
  lemma {:induction false} FilterOrderBy<T(!new)>(s: seq<T>, key: T -> int, p: T -> bool)
    ensures Filter(OrderBy(s, key), p) == OrderBy(Filter(s, p), key)
  {
    if s != [] {
      FilterOrderBy(s[1..], key, p);
      OrderBySorted(s[1..], key);
      FilterInsertBy(s[0], OrderBy(s[1..], key), key, p);
      assert s == [s[0]] + s[1..];
      FilterCons(s[0], s[1..], p);
      var f := Filter(s, p);
      if p(s[0]) {
        assert f == [s[0]] + Filter(s[1..], p);
        assert f != [] && f[0] == s[0] && f[1..] == Filter(s[1..], p);
        assert OrderBy(f, key) == InsertBy(s[0], OrderBy(Filter(s[1..], p), key), key);
      } else {
        assert f == Filter(s[1..], p);
      }
    }
  }

  /** Stability: the elements with any one key appear in the result in their order in `s`. */
  lemma OrderByStable<T(!new)>(s: seq<T>, key: T -> int, k: int)
    ensures Filter(OrderBy(s, key), x => key(x) == k) == Filter(s, x => key(x) == k)
  {
    var same := x => key(x) == k;
    FilterOrderBy(s, key, same);
    FilterMembers(s, same);
    var f := Filter(s, same);
    assert SortedBy(f, key) by {
      forall i, j | 0 <= i < j < |f| ensures key(f[i]) <= key(f[j]) {
        assert f[i] in f && f[j] in f;
      }
    }
    OrderByOfSorted(f, key);
  }

  /** Number of elements of `s` satisfying `p`. */
  function Count<T(!new)>(s: seq<T>, p: T -> bool): (n: nat)
    ensures n <= |s|
    ensures n == |Filter(s, p)|
  {
    if s == [] then 0 else (if p(s[0]) then 1 else 0) + Count(s[1..], p)
  }

  /** Index of the first element satisfying `p`, or -1. */
  function FirstIndex<T>(s: seq<T>, p: T -> bool): (k: int)
    ensures -1 <= k < |s|
    ensures k >= 0 ==> p(s[k])
    ensures forall j :: 0 <= j < |s| && (k < 0 || j < k) ==> !p(s[j])
  {
    if s == [] then -1
    else if p(s[0]) then 0
    else
      var k := FirstIndex(s[1..], p);
      assert forall j :: 1 <= j < |s| ==> s[j] == s[1..][j - 1];
      if k < 0 then -1 else k + 1
  }

  /** Index of the last element satisfying `p`, or -1. */
  function LastIndex<T>(s: seq<T>, p: T -> bool): (k: int)
    ensures -1 <= k < |s|
    ensures k >= 0 ==> p(s[k])
    ensures forall j :: 0 <= j < |s| && k < j ==> !p(s[j])
  {
    if s == [] then -1
    else if p(s[|s| - 1]) then |s| - 1
    else
      var k := LastIndex(s[..|s| - 1], p);
      assert forall j :: 0 <= j < |s| - 1 ==> s[j] == s[..|s| - 1][j];
      k
  }

  /** The first element satisfying `p` (Python's `next((x for x in s if p(x)), None)`). */
  function FindFirst<T>(s: seq<T>, p: T -> bool): (r: Option<T>)
    ensures r.None? <==> forall i :: 0 <= i < |s| ==> !p(s[i])
    ensures r.Some? ==> r == Some(s[FirstIndex(s, p)]) && p(r.value)
  {
    var k := FirstIndex(s, p);
    if k < 0 then None else Some(s[k])
  }

  /** The last element satisfying `p` (`.last()` of a filtered, ordered query). */
  function FindLast<T>(s: seq<T>, p: T -> bool): (r: Option<T>)
    ensures r.None? <==> forall i :: 0 <= i < |s| ==> !p(s[i])
    ensures r.Some? ==> r == Some(s[LastIndex(s, p)]) && p(r.value)
  {
    var k := LastIndex(s, p);
    if k < 0 then None else Some(s[k])
  }

  /**
   * Index of the element with the greatest key, the later one on ties (the
   * last row of a query ordered by that key), or -1 for an empty sequence.
   */
  function LatestIndex<T>(s: seq<T>, key: T -> int): (k: int)
    ensures -1 <= k < |s|
    ensures k < 0 <==> s == []
    ensures k >= 0 ==> forall j :: 0 <= j < |s| ==> key(s[j]) <= key(s[k])
    ensures k >= 0 ==> forall j :: k < j < |s| ==> key(s[j]) < key(s[k])
  {
    if s == [] then -1
    else
      var k := LatestIndex(s[..|s| - 1], key);
      assert forall j :: 0 <= j < |s| - 1 ==> s[j] == s[..|s| - 1][j];
      if k < 0 || key(s[|s| - 1]) >= key(s[k]) then |s| - 1 else k
  }

  /** The element with the greatest key, the later one on ties (`order_by(key).last()`). */
  function LatestBy<T>(s: seq<T>, key: T -> int): (r: Option<T>)
    ensures r.None? <==> s == []
    ensures r.Some? ==> r.value in s && forall x :: x in s ==> key(x) <= key(r.value)
  {
    var k := LatestIndex(s, key);
    if k < 0 then None else Some(s[k])
  }

  // ---------------------------------------------------------------------------
  // Integers
  // ---------------------------------------------------------------------------

  /** Python's `int(a / b)` for a positive divisor: the quotient truncated toward zero. */
  function TruncDiv(a: int, b: int): (q: int)
    requires b > 0
    ensures a >= 0 ==> 0 <= q && q * b <= a < q * b + b
    ensures a < 0 ==> q <= 0 && q * b - b < a <= q * b
  {
    if a >= 0 then
      DivBounds(a, b);
      a / b
    else
      DivBounds(-a, b);
      assert -((-a) / b) * b == -((-a) / b * b);
      -((-a) / b)
  }

  /** Euclidean division of a natural number: the quotient times the divisor is at most the number, by less than the divisor. */
  lemma DivBounds(a: int, b: int)
    requires a >= 0 && b > 0
    ensures 0 <= a / b && (a / b) * b <= a < (a / b) * b + b
  {
    assert a == b * (a / b) + a % b;
    assert b * (a / b) == (a / b) * b;
  }

  /** Python's `int(x)` for a float: truncation toward zero. */
  function TruncReal(x: real): (i: int)
    ensures x >= 0.0 ==> i as real <= x < i as real + 1.0
    ensures x < 0.0 ==> i as real - 1.0 < x <= i as real
  {
    if x >= 0.0 then x.Floor else -((-x).Floor)
  }

  /** 00:00 of day number `d` in a zone `offset` seconds ahead of UTC. */
  function LocalMidnight(d: int, offset: int): int {
    d * Day - offset
  }

  /** The day number of the instant `time` in a zone `offset` seconds ahead of UTC (`.date()`). */
  function LocalDate(time: int, offset: int): (d: int)
    ensures LocalMidnight(d, offset) <= time < LocalMidnight(d + 1, offset)
  {
    (time + offset) / Day
  }

  // ---------------------------------------------------------------------------
  // Strings
  // ---------------------------------------------------------------------------

  predicate IsDigit(c: char) { '0' <= c <= '9' }

  predicate AllDigits(s: string) { forall i :: 0 <= i < |s| ==> IsDigit(s[i]) }

  function DigitChar(d: int): (c: char)
    requires 0 <= d < 10
    ensures IsDigit(c)
  {
    ['0', '1', '2', '3', '4', '5', '6', '7', '8', '9'][d]
  }

  /** Python's `str(n)` for a non-negative integer. */
  function NatToString(n: nat): (s: string)
    ensures |s| >= 1 && AllDigits(s)
  {
    if n < 10 then [DigitChar(n)] else NatToString(n / 10) + [DigitChar(n % 10)]
  }

  /** Python's `str(i)` for any integer. */
  function IntToString(i: int): (s: string)
    ensures |s| >= 1
    ensures i >= 0 <==> AllDigits(s)
  {
    if i >= 0 then NatToString(i)
    else
      var r := "-" + NatToString(-i);
      assert !IsDigit(r[0]);
      r
  }

  predicate StartsWith(s: string, prefix: string) {
    |prefix| <= |s| && s[..|prefix|] == prefix
  }

  predicate EndsWith(s: string, suffix: string) {
    |suffix| <= |s| && s[|s| - |suffix|..] == suffix
  }

  /** Python's `sep.join(parts)`. */
  function Join(parts: seq<string>, sep: string): (r: string)
    ensures parts == [] ==> r == ""
    ensures |parts| == 1 ==> r == parts[0]
  {
    if parts == [] then ""
    else if |parts| == 1 then parts[0]
    else parts[0] + sep + Join(parts[1..], sep)
  }

  /** Python's `s[:n]` for a possibly negative or oversized `n`. */
  function PyPrefix<T>(s: seq<T>, n: int): (r: seq<T>)
    ensures 0 <= n <= |s| ==> r == s[..n]
    ensures n > |s| ==> r == s
    ensures n < 0 ==> r == s[..if -n >= |s| then 0 else |s| + n]
  {
    if n >= 0 then (if n <= |s| then s[..n] else s)
    else if -n >= |s| then [] else s[..|s| + n]
  }

  /** Python's `s[-n:]` (so `s[-0:]` is all of `s`). */
  function PySuffixFromNeg<T>(s: seq<T>, n: int): (r: seq<T>)
    ensures 1 <= n ==> r == s[if n >= |s| then 0 else |s| - n..]
    ensures n == 0 ==> r == s
  {
    if n > 0 then (if n >= |s| then s else s[|s| - n..])
    else if -n >= |s| then [] else s[-n..]
  }

  /**
   * The characters Python's `str.isspace` accepts, which `str.strip()`
   * removes: the ASCII controls tab to carriage return and the separators
   * 0x1C-0x1F, the space, and the Unicode spaces and line separators.
   */
  predicate IsWhitespace(c: char) {
    ('\U{09}' <= c <= '\U{0D}') || ('\U{1C}' <= c <= '\U{20}') || c == '\U{85}' || c == '\U{A0}' ||
    c == '\U{1680}' || ('\U{2000}' <= c <= '\U{200A}') || c == '\U{2028}' || c == '\U{2029}' ||
    c == '\U{202F}' || c == '\U{205F}' || c == '\U{3000}'
  }

  /** Python's `s.lstrip(" ")`-style removal of leading occurrences of one character. */
  function TrimLeadingChar(s: string, c: char): string {
    if s != [] && s[0] == c then TrimLeadingChar(s[1..], c) else s
  }

  /** What is left is a suffix that does not start with `c`, and everything taken off was `c`. */
  lemma {:induction false} TrimLeadingCharMeaning(s: string, c: char)
    ensures var r := TrimLeadingChar(s, c);
      && |r| <= |s| && r == s[|s| - |r|..]
      && (r == [] || r[0] != c)
      && (forall i :: 0 <= i < |s| - |r| ==> s[i] == c)
  {
    if s != [] && s[0] == c {
      TrimLeadingCharMeaning(s[1..], c);
      var r := TrimLeadingChar(s[1..], c);
      assert s[1..][|s[1..]| - |r|..] == s[|s| - |r|..];
      forall i | 0 <= i < |s| - |r| ensures s[i] == c {
        if i > 0 {
          assert s[i] == s[1..][i - 1];
        }
      }
    }
  }

  /** Python's `s.strip()`: whitespace is taken off both ends. */
  function Strip(s: string): (r: string)
    ensures |r| <= |s|
    ensures r == [] || (!IsWhitespace(r[0]) && !IsWhitespace(r[|r| - 1]))
  {
    if s != [] && IsWhitespace(s[0]) then Strip(s[1..])
    else if s != [] && IsWhitespace(s[|s| - 1]) then Strip(s[..|s| - 1])
    else s
  }

  /** ASCII lower-casing, as `str.lower()` acts on identifiers. */
  function Lower(s: string): (r: string)
    ensures |r| == |s|
    ensures forall i :: 0 <= i < |s| ==> !('A' <= r[i] <= 'Z')
  {
    if s == [] then []
    else [if 'A' <= s[0] <= 'Z' then (s[0] as int + 32) as char else s[0]] + Lower(s[1..])
  }

  /** `sub` occurs in `s` at index `j`. */
  predicate OccursAt(s: string, sub: string, j: int) {
    0 <= j && j + |sub| <= |s| && s[j..j + |sub|] == sub
  }

  /** The first index from `from` on where `sub` occurs, or -1. */
  function IndexFrom(s: string, sub: string, from: nat): (k: int)
    ensures k == -1 || (from <= k && OccursAt(s, sub, k))
    ensures forall j :: from <= j < (if k < 0 then |s| + 1 else k) ==> !OccursAt(s, sub, j)
    decreases |s| + 1 - from
  {
    if from + |sub| > |s| then -1
    else if s[from..from + |sub|] == sub then from
    else IndexFrom(s, sub, from + 1)
  }

  /** The last index where `sub` occurs in `s`, or -1 (`s.rfind(sub)`). */
  function LastOccurrence(s: string, sub: string): (k: int)
    ensures k == -1 || OccursAt(s, sub, k)
    ensures forall j :: k < j <= |s| ==> !OccursAt(s, sub, j)
  {
    LastOccurrenceBefore(s, sub, |s|)
  }

  function LastOccurrenceBefore(s: string, sub: string, upto: nat): (k: int)
    requires upto <= |s|
    ensures k == -1 || (k <= upto && OccursAt(s, sub, k))
    ensures forall j :: k < j <= upto ==> !OccursAt(s, sub, j)
  {
    if OccursAt(s, sub, upto) then upto
    else if upto == 0 then -1
    else LastOccurrenceBefore(s, sub, upto - 1)
  }
}
