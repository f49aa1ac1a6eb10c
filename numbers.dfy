/** The numeric helpers of the statistics layer: the sum fold, the arithmetic mean
    (`calculateAverage`) and the median (`calculateMedian`). Numbers are `real`; an empty
    input, on which JavaScript yields NaN, gives `None`. */
module Numbers {
  import opened Wrappers

  /** `arr.reduce((pre, cur) => pre + cur, 0)`: a left fold from 0. */
  function Sum(xs: seq<real>): real
  {
    if xs == [] then 0.0 else Sum(xs[..|xs| - 1]) + xs[|xs| - 1]
  }

  /** The smallest element of a non-empty sequence. */
  function Min(xs: seq<real>): (m: real)
    requires xs != []
    ensures m in xs
    ensures forall x :: x in xs ==> m <= x
  {
    if |xs| == 1 then xs[0]
    else
      var rest := Min(xs[1..]);
      assert xs == [xs[0]] + xs[1..];
      if xs[0] <= rest then xs[0] else rest
  }

  /** The largest element of a non-empty sequence. */
  function Max(xs: seq<real>): (m: real)
    requires xs != []
    ensures m in xs
    ensures forall x :: x in xs ==> x <= m
  {
    if |xs| == 1 then xs[0]
    else
      var rest := Max(xs[1..]);
      assert xs == [xs[0]] + xs[1..];
      if rest <= xs[0] then xs[0] else rest
  }

  /** Ascending order, as `sort((a, b) => a - b)` leaves it. */
  ghost predicate Sorted(s: seq<real>)
  {
    forall i, j :: 0 <= i < j < |s| ==> s[i] <= s[j]
  }

  /** A sorted sequence stays sorted without its head. */
  lemma SortedTail(s: seq<real>)
    requires Sorted(s) && s != []
    ensures Sorted(s[1..])
  {
    forall i, j | 0 <= i < j < |s| - 1 ensures s[1..][i] <= s[1..][j] {
      assert s[1..][i] == s[i + 1] && s[1..][j] == s[j + 1];
    }
  }

  /** The head of a sorted sequence is below every one of its elements. */
  lemma SortedHead(s: seq<real>, x: real)
    requires Sorted(s) && x in multiset(s)
    ensures s[0] <= x
  {
    assert x in s;
    var i :| 0 <= i < |s| && s[i] == x;
    if i > 0 {
      assert s[0] <= s[i];
    }
  }

  /** A value below every element of a sorted sequence can be put in front of it. */
  lemma SortedCons(y: real, t: seq<real>)
    requires Sorted(t)
    requires forall z :: z in multiset(t) ==> y <= z
    ensures Sorted([y] + t)
  {
    var r := [y] + t;
    forall i, j | 0 <= i < j < |r| ensures r[i] <= r[j] {
      assert r[j] == t[j - 1];
      assert t[j - 1] in multiset(t);
      if i > 0 {
        assert r[i] == t[i - 1];
      }
    }
  }

  function Insert(x: real, s: seq<real>): (r: seq<real>)
    requires Sorted(s)
    ensures |r| == |s| + 1
    ensures Sorted(r)
    ensures multiset(r) == multiset(s) + multiset{x}
  {
    if s == [] then [x]
    else if x <= s[0] then
      assert Sorted([x] + s) by {
        forall z | z in multiset(s) ensures x <= z { SortedHead(s, z); }
        SortedCons(x, s);
      }
      [x] + s
    else
      assert s == [s[0]] + s[1..];
      SortedTail(s);
      var t := Insert(x, s[1..]);
      assert Sorted([s[0]] + t) by {
        forall z | z in multiset(t) ensures s[0] <= z {
          if z != x {
            assert z in multiset(s);
            SortedHead(s, z);
          }
        }
        SortedCons(s[0], t);
      }
      [s[0]] + t
  }

  /** A sorted copy of `xs`: the array that `[...prices].sort((a, b) => a - b)` produces.
      The argument itself is a value and stays as it was. */
  function Sort(xs: seq<real>): (r: seq<real>)
    ensures |r| == |xs|
    ensures Sorted(r)
    ensures multiset(r) == multiset(xs)
  {
    if xs == [] then []
    else
      assert xs == [xs[0]] + xs[1..];
      Insert(xs[0], Sort(xs[1..]))
  }

  /** A sorted permutation is unique: every correct sort gives the same sequence. */
  lemma {:induction false} SortedUnique(a: seq<real>, b: seq<real>)
    requires Sorted(a) && Sorted(b)
    requires multiset(a) == multiset(b)
    ensures a == b
  {
    assert |a| == |multiset(a)| == |multiset(b)| == |b|;
    if a != [] {
      SortedHead(a, b[0]);
      SortedHead(b, a[0]);
      var x := a[0];
      assert b[0] == x;
      TailMultiset(a);
      TailMultiset(b);
      SortedTail(a);
      SortedTail(b);
      SortedUnique(a[1..], b[1..]);
      assert a == [x] + a[1..] && b == [x] + b[1..];
    }
  }

  /** A non-empty sequence is its head and its tail. */
  lemma TailMultiset(s: seq<real>)
    requires s != []
    ensures s[0] in multiset(s)
    ensures multiset(s[1..]) == multiset(s) - multiset{s[0]}
  {
    assert s == [s[0]] + s[1..];
  }

  /** `calculateAverage`: sum divided by length; `None` for the empty input, on which
      the source divides 0 by 0. */
  function CalculateAverage(xs: seq<real>): (r: Option<real>)
    ensures r.None? <==> xs == []
    ensures r.Some? ==> r.value * (|xs| as real) == Sum(xs)
  {
    if xs == [] then None else Some(Sum(xs) / (|xs| as real))
  }

  /** The middle of a sequence: its middle element for an odd length, the mean of its
      two middle elements for an even length. */
  function Middle(s: seq<real>): real
    requires s != []
  {
    var mid := |s| / 2;
    if |s| % 2 == 0 then (s[mid - 1] + s[mid]) / 2.0 else s[mid]
  }

  /** `calculateMedian`: the middle of the sorted copy; `None` for the empty input, on
      which the source averages two missing elements. */
  function CalculateMedian(prices: seq<real>): (r: Option<real>)
    ensures r.None? <==> prices == []
  {
    if prices == [] then None else Some(Middle(Sort(prices)))
  }

  /** Day counts as the numbers `calculateAverage` adds up. */
  function ToReals(xs: seq<nat>): (r: seq<real>)
    ensures |r| == |xs|
    ensures forall i :: 0 <= i < |xs| ==> r[i] == xs[i] as real
  {
    seq(|xs|, i requires 0 <= i < |xs| => xs[i] as real)
  }

  // ---------------------------------------------------------------- sums

  /** Sum bounded element by element. */
  lemma {:induction false} SumBounds(xs: seq<real>, lo: real, hi: real)
    requires forall x :: x in xs ==> lo <= x <= hi
    ensures lo * (|xs| as real) <= Sum(xs) <= hi * (|xs| as real)
  {
    if xs != [] {
      var n := |xs| - 1;
      assert forall x :: x in xs[..n] ==> x in xs;
      SumBounds(xs[..n], lo, hi);
      assert xs[n] in xs;
    }
  }

  /** A sum of non-negative numbers is zero exactly when every number is zero. */
  lemma {:induction false} SumZero(xs: seq<real>)
    requires forall x :: x in xs ==> x >= 0.0
    ensures Sum(xs) >= 0.0
    ensures Sum(xs) == 0.0 <==> forall x :: x in xs ==> x == 0.0
  {
    if xs != [] {
      var n := |xs| - 1;
      assert xs == xs[..n] + [xs[n]];
      assert forall x :: x in xs[..n] ==> x in xs;
      assert xs[n] in xs;
      SumZero(xs[..n]);
      assert forall x :: x in xs ==> x in xs[..n] || x == xs[n];
    }
  }

  // ---------------------------------------------------------------- the mean

  /** The mean of a non-empty sequence lies between its minimum and its maximum. */
  lemma AverageBounds(xs: seq<real>)
    requires xs != []
    ensures Min(xs) <= CalculateAverage(xs).value <= Max(xs)
  {
    SumBounds(xs, Min(xs), Max(xs));
    DivideBounds(Min(xs), Max(xs), Sum(xs), |xs| as real);
  }

  /** Bounds on a total carry over to the quotient by a positive count. */
  lemma DivideBounds(lo: real, hi: real, total: real, n: real)
    requires n > 0.0
    requires lo * n <= total <= hi * n
    ensures lo <= total / n <= hi
  {
  }

  /** A sequence of one repeated value averages to that value. */
  lemma AverageOfConstant(xs: seq<real>, c: real)
    requires xs != []
    requires forall x :: x in xs ==> x == c
    ensures CalculateAverage(xs) == Some(c)
  {
    SumBounds(xs, c, c);
    DivideBounds(c, c, Sum(xs), |xs| as real);
  }

  /** The mean of non-negative numbers is non-negative, and zero exactly when every
      number is zero. */
  lemma AverageZero(xs: seq<real>)
    requires xs != []
    requires forall x :: x in xs ==> x >= 0.0
    ensures CalculateAverage(xs).value >= 0.0
    ensures CalculateAverage(xs).value == 0.0 <==> forall x :: x in xs ==> x == 0.0
  {
    SumZero(xs);
  }

  // ---------------------------------------------------------------- the median

  /** The median is read off any sorted permutation of the input: the middle element for
      an odd length, the mean of the two middle ones for an even length. */
  lemma MedianOfSortedPermutation(prices: seq<real>, t: seq<real>)
    requires prices != []
    requires Sorted(t) && multiset(t) == multiset(prices)
    ensures |t| == |prices|
    ensures CalculateMedian(prices) ==
      Some(if |t| % 2 == 1 then t[|t| / 2] else (t[|t| / 2 - 1] + t[|t| / 2]) / 2.0)
  {
    SortedUnique(Sort(prices), t);
    assert |t| == |multiset(t)| == |multiset(prices)| == |prices|;
  }

  /** Reordering the input does not change the median. */
  lemma MedianPermutationInvariant(a: seq<real>, b: seq<real>)
    requires multiset(a) == multiset(b)
    ensures CalculateMedian(a) == CalculateMedian(b)
  {
    assert |a| == |multiset(a)| == |multiset(b)| == |b|;
    SortedUnique(Sort(a), Sort(b));
  }

  /** The median lies between the minimum and the maximum of the input. */
  lemma MedianBounds(prices: seq<real>)
    requires prices != []
    ensures Min(prices) <= CalculateMedian(prices).value <= Max(prices)
  {
    var s := Sort(prices);
    forall i | 0 <= i < |s|
      ensures Min(prices) <= s[i] <= Max(prices)
    {
      assert s[i] in multiset(s);
      assert s[i] in prices;
    }
    MiddleBetween(s, Min(prices), Max(prices));
  }

  /** The middle of a sequence lies within any bounds of its elements. */
  lemma MiddleBetween(s: seq<real>, lo: real, hi: real)
    requires s != []
    requires forall i :: 0 <= i < |s| ==> lo <= s[i] <= hi
    ensures lo <= Middle(s) <= hi
  {
    var mid := |s| / 2;
    assert lo <= s[mid] <= hi;
    if |s| % 2 == 0 {
      assert lo <= s[mid - 1] <= hi;
    }
  }

  /** Worked example: any ordering of 1, 2, 3 has median 2. */
  lemma MedianOddExample(prices: seq<real>)
    requires multiset(prices) == multiset{1.0, 2.0, 3.0}
    ensures CalculateMedian(prices) == Some(2.0)
  {
    var t := [1.0, 2.0, 3.0];
    assert Sorted(t);
    assert multiset(t) == multiset(prices);
    assert Middle(t) == 2.0;
    SortedUnique(Sort(prices), t);
  }

  /** Worked example: any ordering of 1, 2, 3, 4 has median 2.5. */
  lemma MedianEvenExample(prices: seq<real>)
    requires multiset(prices) == multiset{1.0, 2.0, 3.0, 4.0}
    ensures CalculateMedian(prices) == Some(2.5)
  {
    var t := [1.0, 2.0, 3.0, 4.0];
    assert Sorted(t);
    assert multiset(t) == multiset(prices);
    assert Middle(t) == 2.5;
    SortedUnique(Sort(prices), t);
  }
}
