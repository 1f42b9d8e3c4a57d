/**
 * Generic sequence helpers used by the PHP array and string models:
 * distinctness, first index, occurrence counts and first-occurrence
 * de-duplication (the behaviour of PHP's `array_unique`).
 */
module Sequences {

  predicate Distinct<T(==)>(xs: seq<T>) {
    forall i, j :: 0 <= i < j < |xs| ==> xs[i] != xs[j]
  }

  /** Index of the first occurrence of `x` in `xs`. */
  function IndexOf<T(==)>(xs: seq<T>, x: T): (k: nat)
    requires x in xs
    ensures k < |xs| && xs[k] == x
    ensures x !in xs[..k]
  {
    if xs[0] == x then 0
    else
      var k' := IndexOf(xs[1..], x);
      assert xs[..k' + 1] == [xs[0]] + xs[1..][..k'];
      1 + k'
  }

  lemma {:induction false} IndexOfAppend<T>(a: seq<T>, b: seq<T>, x: T)
    requires x in a + b
    ensures x in a ==> IndexOf(a + b, x) == IndexOf(a, x)
    ensures x !in a ==> x in b && IndexOf(a + b, x) == |a| + IndexOf(b, x)
  {
    if a == [] {
      assert a + b == b;
    } else if a[0] != x {
      assert (a + b)[1..] == a[1..] + b;
      IndexOfAppend(a[1..], b, x);
    }
  }

  /** Number of occurrences of `x` in `xs`. */
  function Count<T(==)>(xs: seq<T>, x: T): (n: nat)
    ensures n <= |xs|
    ensures n == 0 <==> x !in xs
  {
    if xs == [] then 0 else (if xs[0] == x then 1 else 0) + Count(xs[1..], x)
  }

  lemma {:induction false} CountAppend<T>(a: seq<T>, b: seq<T>, x: T)
    ensures Count(a + b, x) == Count(a, x) + Count(b, x)
  {
    if a == [] {
      assert a + b == b;
    } else {
      assert (a + b)[1..] == a[1..] + b;
      CountAppend(a[1..], b, x);
    }
  }

  /**
   * Keep the first occurrence of every element, in order of first
   * occurrence (PHP's `array_unique` followed by `array_values`).
   */
  function Dedup<T(==)>(xs: seq<T>): (r: seq<T>)
    ensures Distinct(r)
    ensures |r| <= |xs|
    ensures forall i :: 0 <= i < |r| ==> r[i] in xs
    ensures forall i :: 0 <= i < |xs| ==> xs[i] in r
  {
    if xs == [] then []
    else
      var init, last := xs[..|xs| - 1], xs[|xs| - 1];
      assert xs == init + [last];
      Dedup(init) + (if last in init then [] else [last])
  }

  lemma {:induction false} DedupOfDistinct<T>(xs: seq<T>)
    requires Distinct(xs)
    ensures Dedup(xs) == xs
  {
    if xs != [] {
      var init, last := xs[..|xs| - 1], xs[|xs| - 1];
      assert Distinct(init) by {
        forall i, j | 0 <= i < j < |init| ensures init[i] != init[j] {
          assert init[i] == xs[i] && init[j] == xs[j];
        }
      }
      DedupOfDistinct(init);
      forall k | 0 <= k < |init| ensures init[k] != last {
        assert init[k] == xs[k];
      }
      assert xs == init + [last];
      assert last !in init;
      assert Dedup(xs) == Dedup(init) + [last];
    }
  }

  /**
   * Dedup keeps elements in the order of their first occurrence: of two
   * kept elements, the one that first occurs earlier in `xs` comes first.
   */
  lemma {:induction false} DedupOrder<T>(xs: seq<T>, x: T, y: T)
    requires x in xs && y in xs
    ensures IndexOf(Dedup(xs), x) < IndexOf(Dedup(xs), y) <==> IndexOf(xs, x) < IndexOf(xs, y)
  {
    var init, last := xs[..|xs| - 1], xs[|xs| - 1];
    assert xs == init + [last];
    var d := Dedup(init);
    var tail := if last in init then [] else [last];
    assert Dedup(xs) == d + tail;
    IndexOfAppend(init, [last], x);
    IndexOfAppend(init, [last], y);
    if x in init && y in init {
      DedupOrder(init, x, y);
      assert x in d && y in d;
      IndexOfAppend(d, tail, x);
      IndexOfAppend(d, tail, y);
    } else if x in init {
      // y is `last`, first occurring after all of init
      assert y == last && x in d && y !in d;
      IndexOfAppend(d, tail, x);
      IndexOfAppend(d, tail, y);
    } else if y in init {
      assert x == last && y in d && x !in d;
      IndexOfAppend(d, tail, x);
      IndexOfAppend(d, tail, y);
    } else {
      assert x == last && y == last;
    }
  }
}
