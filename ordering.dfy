/**
 * The order in which the reports list names. The routes sort category and
 * student names with String.prototype.localeCompare; the model uses the
 * plain lexicographic order on UTF-16 code units, which is a total order
 * on strings, and sorts with it.
 */
module Ordering {

  /** a comes strictly before b in code-unit lexicographic order. */
  predicate StrLt(a: string, b: string)
    decreases |a|
  {
    if |a| == 0 then |b| > 0
    else if |b| == 0 then false
    else a[0] < b[0] || (a[0] == b[0] && StrLt(a[1..], b[1..]))
  }

  lemma {:induction false} StrLtIrreflexive(a: string)
    ensures !StrLt(a, a)
    decreases |a|
  {
    if |a| > 0 {
      StrLtIrreflexive(a[1..]);
    }
  }

  lemma {:induction false} StrLtTransitive(a: string, b: string, c: string)
    requires StrLt(a, b) && StrLt(b, c)
    ensures StrLt(a, c)
    decreases |a|
  {
    if |a| > 0 && a[0] == b[0] && b[0] == c[0] {
      StrLtTransitive(a[1..], b[1..], c[1..]);
    }
  }

  /** Any two different strings are ordered one way or the other. */
  lemma {:induction false} StrLtTotal(a: string, b: string)
    ensures a == b || StrLt(a, b) || StrLt(b, a)
    decreases |a|
  {
    if |a| > 0 && |b| > 0 && a[0] == b[0] {
      StrLtTotal(a[1..], b[1..]);
      if a[1..] == b[1..] {
        assert a == [a[0]] + a[1..] && b == [b[0]] + b[1..];
      }
    }
  }

  lemma {:induction false} StrLtAsymmetric(a: string, b: string)
    requires StrLt(a, b)
    ensures !StrLt(b, a)
  {
    if StrLt(b, a) {
      StrLtTransitive(a, b, a);
      StrLtIrreflexive(a);
    }
  }

  predicate StrictlySorted(xs: seq<string>)
  {
    forall i, j :: 0 <= i < j < |xs| ==> StrLt(xs[i], xs[j])
  }

  predicate NoRepeats(xs: seq<string>)
  {
    forall i, j :: 0 <= i < j < |xs| ==> xs[i] != xs[j]
  }

  /** x put into its place in a sorted sequence that does not hold it. */
  function InsertName(x: string, xs: seq<string>): (r: seq<string>)
    requires StrictlySorted(xs) && x !in xs
    ensures StrictlySorted(r)
    ensures multiset(r) == multiset(xs) + multiset{x}
    ensures |r| == |xs| + 1
    decreases |xs|
  {
    if |xs| == 0 then [x]
    else
      var last := xs[|xs| - 1];
      StrLtTotal(x, last);
      if StrLt(last, x) then
        assert forall i :: 0 <= i < |xs| - 1 ==> StrLt(xs[i], last);
        LastIsLargest(xs, x);
        xs + [x]
      else
        var init := xs[..|xs| - 1];
        assert xs == init + [last];
        var r0 := InsertName(x, init);
        InsertBefore(r0, init, x, last);
        r0 + [last]
  }

  /** Every element of a sorted sequence precedes anything its last element precedes. */
  lemma LastIsLargest(xs: seq<string>, x: string)
    requires StrictlySorted(xs) && |xs| > 0 && StrLt(xs[|xs| - 1], x)
    ensures StrictlySorted(xs + [x])
  {
    forall i | 0 <= i < |xs| - 1
      ensures StrLt(xs[i], x)
    {
      StrLtTransitive(xs[i], xs[|xs| - 1], x);
    }
  }

  /** Appending the old last element after a sorted insertion into the rest keeps the order. */
  lemma InsertBefore(r0: seq<string>, init: seq<string>, x: string, last: string)
    requires StrictlySorted(r0) && StrLt(x, last)
    requires multiset(r0) == multiset(init) + multiset{x}
    requires forall i :: 0 <= i < |init| ==> StrLt(init[i], last)
    ensures StrictlySorted(r0 + [last])
  {
    forall i | 0 <= i < |r0|
      ensures StrLt(r0[i], last)
    {
      assert r0[i] in multiset(r0);
      assert r0[i] in multiset(init) || r0[i] == x;
      if r0[i] != x {
        var k :| 0 <= k < |init| && init[k] == r0[i];
      }
    }
  }

  /** The names in code-unit order. */
  function SortNames(xs: seq<string>): (r: seq<string>)
    requires NoRepeats(xs)
    ensures StrictlySorted(r)
    ensures multiset(r) == multiset(xs)
    ensures |r| == |xs|
    decreases |xs|
  {
    if |xs| == 0 then []
    else
      var init := xs[..|xs| - 1];
      assert xs == init + [xs[|xs| - 1]];
      var s := SortNames(init);
      assert xs[|xs| - 1] !in multiset(s);
      InsertName(xs[|xs| - 1], s)
  }

  lemma DropLast(a: seq<string>)
    requires |a| > 0
    ensures multiset(a[..|a| - 1]) == multiset(a) - multiset{a[|a| - 1]}
  {
    assert a == a[..|a| - 1] + [a[|a| - 1]];
  }

  lemma SortedPrefix(a: seq<string>, n: nat)
    requires StrictlySorted(a) && n <= |a|
    ensures StrictlySorted(a[..n])
  {
  }

  /** Two sorted sequences with the same elements end with the same element. */
  lemma SameLast(a: seq<string>, b: seq<string>)
    requires StrictlySorted(a) && StrictlySorted(b) && multiset(a) == multiset(b) && |a| == |b| > 0
    ensures a[|a| - 1] == b[|b| - 1]
  {
    var n := |a| - 1;
    var x, y := a[n], b[n];
    assert x in multiset(b) && y in multiset(a);
    var i :| 0 <= i < |b| && b[i] == x;
    var j :| 0 <= j < |a| && a[j] == y;
    if x != y {
      assert StrLt(y, x) && StrLt(x, y);
      StrLtAsymmetric(x, y);
    }
  }

  /** Two sorted sequences with the same elements are the same sequence. */
  lemma {:induction false} SortedUnique(a: seq<string>, b: seq<string>)
    requires StrictlySorted(a) && StrictlySorted(b) && multiset(a) == multiset(b)
    ensures a == b
    decreases |a|
  {
    assert |a| == |multiset(a)| == |b|;
    if |a| > 0 {
      var n := |a| - 1;
      SameLast(a, b);
      DropLast(a);
      DropLast(b);
      SortedPrefix(a, n);
      SortedPrefix(b, n);
      SortedUnique(a[..n], b[..n]);
      assert a == a[..n] + [a[n]];
      assert b == b[..n] + [b[n]];
    }
  }

  /** Sorting depends only on which names there are, not on the order they came in. */
  lemma SortNamesOfSameNames(xs: seq<string>, ys: seq<string>)
    requires NoRepeats(xs) && NoRepeats(ys) && multiset(xs) == multiset(ys)
    ensures SortNames(xs) == SortNames(ys)
  {
    SortedUnique(SortNames(xs), SortNames(ys));
  }
}
