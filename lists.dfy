/**
 * The JavaScript array operations the pages use (`filter`, `find`,
 * `findIndex`, `slice`, `map` with a replacement), written once and
 * specified once.
 */
module Lists {
  import opened Types

  /** `a` is an order-preserving subsequence of `b`. */
  predicate IsSubsequence<T(==)>(a: seq<T>, b: seq<T>)
    decreases |b|
  {
    if a == [] then true
    else if b == [] then false
    else (a[0] == b[0] && IsSubsequence(a[1..], b[1..])) || IsSubsequence(a, b[1..])
  }

  /** `xs.filter(p)`. */
  function Filter<T(==)>(xs: seq<T>, p: T -> bool): (r: seq<T>)
    ensures |r| <= |xs|
    ensures forall i :: 0 <= i < |r| ==> r[i] in xs && p(r[i])
    ensures forall i :: 0 <= i < |xs| && p(xs[i]) ==> xs[i] in r
    ensures IsSubsequence(r, xs)
  {
    if xs == [] then []
    else if p(xs[0]) then [xs[0]] + Filter(xs[1..], p)
    else Filter(xs[1..], p)
  }

  /** A filter keeps every copy of a kept element and no copy of a dropped one. */
  lemma {:induction false} FilterCounts<T>(xs: seq<T>, p: T -> bool)
    ensures forall x :: multiset(Filter(xs, p))[x] == if p(x) then multiset(xs)[x] else 0
  {
    if xs != [] {
      FilterCounts(xs[1..], p);
      assert xs == [xs[0]] + xs[1..];
    }
  }

  /** Filtering out every copy of `v` shortens the list by the number of copies. */
  lemma {:induction false} FilterOutLength<T>(xs: seq<T>, p: T -> bool, v: T)
    requires forall x :: !p(x) <==> x == v
    ensures |Filter(xs, p)| == |xs| - multiset(xs)[v]
  {
    if xs != [] {
      FilterOutLength(xs[1..], p, v);
      assert xs == [xs[0]] + xs[1..];
    }
  }

  /** A filter whose predicate holds everywhere keeps the whole list. */
  lemma {:induction false} FilterKeepsAll<T>(xs: seq<T>, p: T -> bool)
    requires forall i :: 0 <= i < |xs| ==> p(xs[i])
    ensures Filter(xs, p) == xs
  {
    if xs != [] {
      FilterKeepsAll(xs[1..], p);
    }
  }

  /** A filter whose predicate holds nowhere keeps nothing. */
  lemma {:induction false} FilterKeepsNone<T>(xs: seq<T>, p: T -> bool)
    requires forall i :: 0 <= i < |xs| ==> !p(xs[i])
    ensures Filter(xs, p) == []
  {
    if xs != [] {
      FilterKeepsNone(xs[1..], p);
    }
  }

  /** `[x, ...xs]`: `x` goes first. */
  function Prepend<T>(xs: seq<T>, x: T): (r: seq<T>)
    ensures |r| == |xs| + 1 && r[0] == x && r[1..] == xs
  {
    [x] + xs
  }

  /** `xs.findIndex(p)`: the first index satisfying `p`, or -1. */
  function FindIndex<T>(xs: seq<T>, p: T -> bool): (r: int)
    ensures -1 <= r < |xs|
    ensures r == -1 <==> forall i :: 0 <= i < |xs| ==> !p(xs[i])
    ensures 0 <= r ==> p(xs[r]) && forall i :: 0 <= i < r ==> !p(xs[i])
  {
    if xs == [] then -1
    else if p(xs[0]) then 0
    else
      var k := FindIndex(xs[1..], p);
      if k == -1 then -1 else k + 1
  }

  /** `xs.find(p)`: the first element satisfying `p`. */
  function Find<T>(xs: seq<T>, p: T -> bool): (r: Option<T>)
    ensures r.None? <==> forall i :: 0 <= i < |xs| ==> !p(xs[i])
    ensures r.Some? ==> exists i :: 0 <= i < |xs| && xs[i] == r.value &&
                          p(r.value) && forall j :: 0 <= j < i ==> !p(xs[j])
  {
    var k := FindIndex(xs, p);
    if k == -1 then None else Some(xs[k])
  }

  /** `xs.map(x => matches(x) ? y : x)`. */
  function ReplaceWhere<T>(xs: seq<T>, matches: T -> bool, y: T): (r: seq<T>)
    ensures |r| == |xs|
    ensures forall i :: 0 <= i < |xs| ==> r[i] == if matches(xs[i]) then y else xs[i]
  {
    seq(|xs|, i requires 0 <= i < |xs| => if matches(xs[i]) then y else xs[i])
  }

  /** Replacing where nothing matches changes nothing. */
  lemma ReplaceWhereNoMatch<T>(xs: seq<T>, matches: T -> bool, y: T)
    requires forall i :: 0 <= i < |xs| ==> !matches(xs[i])
    ensures ReplaceWhere(xs, matches, y) == xs
  {
  }

  /** A JavaScript `slice` index, resolved against length `n`. */
  function SliceIndex(i: int, n: nat): (k: nat)
    ensures k <= n
    ensures 0 <= i <= n ==> k == i
  {
    if i < 0 then (if n + i < 0 then 0 else n + i)
    else if i > n then n
    else i
  }

  /** `xs.slice(start, end)`, negative indexes counting from the end. */
  function Slice<T>(xs: seq<T>, start: int, end: int): (r: seq<T>)
    ensures 0 <= start <= end ==> |r| <= end - start
    ensures 0 <= start ==> forall k :: 0 <= k < |r| ==> start + k < |xs| && r[k] == xs[start + k]
    ensures 0 <= start <= end <= |xs| ==> r == xs[start..end]
  {
    var s := SliceIndex(start, |xs|);
    var e := SliceIndex(end, |xs|);
    if s < e then xs[s..e] else []
  }

  /** No element occurs twice. */
  predicate NoDuplicates<T(==)>(xs: seq<T>)
  {
    forall i, j :: 0 <= i < j < |xs| ==> xs[i] != xs[j]
  }

  /** Filtering a list without repeats gives a list without repeats. */
  lemma {:induction false} FilterNoDuplicates<T>(xs: seq<T>, p: T -> bool)
    requires NoDuplicates(xs)
    ensures NoDuplicates(Filter(xs, p))
  {
    if xs != [] {
      FilterNoDuplicates(xs[1..], p);
      var rest := Filter(xs[1..], p);
      if p(xs[0]) {
        assert xs[0] !in rest by {
          assert xs[0] !in xs[1..];
        }
        var r := [xs[0]] + rest;
        forall i, j | 0 <= i < j < |r| ensures r[i] != r[j] {
          if i == 0 {
            assert r[j] == rest[j - 1];
          } else {
            assert r[i] == rest[i - 1] && r[j] == rest[j - 1];
          }
        }
      }
    }
  }

  /** `[...new Set(xs)]`: each value once, at its first position. */
  function Distinct(xs: seq<string>): (r: seq<string>)
    ensures NoDuplicates(r)
    ensures forall x :: x in r <==> x in xs
    decreases |xs|
  {
    if xs == [] then []
    else
      var init, last := xs[..|xs| - 1], xs[|xs| - 1];
      var d := Distinct(init);
      assert forall x :: x in xs <==> x in init || x == last by {
        assert xs == init + [last];
      }
      if last in d then d else d + [last]
  }

  /** `[first, ...new Set(bank.map(e => e.subject))]`: a subject drop-down's entries. */
  function SubjectOptions(first: string, bank: seq<Exam>): (r: seq<string>)
    ensures |r| >= 1 && r[0] == first
    ensures NoDuplicates(r[1..])
    ensures forall x :: x in r[1..] <==> exists i :: 0 <= i < |bank| && bank[i].subject == x
  {
    var subjects := seq(|bank|, i requires 0 <= i < |bank| => bank[i].subject);
    var d := Distinct(subjects);
    assert ([first] + d)[1..] == d;
    assert forall x :: x in subjects <==> exists i :: 0 <= i < |bank| && bank[i].subject == x by {
      forall x | x in subjects ensures exists i :: 0 <= i < |bank| && bank[i].subject == x {
        var i :| 0 <= i < |subjects| && subjects[i] == x;
      }
      forall x | exists i :: 0 <= i < |bank| && bank[i].subject == x ensures x in subjects {
        var i :| 0 <= i < |bank| && bank[i].subject == x;
        assert subjects[i] == x;
      }
    }
    [first] + d
  }
}
