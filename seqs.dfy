/**
 * Sequence helpers: `Array.prototype.filter`, a subsequence relation, and the
 * stable sort that stands for `Array.prototype.sort` with a comparator.
 */
module Seqs {

  /** `s.filter(p)`: the elements of `s` that satisfy `p`, in order. */
  function Filter<T>(s: seq<T>, p: T -> bool): (r: seq<T>)
    ensures |r| <= |s|
    ensures forall i :: 0 <= i < |r| ==> r[i] in s && p(r[i])
    ensures forall i :: 0 <= i < |s| && p(s[i]) ==> s[i] in r
  {
    if s == [] then [] else (if p(s[0]) then [s[0]] else []) + Filter(s[1..], p)
  }

  /** Filtering distributes over concatenation; this is what a loop that pushes matching elements relies on. */
  lemma {:induction false} FilterAppend<T>(a: seq<T>, b: seq<T>, p: T -> bool)
    ensures Filter(a + b, p) == Filter(a, p) + Filter(b, p)
  {
    if a == [] {
      assert a + b == b;
    } else {
      assert (a + b)[1..] == a[1..] + b;
      FilterAppend(a[1..], b, p);
    }
  }

  /** A kept last element stays last. */
  lemma FilterLast<T>(s: seq<T>, p: T -> bool)
    requires s != [] && p(s[|s| - 1])
    ensures var r := Filter(s, p); r != [] && r[|r| - 1] == s[|s| - 1]
  {
    var n := |s|;
    assert s == s[..n - 1] + [s[n - 1]];
    FilterAppend(s[..n - 1], [s[n - 1]], p);
  }

  /** The conjunction of two element tests. */
  function Both<T>(p: T -> bool, q: T -> bool): (T -> bool) {
    (x: T) => p(x) && q(x)
  }

  /** Two filters in a row are one filter by both tests. */
  lemma {:induction false} FilterFilter<T>(s: seq<T>, p: T -> bool, q: T -> bool)
    ensures Filter(Filter(s, p), q) == Filter(s, Both(p, q))
  {
    if s != [] {
      FilterFilter(s[1..], p, q);
      FilterAppend(if p(s[0]) then [s[0]] else [], Filter(s[1..], p), q);
    }
  }

  /** A filter every element passes keeps the sequence. */
  lemma {:induction false} FilterAll<T>(s: seq<T>, p: T -> bool)
    requires forall x :: x in s ==> p(x)
    ensures Filter(s, p) == s
  {
    if s != [] {
      FilterAll(s[1..], p);
      assert s == [s[0]] + s[1..];
    }
  }

  /** A filter no element passes leaves nothing. */
  lemma {:induction false} FilterNone<T>(s: seq<T>, p: T -> bool)
    requires forall x :: x in s ==> !p(x)
    ensures Filter(s, p) == []
  {
    if s != [] {
      FilterNone(s[1..], p);
    }
  }

  /** Filters that agree on every element give the same result. */
  lemma {:induction false} FilterSame<T>(s: seq<T>, p: T -> bool, q: T -> bool)
    requires forall x :: x in s ==> p(x) == q(x)
    ensures Filter(s, p) == Filter(s, q)
  {
    if s != [] {
      FilterSame(s[1..], p, q);
    }
  }

  /** Filtering keeps exactly the multiset of elements that satisfy the predicate. */
  lemma {:induction false} FilterMultiset<T>(s: seq<T>, p: T -> bool, x: T)
    ensures multiset(Filter(s, p))[x] == if p(x) then multiset(s)[x] else 0
  {
    if s != [] {
      var head := if p(s[0]) then [s[0]] else [];
      var rest := s[1..];
      FilterMultiset(rest, p, x);
      assert s == [s[0]] + rest;
      assert multiset(Filter(s, p)) == multiset(head) + multiset(Filter(rest, p));
      assert multiset(s) == multiset{s[0]} + multiset(rest);
    }
  }

  /** `r` is obtained from `s` by deleting elements, keeping the order of the rest. */
  ghost predicate IsSubsequence<T>(r: seq<T>, s: seq<T>)
    decreases |s|
  {
    if r == [] then true
    else if s == [] then false
    else if r[0] == s[0] then IsSubsequence(r[1..], s[1..])
    else IsSubsequence(r, s[1..])
  }

  /** A subsequence of the tail of `s` is a subsequence of `s`. */
  lemma {:induction false} SubsequenceWeaken<T>(r: seq<T>, s: seq<T>)
    requires s != [] && IsSubsequence(r, s[1..])
    ensures IsSubsequence(r, s)
    decreases |s|, |r|, 1
  {
    if r != [] && r[0] == s[0] {
      SubsequenceDropHead(r, s[1..]);
    }
  }

  /** Dropping the first element of a subsequence leaves a subsequence. */
  lemma {:induction false} SubsequenceDropHead<T>(r: seq<T>, s: seq<T>)
    requires r != [] && IsSubsequence(r, s)
    ensures IsSubsequence(r[1..], s)
    decreases |s|, |r|, 0
  {
    if r[0] != s[0] {
      SubsequenceDropHead(r, s[1..]);
    }
    if r[1..] != [] {
      SubsequenceWeaken(r[1..], s);
    }
  }

  /** What `filter` returns is an order-preserving subsequence of its input. */
  lemma {:induction false} FilterIsSubsequence<T>(s: seq<T>, p: T -> bool)
    ensures IsSubsequence(Filter(s, p), s)
  {
    if s != [] {
      FilterIsSubsequence(s[1..], p);
      var rest := Filter(s[1..], p);
      if p(s[0]) {
        assert Filter(s, p) == [s[0]] + rest;
        assert Filter(s, p)[1..] == rest;
      } else {
        assert Filter(s, p) == rest;
        if rest != [] {
          SubsequenceWeaken(rest, s);
        }
      }
    }
  }

  /** Concatenation is associative. */
  lemma AppendAssoc<T>(a: seq<T>, b: seq<T>, c: seq<T>)
    ensures (a + b) + c == a + (b + c)
  {
  }

  /** Splitting off the head of a sequence and appending at its end commute. */
  lemma ConsAppend<T>(s: seq<T>, x: T)
    requires s != []
    ensures [s[0]] + (s[1..] + [x]) == s + [x]
  {
  }

  /** Inserts `x` before the first element it does not sort after, so equal elements keep their order. */
  function Insert<T>(x: T, s: seq<T>, cmp: (T, T) -> int): (r: seq<T>)
    ensures |r| == |s| + 1
    ensures r[0] == x || (s != [] && r[0] == s[0])
  {
    if s == [] then [x]
    else if cmp(x, s[0]) <= 0 then [x] + s
    else [s[0]] + Insert(x, s[1..], cmp)
  }

  /** An element that sorts no later than the last element is inserted before it: the last element stays last. */
  lemma {:induction false} InsertBeforeLast<T>(x: T, s: seq<T>, cmp: (T, T) -> int)
    requires s != [] && cmp(x, s[|s| - 1]) <= 0
    ensures Insert(x, s, cmp)[|s|] == s[|s| - 1]
  {
    if cmp(x, s[0]) > 0 {
      var rest := s[1..];
      assert rest[|rest| - 1] == s[|s| - 1];
      InsertBeforeLast(x, rest, cmp);
      assert Insert(x, s, cmp) == [s[0]] + Insert(x, rest, cmp);
    }
  }

  /** Inserting adds exactly the one element. */
  lemma {:induction false} InsertMultiset<T>(x: T, s: seq<T>, cmp: (T, T) -> int)
    ensures multiset(Insert(x, s, cmp)) == multiset(s) + multiset{x}
  {
    if s != [] && cmp(x, s[0]) > 0 {
      var rest := s[1..];
      InsertMultiset(x, rest, cmp);
      assert s == [s[0]] + rest;
      assert Insert(x, s, cmp) == [s[0]] + Insert(x, rest, cmp);
    } else if s != [] {
      assert Insert(x, s, cmp) == [x] + s;
    }
  }

  /**
   * Stable insertion sort under a comparator that returns a negative number, zero or a
   * positive number, as `Array.prototype.sort` expects.
   */
  function SortBy<T>(s: seq<T>, cmp: (T, T) -> int): (r: seq<T>)
    ensures |r| == |s|
  {
    if s == [] then []
    else Insert(s[0], SortBy(s[1..], cmp), cmp)
  }

  /** The sort is a permutation. */
  lemma {:induction false} SortByMultiset<T>(s: seq<T>, cmp: (T, T) -> int)
    ensures multiset(SortBy(s, cmp)) == multiset(s)
  {
    if s != [] {
      SortByMultiset(s[1..], cmp);
      InsertMultiset(s[0], SortBy(s[1..], cmp), cmp);
      assert s == [s[0]] + s[1..];
    }
  }

  /** Neighbouring elements are in order. */
  ghost predicate SortedBy<T>(s: seq<T>, cmp: (T, T) -> int) {
    forall i :: 0 <= i < |s| - 1 ==> cmp(s[i], s[i + 1]) <= 0
  }

  /** Any two elements of `xs` can be compared one way or the other. */
  ghost predicate TotalOn<T>(xs: seq<T>, cmp: (T, T) -> int) {
    forall a, b :: a in xs && b in xs ==> cmp(a, b) <= 0 || cmp(b, a) <= 0
  }

  lemma {:induction false} InsertSorted<T>(x: T, s: seq<T>, cmp: (T, T) -> int, xs: seq<T>)
    requires SortedBy(s, cmp)
    requires x in xs && forall y :: y in s ==> y in xs
    requires TotalOn(xs, cmp)
    ensures SortedBy(Insert(x, s, cmp), cmp)
  {
    if s != [] && cmp(x, s[0]) > 0 {
      assert s[0] in xs;
      var tail := Insert(x, s[1..], cmp);
      assert SortedBy(s[1..], cmp) by {
        forall i | 0 <= i < |s[1..]| - 1 ensures cmp(s[1..][i], s[1..][i + 1]) <= 0 {
          assert s[1..][i] == s[i + 1] && s[1..][i + 1] == s[i + 2];
        }
      }
      forall y | y in s[1..] ensures y in xs { assert y in s; }
      InsertSorted(x, s[1..], cmp, xs);
      var r := [s[0]] + tail;
      assert r == Insert(x, s, cmp);
      forall i | 0 <= i < |r| - 1 ensures cmp(r[i], r[i + 1]) <= 0 {
        if i == 0 {
          if tail[0] == x {
          } else {
            assert |s| > 1 && tail[0] == s[1];
          }
        } else {
          assert r[i] == tail[i - 1] && r[i + 1] == tail[i];
        }
      }
    }
  }

  /** When the comparator is total on the elements, the sort leaves every neighbouring pair in order. */
  lemma {:induction false} SortBySorted<T>(s: seq<T>, cmp: (T, T) -> int)
    requires TotalOn(s, cmp)
    ensures SortedBy(SortBy(s, cmp), cmp)
  {
    if s != [] {
      assert TotalOn(s[1..], cmp) by {
        forall a, b | a in s[1..] && b in s[1..] ensures cmp(a, b) <= 0 || cmp(b, a) <= 0 {
          assert a in s && b in s;
        }
      }
      SortBySorted(s[1..], cmp);
      var sorted := SortBy(s[1..], cmp);
      SortByMultiset(s[1..], cmp);
      forall y | y in sorted ensures y in s {
        assert y in multiset(sorted);
        assert y in multiset(s[1..]);
        assert y in s[1..];
      }
      InsertSorted(s[0], sorted, cmp, s);
    }
  }
}
