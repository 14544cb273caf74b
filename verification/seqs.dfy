/** Sequence helpers that mirror the JavaScript array methods the app uses:
    `filter`, `includes` and `indexOf`, plus the predicates that state their
    results (no duplicates, order-preserving subsequence). */
module Seqs {

  /** No element occurs twice. */
  predicate NoDup<T(==)>(s: seq<T>) {
    forall i, j :: 0 <= i < j < |s| ==> s[i] != s[j]
  }

  /** `a` can be obtained from `b` by deleting elements, keeping the order of the rest. */
  predicate IsSubseq<T(==)>(a: seq<T>, b: seq<T>)
    decreases |b|
  {
    if a == [] then true
    else if b == [] then false
    else if a[0] == b[0] then IsSubseq(a[1..], b[1..])
    else IsSubseq(a, b[1..])
  }

  /** `Array.prototype.indexOf`, with `|s|` standing for "not found". */
  function IndexOf<T(==)>(s: seq<T>, x: T): (i: nat)
    ensures i <= |s|
    ensures i < |s| ==> s[i] == x
    ensures forall k :: 0 <= k < i ==> s[k] != x
    ensures i == |s| <==> x !in s
    decreases |s|
  {
    if s == [] then 0
    else if s[0] == x then 0
    else 1 + IndexOf(s[1..], x)
  }

  /** Extending a sequence at the end moves no first occurrence, and an
      element new to it is first found at the end. */
  lemma {:induction false} IndexOfExtend<T>(s: seq<T>, x: T, y: T)
    ensures y in s ==> IndexOf(s + [x], y) == IndexOf(s, y)
    ensures y !in s && y == x ==> IndexOf(s + [x], y) == |s|
    decreases |s|
  {
    if s == [] {
      assert s + [x] == [x];
    } else {
      assert (s + [x])[0] == s[0] && (s + [x])[1..] == s[1..] + [x];
      IndexOfExtend(s[1..], x, y);
    }
  }

  /** `Array.from(new Set(s))`: every element once, in the order of its
      first occurrence in `s`. */
  function Dedup<T(==,!new)>(s: seq<T>): (r: seq<T>)
    ensures NoDup(r)
    ensures forall x :: x in r <==> x in s
    ensures forall a, b :: 0 <= a < b < |r| ==> IndexOf(s, r[a]) < IndexOf(s, r[b])
    decreases |s|
  {
    if s == [] then []
    else
      var init, x := s[..|s| - 1], s[|s| - 1];
      assert s == init + [x];
      var d := Dedup(init);
      assert forall y :: y in s <==> y in init || y == x;
      assert forall y :: y in init ==> IndexOf(s, y) == IndexOf(init, y) by {
        forall y | y in init
          ensures IndexOf(s, y) == IndexOf(init, y)
        {
          IndexOfExtend(init, x, y);
        }
      }
      if x in d then d
      else
        IndexOfExtend(init, x, x);
        d + [x]
  }

  lemma DedupAppendNew<T(!new)>(s: seq<T>, x: T)
    requires x !in s
    ensures Dedup(s + [x]) == Dedup(s) + [x]
  {
    var t := s + [x];
    assert t[..|t| - 1] == s && t[|t| - 1] == x;
  }

  /** A sequence without duplicates is its own set of distinct elements. */
  lemma {:induction false} DedupOfDistinct<T(!new)>(s: seq<T>)
    requires NoDup(s)
    ensures Dedup(s) == s
    decreases |s|
  {
    if s != [] {
      var init, x := s[..|s| - 1], s[|s| - 1];
      assert s == init + [x];
      assert NoDup(init) && x !in init by {
        forall i | 0 <= i < |init|
          ensures init[i] == s[i] && init[i] != x
        {
        }
      }
      DedupOfDistinct(init);
      DedupAppendNew(init, x);
    }
  }

  /** `Array.prototype.filter`: the elements satisfying `p`, in their original order. */
  function Filter<T(==,!new)>(s: seq<T>, p: T -> bool): (r: seq<T>)
    ensures |r| <= |s|
    ensures forall x :: x in r <==> x in s && p(x)
    ensures forall x :: multiset(r)[x] == if p(x) then multiset(s)[x] else 0
    decreases |s|
  {
    if s == [] then []
    else
      assert s == [s[0]] + s[1..];
      (if p(s[0]) then [s[0]] else []) + Filter(s[1..], p)
  }

  /** Filtering keeps the surviving elements in their original relative order. */
  lemma {:induction false} FilterIsSubseq<T(!new)>(s: seq<T>, p: T -> bool)
    ensures IsSubseq(Filter(s, p), s)
    decreases |s|
  {
    if s != [] {
      FilterIsSubseq(s[1..], p);
      if p(s[0]) {
        assert Filter(s, p) == [s[0]] + Filter(s[1..], p);
      } else {
        assert Filter(s, p) == Filter(s[1..], p);
        SubseqOfTail(Filter(s[1..], p), s);
      }
    }
  }

  /** A subsequence of the tail is a subsequence of the whole. */
  lemma {:induction false} SubseqOfTail<T>(a: seq<T>, b: seq<T>)
    requires b != []
    requires IsSubseq(a, b[1..])
    ensures IsSubseq(a, b)
    decreases |b|, 0
  {
    if a != [] && a[0] == b[0] {
      // IsSubseq(a, b) asks IsSubseq(a[1..], b[1..]); a[1..] is a subsequence of a
      SubseqDropHead(a, b[1..]);
    }
  }

  /** Dropping the head of a subsequence keeps it a subsequence. */
  lemma {:induction false} SubseqDropHead<T>(a: seq<T>, b: seq<T>)
    requires a != []
    requires IsSubseq(a, b)
    ensures IsSubseq(a[1..], b)
    decreases |b|, 1
  {
    if b != [] {
      if a[0] == b[0] {
        SubseqOfTail(a[1..], b);
      } else {
        SubseqDropHead(a, b[1..]);
        SubseqOfTail(a[1..], b);
      }
    }
  }

  /** A filter that rejects nothing is the identity. */
  lemma {:induction false} FilterKeepsAll<T(!new)>(s: seq<T>, p: T -> bool)
    requires forall x :: x in s ==> p(x)
    ensures Filter(s, p) == s
    decreases |s|
  {
    if s != [] {
      FilterKeepsAll(s[1..], p);
    }
  }

  /** Two positions of a subsequence come from two increasing positions of the whole. */
  lemma {:induction false} SubseqIndices<T>(a: seq<T>, b: seq<T>, i: nat, j: nat)
    requires IsSubseq(a, b)
    requires i < j < |a|
    ensures exists k, l :: 0 <= k < l < |b| && a[i] == b[k] && a[j] == b[l]
    decreases |b|
  {
    if a[0] == b[0] {
      if i == 0 {
        SubseqElement(a[1..], b[1..], j - 1);
        var l :| 0 <= l < |b| - 1 && a[j] == b[1..][l];
        assert a[j] == b[l + 1];
      } else {
        SubseqIndices(a[1..], b[1..], i - 1, j - 1);
        var k, l :| 0 <= k < l < |b| - 1 && a[i] == b[1..][k] && a[j] == b[1..][l];
        assert a[i] == b[k + 1] && a[j] == b[l + 1];
      }
    } else {
      SubseqIndices(a, b[1..], i, j);
      var k, l :| 0 <= k < l < |b| - 1 && a[i] == b[1..][k] && a[j] == b[1..][l];
      assert a[i] == b[k + 1] && a[j] == b[l + 1];
    }
  }

  /** Every element of a subsequence occurs in the whole. */
  lemma {:induction false} SubseqElement<T>(a: seq<T>, b: seq<T>, i: nat)
    requires IsSubseq(a, b)
    requires i < |a|
    ensures exists k :: 0 <= k < |b| && a[i] == b[k]
    decreases |b|
  {
    if a[0] == b[0] {
      if i == 0 {
        assert a[i] == b[0];
      } else {
        SubseqElement(a[1..], b[1..], i - 1);
        var k :| 0 <= k < |b| - 1 && a[i] == b[1..][k];
        assert a[i] == b[k + 1];
      }
    } else {
      SubseqElement(a, b[1..], i);
      var k :| 0 <= k < |b| - 1 && a[i] == b[1..][k];
      assert a[i] == b[k + 1];
    }
  }

  /** Appending an element the filter rejects does not change the result. */
  lemma {:induction false} FilterAppendRejected<T(!new)>(s: seq<T>, x: T, p: T -> bool)
    requires !p(x)
    ensures Filter(s + [x], p) == Filter(s, p)
    decreases |s|
  {
    if s == [] {
      assert s + [x] == [x];
      assert [x][1..] == [];
    } else {
      assert (s + [x])[0] == s[0];
      assert (s + [x])[1..] == s[1..] + [x];
      FilterAppendRejected(s[1..], x, p);
    }
  }

  /** Concatenation regrouped. */
  lemma ConcatAssoc<T>(a: seq<T>, b: seq<T>, c: seq<T>)
    ensures a + (b + c) == a + b + c
  {
  }
}
