/** The LINQ operators the queries are built from: Where, a stable OrderBy, Skip and
    Take, with 32-bit int arithmetic for the computed offset. */
module Seqs {
  import opened Wrappers
  import opened Text

  // ---------------------------------------------------------------- Where

  /** Enumerable.Where: the elements satisfying p, in their original order. */
  function Filter<T>(s: seq<T>, p: T -> bool): (r: seq<T>)
    ensures |r| <= |s|
    ensures forall i :: 0 <= i < |r| ==> p(r[i])
    ensures multiset(r) <= multiset(s)
  {
    if s == [] then []
    else
      assert s == s[..|s| - 1] + [s[|s| - 1]];
      Filter(s[..|s| - 1], p) + (if p(s[|s| - 1]) then [s[|s| - 1]] else [])
  }

  /** An element is kept exactly when it is in s and satisfies p. */
  lemma {:induction false} FilterMembership<T>(s: seq<T>, p: T -> bool, x: T)
    ensures x in Filter(s, p) <==> x in s && p(x)
  {
    if s != [] {
      var init, last := s[..|s| - 1], s[|s| - 1];
      FilterMembership(init, p, x);
      assert s == init + [last];
    }
  }

  /** Filtering by a predicate that admits everything changes nothing. */
  lemma {:induction false} FilterAll<T>(s: seq<T>, p: T -> bool)
    requires forall x :: p(x)
    ensures Filter(s, p) == s
  {
    if s != [] {
      FilterAll(s[..|s| - 1], p);
      assert s[..|s| - 1] + [s[|s| - 1]] == s;
    }
  }

  /** Filtering by two predicates that agree everywhere gives the same result. */
  lemma {:induction false} FilterExtensional<T>(s: seq<T>, p: T -> bool, q: T -> bool)
    requires forall x :: p(x) == q(x)
    ensures Filter(s, p) == Filter(s, q)
  {
    if s != [] {
      FilterExtensional(s[..|s| - 1], p, q);
    }
  }

  /** The same for two predicates that agree on the elements of the sequence only. */
  lemma {:induction false} FilterAgreeing<T>(s: seq<T>, p: T -> bool, q: T -> bool)
    requires forall i :: 0 <= i < |s| ==> p(s[i]) == q(s[i])
    ensures Filter(s, p) == Filter(s, q)
  {
    if s != [] {
      var prefix := s[..|s| - 1];
      assert forall i :: 0 <= i < |prefix| ==> prefix[i] == s[i];
      FilterAgreeing(prefix, p, q);
    }
  }

  /** Filtering by p and then by q is filtering once by "p and q". */
  lemma {:induction false} FilterFilter<T>(s: seq<T>, p: T -> bool, q: T -> bool, pq: T -> bool)
    requires forall x :: pq(x) == (p(x) && q(x))
    ensures Filter(Filter(s, p), q) == Filter(s, pq)
  {
    if s != [] {
      var init, last := s[..|s| - 1], s[|s| - 1];
      FilterFilter(init, p, q, pq);
      var fp := Filter(s, p);
      if p(last) {
        assert fp[..|fp| - 1] == Filter(init, p);
      } else {
        assert fp == Filter(init, p);
      }
    }
  }

  /** Filter of a concatenation is the concatenation of the filters. */
  lemma {:induction false} FilterAppend<T>(a: seq<T>, b: seq<T>, p: T -> bool)
    ensures Filter(a + b, p) == Filter(a, p) + Filter(b, p)
  {
    if b == [] {
      assert a + b == a;
    } else {
      var init, last := b[..|b| - 1], b[|b| - 1];
      var tail := if p(last) then [last] else [];
      assert (a + b)[..|a + b| - 1] == a + init;
      assert (a + b)[|a + b| - 1] == last;
      assert Filter(a + b, p) == Filter(a + init, p) + tail;
      FilterAppend(a, init, p);
      assert Filter(b, p) == Filter(init, p) + tail;
    }
  }

  // ---------------------------------------------------------------- FirstOrDefault

  /** The first element satisfying p, or None when there is none. */
  function FindFirst<T>(s: seq<T>, p: T -> bool): (r: Option<T>)
    ensures r.None? <==> forall i :: 0 <= i < |s| ==> !p(s[i])
    ensures r.Some? ==> exists i :: 0 <= i < |s| && s[i] == r.value && p(r.value) && forall j :: 0 <= j < i ==> !p(s[j])
  {
    if s == [] then None
    else if p(s[0]) then Some(s[0])
    else
      var r := FindFirst(s[1..], p);
      assert forall i :: 1 <= i < |s| ==> s[i] == s[1..][i - 1];
      r
  }

  /** When the i-th element is the first to satisfy p, it is the one found. */
  lemma {:induction false} FindFirstAt<T>(s: seq<T>, p: T -> bool, i: nat)
    requires i < |s| && p(s[i]) && forall j :: 0 <= j < i ==> !p(s[j])
    ensures FindFirst(s, p) == Some(s[i])
  {
    if i > 0 {
      assert forall j :: 0 <= j < i - 1 ==> s[1..][j] == s[j + 1];
      FindFirstAt(s[1..], p, i - 1);
    }
  }

  // ---------------------------------------------------------------- OrderBy

  ghost predicate TotalPreorder<T(!new)>(le: (T, T) -> bool) {
    && (forall a, b :: le(a, b) || le(b, a))
    && (forall a, b, c :: le(a, b) && le(b, c) ==> le(a, c))
  }

  predicate SortedBy<T>(s: seq<T>, le: (T, T) -> bool) {
    forall i, j :: 0 <= i < j < |s| ==> le(s[i], s[j])
  }

  /** Inserts x in front of the first element it is at most, after every element it is
      not (so equal keys keep their order). */
  function Insert<T>(x: T, s: seq<T>, le: (T, T) -> bool): (r: seq<T>)
    ensures |r| == |s| + 1
    ensures multiset(r) == multiset(s) + multiset{x}
  {
    if s == [] then [x]
    else if le(x, s[0]) then [x] + s
    else
      assert s == [s[0]] + s[1..];
      [s[0]] + Insert(x, s[1..], le)
  }

  /** Enumerable.OrderBy with key comparison le: a stable insertion sort. */
  function SortBy<T>(s: seq<T>, le: (T, T) -> bool): (r: seq<T>)
    ensures |r| == |s|
    ensures multiset(r) == multiset(s)
  {
    if s == [] then []
    else
      assert s == [s[0]] + s[1..];
      Insert(s[0], SortBy(s[1..], le), le)
  }

  lemma {:induction false} InsertSorted<T(!new)>(x: T, s: seq<T>, le: (T, T) -> bool)
    requires TotalPreorder(le) && SortedBy(s, le)
    ensures SortedBy(Insert(x, s, le), le)
  {
    if s != [] && !le(x, s[0]) {
      var t := Insert(x, s[1..], le);
      InsertSorted(x, s[1..], le);
      forall y | y in t
        ensures le(s[0], y)
      {
        assert y in multiset(t);
        if y != x {
          assert y in multiset(s[1..]);
          var j :| 0 <= j < |s[1..]| && s[1..][j] == y;
          assert s[j + 1] == y;
        }
      }
      var r := [s[0]] + t;
      forall i, j | 0 <= i < j < |r|
        ensures le(r[i], r[j])
      {
        if i == 0 {
          assert r[j] == t[j - 1];
          assert r[j] in t;
        } else {
          assert r[i] == t[i - 1] && r[j] == t[j - 1];
        }
      }
    }
  }

  /** OrderBy's result is sorted by the key. */
  lemma {:induction false} SortBySorted<T(!new)>(s: seq<T>, le: (T, T) -> bool)
    requires TotalPreorder(le)
    ensures SortedBy(SortBy(s, le), le)
  {
    if s != [] {
      SortBySorted(s[1..], le);
      InsertSorted(s[0], SortBy(s[1..], le), le);
    }
  }

  /** Sorting a sequence that is already in order changes nothing. */
  lemma {:induction false} SortBySortedIdentity<T>(s: seq<T>, le: (T, T) -> bool)
    requires SortedBy(s, le)
    ensures SortBy(s, le) == s
  {
    if s != [] {
      assert SortedBy(s[1..], le) by {
        forall i, j | 0 <= i < j < |s[1..]|
          ensures le(s[1..][i], s[1..][j])
        {
          assert s[1..][i] == s[i + 1] && s[1..][j] == s[j + 1];
        }
      }
      SortBySortedIdentity(s[1..], le);
      if |s| > 1 {
        assert le(s[0], s[1]);
        assert s[1..][0] == s[1];
      }
      assert [s[0]] + s[1..] == s;
    }
  }

  // ---------------------------------------------------------------- Skip and Take

  /** Enumerable.Skip: a count at or below zero skips nothing. */
  function Skip<T>(s: seq<T>, n: int): seq<T> {
    if n <= 0 then s else if n >= |s| then [] else s[n..]
  }

  /** Enumerable.Take: a count at or below zero takes nothing. */
  function Take<T>(s: seq<T>, n: int): seq<T> {
    if n <= 0 then [] else if n >= |s| then s else s[..n]
  }

  /** Skip(offset).Take(size). */
  function Page<T>(s: seq<T>, offset: int, size: int): seq<T> {
    Take(Skip(s, offset), size)
  }

  function Clamp(n: int, hi: nat): (r: nat)
    ensures r <= hi
  {
    if n <= 0 then 0 else if n >= hi then hi else n
  }

  /** A page is the contiguous run of s starting at the clamped offset and holding at most
      size elements, so it never holds more than size elements or more than s does. */
  lemma PageIsSlice<T>(s: seq<T>, offset: int, size: int)
    ensures var lo := Clamp(offset, |s|);
            var hi := if size <= 0 then lo else Clamp(lo + size, |s|);
            lo <= hi && Page(s, offset, size) == s[lo..hi]
    ensures |Page(s, offset, size)| <= |s|
    ensures size >= 0 ==> |Page(s, offset, size)| <= size
    ensures size <= 0 ==> Page(s, offset, size) == []
  {
    var lo := Clamp(offset, |s|);
    assert Skip(s, offset) == s[lo..];
    if size <= 0 {
      assert s[lo..lo] == [];
    } else if size < |s| - lo {
      assert s[lo..][..size] == s[lo..lo + size];
    }
  }

  /** A page of a sorted sequence is sorted and holds only elements of the sequence. */
  lemma PageOfSorted<T>(s: seq<T>, offset: int, size: int, le: (T, T) -> bool)
    requires SortedBy(s, le)
    ensures SortedBy(Page(s, offset, size), le)
    ensures forall x :: x in Page(s, offset, size) ==> x in s
  {
    PageIsSlice(s, offset, size);
    var lo := Clamp(offset, |s|);
    var hi := if size <= 0 then lo else Clamp(lo + size, |s|);
    var page := s[lo..hi];
    forall i, j | 0 <= i < j < |page|
      ensures le(page[i], page[j])
    {
      assert page[i] == s[lo + i] && page[j] == s[lo + j];
    }
    forall x | x in page
      ensures x in s
    {
      var i :| 0 <= i < |page| && page[i] == x;
      assert s[lo + i] == x;
    }
  }

  /** Two adjacent pages of one size make up the page of twice that size: paging
      neither drops nor repeats an element. */
  lemma PagesAdjacent<T>(s: seq<T>, offset: nat, size: nat)
    ensures Page(s, offset, size) + Page(s, offset + size, size) == Page(s, offset, 2 * size)
  {
    if size == 0 {
      PageIsSlice(s, offset, 0);
    } else {
      PageAt(s, offset, size);
      PageAt(s, offset + size, size);
      PageAt(s, offset, 2 * size);
      assert offset + size + size == offset + 2 * size;
      SlicesJoin(s, Clamp(offset, |s|), Clamp(offset + size, |s|), Clamp(offset + 2 * size, |s|));
    }
  }

  lemma SlicesJoin<T>(s: seq<T>, a: nat, b: nat, c: nat)
    requires a <= b <= c <= |s|
    ensures s[a..b] + s[b..c] == s[a..c]
  {
  }

  /** A non-empty page at a non-negative offset runs between the two clamped ends. */
  lemma PageAt<T>(s: seq<T>, offset: nat, size: nat)
    requires size > 0
    ensures Clamp(offset, |s|) <= Clamp(offset + size, |s|)
    ensures Page(s, offset, size) == s[Clamp(offset, |s|)..Clamp(offset + size, |s|)]
  {
    PageIsSlice(s, offset, size);
  }

  // ---------------------------------------------------------------- 32-bit int arithmetic

  /** Two's-complement wrap of an integer into the int range (unchecked C# arithmetic). */
  function WrapInt32(x: int): (r: int)
    ensures Int32Min <= r <= Int32Max
    ensures (r - x) % 0x1_0000_0000 == 0
    ensures Int32Min <= x <= Int32Max ==> r == x
  {
    (x - Int32Min) % 0x1_0000_0000 + Int32Min
  }

  /** int * int in unchecked C#. */
  function MulInt32(a: int, b: int): int {
    WrapInt32(a * b)
  }
}
