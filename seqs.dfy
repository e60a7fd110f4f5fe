/** Sequence operations the queries and the React state updates are built from:
    ORDER BY ... DESC (Reverse), WHERE and Array.filter (Filter), Array.find
    (IndexWhere), LIMIT/OFFSET (Window) and COUNT(*) (CountWhere). */
module Seqs {
  import opened Wrappers

  /** `r` is `s` with some elements left out and the rest kept in order. */
  ghost predicate IsSubsequence<T>(r: seq<T>, s: seq<T>)
    decreases |s|
  {
    r == [] || (s != [] && if r[0] == s[0] then IsSubsequence(r[1..], s[1..]) else IsSubsequence(r, s[1..]))
  }

  /** Leaving nothing out keeps every element in order. */
  lemma {:induction false} SubsequenceOfSelf<T>(s: seq<T>)
    ensures IsSubsequence(s, s)
  {
    if s != [] {
      SubsequenceOfSelf(s[1..]);
    }
  }

  function Reverse<T>(s: seq<T>): (r: seq<T>)
    ensures |r| == |s|
    ensures forall k :: 0 <= k < |s| ==> r[k] == s[|s| - 1 - k]
    ensures multiset(r) == multiset(s)
  {
    if s == [] then []
    else
      assert s == [s[0]] + s[1..];
      Reverse(s[1..]) + [s[0]]
  }

  /** The order-preserving sublist of the elements that `keep` accepts. */
  function Filter<T(!new)>(s: seq<T>, keep: T -> bool): (r: seq<T>)
    ensures |r| <= |s|
    ensures forall x :: x in r <==> x in s && keep(x)
  {
    if s == [] then []
    else
      assert s == [s[0]] + s[1..];
      var rest := Filter(s[1..], keep);
      if keep(s[0]) then [s[0]] + rest else rest
  }

  /** Filtering keeps every accepted element as often as it occurs. */
  lemma {:induction false} FilterMultiset<T(!new)>(s: seq<T>, keep: T -> bool)
    ensures forall x :: multiset(Filter(s, keep))[x] == if keep(x) then multiset(s)[x] else 0
  {
    if s != [] {
      FilterMultiset(s[1..], keep);
      assert s == [s[0]] + s[1..];
    }
  }

  /** Filtering keeps the order: the result is a subsequence of the input. */
  lemma {:induction false} FilterIsSubsequence<T(!new)>(s: seq<T>, keep: T -> bool)
    ensures IsSubsequence(Filter(s, keep), s)
  {
    if s != [] {
      FilterIsSubsequence(s[1..], keep);
      var rest := Filter(s[1..], keep);
      if keep(s[0]) {
        assert ([s[0]] + rest)[1..] == rest;
      } else {
        SubsequenceSkip(rest, s);
      }
    }
  }

  lemma {:induction false} SubsequenceSkip<T>(r: seq<T>, s: seq<T>)
    requires s != [] && IsSubsequence(r, s[1..])
    ensures IsSubsequence(r, s)
    decreases |s|, 0
  {
    if r != [] && r[0] == s[0] {
      // r[0] also occurs in s[1..]: drop it from both and use the induction hypothesis
      SubsequenceTail(r, s[1..]);
    }
  }

  /** Removing the head of a subsequence keeps it a subsequence. */
  lemma {:induction false} SubsequenceTail<T>(r: seq<T>, s: seq<T>)
    requires r != [] && IsSubsequence(r, s)
    ensures IsSubsequence(r[1..], s)
    decreases |s|, 1
  {
    if r[0] == s[0] {
      if r[1..] != [] {
        SubsequenceSkip(r[1..], s);
      }
    } else {
      SubsequenceTail(r, s[1..]);
      if r[1..] != [] {
        SubsequenceSkip(r[1..], s);
      }
    }
  }

  /** A filter that keeps everything is the identity. */
  lemma {:induction false} FilterKeepsAll<T(!new)>(s: seq<T>, keep: T -> bool)
    requires forall x :: x in s ==> keep(x)
    ensures Filter(s, keep) == s
  {
    if s != [] {
      assert forall x :: x in s[1..] ==> x in s;
      FilterKeepsAll(s[1..], keep);
    }
  }

  /** A filter that rejects exactly one position removes just that position. */
  lemma {:induction false} FilterDropsOne<T(!new)>(s: seq<T>, i: nat, keep: T -> bool)
    requires i < |s| && !keep(s[i])
    requires forall j :: 0 <= j < |s| && j != i ==> keep(s[j])
    ensures Filter(s, keep) == s[..i] + s[i + 1..]
  {
    if i == 0 {
      assert Filter(s, keep) == Filter(s[1..], keep);
      assert forall x :: x in s[1..] ==> keep(x);
      FilterKeepsAll(s[1..], keep);
    } else {
      var t := s[1..];
      assert keep(s[0]);
      assert forall j :: 0 <= j < |t| && j != i - 1 ==> keep(t[j]) by {
        forall j | 0 <= j < |t| && j != i - 1 ensures keep(t[j]) {
          assert t[j] == s[j + 1];
        }
      }
      FilterDropsOne(t, i - 1, keep);
      assert s[..i] + s[i + 1..] == [s[0]] + (t[..i - 1] + t[i..]);
    }
  }

  /** The number of elements `keep` accepts: COUNT(*) with a WHERE clause. */
  function CountWhere<T(!new)>(s: seq<T>, keep: T -> bool): (n: nat)
    ensures n == |Filter(s, keep)|
  {
    if s == [] then 0 else (if keep(s[0]) then 1 else 0) + CountWhere(s[1..], keep)
  }

  /** Filtering the reversed sequence keeps as many elements. */
  lemma FilterReverseLength<T(!new)>(s: seq<T>, keep: T -> bool)
    ensures |Filter(Reverse(s), keep)| == |Filter(s, keep)|
  {
    var a, b := Filter(Reverse(s), keep), Filter(s, keep);
    FilterMultiset(Reverse(s), keep);
    FilterMultiset(s, keep);
    assert multiset(a) == multiset(b);
    assert |multiset(a)| == |multiset(b)|;
  }

  /** Index of the first element `p` accepts, as Array.prototype.find looks for it. */
  function IndexWhere<T>(s: seq<T>, p: T -> bool): (r: Option<nat>)
    ensures r.Some? ==> r.value < |s| && p(s[r.value]) && forall j :: 0 <= j < r.value ==> !p(s[j])
    ensures r.None? <==> forall j :: 0 <= j < |s| ==> !p(s[j])
  {
    if s == [] then None
    else if p(s[0]) then Some(0)
    else match IndexWhere(s[1..], p)
      case None => None
      case Some(i) => Some(i + 1)
  }
  /** The first index satisfying `p` is the one before which nothing does. */
  lemma IndexWhereAt<T>(s: seq<T>, p: T -> bool, k: nat)
    requires k < |s| && p(s[k])
    requires forall m :: 0 <= m < k ==> !p(s[m])
    ensures IndexWhere(s, p) == Some(k)
  {
  }


  /** SQLite's `LIMIT limit OFFSET offset`: a negative limit means no limit and a
      negative offset counts as zero. */
  function Window<T>(s: seq<T>, limit: int, offset: int): (r: seq<T>)
    ensures var start := if offset < 0 then 0 else if offset > |s| then |s| else offset;
            && (limit < 0 ==> |r| == |s| - start)
            && (limit >= 0 ==> |r| == if limit < |s| - start then limit else |s| - start)
            && forall k :: 0 <= k < |r| ==> r[k] == s[start + k]
  {
    var rest := if offset <= 0 then s else if offset >= |s| then [] else s[offset..];
    if limit < 0 || limit >= |rest| then rest else rest[..limit]
  }

  /** Page `page` (counted from 1) of `pageSize` elements: LIMIT pageSize OFFSET
      (page - 1) * pageSize. */
  function PageOf<T>(all: seq<T>, page: int, pageSize: int): (r: seq<T>)
    ensures var offset := (page - 1) * pageSize;
      offset >= 0 && pageSize >= 0 ==>
        && |r| == (if offset + pageSize <= |all| then pageSize else if offset < |all| then |all| - offset else 0)
        && forall k :: 0 <= k < |r| ==> r[k] == all[offset + k]
  {
    Window(all, pageSize, (page - 1) * pageSize)
  }

  /** The first `limit` elements (all of them when the limit is negative). */
  function Take<T>(s: seq<T>, limit: int): (r: seq<T>)
    ensures limit < 0 ==> r == s
    ensures 0 <= limit ==> |r| == if limit < |s| then limit else |s|
    ensures r <= s
  {
    Window(s, limit, 0)
  }

  /** Pages 1..count of `size` elements each, concatenated. */
  function Pages<T>(s: seq<T>, size: nat, count: nat): seq<T>
  {
    if count == 0 then [] else Pages(s, size, count - 1) + Window(s, size, (count - 1) * size)
  }

  /** The first `count` pages are the prefix of length count * size. */
  lemma {:induction false} PagesArePrefix<T>(s: seq<T>, size: nat, count: nat)
    ensures Pages(s, size, count) == s[..if count * size < |s| then count * size else |s|]
  {
    if count > 0 {
      PagesArePrefix(s, size, count - 1);
      var lo := (count - 1) * size;
      assert count * size == lo + size;
    }
  }

  /** The number of pages of `size` elements that `n` elements fill: n / size
      rounded up. */
  function PageCount(n: nat, size: nat): (c: nat)
    requires size >= 1
    ensures c * size >= n
    ensures c == 0 || (c - 1) * size < n
  {
    var c := (n + size - 1) / size;
    assert c * size + (n + size - 1) % size == n + size - 1;
    c
  }

  /** Pages 1..PageCount(|s|, size) reproduce the whole sequence. */
  lemma {:induction false} PagesCoverAll<T>(s: seq<T>, size: nat)
    requires size >= 1
    ensures Pages(s, size, PageCount(|s|, size)) == s
  {
    PagesArePrefix(s, size, PageCount(|s|, size));
  }
}
