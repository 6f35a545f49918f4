/**
 The load-time insertion sort (src/core/metadata.c:92-105) and what it means: a stable sort by
 logical offset, hence the identity on maps that are already sorted.
 */
module SortChunks {
  import opened Basics
  import opened ChunkMap

  ghost predicate SortedByOffset(s: seq<Chunk>) {
    forall i, j :: 0 <= i < j < |s| ==> s[i].logicalOffset <= s[j].logicalOffset
  }

  /** `key` placed after every element that does not exceed it, counted from the right. */
  function Inserted(s: seq<Chunk>, key: Chunk): (r: seq<Chunk>)
    ensures |r| == |s| + 1
  {
    if s == [] || s[|s| - 1].logicalOffset <= key.logicalOffset then s + [key]
    else Inserted(s[..|s| - 1], key) + [s[|s| - 1]]
  }

  function Sorted(s: seq<Chunk>): (r: seq<Chunk>)
    ensures |r| == |s|
  {
    if s == [] then []
    else Inserted(Sorted(s[..|s| - 1]), s[|s| - 1])
  }

  lemma {:induction false} InsertedIsSorted(s: seq<Chunk>, key: Chunk)
    requires SortedByOffset(s)
    ensures SortedByOffset(Inserted(s, key))
    ensures forall c :: c in Inserted(s, key) ==> c == key || c in s
  {
    if s == [] || s[|s| - 1].logicalOffset <= key.logicalOffset {
    } else {
      var rest, last := s[..|s| - 1], s[|s| - 1];
      InsertedIsSorted(rest, key);
      forall c | c in Inserted(rest, key)
        ensures c.logicalOffset <= last.logicalOffset
      {
        if c in rest {
          var i :| 0 <= i < |rest| && rest[i] == c;
          assert s[i] == c;
        }
      }
    }
  }

  lemma {:induction false} InsertedIsPermutation(s: seq<Chunk>, key: Chunk)
    ensures multiset(Inserted(s, key)) == multiset(s) + multiset{key}
  {
    if s == [] || s[|s| - 1].logicalOffset <= key.logicalOffset {
    } else {
      InsertedIsPermutation(s[..|s| - 1], key);
      assert s == s[..|s| - 1] + [s[|s| - 1]];
    }
  }

  lemma {:induction false} SortedIsPermutation(s: seq<Chunk>)
    ensures multiset(Sorted(s)) == multiset(s)
  {
    if s != [] {
      SortedIsPermutation(s[..|s| - 1]);
      InsertedIsPermutation(Sorted(s[..|s| - 1]), s[|s| - 1]);
      assert s == s[..|s| - 1] + [s[|s| - 1]];
    }
  }

  lemma {:induction false} SortedIsSorted(s: seq<Chunk>)
    ensures SortedByOffset(Sorted(s))
  {
    if s != [] {
      SortedIsSorted(s[..|s| - 1]);
      InsertedIsSorted(Sorted(s[..|s| - 1]), s[|s| - 1]);
    }
  }

  lemma PrefixIsSorted(s: seq<Chunk>, n: nat)
    requires SortedByOffset(s) && n <= |s|
    ensures SortedByOffset(s[..n])
  {
  }

  /** Sorting leaves a sorted map alone. */
  lemma {:induction false} SortIsIdentity(s: seq<Chunk>)
    requires SortedByOffset(s)
    ensures Sorted(s) == s
  {
    if s != [] {
      var rest := s[..|s| - 1];
      PrefixIsSorted(s, |s| - 1);
      if |s| > 1 { assert s[|s| - 2].logicalOffset <= s[|s| - 1].logicalOffset; }
      hide SortedByOffset;
      SortIsIdentity(rest);
      assert rest + [s[|s| - 1]] == s;
    }
  }

  lemma OrderedIsSorted(s: seq<Chunk>)
    requires Ordered(s)
    ensures SortedByOffset(s)
  {
  }

  lemma SortedExtend(s: seq<Chunk>, i: nat)
    requires i < |s|
    ensures Sorted(s[..i + 1]) == Inserted(Sorted(s[..i]), s[i])
  {
    assert s[..i + 1][..i] == s[..i];
  }

  /** The elements from `j` on stay behind the key. */
  ghost predicate SlidTo(s: seq<Chunk>, key: Chunk, j: int) {
    0 <= j <= |s| && Inserted(s, key) == Inserted(s[..j], key) + s[j..]
  }

  lemma SlideStart(s: seq<Chunk>, key: Chunk)
    ensures SlidTo(s, key, |s|)
  {
    assert s[..|s|] == s;
  }

  lemma SlideStep(s: seq<Chunk>, key: Chunk, j: nat)
    requires 0 < j && SlidTo(s, key, j) && s[j - 1].logicalOffset > key.logicalOffset
    ensures SlidTo(s, key, j - 1)
  {
    assert s[..j][..j - 1] == s[..j - 1] && s[j - 1..] == [s[j - 1]] + s[j..];
  }

  lemma SlideEnd(s: seq<Chunk>, key: Chunk, j: nat, b: seq<Chunk>)
    requires SlidTo(s, key, j) && (j > 0 ==> s[j - 1].logicalOffset <= key.logicalOffset)
    requires |b| == |s| + 1 && b[j] == key
    requires forall k :: 0 <= k < j ==> b[k] == s[k]
    requires forall k :: j < k < |b| ==> b[k] == s[k - 1]
    ensures b == Inserted(s, key)
  {
    assert Inserted(s[..j], key) == s[..j] + [key];
    assert b == s[..j] + [key] + s[j..];
  }

  /** One step of the outer loop: the key slides left over the larger elements. */
  method InsertInPlace(a: array<Chunk>, i: nat)
    requires i < a.Length
    modifies a
    ensures a[..i + 1] == Inserted(old(a[..i]), old(a[i]))
    ensures forall k :: i < k < a.Length ==> a[k] == old(a[k])
  {
    hide Inserted, SlidTo;
    ghost var s := a[..i];
    var key := a[i];
    var j := i;
    SlideStart(s, key);
    while j > 0 && a[j - 1].logicalOffset > key.logicalOffset
      invariant 0 <= j <= i
      invariant forall k :: 0 <= k < j ==> a[k] == s[k]
      invariant forall k :: j < k <= i ==> a[k] == s[k - 1]
      invariant forall k :: i < k < a.Length ==> a[k] == old(a[k])
      invariant SlidTo(s, key, j)
    {
      SlideStep(s, key, j);
      a[j] := a[j - 1];
      j := j - 1;
    }
    a[j] := key;
    SlideEnd(s, key, j, a[..i + 1]);
  }

  /** `sort_chunks_by_logical_offset`. */
  method SortInPlace(a: array<Chunk>)
    modifies a
    ensures a[..] == Sorted(old(a[..]))
  {
    var i := 0;
    ghost var s := a[..];
    assert a[..0] == Sorted(s[..0]);
    hide Inserted, Sorted;
    while i < a.Length
      invariant 0 <= i <= a.Length
      invariant a[..i] == Sorted(s[..i])
      invariant forall k :: i <= k < a.Length ==> a[k] == s[k]
    {
      SortedExtend(s, i);
      InsertInPlace(a, i);
      i := i + 1;
    }
    assert a[..a.Length] == a[..] && s[..|s|] == s;
  }
}
