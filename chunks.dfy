/**
 * Sequences laid end to end: the shape of every frame body made of
 * fixed-size fields or records. Kept free of any byte content so that the
 * proofs about frames only instantiate these facts.
 */
module Chunks {

  function Concat<T>(chunks: seq<seq<T>>): seq<T>
  {
    if chunks == [] then [] else Concat(chunks[..|chunks| - 1]) + chunks[|chunks| - 1]
  }

  lemma {:induction false} ConcatLength<T>(chunks: seq<seq<T>>, k: nat)
    requires forall j :: 0 <= j < |chunks| ==> |chunks[j]| == k
    ensures |Concat(chunks)| == k * |chunks|
  {
    if chunks != [] {
      var n := |chunks|;
      ConcatLength(chunks[..n - 1], k);
      assert |Concat(chunks)| == |Concat(chunks[..n - 1])| + |chunks[n - 1]|;
      assert k * n == k * (n - 1) + k;
    }
  }

  /** Chunk i of equal-sized chunks of size k sits at offset k * i. */
  lemma {:induction false} ConcatChunk<T>(chunks: seq<seq<T>>, k: nat, i: nat)
    requires forall j :: 0 <= j < |chunks| ==> |chunks[j]| == k
    requires i < |chunks|
    ensures k * i + k <= |Concat(chunks)|
    ensures Concat(chunks)[k * i..k * i + k] == chunks[i]
  {
    var n := |chunks|;
    var init := chunks[..n - 1];
    ConcatLength(chunks, k);
    ConcatLength(init, k);
    assert Concat(chunks) == Concat(init) + chunks[n - 1];
    if i < n - 1 {
      ConcatChunk(init, k, i);
      assert k * i + k <= k * (n - 1) by {
        assert i + 1 <= n - 1;
        MultiplyMonotone(k, i + 1, n - 1);
      }
      assert Concat(chunks)[k * i..k * i + k] == Concat(init)[k * i..k * i + k];
    } else {
      assert k * i == |Concat(init)|;
    }
  }

  lemma MultiplyMonotone(k: nat, a: nat, b: nat)
    requires a <= b
    ensures k * a <= k * b
  {
  }

  /** A slice holding a concatenation holds each part in turn. */
  lemma SliceSplit<T>(buf: seq<T>, at: nat, a: seq<T>, b: seq<T>)
    requires at + |a| + |b| <= |buf| && buf[at..at + |a| + |b|] == a + b
    ensures buf[at..at + |a|] == a
    ensures buf[at + |a|..at + |a| + |b|] == b
  {
    var w := buf[at..at + |a| + |b|];
    forall i | 0 <= i < |a|
      ensures buf[at + i] == a[i]
    {
      assert w[i] == buf[at + i];
    }
    forall i | 0 <= i < |b|
      ensures buf[at + |a| + i] == b[i]
    {
      assert w[|a| + i] == buf[at + |a| + i];
    }
  }

  /** A slice of a slice is a slice of the whole. */
  lemma SliceOfSlice<T>(buf: seq<T>, at: nat, w: seq<T>, x: nat, y: nat)
    requires at + |w| <= |buf| && buf[at..at + |w|] == w && x <= y <= |w|
    ensures buf[at + x..at + y] == w[x..y]
  {
    forall j | 0 <= j < y - x
      ensures buf[at + x..at + y][j] == w[x..y][j]
    {
      assert buf[at..at + |w|][x + j] == buf[at + x + j];
    }
  }
}
