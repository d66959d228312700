/** Cutting the flattened records into batches, as rayon's
    `chunks(batch_size)` does for `filter` (src/lib.rs:50). */
module Batching {

  /** The batches laid end to end. */
  function Concat<X>(batches: seq<seq<X>>): seq<X>
  {
    if batches == [] then [] else batches[0] + Concat(batches[1..])
  }

  /** Consecutive batches of `size` records; only the last may be shorter,
      and an empty input gives no batch at all. rayon refuses a size of
      zero, so callers must pass a positive one. */
  function Chunks<X>(s: seq<X>, size: nat): (r: seq<seq<X>>)
    requires size > 0
    ensures forall i :: 0 <= i < |r| ==> 0 < |r[i]| <= size
    ensures forall i :: 0 <= i < |r| - 1 ==> |r[i]| == size
    ensures Concat(r) == s
    ensures |r| == (|s| + size - 1) / size
    decreases |s|
  {
    if |s| == 0 then
      DivUnique(size - 1, size, 0, size - 1);
      []
    else if |s| <= size then
      DivUnique(|s| + size - 1, size, 1, |s| - 1);
      [s]
    else
      var rest := Chunks(s[size..], size);
      ChunksCons(s, size, rest);
      [s[..size]] + rest
  }

  /** One full batch in front of the batches of the remainder gives the
      batches of the whole input. */
  lemma ChunksCons<X>(s: seq<X>, size: nat, rest: seq<seq<X>>)
    requires 0 < size < |s|
    requires forall i :: 0 <= i < |rest| ==> 0 < |rest[i]| <= size
    requires forall i :: 0 <= i < |rest| - 1 ==> |rest[i]| == size
    requires Concat(rest) == s[size..]
    requires |rest| == (|s| - size + size - 1) / size
    ensures var r := [s[..size]] + rest;
      (forall i :: 0 <= i < |r| ==> 0 < |r[i]| <= size) &&
      (forall i :: 0 <= i < |r| - 1 ==> |r[i]| == size) &&
      Concat(r) == s && |r| == (|s| + size - 1) / size
  {
    var r := [s[..size]] + rest;
    assert s == s[..size] + s[size..];
    assert r[0] == s[..size] && r[1..] == rest;
    assert forall i :: 1 <= i < |r| ==> r[i] == rest[i - 1];
    CountStep(|s|, size);
  }

  /** One more full batch raises the batch count by one. */
  lemma CountStep(n: int, size: int)
    requires 0 < size < n
    ensures (n + size - 1) / size == (n - size + size - 1) / size + 1
  {
    var q := (n - 1) / size;
    DivUnique(n - 1, size, q, (n - 1) % size);
    DivUnique(n + size - 1, size, q + 1, (n - 1) % size);
  }

  /** Euclidean division has one quotient and one remainder. */
  lemma DivUnique(a: int, n: int, q: int, r: int)
    requires n > 0 && 0 <= r < n && a == q * n + r
    ensures a / n == q
  {
    var d := q - a / n;
    assert d * n == a % n - r;
  }

  /** A batch size covering the whole input gives a single batch holding
      all of it, or none for an empty input. */
  lemma {:induction false} ChunksWhole<X>(s: seq<X>, size: nat)
    requires size > 0 && |s| <= size
    ensures Chunks(s, size) == if s == [] then [] else [s]
  {
  }
}
