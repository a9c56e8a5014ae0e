/** `chunked_list`: cut a list into consecutive batches of at most `chunkSize`
    elements (100 track ids per audio-feature request, 50 artist ids per artist
    request). */
module Batching {
  import opened Seqs

  function Min(a: int, b: int): int { if a < b then a else b }

  /** Reference definition: the first batch holds the first `n` items (or all of
      them when fewer are left), the rest is batched the same way. */
  function Chunks<T>(xs: seq<T>, n: nat): seq<seq<T>>
    requires n > 0
    decreases |xs|
  {
    if xs == [] then [] else [xs[..Min(n, |xs|)]] + Chunks(xs[Min(n, |xs|)..], n)
  }

  /** The source's index loop: `items[i : i + chunk_size]` for i = 0, n, 2n, ... */
  method ChunkedList<T>(items: seq<T>, chunkSize: nat) returns (chunks: seq<seq<T>>)
    requires chunkSize > 0
    ensures chunks == Chunks(items, chunkSize)
    ensures Flatten(chunks) == items
    ensures forall b | 0 <= b < |chunks| :: 0 < |chunks[b]| <= chunkSize
    ensures forall b | 0 <= b < |chunks| - 1 :: |chunks[b]| == chunkSize
    ensures chunks == [] <==> items == []
  {
    chunks := [];
    var i := 0;
    while i < |items|
      invariant 0 <= i
      invariant chunks + Chunks(items[Min(i, |items|)..], chunkSize) == Chunks(items, chunkSize)
      decreases |items| - i
    {
      ChunksLoopStep(items, i, chunkSize, chunks);
      chunks := chunks + [items[i..Min(i + chunkSize, |items|)]];
      i := i + chunkSize;
    }
    assert items[Min(i, |items|)..] == [];
    ChunksSpec(items, chunkSize);
  }

  /** The batches concatenate to the input; every batch is non-empty and at
      most `n` long, every batch but the last exactly `n` long; no input, no
      batch. */
  lemma ChunksSpec<T>(xs: seq<T>, n: nat)
    requires n > 0
    ensures Flatten(Chunks(xs, n)) == xs
    ensures forall b | 0 <= b < |Chunks(xs, n)| :: 0 < |Chunks(xs, n)[b]| <= n
    ensures forall b | 0 <= b < |Chunks(xs, n)| - 1 :: |Chunks(xs, n)[b]| == n
    ensures Chunks(xs, n) == [] <==> xs == []
  {
    ChunksFlatten(xs, n);
    ChunksSizes(xs, n);
  }

  /** Appending the batch at `i` to the batches before it leaves the batches
      after it to be cut. */
  lemma ChunksLoopStep<T>(items: seq<T>, i: nat, n: nat, done: seq<seq<T>>)
    requires n > 0 && i < |items|
    requires done + Chunks(items[Min(i, |items|)..], n) == Chunks(items, n)
    ensures (done + [items[i..Min(i + n, |items|)]]) + Chunks(items[Min(i + n, |items|)..], n) == Chunks(items, n)
  {
    ChunksStep(items, i, n);
    assert Min(i, |items|) == i;
  }

  /** The batches from index `i` on: the batch at `i`, then those after it. */
  lemma ChunksStep<T>(items: seq<T>, i: nat, n: nat)
    requires n > 0 && i < |items|
    ensures Chunks(items[i..], n) ==
      [items[i..Min(i + n, |items|)]] + Chunks(items[Min(i + n, |items|)..], n)
  {
    var rest := items[i..];
    assert rest[..Min(n, |rest|)] == items[i..Min(i + n, |items|)];
    assert rest[Min(n, |rest|)..] == items[Min(i + n, |items|)..];
  }

  lemma {:induction false} ChunksFlatten<T>(xs: seq<T>, n: nat)
    requires n > 0
    ensures Flatten(Chunks(xs, n)) == xs
    decreases |xs|
  {
    if xs != [] {
      var k := Min(n, |xs|);
      ChunksFlatten(xs[k..], n);
      FlattenConcat([xs[..k]], Chunks(xs[k..], n));
      assert Flatten([xs[..k]]) == xs[..k] by {
        assert [xs[..k]][..0] == [];
      }
      assert xs == xs[..k] + xs[k..];
    }
  }

  /** Every batch is non-empty and at most `n` long; every batch but the last is
      exactly `n` long; no input, no batch. */
  lemma {:induction false} ChunksSizes<T>(xs: seq<T>, n: nat)
    requires n > 0
    ensures forall b | 0 <= b < |Chunks(xs, n)| :: 0 < |Chunks(xs, n)[b]| <= n
    ensures forall b | 0 <= b < |Chunks(xs, n)| - 1 :: |Chunks(xs, n)[b]| == n
    ensures Chunks(xs, n) == [] <==> xs == []
    decreases |xs|
  {
    if xs != [] {
      var k := Min(n, |xs|);
      ChunksSizes(xs[k..], n);
      var cs := Chunks(xs, n);
      var tail := Chunks(xs[k..], n);
      assert cs == [xs[..k]] + tail;
      forall b | 0 <= b < |cs| - 1 ensures |cs[b]| == n {
        if b == 0 {
          assert tail != [];
        } else {
          assert cs[b] == tail[b - 1];
        }
      }
    }
  }

  /** Two inputs of the same length are batched into the same number of batches
      with the same batch lengths. */
  lemma {:induction false} ChunksSameShape<T, U>(xs: seq<T>, ys: seq<U>, n: nat)
    requires n > 0 && |xs| == |ys|
    ensures |Chunks(xs, n)| == |Chunks(ys, n)|
    ensures forall b | 0 <= b < |Chunks(xs, n)| :: |Chunks(xs, n)[b]| == |Chunks(ys, n)[b]|
    decreases |xs|
  {
    if xs != [] {
      var k := Min(n, |xs|);
      ChunksSameShape(xs[k..], ys[k..], n);
      var cx, cy := Chunks(xs, n), Chunks(ys, n);
      assert cx == [xs[..k]] + Chunks(xs[k..], n);
      assert cy == [ys[..k]] + Chunks(ys[k..], n);
      forall b | 0 <= b < |cx| ensures |cx[b]| == |cy[b]| {
        if b > 0 {
          assert cx[b] == Chunks(xs[k..], n)[b - 1];
          assert cy[b] == Chunks(ys[k..], n)[b - 1];
        }
      }
    }
  }

  /** Every element of a batch is an element of the input. */
  lemma {:induction false} ChunksElements<T>(xs: seq<T>, n: nat, b: nat, x: T)
    requires n > 0 && b < |Chunks(xs, n)| && x in Chunks(xs, n)[b]
    ensures x in xs
    decreases |xs|
  {
    var k := Min(n, |xs|);
    if b > 0 {
      assert Chunks(xs, n)[b] == Chunks(xs[k..], n)[b - 1];
      ChunksElements(xs[k..], n, b - 1, x);
    }
  }
}
