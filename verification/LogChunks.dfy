/** Chunks of a log stream: a byte offset and the bytes that start there. */
module LogChunks {
  import opened Bytes

  datatype Chunk = Chunk(offset: nat, data: seq<Byte>)

  ghost function Concat(chunks: seq<Chunk>): seq<Byte> {
    if chunks == [] then [] else Concat(chunks[..|chunks| - 1]) + chunks[|chunks| - 1].data
  }

  // The chunks lie end to end, the first one at `start`.
  ghost predicate Tiles(chunks: seq<Chunk>, start: nat) {
    forall k {:trigger chunks[..k]} :: 0 <= k < |chunks| ==> chunks[k].offset == start + |Concat(chunks[..k])|
  }

  ghost predicate NonEmpty(chunks: seq<Chunk>) {
    forall k :: 0 <= k < |chunks| ==> chunks[k].data != []
  }

  lemma ConcatSnoc(chunks: seq<Chunk>, c: Chunk)
    ensures Concat(chunks + [c]) == Concat(chunks) + c.data
  {
    assert (chunks + [c])[..|chunks|] == chunks;
  }

  lemma ConcatTake(chunks: seq<Chunk>, k: nat)
    requires k < |chunks|
    ensures Concat(chunks[..k + 1]) == Concat(chunks[..k]) + chunks[k].data
  {
    assert chunks[..k + 1] == chunks[..k] + [chunks[k]];
    ConcatSnoc(chunks[..k], chunks[k]);
  }

  lemma ConcatAppendSnoc(a: seq<Chunk>, b: seq<Chunk>, c: Chunk)
    requires Concat(a + b) == Concat(a) + Concat(b)
    ensures Concat(a + (b + [c])) == Concat(a) + Concat(b + [c])
  {
    Associative(a, b, [c]);
    ConcatSnoc(a + b, c);
    ConcatSnoc(b, c);
    Associative(Concat(a), Concat(b), c.data);
  }

  lemma Associative<T>(x: seq<T>, y: seq<T>, z: seq<T>)
    ensures (x + y) + z == x + (y + z)
  {
  }

  lemma {:induction false} ConcatAppend(a: seq<Chunk>, b: seq<Chunk>)
    ensures Concat(a + b) == Concat(a) + Concat(b)
    decreases |b|
  {
    if b == [] {
      assert a + b == a;
    } else {
      var init, c := b[..|b| - 1], b[|b| - 1];
      assert b == init + [c];
      ConcatAppend(a, init);
      ConcatAppendSnoc(a, init, c);
    }
  }

  lemma TilesSnoc(chunks: seq<Chunk>, start: nat, c: Chunk)
    requires Tiles(chunks, start) && c.offset == start + |Concat(chunks)|
    ensures Tiles(chunks + [c], start)
  {
    var longer := chunks + [c];
    forall k | 0 <= k < |longer|
      ensures longer[k].offset == start + |Concat(longer[..k])|
    {
      assert longer[..k] == chunks[..k];
      assert k == |chunks| ==> chunks[..k] == chunks;
    }
  }

  // The bytes before one chunk of non-empty chunks are fewer than those before a later one.
  lemma {:induction false} OffsetsGrow(chunks: seq<Chunk>, i: nat, j: nat)
    requires NonEmpty(chunks) && i < j <= |chunks|
    ensures |Concat(chunks[..i])| < |Concat(chunks[..j])|
    decreases j
  {
    ConcatTake(chunks, j - 1);
    if i < j - 1 { OffsetsGrow(chunks, i, j - 1); }
  }
}
