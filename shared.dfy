/**
 * Chunking of a list into consecutive pieces of bounded size (`ChunkBy`,
 * which the actors use from a shared library; Shared.ChunkBy is not part of
 * this model, so this is the definition the model relies on).
 */
module Shared {

  /** The concatenation, in order, of a sequence of chunks. */
  function Flatten<T>(chunks: seq<seq<T>>): seq<T> {
    if chunks == [] then [] else chunks[0] + Flatten(chunks[1..])
  }

  lemma {:induction false} FlattenAppend<T>(a: seq<seq<T>>, b: seq<seq<T>>)
    ensures Flatten(a + b) == Flatten(a) + Flatten(b)
    decreases |a|
  {
    if a == [] {
      assert a + b == b;
    } else {
      assert (a + b)[1..] == a[1..] + b;
      FlattenAppend(a[1..], b);
    }
  }

  /**
   * `s` cut into consecutive chunks of `size` elements, the last one possibly
   * shorter: no chunk is empty or longer than `size`, every chunk but the last
   * is full, and the chunks put back together in order give `s`.
   */
  function ChunkBy<T>(s: seq<T>, size: nat): (chunks: seq<seq<T>>)
    requires size > 0
    ensures Flatten(chunks) == s
    ensures forall i :: 0 <= i < |chunks| ==> 0 < |chunks[i]| <= size
    ensures forall i :: 0 <= i < |chunks| - 1 ==> |chunks[i]| == size
    decreases |s|
  {
    if s == [] then []
    else if |s| <= size then
      assert Flatten([s]) == s + Flatten<T>([]);
      [s]
    else
      var rest := ChunkBy(s[size..], size);
      assert ([s[..size]] + rest)[1..] == rest;
      assert s == s[..size] + s[size..];
      [s[..size]] + rest
  }

  /** An empty list has no chunks; a non-empty one has at least one. */
  lemma ChunkByEmpty<T>(s: seq<T>, size: nat)
    requires size > 0
    ensures ChunkBy(s, size) == [] <==> s == []
  {
  }
}
