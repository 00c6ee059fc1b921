/** Value types shared by the three versions of the lost-and-found item store. */
module Common {

  datatype Option<+T> = None | Some(value: T)

  /** An embedding vector, as the sentence model produces it and the vector index stores it. */
  type Vector = seq<real>

  /** The metadata record the engines keep in memory for every found item:
      the `{id, description, category}` dictionary of the source. */
  datatype Record = Record(id: string, description: string, category: string)

  /** A label returned by a FAISS k-NN search: a position in the index, or -1 for
      "no neighbour" (FAISS pads its answer with -1 when it has fewer than k entries). */
  type Label = p: int | p >= -1

  /** One row of a FAISS answer: the label and its (squared L2) distance. */
  datatype Hit = Hit(pos: Label, distance: real)

  /** The sentence model: text to embedding. Foreign code, taken as an oracle. */
  type Embedder = string -> Vector

  /** FAISS `index.search(q, k)` over the stored vectors. Foreign code, taken as an oracle. */
  type KnnSearch = (seq<Vector>, Vector, int) -> seq<Hit>

  /** What FAISS promises of an answer for `k` neighbours in an index of `n` vectors:
      at most `k` rows, every label -1 or a position of the index, distances non-negative. */
  ghost predicate KnnAnswer(hits: seq<Hit>, n: int, k: int)
  {
    |hits| <= k && forall h :: h in hits ==> h.pos < n && h.distance >= 0.0
  }

  function Min(a: int, b: int): int { if a <= b then a else b }

  function Max(a: int, b: int): int { if a <= b then b else a }

  /** Python's `max(lo, min(hi, x))`. */
  function Clamp(x: real, lo: real, hi: real): (r: real)
    requires lo <= hi
    ensures lo <= r <= hi
    ensures lo <= x <= hi ==> r == x
  {
    if x < lo then lo else if x > hi then hi else x
  }
}
