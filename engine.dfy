/** The first `SemanticEngine` (app/engine.py): an embedding index and the list of added
    items side by side, searched through a fixed pool of ten nearest neighbours. */
module Engine {
  import opened Common
  import opened Text

  /** One entry of the result list. */
  datatype LegacyResult = LegacyResult(id: string, description: string, category: string, confidence: real)

  /** `max(0, 100 - distance * 20)`. */
  function Confidence(distance: real): (c: real)
    ensures c >= 0.0
    ensures distance >= 0.0 ==> c <= 100.0
    ensures c > 0.0 ==> c == 100.0 - distance * 20.0
  {
    if 100.0 - distance * 20.0 > 0.0 then 100.0 - distance * 20.0 else 0.0
  }

  /** The number of nearest neighbours `search` asks for. */
  const PoolSize: int := 10

  /** The category filter rejects the item: a non-empty filter whose lower-case form differs
      from the item's. */
  predicate Rejected(item: Record, filter: Option<string>)
  {
    filter.Some? && filter.value != "" && LowerStr(item.category) != LowerStr(filter.value)
  }

  /** The hit yields a result: it names a stored item that the filter accepts. */
  predicate Yields(h: Hit, items: seq<Record>, filter: Option<string>)
  {
    h.pos != -1 && h.pos < |items| && !Rejected(items[h.pos], filter)
  }

  function ResultOf(item: Record, distance: real): LegacyResult
  {
    LegacyResult(item.id, item.description, item.category, Confidence(distance))
  }

  /** Every result the hits yield, in hit order, before the `limit` check. */
  function Matches(hits: seq<Hit>, items: seq<Record>, filter: Option<string>): (r: seq<LegacyResult>)
    ensures |r| <= |hits|
  {
    if hits == [] then []
    else
      var h := hits[|hits| - 1];
      Matches(hits[..|hits| - 1], items, filter)
      + (if Yields(h, items, filter) then [ResultOf(items[h.pos], h.distance)] else [])
  }

  /** The positions in `hits` of the hits that yield results, in order. */
  function Yielding(hits: seq<Hit>, items: seq<Record>, filter: Option<string>): seq<int>
  {
    if hits == [] then []
    else
      Yielding(hits[..|hits| - 1], items, filter)
      + (if Yields(hits[|hits| - 1], items, filter) then [|hits| - 1] else [])
  }

  /** One more hit adds its result, if it yields one, at the end. */
  lemma MatchesStep(hits: seq<Hit>, i: int, items: seq<Record>, filter: Option<string>)
    requires 0 <= i < |hits|
    ensures var h := hits[i];
      Matches(hits[..i + 1], items, filter)
      == Matches(hits[..i], items, filter) + (if Yields(h, items, filter) then [ResultOf(items[h.pos], h.distance)] else [])
  {
    assert hits[..i + 1][..i] == hits[..i];
  }

  /** The results keep the k-NN order: result `i` comes from hit `Yielding(...)[i]`, these
      positions strictly increase, and each names a stored item that passes the filter. */
  lemma {:induction false} MatchesInHitOrder(hits: seq<Hit>, items: seq<Record>, filter: Option<string>)
    ensures var m, p := Matches(hits, items, filter), Yielding(hits, items, filter);
      && |p| == |m|
      && (forall i, j :: 0 <= i < j < |p| ==> p[i] < p[j])
      && (forall i :: 0 <= i < |p| ==>
            && 0 <= p[i] < |hits| && Yields(hits[p[i]], items, filter)
            && m[i] == ResultOf(items[hits[p[i]].pos], hits[p[i]].distance))
  {
    if hits != [] {
      var n := |hits| - 1;
      var pre := hits[..n];
      MatchesInHitOrder(pre, items, filter);
      var m, p := Matches(hits, items, filter), Yielding(hits, items, filter);
      var mp, pp := Matches(pre, items, filter), Yielding(pre, items, filter);
      assert forall i :: 0 <= i < |pp| ==> pre[pp[i]] == hits[pp[i]];
      if Yields(hits[n], items, filter) {
        assert m == mp + [ResultOf(items[hits[n].pos], hits[n].distance)] && p == pp + [n];
      } else {
        assert m == mp && p == pp;
      }
    }
  }

  /** The results of a prefix of the hits are a prefix of the results of all of them. */
  lemma {:induction false} MatchesPrefix(hits: seq<Hit>, j: nat, items: seq<Record>, filter: Option<string>)
    requires j <= |hits|
    ensures var m, mj := Matches(hits, items, filter), Matches(hits[..j], items, filter);
      |mj| <= |m| && mj == m[..|mj|]
    decreases |hits| - j
  {
    if j < |hits| {
      MatchesPrefix(hits, j + 1, items, filter);
      assert hits[..j + 1][..j] == hits[..j];
    } else {
      assert hits[..j] == hits;
    }
  }

  /** What `search` returns for the hits: the first results, stopping once the list holds
      `limit` of them; the check runs after an append, so a `limit` below 1 still lets the first
      result through. */
  function Answer(hits: seq<Hit>, items: seq<Record>, filter: Option<string>, limit: int): (r: seq<LegacyResult>)
    ensures r <= Matches(hits, items, filter)
    ensures |r| < Max(limit, 1) ==> r == Matches(hits, items, filter)
  {
    var m := Matches(hits, items, filter);
    m[..Min(|m|, Max(limit, 1))]
  }

  /** Once the results of the first `i` hits reach `limit`, having been below it (or empty)
      before the last append, they are the answer. */
  lemma AnswerAtStop(hits: seq<Hit>, i: int, items: seq<Record>, filter: Option<string>, limit: int)
    requires 0 <= i <= |hits|
    requires var r := Matches(hits[..i], items, filter);
      r != [] && limit <= |r| <= Max(limit, 1)
    ensures Answer(hits, items, filter, limit) == Matches(hits[..i], items, filter)
  {
    MatchesPrefix(hits, i, items, filter);
  }

  /** When all the hits give fewer than `limit` results, the answer is all of them. */
  lemma AnswerAtEnd(hits: seq<Hit>, items: seq<Record>, filter: Option<string>, limit: int)
    requires var r := Matches(hits, items, filter); r == [] || |r| < limit
    ensures Answer(hits, items, filter, limit) == Matches(hits, items, filter)
  {
  }

  /** The bounds on the answer's length: at most `limit` for a positive `limit`, at most one
      otherwise, never more than the hits; every result comes from a stored item the filter
      accepts (and `Confidence` keeps its confidence in [0, 100] for a distance that is not
      negative). */
  lemma AnswerBounds(hits: seq<Hit>, items: seq<Record>, filter: Option<string>, limit: int)
    ensures limit >= 1 ==> |Answer(hits, items, filter, limit)| <= limit
    ensures limit <= 0 ==> |Answer(hits, items, filter, limit)| <= 1
    ensures |Answer(hits, items, filter, limit)| <= |hits|
    ensures forall x :: x in Answer(hits, items, filter, limit) ==>
      exists h :: h in hits && Yields(h, items, filter) && x == ResultOf(items[h.pos], h.distance)
  {
    var m := Matches(hits, items, filter);
    var p := Yielding(hits, items, filter);
    MatchesInHitOrder(hits, items, filter);
    var r := Answer(hits, items, filter, limit);
    forall x | x in r
      ensures exists h :: h in hits && Yields(h, items, filter) && x == ResultOf(items[h.pos], h.distance)
    {
      var i :| 0 <= i < |r| && r[i] == x;
      var h := hits[p[i]];
      assert r[i] == m[i];
      assert h in hits && Yields(h, items, filter) && x == ResultOf(items[h.pos], h.distance);
    }
  }

  /** With the filter, every result has the filter's category up to case. */
  lemma {:induction false} MatchesFiltered(hits: seq<Hit>, items: seq<Record>, filter: Option<string>)
    requires filter.Some? && filter.value != ""
    ensures forall r :: r in Matches(hits, items, filter) ==> LowerStr(r.category) == LowerStr(filter.value)
  {
    if hits != [] {
      MatchesFiltered(hits[..|hits| - 1], items, filter);
    }
  }

  /** On an empty index the k-NN search returns only `-1` positions, so there is no result. */
  lemma {:induction false} EmptyIndexNoMatches(hits: seq<Hit>, items: seq<Record>, filter: Option<string>)
    requires KnnAnswer(hits, 0, PoolSize)
    ensures Matches(hits, items, filter) == []
  {
    if hits != [] {
      assert forall h :: h in hits[..|hits| - 1] ==> h in hits;
      EmptyIndexNoMatches(hits[..|hits| - 1], items, filter);
      assert hits[|hits| - 1] in hits;
    }
  }

  class SemanticEngine {
    const embed: Embedder
    const knn: KnnSearch
    var index: seq<Vector>
    var items: seq<Record>

    predicate Aligned()
      reads this
    {
      |index| == |items|
    }

    /** `__init__`: an empty index and no items. */
    constructor (embed: Embedder, knn: KnnSearch)
      ensures this.embed == embed && this.knn == knn
      ensures index == [] && items == []
      ensures Aligned()
    {
      this.embed := embed;
      this.knn := knn;
      index := [];
      items := [];
    }

    /** `add_item`: one vector and the item itself are appended; always `True`. */
    method AddItem(item: Record) returns (added: bool)
      modifies this
      ensures added
      ensures index == old(index) + [embed(item.description)]
      ensures items == old(items) + [item]
      ensures old(Aligned()) ==> Aligned()
    {
      index := index + [embed(item.description)];
      items := items + [item];
      added := true;
    }

    /** `search`: the ten nearest neighbours in order, `-1` and out-of-range positions and
        filtered items skipped, stopping as soon as the list reaches `limit` results. */
    method Search(queryText: string, filter: Option<string>, limit: int) returns (results: seq<LegacyResult>)
      ensures results == Answer(knn(index, embed(queryText), PoolSize), items, filter, limit)
    {
      var hits := knn(index, embed(queryText), PoolSize);
      results := [];
      var i := 0;
      while i < |hits|
        invariant 0 <= i <= |hits|
        invariant results == Matches(hits[..i], items, filter)
        invariant results == [] || |results| < limit
      {
        MatchesStep(hits, i, items, filter);
        var h := hits[i];
        i := i + 1;
        if h.pos == -1 || h.pos >= |items| {
          continue;
        }
        var item := items[h.pos];
        if Rejected(item, filter) {
          continue;
        }
        results := results + [ResultOf(item, h.distance)];
        if |results| >= limit {
          AnswerAtStop(hits, i, items, filter, limit);
          return;
        }
      }
      assert hits[..i] == hits;
      AnswerAtEnd(hits, items, filter, limit);
    }
  }

  /** Searching an index that holds no vector gives no result, whatever the items. */
  lemma EmptyIndexAnswer(hits: seq<Hit>, items: seq<Record>, filter: Option<string>, limit: int)
    requires KnnAnswer(hits, 0, PoolSize)
    ensures Answer(hits, items, filter, limit) == []
  {
    EmptyIndexNoMatches(hits, items, filter);
  }
}
