/** The TF-IDF `LightweightSemanticEngine` (app/core/semantic_light.py): metadata records, a
    vectorizer fitted on their descriptions, and a hybrid of banded cosine similarity, keyword
    overlap and a category bonus. */
module SemanticLight {
  import opened Common
  import opened Text
  import opened Ranking
  import opened Store

  // ---------------------------------------------------------------------------------------
  // Text normalisation and keyword overlap

  /** `re.sub(r'[^a-z0-9\s]', ' ', t)`: every character outside `[a-z0-9\s]` becomes a space. */
  function ReplaceOthers(t: string): (r: string)
    ensures |r| == |t|
    ensures forall i :: 0 <= i < |r| ==> IsLowerAlnum(r[i]) || IsSpace(r[i])
    ensures forall i :: 0 <= i < |r| ==> (IsLowerAlnum(t[i]) || IsSpace(t[i]) ==> r[i] == t[i])
  {
    seq(|t|, i requires 0 <= i < |t| => if IsLowerAlnum(t[i]) || IsSpace(t[i]) then t[i] else ' ')
  }

  /** `_preprocess_text`: lower-case, punctuation to spaces, collapse whitespace, strip. */
  function Preprocess(text: string): string
  {
    Strip(Join(Split(ReplaceOthers(LowerStr(text)))))
  }

  /** The words of the replaced text are `[a-z0-9]` words. */
  lemma WordsAreAlnum(text: string)
    ensures forall w :: w in Split(ReplaceOthers(LowerStr(text))) ==> IsAlnumWord(w)
  {
    var t := ReplaceOthers(LowerStr(text));
    SplitChars(t);
    forall w | w in Split(t) ensures IsAlnumWord(w) {
      assert IsWord(w);
      forall i | 0 <= i < |w| ensures IsLowerAlnum(w[i]) {
        assert w[i] in w;
        assert w[i] in t;
      }
    }
  }

  /** The preprocessed text holds only `[a-z0-9]` and single inner spaces, and it is the join
      of its own words (the final `strip()` has nothing left to remove). */
  lemma PreprocessNormalized(text: string)
    ensures Normalized(Preprocess(text))
    ensures Preprocess(text) == Join(Split(ReplaceOthers(LowerStr(text))))
  {
    var ws := Split(ReplaceOthers(LowerStr(text)));
    WordsAreAlnum(text);
    JoinNormalized(ws);
    NormalizedEdges(Join(ws));
    StripUnchanged(Join(ws));
  }

  /** Preprocessing keeps the words of the lower-cased, replaced text: the same words, so the
      same letters and digits in the same order. */
  lemma PreprocessWords(text: string)
    ensures Split(Preprocess(text)) == Split(ReplaceOthers(LowerStr(text)))
    ensures NonSpace(Preprocess(text)) == NonSpace(ReplaceOthers(LowerStr(text)))
  {
    var t := ReplaceOthers(LowerStr(text));
    PreprocessNormalized(text);
    SplitJoin(Split(t));
    SplitContent(Preprocess(text));
    SplitContent(t);
  }

  /** Lower-casing and replacing leave normalized text alone. */
  lemma NormalizedFixed(p: string)
    requires Normalized(p)
    ensures ReplaceOthers(LowerStr(p)) == p
  {
    assert forall i :: 0 <= i < |p| ==> IsLowerAlnum(p[i]) || p[i] == ' ';
    LowerStrUnchanged(p);
  }

  /** Text joined from `[a-z0-9]` words is a fixed point of preprocessing. */
  lemma PreprocessJoined(ws: seq<string>)
    requires forall w :: w in ws ==> IsAlnumWord(w)
    ensures Preprocess(Join(ws)) == Join(ws)
  {
    var p := Join(ws);
    JoinNormalized(ws);
    NormalizedFixed(p);
    forall w | w in ws ensures IsWord(w) {
      assert IsAlnumWord(w);
    }
    SplitJoin(ws);
    NormalizedEdges(p);
    StripUnchanged(p);
  }

  /** Preprocessing a preprocessed text changes nothing. */
  lemma PreprocessIdempotent(text: string)
    ensures Preprocess(Preprocess(text)) == Preprocess(text)
  {
    PreprocessNormalized(text);
    WordsAreAlnum(text);
    PreprocessJoined(Split(ReplaceOthers(LowerStr(text))));
  }

  /** `set(self._preprocess_text(text).split())`: exactly the words of the lower-cased text
      with punctuation replaced, each an `[a-z0-9]` word. */
  function Tokens(text: string): (ts: set<string>)
    ensures forall w :: w in ts <==> w in Split(ReplaceOthers(LowerStr(text)))
    ensures forall w :: w in ts ==> IsAlnumWord(w)
  {
    PreprocessWords(text);
    WordsAreAlnum(text);
    set w | w in Split(Preprocess(text))
  }

  /** A subset is no larger than its superset, and one of the same size is the whole set. */
  lemma {:induction false} SubsetCard<T>(x: set<T>, y: set<T>)
    requires x <= y
    ensures |x| <= |y|
    ensures |x| == |y| ==> x == y
    decreases |y|
  {
    if y != {} {
      var e :| e in y;
      SubsetCard(x - {e}, y - {e});
      assert |y - {e}| == |y| - 1;
      if e in x {
        assert |x - {e}| == |x| - 1;
        assert x == (x - {e}) + {e} && y == (y - {e}) + {e};
      } else {
        assert x - {e} == x;
      }
    }
  }

  /** The overlap of two token sets as a percentage (Jaccard index times 100); 0 when both
      are empty. */
  function Jaccard(a: set<string>, b: set<string>): (r: real)
    ensures 0.0 <= r <= 100.0
    ensures a + b == {} ==> r == 0.0
  {
    if a + b == {} then 0.0
    else
      SubsetCard(a * b, a + b);
      (|a * b| as real) / (|a + b| as real) * 100.0
  }

  /** The keyword score of a query against a description: a percentage that is 0 exactly when
      no token is shared and 100 exactly when both have the same non-empty token set. */
  function KeywordScore(query: string, description: string): (r: real)
    ensures 0.0 <= r <= 100.0
    ensures r == 0.0 <==> Tokens(query) * Tokens(description) == {}
    ensures r == 100.0 <==> Tokens(query) == Tokens(description) && Tokens(query) != {}
  {
    JaccardExtremes(Tokens(query), Tokens(description));
    Jaccard(Tokens(query), Tokens(description))
  }

  /** The overlap does not depend on the order of the two sets. */
  lemma JaccardSymmetric(a: set<string>, b: set<string>)
    ensures Jaccard(a, b) == Jaccard(b, a)
  {
    assert a * b == b * a && a + b == b + a;
  }

  /** The keyword score does not depend on which side is the query. */
  lemma KeywordSymmetric(query: string, description: string)
    ensures KeywordScore(query, description) == KeywordScore(description, query)
  {
    JaccardSymmetric(Tokens(query), Tokens(description));
  }

  /** Full overlap exactly for equal non-empty token sets; none exactly for disjoint sets. */
  lemma JaccardExtremes(a: set<string>, b: set<string>)
    ensures Jaccard(a, b) == 100.0 <==> a == b && a != {}
    ensures Jaccard(a, b) == 0.0 <==> a * b == {}
  {
    if a + b != {} {
      SubsetCard(a * b, a + b);
      var n, m := |a * b| as real, |a + b| as real;
      assert Jaccard(a, b) == n / m * 100.0;
      if n == m {
        assert a * b == a + b;
        assert a == b by {
          assert a <= a * b && b <= a * b;
        }
      }
      if a == b {
        assert a * b == a + b;
      }
      if a * b != {} {
        var e :| e in a * b;
        assert |a * b| > 0;
      }
    } else {
      assert a == {};
    }
  }

  // ---------------------------------------------------------------------------------------
  // Scores

  /** The banded mapping of a TF-IDF cosine similarity to a percentage, clamped to [0, 100]. */
  function Band(c: real): (r: real)
    ensures 0.0 <= r <= 100.0
  {
    var raw :=
      if c >= 0.5 then 85.0 + (c - 0.5) * 30.0
      else if c >= 0.3 then 70.0 + (c - 0.3) * 75.0
      else if c >= 0.15 then 50.0 + (c - 0.15) * 133.0
      else c * 333.0;
    Clamp(raw, 0.0, 100.0)
  }

  /** Each band of cosine similarity lands in the range its comment gives. */
  lemma BandRanges(c: real)
    requires 0.0 <= c <= 1.0
    ensures 0.5 <= c ==> 85.0 <= Band(c) <= 100.0
    ensures 0.3 <= c < 0.5 ==> 70.0 <= Band(c) < 85.0
    ensures 0.15 <= c < 0.3 ==> 50.0 <= Band(c) < 70.0
    ensures c < 0.15 ==> 0.0 <= Band(c) < 50.0
  {
  }

  /** A higher similarity never gets a lower percentage. */
  lemma BandMonotone(c: real, d: real)
    requires c <= d
    ensures Band(c) <= Band(d)
  {
  }

  /** The hybrid score: 85% banded semantic score, 10% keyword score, 5 points for a matching
      category. */
  function Hybrid(semantic: real, keyword: real, categoryMatch: bool): (r: real)
    ensures 0.0 <= semantic <= 100.0 && 0.0 <= keyword <= 100.0 ==> 0.0 <= r <= 100.0
    ensures categoryMatch ==> r >= 5.0 + 0.85 * semantic + 0.10 * keyword
  {
    semantic * 0.85 + keyword * 0.10 + (if categoryMatch then 5.0 else 0.0)
  }

  /** A category filter takes effect when it is given and not empty. */
  predicate FilterActive(filter: Option<string>)
  {
    filter.Some? && filter.value != ""
  }

  /** `category.lower() == category_filter.lower()`. */
  predicate SameCategory(category: string, filter: string): (b: bool)
    ensures category == filter ==> b
    ensures b ==> |category| == |filter|
  {
    LowerStr(category) == LowerStr(filter)
  }

  /** One entry of the result list. */
  datatype LightMatch = LightMatch(
    item: Record, score: real, cosine: real, keyword: real, semantic: real, categoryBoost: bool)

  /** The entry `search` builds for a record whose similarity is `cosine`. */
  function Scored(item: Record, cosine: real, query: string, filter: Option<string>): (m: LightMatch)
    ensures 0.0 <= m.score <= 100.0
    ensures m.item == item && m.cosine == cosine
    ensures m.categoryBoost <==> FilterActive(filter) && SameCategory(item.category, filter.value)
  {
    var semantic := Band(cosine);
    var keyword := KeywordScore(query, item.description);
    var boost := FilterActive(filter) && SameCategory(item.category, filter.value);
    LightMatch(item, Hybrid(semantic, keyword, boost), cosine, keyword, semantic, boost)
  }

  // ---------------------------------------------------------------------------------------
  // Candidate pool, filter, sort and truncation

  /** The candidate positions: `np.argsort(similarities)[::-1][:limit * 2]`. */
  function Top(sims: seq<real>, limit: int): (top: seq<int>)
    ensures forall a :: 0 <= a < |top| ==> 0 <= top[a] < |sims|
    ensures limit >= 0 ==> |top| == Min(2 * limit, |sims|)
  {
    PyTake(ArgSortDesc(sims), limit * 2)
  }

  /** The entries the loop of `search` appends for the positions `top`, in that order:
      positions past the metadata are skipped, and so are records the filter rejects. */
  function Candidates(top: seq<int>, sims: seq<real>, metadata: seq<Record>, query: string,
                      filter: Option<string>): (r: seq<LightMatch>)
    requires forall a :: 0 <= a < |top| ==> 0 <= top[a] < |sims|
    ensures |r| <= |top|
    ensures forall m :: m in r ==> 0.0 <= m.score <= 100.0
    ensures forall m :: m in r ==> (m.categoryBoost <==> FilterActive(filter))
    ensures forall m :: m in r && FilterActive(filter) ==> SameCategory(m.item.category, filter.value)
  {
    if top == [] then []
    else
      var pre := Candidates(top[..|top| - 1], sims, metadata, query, filter);
      var idx := top[|top| - 1];
      if idx >= |metadata| then pre
      else if FilterActive(filter) && !SameCategory(metadata[idx].category, filter.value) then pre
      else pre + [Scored(metadata[idx], sims[idx], query, filter)]
  }

  /** Every candidate is the record at one of the positions `top`, scored with that
      position's similarity. */
  lemma {:induction false} CandidatesFrom(top: seq<int>, sims: seq<real>, metadata: seq<Record>,
                                          query: string, filter: Option<string>)
    requires forall a :: 0 <= a < |top| ==> 0 <= top[a] < |sims|
    ensures forall m :: m in Candidates(top, sims, metadata, query, filter) ==>
      exists a :: (0 <= a < |top| && top[a] < |metadata|
        && m == Scored(metadata[top[a]], sims[top[a]], query, filter))
  {
    if top != [] {
      var pre := top[..|top| - 1];
      var idx := top[|top| - 1];
      CandidatesFrom(pre, sims, metadata, query, filter);
      var c := Candidates(top, sims, metadata, query, filter);
      var cp := Candidates(pre, sims, metadata, query, filter);
      assert c == cp || (idx < |metadata| && c == cp + [Scored(metadata[idx], sims[idx], query, filter)]);
      forall m | m in c
        ensures exists a :: (0 <= a < |top| && top[a] < |metadata|
          && m == Scored(metadata[top[a]], sims[top[a]], query, filter))
      {
        if m in cp {
          var a :| 0 <= a < |pre| && pre[a] < |metadata|
            && m == Scored(metadata[pre[a]], sims[pre[a]], query, filter);
          assert top[a] == pre[a];
        } else {
          assert m == Scored(metadata[idx], sims[idx], query, filter);
          assert top[|top| - 1] == idx;
        }
      }
    }
  }

  /** Without an active filter, every position inside the metadata yields a candidate. */
  lemma {:induction false} CandidatesUnfiltered(top: seq<int>, sims: seq<real>, metadata: seq<Record>,
                                                query: string, filter: Option<string>)
    requires forall a :: 0 <= a < |top| ==> 0 <= top[a] < |sims|
    requires !FilterActive(filter)
    requires forall a :: 0 <= a < |top| ==> top[a] < |metadata|
    ensures |Candidates(top, sims, metadata, query, filter)| == |top|
  {
    if top != [] {
      CandidatesUnfiltered(top[..|top| - 1], sims, metadata, query, filter);
    }
  }

  /** What one more pool position adds to the candidates. */
  function CandidateAt(idx: int, sims: seq<real>, metadata: seq<Record>, query: string,
                      filter: Option<string>): seq<LightMatch>
    requires 0 <= idx < |sims|
  {
    if idx >= |metadata| then []
    else if FilterActive(filter) && !SameCategory(metadata[idx].category, filter.value) then []
    else [Scored(metadata[idx], sims[idx], query, filter)]
  }

  lemma CandidatesStep(top: seq<int>, i: nat, sims: seq<real>, metadata: seq<Record>, query: string,
                       filter: Option<string>)
    requires forall a :: 0 <= a < |top| ==> 0 <= top[a] < |sims|
    requires i < |top|
    ensures Candidates(top[..i + 1], sims, metadata, query, filter)
      == Candidates(top[..i], sims, metadata, query, filter) + CandidateAt(top[i], sims, metadata, query, filter)
  {
    assert top[..i + 1][..i] == top[..i];
  }

  /** The position names a record and the filter accepts that record. */
  predicate Passes(idx: int, metadata: seq<Record>, filter: Option<string>)
  {
    0 <= idx < |metadata| && (FilterActive(filter) ==> SameCategory(metadata[idx].category, filter.value))
  }

  /** The concatenation of `part(x)` for the elements `x` of `xs`, in order. */
  function Gathered<T>(xs: seq<int>, part: int -> seq<T>): seq<T>
  {
    if xs == [] then [] else Gathered(xs[..|xs| - 1], part) + part(xs[|xs| - 1])
  }

  /** What the part of any element holds is in the concatenation. */
  lemma {:induction false} GatheredMember<T>(xs: seq<int>, part: int -> seq<T>, a: int)
    requires 0 <= a < |xs|
    ensures forall m :: m in part(xs[a]) ==> m in Gathered(xs, part)
    decreases |xs|
  {
    var pre := xs[..|xs| - 1];
    if a < |pre| {
      assert pre[a] == xs[a];
      GatheredMember(pre, part, a);
    }
  }

  /** The entries for one position, as a total function of the position. */
  function PartAt(sims: seq<real>, metadata: seq<Record>, query: string, filter: Option<string>): int -> seq<LightMatch>
  {
    idx => if 0 <= idx < |sims| then CandidateAt(idx, sims, metadata, query, filter) else []
  }

  /** The candidates are the entries of the pool positions, one position after the other. */
  lemma {:induction false} CandidatesGathered(top: seq<int>, sims: seq<real>, metadata: seq<Record>,
                                              query: string, filter: Option<string>)
    requires forall a :: 0 <= a < |top| ==> 0 <= top[a] < |sims|
    ensures Candidates(top, sims, metadata, query, filter) == Gathered(top, PartAt(sims, metadata, query, filter))
  {
    if top != [] {
      var pre := top[..|top| - 1];
      CandidatesGathered(pre, sims, metadata, query, filter);
      assert Candidates(top, sims, metadata, query, filter)
        == Candidates(pre, sims, metadata, query, filter) + CandidateAt(top[|top| - 1], sims, metadata, query, filter);
    }
  }

  /** Every pool position that names a record the filter accepts yields its scored entry. */
  lemma CandidatesComplete(top: seq<int>, sims: seq<real>, metadata: seq<Record>,
                           query: string, filter: Option<string>)
    requires forall a :: 0 <= a < |top| ==> 0 <= top[a] < |sims|
    ensures forall a :: 0 <= a < |top| && Passes(top[a], metadata, filter) ==>
      Scored(metadata[top[a]], sims[top[a]], query, filter) in Candidates(top, sims, metadata, query, filter)
  {
    forall a | 0 <= a < |top| && Passes(top[a], metadata, filter)
      ensures Scored(metadata[top[a]], sims[top[a]], query, filter) in Candidates(top, sims, metadata, query, filter)
    {
      CandidatesGathered(top, sims, metadata, query, filter);
      GatheredMember(top, PartAt(sims, metadata, query, filter), a);
      assert PartAt(sims, metadata, query, filter)(top[a]) == [Scored(metadata[top[a]], sims[top[a]], query, filter)];
    }
  }

  /** The loop of `search` over the candidate positions. */
  method CollectCandidates(top: seq<int>, sims: seq<real>, metadata: seq<Record>, query: string,
                           filter: Option<string>) returns (results: seq<LightMatch>)
    requires forall a :: 0 <= a < |top| ==> 0 <= top[a] < |sims|
    ensures results == Candidates(top, sims, metadata, query, filter)
  {
    results := [];
    var i := 0;
    while i < |top|
      invariant 0 <= i <= |top|
      invariant results == Candidates(top[..i], sims, metadata, query, filter)
    {
      CandidatesStep(top, i, sims, metadata, query, filter);
      var idx := top[i];
      i := i + 1;
      if idx >= |metadata| {
        continue;
      }
      var item := metadata[idx];
      if FilterActive(filter) && !SameCategory(item.category, filter.value) {
        continue;
      }
      results := results + [Scored(item, sims[idx], query, filter)];
    }
    assert top[..i] == top;
  }

  function FinalScore(m: LightMatch): real
  {
    m.score
  }

  /** `results.sort(key=..., reverse=True)` followed by `results[:limit]`: candidates only,
      best first, at most `limit` of them when `limit` is not negative. */
  function Ranked(candidates: seq<LightMatch>, limit: int): (r: seq<LightMatch>)
    ensures SortedDesc(r, FinalScore)
    ensures multiset(r) <= multiset(candidates)
    ensures limit >= 0 ==> |r| == Min(limit, |candidates|)
    ensures limit < 0 ==> |r| == Max(0, |candidates| + limit)
  {
    var sorted := SortDesc(candidates, FinalScore);
    var r := PyTake(sorted, limit);
    assert sorted == r + sorted[|r|..];
    r
  }

  /** Truncation keeps the best: no candidate the slice drops outscores one it keeps. */
  lemma RankedBest(candidates: seq<LightMatch>, limit: int)
    ensures var r := Ranked(candidates, limit);
      forall x, y :: x in r && y in multiset(candidates) - multiset(r) ==> x.score >= y.score
  {
    var sorted := SortDesc(candidates, FinalScore);
    var k := |Ranked(candidates, limit)|;
    assert Ranked(candidates, limit) == sorted[..k];
    PrefixOutranks(sorted, candidates, k, FinalScore);
  }

  /** What a search over the similarities `sims` returns, and what it promises: every result
      is a record at one of the `2 * limit` best positions, scored in [0, 100] from that
      position's similarity; with an active filter each one has the filter's category and the
      bonus; the list is sorted best first and, for a non-negative `limit`, no longer than it. */
  lemma SearchResults(sims: seq<real>, metadata: seq<Record>, query: string, limit: int,
                      filter: Option<string>)
    ensures var top := Top(sims, limit);
      var r := Ranked(Candidates(top, sims, metadata, query, filter), limit);
      && SortedDesc(r, FinalScore)
      && (limit >= 0 ==> |r| <= limit)
      && (forall m :: m in r ==>
            && 0.0 <= m.score <= 100.0
            && (m.categoryBoost <==> FilterActive(filter))
            && (FilterActive(filter) ==> SameCategory(m.item.category, filter.value))
            && exists a :: (0 <= a < |top| && top[a] < |metadata|
                 && m == Scored(metadata[top[a]], sims[top[a]], query, filter)))
  {
    var top := Top(sims, limit);
    var c := Candidates(top, sims, metadata, query, filter);
    CandidatesFrom(top, sims, metadata, query, filter);
    var r := Ranked(c, limit);
    forall m | m in r
      ensures && 0.0 <= m.score <= 100.0
              && (m.categoryBoost <==> FilterActive(filter))
              && (FilterActive(filter) ==> SameCategory(m.item.category, filter.value))
              && exists a :: (0 <= a < |top| && top[a] < |metadata|
                   && m == Scored(metadata[top[a]], sims[top[a]], query, filter))
    {
      assert m in multiset(r);
      assert m in c;
    }
  }

  /** A negative `limit` does not give an empty answer: `[:limit * 2]` and `[:limit]` drop
      elements from the end instead. With four records and `limit == -1` the pool holds the two
      best positions, and one of them is returned. */
  lemma NegativeLimitKeepsResults(sims: seq<real>, metadata: seq<Record>, query: string)
    requires |sims| == 4 && |metadata| == 4
    ensures |Top(sims, -1)| == 2
    ensures |Ranked(Candidates(Top(sims, -1), sims, metadata, query, None), -1)| == 1
  {
    var top := Top(sims, -1);
    CandidatesUnfiltered(top, sims, metadata, query, None);
  }

  // ---------------------------------------------------------------------------------------
  // Loading from the document store

  /** The records the loop of `load_from_mongodb` appends before it ends or a missing key
      raises `KeyError`; `complete` tells which. */
  datatype Loaded = Loaded(records: seq<Record>, complete: bool)

  function RecordsFrom(docs: seq<Document>): (l: Loaded)
    ensures |l.records| <= |docs|
  {
    if docs == [] then Loaded([], true)
    else
      var pre := RecordsFrom(docs[..|docs| - 1]);
      var d := docs[|docs| - 1];
      if !pre.complete then pre
      else if !HasRecordKeys(d) then Loaded(pre.records, false)
      else Loaded(pre.records + [RecordOf(d)], true)
  }

  /** The loaded records are those of the leading documents, one per document, in order; the
      load runs to the end exactly when every document has the three keys. */
  lemma {:induction false} RecordsShape(docs: seq<Document>)
    ensures var l := RecordsFrom(docs);
      && |l.records| <= |docs|
      && (forall i :: 0 <= i < |l.records| ==> HasRecordKeys(docs[i]) && l.records[i] == RecordOf(docs[i]))
      && (l.complete <==> forall d :: d in docs ==> HasRecordKeys(d))
      && (l.complete ==> |l.records| == |docs|)
  {
    if docs != [] {
      var pre, last := docs[..|docs| - 1], docs[|docs| - 1];
      RecordsShape(pre);
      assert docs == pre + [last];
      assert (forall d :: d in docs ==> HasRecordKeys(d))
        <==> (forall d :: d in pre ==> HasRecordKeys(d)) && HasRecordKeys(last);
    }
  }

  /** Once the load has stopped, later documents change nothing. */
  lemma {:induction false} RecordsStopped(docs: seq<Document>, j: nat)
    requires j <= |docs|
    requires !RecordsFrom(docs[..j]).complete
    ensures RecordsFrom(docs) == RecordsFrom(docs[..j])
    decreases |docs| - j
  {
    if j < |docs| {
      assert docs[..j + 1][..j] == docs[..j];
      RecordsStopped(docs, j + 1);
    } else {
      assert docs[..j] == docs;
    }
  }

  /** The loop of `load_from_mongodb`. */
  method CollectRecords(docs: seq<Document>) returns (l: Loaded)
    ensures l == RecordsFrom(docs)
  {
    var records: seq<Record> := [];
    var i := 0;
    while i < |docs|
      invariant 0 <= i <= |docs|
      invariant Loaded(records, true) == RecordsFrom(docs[..i])
    {
      var d := docs[i];
      assert docs[..i + 1][..i] == docs[..i] && docs[..i + 1][i] == d;
      if !HasRecordKeys(d) {
        RecordsStopped(docs, i + 1);
        return Loaded(records, false);
      }
      records := records + [RecordOf(d)];
      i := i + 1;
    }
    assert docs[..i] == docs;
    return Loaded(records, true);
  }

  /** The document `add_item` stores: the three keys and the time, no vector. */
  function NewDocument(item: Record, now: real): (d: Document)
    ensures HasRecordKeys(d) && RecordOf(d) == item
    ensures d.vector.None? && d.createdAt == now
  {
    Document(Some(item.id), Some(item.description), Some(item.category), None, now, None)
  }

  /** A store holding only documents written by `add_item` loads completely. */
  lemma RecordsOfAddedDocuments(docs: seq<Document>)
    requires forall d :: d in docs ==> exists item, now :: d == NewDocument(item, now)
    ensures RecordsFrom(docs).complete && |RecordsFrom(docs).records| == |docs|
  {
    RecordsShape(docs);
  }

  /** `[item['description'] for item in self.items_metadata]`. */
  function Descriptions(metadata: seq<Record>): (ds: seq<string>)
    ensures |ds| == |metadata|
    ensures forall i :: 0 <= i < |metadata| ==> ds[i] == metadata[i].description
  {
    seq(|metadata|, i requires 0 <= i < |metadata| => metadata[i].description)
  }

  // ---------------------------------------------------------------------------------------
  // The engine

  /** The TF-IDF similarity of a query to each description of the corpus the vectorizer was
      fitted on (`cosine_similarity(vectorizer.transform([q]), item_vectors)[0]`). */
  type Similarity = (seq<string>, string) -> seq<real>

  class LightweightSemanticEngine {
    const similarity: Similarity
    /** Whether `fit_transform` accepts a corpus; it raises, for instance, when no term
        survives the stop-word list and the document-frequency bounds. */
    const fitAccepts: seq<string> -> bool
    var itemsMetadata: seq<Record>
    /** The descriptions `item_vectors` was computed from; `None` before the first fit. */
    var itemVectors: Option<seq<string>>
    var fitted: bool

    predicate Valid()
      reads this
    {
      fitted ==> itemVectors.Some?
    }

    /** `_initialize`. */
    constructor (similarity: Similarity, fitAccepts: seq<string> -> bool)
      ensures this.similarity == similarity && this.fitAccepts == fitAccepts
      ensures itemsMetadata == [] && itemVectors == None && !fitted
      ensures Valid()
    {
      this.similarity := similarity;
      this.fitAccepts := fitAccepts;
      itemsMetadata := [];
      itemVectors := None;
      fitted := false;
    }

    /** `_fit_vectorizer`: nothing to do without records; otherwise the vectorizer is fitted
        on the descriptions, unless `fit_transform` raises (`ok == false`), which leaves
        everything as it was. */
    method FitVectorizer() returns (ok: bool)
      modifies this
      requires Valid()
      ensures Valid()
      ensures itemsMetadata == old(itemsMetadata)
      ensures ok <==> itemsMetadata == [] || fitAccepts(Descriptions(itemsMetadata))
      ensures itemsMetadata != [] && ok ==> fitted && itemVectors == Some(Descriptions(itemsMetadata))
      ensures itemsMetadata == [] || !ok ==> fitted == old(fitted) && itemVectors == old(itemVectors)
    {
      if |itemsMetadata| == 0 {
        return true;
      }
      var descriptions := Descriptions(itemsMetadata);
      if !fitAccepts(descriptions) {
        return false;
      }
      itemVectors := Some(descriptions);
      fitted := true;
      ok := true;
    }

    /** `add_item`: the record is appended and the vectorizer marked stale; the store write is
        best effort; the id is returned whatever the store did. */
    method AddItem(item: Record, db: Collection?, now: real) returns (id: string)
      modifies this, db
      requires Valid()
      ensures Valid()
      ensures id == item.id
      ensures itemsMetadata == old(itemsMetadata) + [item]
      ensures !fitted && itemVectors == old(itemVectors)
      ensures db != null ==>
        db.documents == old(db.documents) || db.documents == old(db.documents) + [NewDocument(item, now)]
    {
      itemsMetadata := itemsMetadata + [item];
      fitted := false;
      if db != null {
        var stored := db.InsertOne(NewDocument(item, now));
      }
      id := item.id;
    }

    /** `load_from_mongodb`: without a store, when the query raises or when the store is empty,
        nothing changes. Otherwise the records are rebuilt from the documents oldest first; a
        missing key stops the rebuild and skips the refit, so `fitted` and the fitted corpus
        keep their old values; a complete rebuild is followed by a refit. */
    method LoadFromMongoDB(db: Collection?)
      modifies this
      requires Valid()
      ensures Valid()
      ensures (db == null || db.documents == []) ==>
        itemsMetadata == old(itemsMetadata) && fitted == old(fitted) && itemVectors == old(itemVectors)
      ensures
        || (itemsMetadata == old(itemsMetadata) && fitted == old(fitted) && itemVectors == old(itemVectors))
        || (db != null && db.documents != [] &&
            var l := RecordsFrom(ByCreatedAt(db.documents));
            && itemsMetadata == l.records
            && (l.complete && fitAccepts(Descriptions(itemsMetadata)) ==>
                  fitted && itemVectors == Some(Descriptions(itemsMetadata)))
            && (!l.complete || !fitAccepts(Descriptions(itemsMetadata)) ==>
                  fitted == old(fitted) && itemVectors == old(itemVectors)))
    {
      if db == null {
        return;
      }
      var fetched := db.FindAllByCreatedAt();
      if fetched.None? || fetched.value == [] {
        return;
      }
      var docs := fetched.value;
      assert |docs| == |multiset(docs)| == |multiset(db.documents)| == |db.documents|;
      var loaded := CollectRecords(docs);
      itemsMetadata := loaded.records;
      if !loaded.complete {
        return;
      }
      RecordsShape(docs);
      var ok := FitVectorizer();
    }

    /** `search`: `[]` without records; otherwise the vectorizer is refitted when stale (a
        refit that raises makes the search raise: `None`), and the answer is the ranked
        candidates among the `2 * limit` positions most similar under the fitted corpus. */
    method Search(query: string, limit: int, filter: Option<string>) returns (r: Option<seq<LightMatch>>)
      modifies this
      requires Valid()
      ensures Valid()
      ensures itemsMetadata == old(itemsMetadata)
      ensures itemsMetadata == [] ==> r == Some([]) && fitted == old(fitted) && itemVectors == old(itemVectors)
      ensures old(fitted) ==> fitted && itemVectors == old(itemVectors)
      ensures r.None? <==> itemsMetadata != [] && !old(fitted) && !fitAccepts(Descriptions(itemsMetadata))
      ensures r.None? ==> fitted == old(fitted) && itemVectors == old(itemVectors)
      ensures r.Some? && itemsMetadata != [] && !old(fitted) ==>
        itemVectors == Some(Descriptions(itemsMetadata))
      ensures r.Some? && itemsMetadata != [] ==>
        && fitted
        && var sims := similarity(itemVectors.value, query);
           r.value == Ranked(Candidates(Top(sims, limit), sims, itemsMetadata, query, filter), limit)
    {
      if |itemsMetadata| == 0 {
        return Some([]);
      }
      if !fitted {
        var ok := FitVectorizer();
        if !ok {
          return None;
        }
      }
      var sims := similarity(itemVectors.value, query);
      var top := Top(sims, limit);
      var candidates := CollectCandidates(top, sims, itemsMetadata, query, filter);
      r := Some(Ranked(candidates, limit));
    }
  }
}
