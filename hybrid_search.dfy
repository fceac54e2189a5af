/** Score normalisation, weighted fusion and metadata filtering of the hybrid
    retriever (hybrid_search/hybrid_search.py). The two searches themselves
    are inputs; only what is done with their hits is modelled. */
module HybridSearch {
  import opened Builtins

  /** `BM25_WEIGHT`: the share of the lexical score in the fused score. */
  const Bm25Weight: real := 0.5

  /** One search hit. `value` is the BM25 `score` of a lexical hit and the
      `distance` of a vector hit. */
  datatype Hit = Hit(filename: string, chunkNumber: int, text: string, value: real)

  /** Which normaliser: lexical scores keep their order, vector distances are inverted. */
  datatype Side = Bm25 | Chroma

  // ---------------------------------------------------------------------
  // Normalisation
  // ---------------------------------------------------------------------

  /** `max(...)` over the hits' values. */
  function MaxValue(hits: seq<Hit>): (m: real)
    requires |hits| > 0
    ensures forall i :: 0 <= i < |hits| ==> hits[i].value <= m
    ensures exists i :: 0 <= i < |hits| && hits[i].value == m
  {
    if |hits| == 1 then hits[0].value
    else
      var rest := MaxValue(hits[1..]);
      if hits[0].value > rest then hits[0].value else rest
  }

  /** `min(...)` over the hits' values. */
  function MinValue(hits: seq<Hit>): (m: real)
    requires |hits| > 0
    ensures forall i :: 0 <= i < |hits| ==> m <= hits[i].value
    ensures exists i :: 0 <= i < |hits| && hits[i].value == m
  {
    if |hits| == 1 then hits[0].value
    else
      var rest := MinValue(hits[1..]);
      if hits[0].value < rest then hits[0].value else rest
  }

  /** The normalised value of `v` given the smallest and largest value seen. */
  function Scale(side: Side, v: real, lo: real, hi: real): real {
    if hi == lo then 1.0
    else if side == Bm25 then (v - lo) / (hi - lo)
    else 1.0 - (v - lo) / (hi - lo)
  }

  /** A value in range scales into [0, 1]; the extremes go to 0 and 1, the
      other way round for distances. */
  lemma ScaleBounds(side: Side, v: real, lo: real, hi: real)
    requires lo <= v <= hi
    ensures 0.0 <= Scale(side, v, lo, hi) <= 1.0
    ensures lo < hi && v == hi ==> Scale(side, v, lo, hi) == (if side == Bm25 then 1.0 else 0.0)
    ensures lo < hi && v == lo ==> Scale(side, v, lo, hi) == (if side == Bm25 then 0.0 else 1.0)
  {
    if lo < hi {
      UnitQuotient(v - lo, hi - lo);
      var d := hi - lo;
      assert d / d == 1.0;
    }
  }

  lemma UnitQuotient(x: real, d: real)
    requires 0.0 <= x <= d && d > 0.0
    ensures 0.0 <= x / d <= 1.0
  {
    assert (x / d) * d == x;
  }


  /** The dictionary the normaliser's loop builds from the hits, in order:
      each hit writes its filename's entry, so a later hit overwrites. */
  function Fill(side: Side, hits: seq<Hit>, lo: real, hi: real): map<string, real> {
    if |hits| == 0 then map[]
    else
      var last := hits[|hits| - 1];
      Fill(side, hits[..|hits| - 1], lo, hi)[last.filename := Scale(side, last.value, lo, hi)]
  }

  /** `normalize_bm25_scores` and `normalize_chroma_distances`. */
  function Normalized(side: Side, hits: seq<Hit>): (r: map<string, real>)
    ensures |hits| == 0 ==> r == map[]
    ensures |hits| > 0 ==> hits[|hits| - 1].filename in r
  {
    if |hits| == 0 then map[] else Fill(side, hits, MinValue(hits), MaxValue(hits))
  }

  /** No later hit carries the same filename as hit `i`. */
  predicate IsLastOf(hits: seq<Hit>, i: int)
    requires 0 <= i < |hits|
  {
    forall j :: i < j < |hits| ==> hits[j].filename != hits[i].filename
  }

  lemma {:induction false} FillKeys(side: Side, hits: seq<Hit>, lo: real, hi: real)
    ensures forall f :: f in Fill(side, hits, lo, hi) <==> exists i :: 0 <= i < |hits| && hits[i].filename == f
  {
    if |hits| > 0 {
      var init := hits[..|hits| - 1];
      FillKeys(side, init, lo, hi);
      forall f | f in Fill(side, hits, lo, hi)
        ensures exists i :: 0 <= i < |hits| && hits[i].filename == f
      {
        if f != hits[|hits| - 1].filename {
          assert f in Fill(side, init, lo, hi);
          var i :| 0 <= i < |init| && init[i].filename == f;
          assert hits[i].filename == f;
        }
      }
    }
  }

  lemma {:induction false} FillLastWins(side: Side, hits: seq<Hit>, lo: real, hi: real, i: int)
    requires 0 <= i < |hits| && IsLastOf(hits, i)
    ensures hits[i].filename in Fill(side, hits, lo, hi)
    ensures Fill(side, hits, lo, hi)[hits[i].filename] == Scale(side, hits[i].value, lo, hi)
  {
    if i < |hits| - 1 {
      var init := hits[..|hits| - 1];
      assert IsLastOf(init, i) by {
        forall j | i < j < |init| ensures init[j].filename != init[i].filename {
          assert init[j] == hits[j];
        }
      }
      FillLastWins(side, init, lo, hi, i);
    }
  }

  lemma {:induction false} FillRange(side: Side, hits: seq<Hit>, lo: real, hi: real)
    requires forall i :: 0 <= i < |hits| ==> lo <= hits[i].value <= hi
    ensures forall f :: f in Fill(side, hits, lo, hi) ==> 0.0 <= Fill(side, hits, lo, hi)[f] <= 1.0
  {
    if |hits| > 0 {
      FillRange(side, hits[..|hits| - 1], lo, hi);
      ScaleBounds(side, hits[|hits| - 1].value, lo, hi);
    }
  }

  lemma {:induction false} FillAllOne(side: Side, hits: seq<Hit>, v: real)
    ensures forall f :: f in Fill(side, hits, v, v) ==> Fill(side, hits, v, v)[f] == 1.0
  {
    if |hits| > 0 {
      FillAllOne(side, hits[..|hits| - 1], v);
    }
  }

  /** The keys are exactly the hits' filenames; an empty hit list gives an
      empty dictionary. */
  lemma NormalizedKeys(side: Side, hits: seq<Hit>)
    ensures forall f :: f in Normalized(side, hits) <==> exists i :: 0 <= i < |hits| && hits[i].filename == f
    ensures |hits| == 0 ==> Normalized(side, hits) == map[]
  {
    if |hits| > 0 {
      FillKeys(side, hits, MinValue(hits), MaxValue(hits));
    }
  }

  /** Each filename holds the scaled value of its last hit. */
  lemma NormalizedLastWins(side: Side, hits: seq<Hit>, i: int)
    requires 0 <= i < |hits| && IsLastOf(hits, i)
    ensures hits[i].filename in Normalized(side, hits)
    ensures Normalized(side, hits)[hits[i].filename] == Scale(side, hits[i].value, MinValue(hits), MaxValue(hits))
  {
    FillLastWins(side, hits, MinValue(hits), MaxValue(hits), i);
  }

  /** Every normalised value lies in [0, 1]; when all values are equal every
      entry is 1.0. */
  lemma NormalizedRange(side: Side, hits: seq<Hit>)
    ensures forall f :: f in Normalized(side, hits) ==> 0.0 <= Normalized(side, hits)[f] <= 1.0
    ensures |hits| > 0 && MinValue(hits) == MaxValue(hits) ==>
      forall f :: f in Normalized(side, hits) ==> Normalized(side, hits)[f] == 1.0
  {
    if |hits| > 0 {
      FillRange(side, hits, MinValue(hits), MaxValue(hits));
      if MinValue(hits) == MaxValue(hits) {
        FillAllOne(side, hits, MinValue(hits));
      }
    }
  }

  /** When the values differ, the hit with the largest value gets 1 and the
      one with the smallest gets 0 (the other way round for distances),
      provided no later hit of the same file overwrites it. */
  lemma NormalizedExtremes(side: Side, hits: seq<Hit>, i: int)
    requires 0 <= i < |hits| && IsLastOf(hits, i)
    requires MinValue(hits) < MaxValue(hits)
    ensures hits[i].filename in Normalized(side, hits)
    ensures hits[i].value == MaxValue(hits) ==>
      Normalized(side, hits)[hits[i].filename] == (if side == Bm25 then 1.0 else 0.0)
    ensures hits[i].value == MinValue(hits) ==>
      Normalized(side, hits)[hits[i].filename] == (if side == Bm25 then 0.0 else 1.0)
  {
    NormalizedLastWins(side, hits, i);
    ScaleBounds(side, hits[i].value, MinValue(hits), MaxValue(hits));
  }

  /** The loop shared by both normalisers, with `lo`/`hi` already computed. */
  method FillLoop(side: Side, results: seq<Hit>, lo: real, hi: real) returns (normalized: map<string, real>)
    ensures normalized == Fill(side, results, lo, hi)
  {
    normalized := map[];
    for i := 0 to |results|
      invariant normalized == Fill(side, results[..i], lo, hi)
    {
      assert results[..i + 1][..i] == results[..i];
      if hi == lo {
        normalized := normalized[results[i].filename := 1.0];
      } else if side == Bm25 {
        normalized := normalized[results[i].filename := (results[i].value - lo) / (hi - lo)];
      } else {
        var similarity := 1.0 - (results[i].value - lo) / (hi - lo);
        normalized := normalized[results[i].filename := similarity];
      }
    }
    assert results[..|results|] == results;
  }

  /** `normalize_bm25_scores`. */
  method NormalizeBm25Scores(results: seq<Hit>) returns (normalized: map<string, real>)
    ensures normalized == Normalized(Bm25, results)
  {
    if |results| == 0 {
      return map[];
    }
    var maxScore := MaxValue(results);
    var minScore := MinValue(results);
    normalized := FillLoop(Bm25, results, minScore, maxScore);
  }

  /** `normalize_chroma_distances`. */
  method NormalizeChromaDistances(results: seq<Hit>) returns (normalized: map<string, real>)
    ensures normalized == Normalized(Chroma, results)
  {
    if |results| == 0 {
      return map[];
    }
    var maxDistance := MaxValue(results);
    var minDistance := MinValue(results);
    normalized := FillLoop(Chroma, results, minDistance, maxDistance);
  }

  // ---------------------------------------------------------------------
  // Weighted fusion
  // ---------------------------------------------------------------------

  /** `d.get(k, 0)`. */
  function Get(m: map<string, real>, k: string): real {
    if k in m then m[k] else 0.0
  }

  /** `(bm25_score * bm25_weight) + (chroma_score * chroma_weight)` with
      `chroma_weight = 1 - bm25_weight`. */
  function Weighted(bm25Score: real, chromaScore: real, bm25Weight: real): (r: real)
    ensures bm25Weight == 1.0 ==> r == bm25Score
    ensures bm25Weight == 0.0 ==> r == chromaScore
    ensures bm25Score == chromaScore ==> r == bm25Score
  {
    bm25Score * bm25Weight + chromaScore * (1.0 - bm25Weight)
  }

  /** A weight in [0, 1] mixes two scores in [0, 1] into [0, 1]. */
  lemma WeightedBounds(x: real, y: real, w: real)
    requires 0.0 <= w <= 1.0 && 0.0 <= x <= 1.0 && 0.0 <= y <= 1.0
    ensures 0.0 <= Weighted(x, y, w) <= 1.0
  {
    ScaledDown(x, w);
    ScaledDown(y, 1.0 - w);
    SumBound(x * w, y * (1.0 - w), w, 1.0 - w);
  }

  lemma SumBound(a: real, b: real, c: real, d: real)
    requires 0.0 <= a <= c && 0.0 <= b <= d
    ensures 0.0 <= a + b <= c + d
  {
  }

  lemma MulNonNegative(a: real, b: real)
    requires a >= 0.0 && b >= 0.0
    ensures a * b >= 0.0
  {
  }

  /** A factor in [0, 1] does not increase a non-negative number. */
  lemma ScaledDown(x: real, w: real)
    requires 0.0 <= x <= 1.0 && w >= 0.0
    ensures 0.0 <= x * w <= w
  {
    MulNonNegative(x, w);
    MulNonNegative(1.0 - x, w);
    assert (1.0 - x) * w == w - x * w;
  }

  /** `final_scores`: every document seen by either side, scored by
      `Weighted` with 0 for a missing side. */
  function Fused(b: map<string, real>, c: map<string, real>, w: real): (r: map<string, real>)
    ensures r.Keys == b.Keys + c.Keys
  {
    FusedOver(b, c, w, b.Keys + c.Keys)
  }

  /** The fused scores of the documents in `keys`. */
  function FusedOver(b: map<string, real>, c: map<string, real>, w: real, keys: set<string>): map<string, real> {
    map k | k in keys :: Weighted(Get(b, k), Get(c, k), w)
  }

  lemma FusedOverAdd(b: map<string, real>, c: map<string, real>, w: real, keys: set<string>, k: string)
    ensures FusedOver(b, c, w, keys + {k}) == FusedOver(b, c, w, keys)[k := Weighted(Get(b, k), Get(c, k), w)]
  {
  }

  /** The fused keys are the union of both sides; with a weight in [0, 1] and
      both sides in [0, 1] every fused score is in [0, 1]; weight 1 gives the
      lexical score and weight 0 the vector score. */
  lemma FusedProperties(b: map<string, real>, c: map<string, real>, w: real)
    ensures Fused(b, c, w).Keys == b.Keys + c.Keys
    ensures 0.0 <= w <= 1.0 && (forall k :: k in b ==> 0.0 <= b[k] <= 1.0) && (forall k :: k in c ==> 0.0 <= c[k] <= 1.0)
      ==> forall k :: k in Fused(b, c, w) ==> 0.0 <= Fused(b, c, w)[k] <= 1.0
    ensures w == 1.0 ==> forall k :: k in Fused(b, c, w) ==> Fused(b, c, w)[k] == Get(b, k)
    ensures w == 0.0 ==> forall k :: k in Fused(b, c, w) ==> Fused(b, c, w)[k] == Get(c, k)
  {
    var f := Fused(b, c, w);
    if 0.0 <= w <= 1.0 && (forall k :: k in b ==> 0.0 <= b[k] <= 1.0) && (forall k :: k in c ==> 0.0 <= c[k] <= 1.0) {
      forall k | k in f ensures 0.0 <= f[k] <= 1.0 {
        WeightedBounds(Get(b, k), Get(c, k), w);
      }
    }
  }

  /** With both normalisers' values in [0, 1], fusion at any weight in [0, 1]
      stays in [0, 1]. */
  lemma CombinedRange(bm25Results: seq<Hit>, chromaResults: seq<Hit>, w: real)
    requires 0.0 <= w <= 1.0
    ensures var f := Fused(Normalized(Bm25, bm25Results), Normalized(Chroma, chromaResults), w);
      forall k :: k in f ==> 0.0 <= f[k] <= 1.0
  {
    NormalizedRange(Bm25, bm25Results);
    NormalizedRange(Chroma, chromaResults);
    FusedProperties(Normalized(Bm25, bm25Results), Normalized(Chroma, chromaResults), w);
  }

  /** `final_scores.items()` in non-increasing score order. */
  predicate NonIncreasing(s: seq<(string, real)>) {
    forall i, j :: 0 <= i < j < |s| ==> s[i].1 >= s[j].1
  }

  /** `ranked` lists every item of `scores` exactly once, highest score first;
      the order among equal scores is left open. */
  predicate Ranks(ranked: seq<(string, real)>, scores: map<string, real>) {
    && NonIncreasing(ranked)
    && (forall i, j :: 0 <= i < j < |ranked| ==> ranked[i].0 != ranked[j].0)
    && (forall i :: 0 <= i < |ranked| ==> ranked[i].0 in scores && scores[ranked[i].0] == ranked[i].1)
    && (forall k :: k in scores ==> exists i :: 0 <= i < |ranked| && ranked[i].0 == k)
  }

  /** Where an item of score `score` goes in a non-increasing list: after every
      entry at least as large, before every smaller one. */
  function InsertPosition(s: seq<(string, real)>, score: real): (i: nat)
    ensures i <= |s|
    ensures forall j :: 0 <= j < i ==> s[j].1 >= score
    ensures NonIncreasing(s) ==> forall j :: i <= j < |s| ==> s[j].1 < score
  {
    if |s| == 0 || s[0].1 < score then 0 else 1 + InsertPosition(s[1..], score)
  }

  /** `ranked` with `item` inserted at its place. */
  function Insert(ranked: seq<(string, real)>, item: (string, real)): seq<(string, real)> {
    var p := InsertPosition(ranked, item.1);
    ranked[..p] + [item] + ranked[p..]
  }

  /** Inserting a new key keeps a ranking a ranking of the extended dictionary. */
  lemma InsertRanks(ranked: seq<(string, real)>, done: map<string, real>, item: (string, real))
    requires Ranks(ranked, done) && item.0 !in done
    ensures Ranks(Insert(ranked, item), done[item.0 := item.1])
  {
    InsertNonIncreasing(ranked, item);
    InsertDistinct(ranked, done, item);
    InsertScores(ranked, done, item);
    InsertCovers(ranked, done.Keys, item);
    assert done[item.0 := item.1].Keys == done.Keys + {item.0};
  }

  /** The keys stay pairwise distinct. */
  lemma InsertDistinct(ranked: seq<(string, real)>, done: map<string, real>, item: (string, real))
    requires forall i, j :: 0 <= i < j < |ranked| ==> ranked[i].0 != ranked[j].0
    requires forall i :: 0 <= i < |ranked| ==> ranked[i].0 in done
    requires item.0 !in done
    ensures var next := Insert(ranked, item);
      forall i, j :: 0 <= i < j < |next| ==> next[i].0 != next[j].0
  {
    var p := InsertPosition(ranked, item.1);
    var next := Insert(ranked, item);
    InsertLayout(ranked, item);
    forall i, j | 0 <= i < j < |next| ensures next[i].0 != next[j].0 {
      var i' := if i < p then i else i - 1;
      var j' := if j < p then j else j - 1;
      if i == p {
        assert next[j] == ranked[j'];
      } else if j == p {
        assert next[i] == ranked[i'];
      } else {
        assert next[i] == ranked[i'] && next[j] == ranked[j'] && i' < j';
      }
    }
  }

  /** Every entry carries its key's score. */
  lemma InsertScores(ranked: seq<(string, real)>, done: map<string, real>, item: (string, real))
    requires forall i :: 0 <= i < |ranked| ==> ranked[i].0 in done && done[ranked[i].0] == ranked[i].1
    ensures var next := Insert(ranked, item);
      var m := done[item.0 := item.1];
      forall i :: 0 <= i < |next| ==> next[i].0 in m && m[next[i].0] == next[i].1
    requires item.0 !in done
  {
    var p := InsertPosition(ranked, item.1);
    var next := Insert(ranked, item);
    var m := done[item.0 := item.1];
    InsertLayout(ranked, item);
    forall i | 0 <= i < |next| ensures next[i].0 in m && m[next[i].0] == next[i].1 {
      if i < p {
        assert next[i] == ranked[i];
      } else if p < i {
        assert next[i] == ranked[i - 1];
      }
    }
  }

  /** Every key, old or new, has an entry. */
  lemma InsertCovers(ranked: seq<(string, real)>, keys: set<string>, item: (string, real))
    requires forall k :: k in keys ==> exists i :: 0 <= i < |ranked| && ranked[i].0 == k
    ensures var next := Insert(ranked, item);
      forall k :: k in keys + {item.0} ==> exists i :: 0 <= i < |next| && next[i].0 == k
  {
    var p := InsertPosition(ranked, item.1);
    var next := Insert(ranked, item);
    InsertLayout(ranked, item);
    forall k | k in keys + {item.0}
      ensures exists i :: 0 <= i < |next| && next[i].0 == k
    {
      if k == item.0 {
        assert next[p].0 == k;
      } else {
        var i :| 0 <= i < |ranked| && ranked[i].0 == k;
        if i < p {
          assert next[i].0 == k;
        } else {
          assert next[i + 1].0 == k;
        }
      }
    }
  }

  /** Where each entry of `ranked` lands after the insertion. */
  lemma InsertLayout(ranked: seq<(string, real)>, item: (string, real))
    ensures var p := InsertPosition(ranked, item.1);
      var next := Insert(ranked, item);
      && |next| == |ranked| + 1
      && (forall i :: 0 <= i < p ==> next[i] == ranked[i])
      && next[p] == item
      && (forall i :: p < i < |next| ==> next[i] == ranked[i - 1])
  {
  }

  /** Inserting at `InsertPosition` keeps a non-increasing list non-increasing. */
  lemma InsertNonIncreasing(ranked: seq<(string, real)>, item: (string, real))
    requires NonIncreasing(ranked)
    ensures NonIncreasing(Insert(ranked, item))
  {
    var p := InsertPosition(ranked, item.1);
    var next := Insert(ranked, item);
    InsertLayout(ranked, item);
    forall i, j | 0 <= i < j < |next| ensures next[i].1 >= next[j].1 {
      if j < p {
        assert next[i] == ranked[i] && next[j] == ranked[j];
      } else if j == p {
        assert next[i] == ranked[i];
      } else if i < p {
        assert next[i] == ranked[i] && next[j] == ranked[j - 1];
      } else if i == p {
        assert next[j] == ranked[j - 1];
      } else {
        assert next[i] == ranked[i - 1] && next[j] == ranked[j - 1];
      }
    }
  }

  /** `sorted(final_scores.items(), key=lambda x: x[1], reverse=True)`,
      inserting the items one at a time in the dictionary's iteration order. */
  method RankItems(scores: map<string, real>) returns (ranked: seq<(string, real)>)
    ensures Ranks(ranked, scores)
  {
    ranked := [];
    var remaining := scores.Keys;
    ghost var done: map<string, real> := map[];
    while remaining != {}
      invariant remaining <= scores.Keys
      invariant done.Keys == scores.Keys - remaining
      invariant forall k :: k in done ==> done[k] == scores[k]
      invariant Ranks(ranked, done)
      decreases |remaining|
    {
      var doc :| doc in remaining;
      InsertRanks(ranked, done, (doc, scores[doc]));
      ranked := Insert(ranked, (doc, scores[doc]));
      done := done[doc := scores[doc]];
      remaining := remaining - {doc};
    }
    assert done == scores;
  }

  /** The loop of `combine_weighted_results` that fills `final_scores`. */
  method FuseScores(bm25Normalized: map<string, real>, chromaNormalized: map<string, real>, bm25Weight: real)
    returns (finalScores: map<string, real>)
    ensures finalScores == Fused(bm25Normalized, chromaNormalized, bm25Weight)
  {
    var allDocs := bm25Normalized.Keys + chromaNormalized.Keys;
    finalScores := map[];
    var remaining := allDocs;
    ghost var done: set<string> := {};
    while remaining != {}
      invariant done + remaining == allDocs
      invariant finalScores == FusedOver(bm25Normalized, chromaNormalized, bm25Weight, done)
      decreases |remaining|
    {
      var doc :| doc in remaining;
      var bm25Score := if doc in bm25Normalized then bm25Normalized[doc] else 0.0;
      var chromaScore := if doc in chromaNormalized then chromaNormalized[doc] else 0.0;
      FusedOverAdd(bm25Normalized, chromaNormalized, bm25Weight, done, doc);
      finalScores := finalScores[doc := Weighted(bm25Score, chromaScore, bm25Weight)];
      done := done + {doc};
      remaining := remaining - {doc};
    }
  }

  /** `combine_weighted_results`. */
  method CombineWeightedResults(bm25Results: seq<Hit>, chromaResults: seq<Hit>, bm25Weight: real)
    returns (rankedDocs: seq<(string, real)>, finalScores: map<string, real>)
    ensures finalScores == Fused(Normalized(Bm25, bm25Results), Normalized(Chroma, chromaResults), bm25Weight)
    ensures Ranks(rankedDocs, finalScores)
  {
    var bm25Normalized := NormalizeBm25Scores(bm25Results);
    var chromaNormalized := NormalizeChromaDistances(chromaResults);
    finalScores := FuseScores(bm25Normalized, chromaNormalized, bm25Weight);
    rankedDocs := RankItems(finalScores);
  }

  // ---------------------------------------------------------------------
  // Metadata filters
  // ---------------------------------------------------------------------

  /** The optional arguments of `hybrid_search`. */
  datatype Filters = Filters(filenameFilter: Option<string>, chunkRange: Option<(int, int)>, minTextLength: Option<int>)

  /** Python truthiness of each argument: `None`, `""` and `0` switch the
      filter off; a pair is always truthy. */
  predicate FilenameActive(f: Filters) { f.filenameFilter.Some? && f.filenameFilter.value != "" }
  predicate RangeActive(f: Filters) { f.chunkRange.Some? }
  predicate LengthActive(f: Filters) { f.minTextLength.Some? && f.minTextLength.value != 0 }

  /** `filename_filter.lower() in r['filename'].lower()`. */
  predicate MatchesFilename(filters: Filters, h: Hit) {
    filters.filenameFilter.Some? && IsSubstring(Lower(filters.filenameFilter.value), Lower(h.filename))
  }

  /** `min_chunk <= r['chunk_number'] <= max_chunk`. */
  predicate InChunkRange(filters: Filters, h: Hit) {
    filters.chunkRange.Some? && filters.chunkRange.value.0 <= h.chunkNumber <= filters.chunkRange.value.1
  }

  /** `len(r['text']) >= min_text_length`. */
  predicate LongEnough(filters: Filters, h: Hit) {
    filters.minTextLength.Some? && |h.text| >= filters.minTextLength.value
  }

  /** `apply_filters`: the three comprehensions in turn, then `[:top_k]`. */
  function ApplyFilters(results: seq<Hit>, filters: Filters, topK: int): (r: seq<Hit>)
    ensures |r| <= |results|
    ensures topK >= 0 ==> |r| <= topK
  {
    var byName := if FilenameActive(filters) then Filter(results, h => MatchesFilename(filters, h)) else results;
    var byRange := if RangeActive(filters) then Filter(byName, h => InChunkRange(filters, h)) else byName;
    var byLength := if LengthActive(filters) then Filter(byRange, h => LongEnough(filters, h)) else byRange;
    SliceTo(byLength, topK)
  }

  /** A hit passes each filter that is switched on. */
  predicate NameOk(filters: Filters, h: Hit) { FilenameActive(filters) ==> MatchesFilename(filters, h) }
  predicate RangeOk(filters: Filters, h: Hit) { RangeActive(filters) ==> InChunkRange(filters, h) }
  predicate LengthOk(filters: Filters, h: Hit) { LengthActive(filters) ==> LongEnough(filters, h) }
  predicate NameAndRangeOk(filters: Filters, h: Hit) { NameOk(filters, h) && RangeOk(filters, h) }

  /** A hit passes every active filter. */
  predicate Passes(filters: Filters, h: Hit) {
    NameAndRangeOk(filters, h) && LengthOk(filters, h)
  }

  /** The three passes together keep exactly the hits that pass every active
      filter, in their original order, before the cut to `top_k`. */
  lemma ApplyFiltersIsOneFilter(results: seq<Hit>, filters: Filters, topK: int)
    ensures ApplyFilters(results, filters, topK) == SliceTo(Filter(results, h => Passes(filters, h)), topK)
  {
    var pName := h => NameOk(filters, h);
    var pRange := h => RangeOk(filters, h);
    var pLength := h => LengthOk(filters, h);
    var pNameRange := h => NameAndRangeOk(filters, h);
    FilterTrue(results, pName, FilenameActive(filters), h => MatchesFilename(filters, h));
    var byName := if FilenameActive(filters) then Filter(results, h => MatchesFilename(filters, h)) else results;
    assert byName == Filter(results, pName);
    FilterTrue(byName, pRange, RangeActive(filters), h => InChunkRange(filters, h));
    FilterFilter(results, pName, pRange, pNameRange);
    var byRange := if RangeActive(filters) then Filter(byName, h => InChunkRange(filters, h)) else byName;
    assert byRange == Filter(results, pNameRange);
    FilterTrue(byRange, pLength, LengthActive(filters), h => LongEnough(filters, h));
    FilterFilter(results, pNameRange, pLength, h => Passes(filters, h));
  }

  /** Filtering by `active ==> test` is filtering by `test` when active and
      the identity otherwise. */
  lemma {:induction false} FilterTrue(s: seq<Hit>, p: Hit -> bool, active: bool, test: Hit -> bool)
    requires forall h :: p(h) == (active ==> test(h))
    ensures Filter(s, p) == if active then Filter(s, test) else s
  {
    if |s| > 0 {
      FilterTrue(s[1..], p, active, test);
      if !active {
        assert [s[0]] + s[1..] == s;
      }
    }
  }

  /** The result of `apply_filters` is an order-preserving subsequence of its
      input; every hit in it passes every active filter; it is no longer than
      a non-negative `top_k`; and if `top_k` is at least the number of passing
      hits, every passing hit is in it. */
  lemma ApplyFiltersProperties(results: seq<Hit>, filters: Filters, topK: int)
    ensures var r := ApplyFilters(results, filters, topK);
      && IsSubsequence(r, results)
      && (forall i :: 0 <= i < |r| ==> Passes(filters, r[i]))
      && (topK >= 0 ==> |r| <= topK)
      && (topK >= |results| ==> forall i :: 0 <= i < |results| && Passes(filters, results[i]) ==> results[i] in r)
  {
    ApplyFiltersIsOneFilter(results, filters, topK);
    var kept := Filter(results, h => Passes(filters, h));
    FilterIsSubsequence(results, h => Passes(filters, h));
    PrefixSubsequence(kept, results, SliceLen(|kept|, topK));
    var r := ApplyFilters(results, filters, topK);
    forall i | 0 <= i < |r| ensures Passes(filters, r[i]) {
      assert r[i] == kept[i];
    }
    if topK >= |results| {
      assert r == kept;
    }
  }

  // ---------------------------------------------------------------------
  // The search itself
  // ---------------------------------------------------------------------

  /** The dictionary `hybrid_search` returns. */
  datatype HybridResult = HybridResult(
    bm25: seq<Hit>,
    chroma: seq<Hit>,
    weightedCombination: seq<(string, real)>,
    finalScores: map<string, real>)

  /** `hybrid_search`. The two searches are given as functions from a query
      and a result count to hits. */
  method HybridSearchQuery(query: string, topK: int, filters: Filters,
                           bm25Search: (string, int) -> seq<Hit>,
                           chromaSearch: (string, int) -> seq<Hit>)
    returns (result: HybridResult)
    ensures result.bm25 == ApplyFilters(bm25Search(query, topK * 2), filters, topK)
    ensures result.chroma == ApplyFilters(chromaSearch(query, topK * 2), filters, topK)
    ensures result.finalScores == Fused(Normalized(Bm25, result.bm25), Normalized(Chroma, result.chroma), Bm25Weight)
    ensures exists ranked :: Ranks(ranked, result.finalScores) && result.weightedCombination == SliceTo(ranked, topK)
  {
    var bm25Results := bm25Search(query, topK * 2);
    var chromaResults := chromaSearch(query, topK * 2);
    var bm25Filtered := ApplyFilters(bm25Results, filters, topK);
    var chromaFiltered := ApplyFilters(chromaResults, filters, topK);
    var rankedDocs, finalScores := CombineWeightedResults(bm25Filtered, chromaFiltered, Bm25Weight);
    result := HybridResult(bm25Filtered, chromaFiltered, SliceTo(rankedDocs, topK), finalScores);
  }

  // ---------------------------------------------------------------------
  // A worked example
  // ---------------------------------------------------------------------

  /** The worked example's lexical hits A:10, B:6, C:2. */
  function ExampleLexical(): seq<Hit> {
    [Hit("A", 1, "a", 10.0), Hit("B", 1, "b", 6.0), Hit("C", 1, "c", 2.0)]
  }

  /** The worked example's vector hits A:0.1, B:0.5, D:0.9. */
  function ExampleVector(): seq<Hit> {
    [Hit("A", 1, "a", 0.1), Hit("B", 1, "b", 0.5), Hit("D", 1, "d", 0.9)]
  }

  /** The fused scores of the worked example. */
  function ExampleScores(): map<string, real> {
    map["A" := 1.0, "B" := 0.5, "C" := 0.0, "D" := 0.0]
  }

  /** The lexical scores normalise to A:1, B:0.5, C:0. */
  lemma ExampleLexicalNormalized()
    ensures Normalized(Bm25, ExampleLexical()) == map["A" := 1.0, "B" := 0.5, "C" := 0.0]
  {
    var hits := ExampleLexical();
    assert MaxValue(hits[1..]) == 6.0 && MinValue(hits[1..]) == 2.0;
    assert MaxValue(hits) == 10.0 && MinValue(hits) == 2.0;
    assert hits[..2][..1] == [hits[0]];
    assert Scale(Bm25, 10.0, 2.0, 10.0) == 1.0 && Scale(Bm25, 6.0, 2.0, 10.0) == 0.5 && Scale(Bm25, 2.0, 2.0, 10.0) == 0.0;
    assert Fill(Bm25, hits[..1], 2.0, 10.0) == map["A" := 1.0];
    assert Fill(Bm25, hits[..2], 2.0, 10.0) == map["A" := 1.0, "B" := 0.5];
  }

  /** The vector distances normalise, inverted, to A:1, B:0.5, D:0. */
  lemma ExampleVectorNormalized()
    ensures Normalized(Chroma, ExampleVector()) == map["A" := 1.0, "B" := 0.5, "D" := 0.0]
  {
    var hits := ExampleVector();
    assert MaxValue(hits[1..]) == 0.9 && MinValue(hits[1..]) == 0.5;
    assert MaxValue(hits) == 0.9 && MinValue(hits) == 0.1;
    assert hits[..2][..1] == [hits[0]];
    assert Scale(Chroma, 0.1, 0.1, 0.9) == 1.0 && Scale(Chroma, 0.5, 0.1, 0.9) == 0.5 && Scale(Chroma, 0.9, 0.1, 0.9) == 0.0;
    assert Fill(Chroma, hits[..1], 0.1, 0.9) == map["A" := 1.0];
    assert Fill(Chroma, hits[..2], 0.1, 0.9) == map["A" := 1.0, "B" := 0.5];
  }

  /** At weight 0.5 the example fuses to A:1, B:0.5, C:0, D:0. */
  lemma FusionExample()
    ensures Fused(Normalized(Bm25, ExampleLexical()), Normalized(Chroma, ExampleVector()), Bm25Weight) == ExampleScores()
  {
    ExampleLexicalNormalized();
    ExampleVectorNormalized();
    ExampleFused();
  }

  lemma ExampleFused()
    ensures Fused(map["A" := 1.0, "B" := 0.5, "C" := 0.0], map["A" := 1.0, "B" := 0.5, "D" := 0.0], Bm25Weight) == ExampleScores()
  {
    var nb := map["A" := 1.0, "B" := 0.5, "C" := 0.0];
    var nc := map["A" := 1.0, "B" := 0.5, "D" := 0.0];
    var fused := Fused(nb, nc, Bm25Weight);
    assert fused.Keys == {"A", "B", "C", "D"};
    assert fused["A"] == Weighted(1.0, 1.0, 0.5) == 1.0;
    assert fused["B"] == Weighted(0.5, 0.5, 0.5) == 0.5;
    assert fused["C"] == Weighted(0.0, 0.0, 0.5) == 0.0;
    assert fused["D"] == Weighted(0.0, 0.0, 0.5) == 0.0;
  }

  /** Every ranking of the worked example's fused scores starts with A, then B,
      so the top two are A and B. */
  lemma FusionExampleTopTwo(ranked: seq<(string, real)>)
    requires Ranks(ranked, ExampleScores())
    ensures |ranked| >= 2 && ranked[0].0 == "A" && ranked[1].0 == "B"
  {
    var fused := ExampleScores();
    assert "A" in fused && "B" in fused;
    var a :| 0 <= a < |ranked| && ranked[a].0 == "A";
    var b :| 0 <= b < |ranked| && ranked[b].0 == "B";
    assert ranked[a].1 == 1.0 && ranked[b].1 == 0.5;
    assert ranked[0].1 >= 1.0;
    assert ranked[0].0 in fused;
    assert ranked[0].0 == "A";
    assert b >= 1;
    assert ranked[1].1 >= 0.5;
    assert ranked[1].0 != "A" && ranked[1].0 in fused;
  }
}
