/**
 * The lexical side of the search: the corpus cache that `_load_data` fills
 * once from the processed chunk files, and the top-k selection of
 * `bm25_search`. The BM25 scoring itself is an oracle: one score per
 * document, passed in.
 */
module Bm25 {
  import opened Builtins

  /** One entry of `metadata`. */
  datatype ChunkMeta = ChunkMeta(filename: string, chunkNumber: int, text: string)

  /** A file of the chunk directory: its directory entry name and the
      `filename` and `chunks` fields of its JSON content. */
  datatype ChunkFile = ChunkFile(name: string, filename: string, chunks: seq<string>)

  /** One search result. */
  datatype Result = Result(score: real, text: string, filename: string, chunkNumber: int)

  /** `text.lower().split()`. */
  function Tokens(text: string): (r: seq<string>)
    ensures |r| <= |text|
  {
    Words(Lower(text))
  }

  predicate IsChunkFile(f: ChunkFile) {
    EndsWith(f.name, "_chunks.json")
  }

  /** The metadata entries of one file, numbered from 1 in file order. */
  function FileEntries(f: ChunkFile): (r: seq<ChunkMeta>)
    ensures |r| == |f.chunks|
  {
    seq(|f.chunks|, i requires 0 <= i < |f.chunks| => ChunkMeta(f.filename, i + 1, f.chunks[i]))
  }

  /** The metadata a load appends: the entries of every chunk file, in
      directory order; other files contribute nothing. */
  function LoadedMeta(files: seq<ChunkFile>): (r: seq<ChunkMeta>)
    ensures forall i :: 0 <= i < |r| ==> r[i].chunkNumber >= 1
  {
    if |files| == 0 then []
    else
      var f := files[|files| - 1];
      LoadedMeta(files[..|files| - 1]) + (if IsChunkFile(f) then FileEntries(f) else [])
  }

  /** Loading a directory listing in two parts loads the parts one after the other. */
  lemma {:induction false} LoadedMetaAppend(a: seq<ChunkFile>, b: seq<ChunkFile>)
    ensures LoadedMeta(a + b) == LoadedMeta(a) + LoadedMeta(b)
    decreases |b|
  {
    if |b| == 0 {
      assert a + b == a;
      assert LoadedMeta(a) + [] == LoadedMeta(a);
    } else {
      var f := b[|b| - 1];
      assert (a + b)[..|a + b| - 1] == a + b[..|b| - 1];
      LoadedMetaAppend(a, b[..|b| - 1]);
      AppendAssoc(LoadedMeta(a), LoadedMeta(b[..|b| - 1]), if IsChunkFile(f) then FileEntries(f) else []);
    }
  }

  /** Files whose names do not end in `_chunks.json` are skipped: loading the
      listing is loading only its chunk files. */
  lemma {:induction false} LoadedMetaSkipsOthers(files: seq<ChunkFile>)
    ensures LoadedMeta(files) == LoadedMeta(Filter(files, IsChunkFile))
    decreases |files|
  {
    if |files| > 0 {
      var init, f := files[..|files| - 1], files[|files| - 1];
      assert files == init + [f];
      LoadedMetaSkipsOthers(init);
      FilterSnoc(init, f, IsChunkFile);
      if !IsChunkFile(f) {
        assert Filter(init, IsChunkFile) + [] == Filter(init, IsChunkFile);
        assert LoadedMeta(init) + [] == LoadedMeta(init);
      }
    }
  }

  /** A single chunk file contributes one entry per chunk: entry i carries the
      file's `filename`, chunk number i + 1 and the chunk text. */
  lemma LoadedMetaOfFile(f: ChunkFile)
    requires IsChunkFile(f)
    ensures |LoadedMeta([f])| == |f.chunks|
    ensures forall i :: 0 <= i < |f.chunks| ==> LoadedMeta([f])[i] == ChunkMeta(f.filename, i + 1, f.chunks[i])
  {
    assert [f][..0] == [];
  }

  /** The module-level cache: `documents` and `metadata`. */
  class Corpus {
    var documents: seq<seq<string>>
    var metadata: seq<ChunkMeta>

    /** The two lists are index-aligned, and each document is the token list
        of its entry's text. */
    ghost predicate Valid()
      reads this
    {
      |documents| == |metadata|
      && forall k :: 0 <= k < |documents| ==> documents[k] == Tokens(metadata[k].text)
    }

    constructor ()
      ensures documents == [] && metadata == []
      ensures Valid()
    {
      documents := [];
      metadata := [];
    }

    /** `_load_data`: a no-op once `documents` is non-empty; otherwise one
        document and one metadata entry are appended per chunk of every
        chunk file. */
    method LoadData(files: seq<ChunkFile>)
      requires Valid()
      modifies this
      ensures Valid()
      ensures old(documents) != [] ==> documents == old(documents) && metadata == old(metadata)
      ensures old(documents) == [] ==> metadata == LoadedMeta(files)
    {
      if documents != [] {
        return;
      }
      var fi := 0;
      while fi < |files|
        invariant 0 <= fi <= |files|
        invariant Valid()
        invariant metadata == LoadedMeta(files[..fi])
      {
        var f := files[fi];
        assert files[..fi + 1] == files[..fi] + [f];
        if EndsWith(f.name, "_chunks.json") {
          ghost var before := metadata;
          var i := 0;
          while i < |f.chunks|
            invariant 0 <= i <= |f.chunks|
            invariant Valid()
            invariant metadata == before + FileEntries(f)[..i]
          {
            documents := documents + [Tokens(f.chunks[i])];
            metadata := metadata + [ChunkMeta(f.filename, i + 1, f.chunks[i])];
            assert FileEntries(f)[..i + 1] == FileEntries(f)[..i] + [FileEntries(f)[i]];
            AppendAssoc(before, FileEntries(f)[..i], [FileEntries(f)[i]]);
            i := i + 1;
          }
          assert FileEntries(f)[..i] == FileEntries(f);
        } else {
          assert metadata + [] == metadata;
        }
        fi := fi + 1;
      }
      assert files[..fi] == files;
    }

    /** The selection loop of `bm25_search`: rank the (score, index) pairs,
        keep the first `topK`, and report those with a positive score. */
    method SelectTop(scores: seq<real>, topK: int) returns (results: seq<Result>)
      requires |scores| == |metadata|
      ensures results == Results(metadata, TopScored(scores, topK))
    {
      var scoredDocs := ScoredDocs(scores);
      scoredDocs := SortDescending(scoredDocs);
      var top := SliceTo(scoredDocs, topK);
      TopNamesDocs(scores, topK, top);
      results := [];
      var i := 0;
      while i < |top|
        invariant 0 <= i <= |top|
        invariant forall j :: 0 <= j < |top| ==> top[j].idx < |metadata|
        invariant results == Results(metadata, Filter(top[..i], Positive))
      {
        var sd := top[i];
        SelectStep(metadata, top, i);
        if sd.score > 0.0 {
          var m := metadata[sd.idx];
          results := results + [Result(sd.score, m.text, m.filename, m.chunkNumber)];
        }
        i := i + 1;
      }
      assert top[..i] == top;
    }

    /** `bm25_search`: load the corpus if needed, score every document against
        the tokenised query with the `getScores` oracle, and select. */
    method Search(files: seq<ChunkFile>, query: string, topK: int,
                  getScores: (seq<seq<string>>, seq<string>) -> seq<real>)
      returns (results: seq<Result>)
      requires Valid()
      requires forall docs, q :: |getScores(docs, q)| == |docs|
      modifies this
      ensures Valid()
      ensures old(documents) != [] ==> documents == old(documents) && metadata == old(metadata)
      ensures old(documents) == [] ==> metadata == LoadedMeta(files)
      ensures results == Results(metadata, TopScored(getScores(documents, Tokens(query)), topK))
    {
      LoadData(files);
      var scores := getScores(documents, Tokens(query));
      results := SelectTop(scores, topK);
    }
  }

  // ---------------------------------------------------------------------
  // Ranking
  // ---------------------------------------------------------------------

  /** A `(score, idx)` tuple. */
  datatype Scored = Scored(score: real, idx: nat)

  /** `[(score, idx) for idx, score in enumerate(scores)]`. */
  function ScoredDocs(scores: seq<real>): (r: seq<Scored>)
    ensures |r| == |scores|
  {
    seq(|scores|, i requires 0 <= i < |scores| => Scored(scores[i], i))
  }

  /** `a` comes before `b` in a tuple sort with `reverse=True`: a higher
      score, or an equal score and a higher index. */
  predicate Before(a: Scored, b: Scored) {
    a.score > b.score || (a.score == b.score && a.idx > b.idx)
  }

  predicate Descending(s: seq<Scored>) {
    forall i, j :: 0 <= i < j < |s| ==> Before(s[i], s[j])
  }

  predicate Positive(x: Scored) {
    x.score > 0.0
  }

  /** Insert `x` after every element that comes before it. */
  function InsertDescending(s: seq<Scored>, x: Scored): (r: seq<Scored>)
    ensures |r| == |s| + 1
  {
    if |s| == 0 then [x]
    else if Before(s[0], x) then [s[0]] + InsertDescending(s[1..], x)
    else [x] + s
  }

  /** `list.sort(reverse=True)` on tuples, written as an insertion sort. */
  function SortDescending(s: seq<Scored>): (r: seq<Scored>)
    ensures |r| == |s|
  {
    if |s| == 0 then []
    else InsertDescending(SortDescending(s[..|s| - 1]), s[|s| - 1])
  }

  /** The pairs `bm25_search` reports: the first `topK` of the ranking whose
      score is positive; each is the score of the document it names. */
  function TopScored(scores: seq<real>, topK: int): (t: seq<Scored>)
    ensures forall i :: 0 <= i < |t| ==> t[i].idx < |scores| && scores[t[i].idx] == t[i].score && t[i].score > 0.0
  {
    var ranked := SortDescending(ScoredDocs(scores));
    ScoredDocsDistinct(scores);
    SortDescendingProperties(ScoredDocs(scores));
    RankedPrefixAreDocs(scores, ranked, topK);
    Filter(SliceTo(ranked, topK), Positive)
  }

  /** The results for the selected pairs, read from `metadata`. */
  function Results(metadata: seq<ChunkMeta>, top: seq<Scored>): (r: seq<Result>)
    requires forall i :: 0 <= i < |top| ==> top[i].idx < |metadata|
  {
    seq(|top|, i requires 0 <= i < |top| =>
      Result(top[i].score, metadata[top[i].idx].text, metadata[top[i].idx].filename, metadata[top[i].idx].chunkNumber))
  }

  /** Every pair of the cut ranking names a document. */
  lemma TopNamesDocs(scores: seq<real>, topK: int, top: seq<Scored>)
    requires top == SliceTo(SortDescending(ScoredDocs(scores)), topK)
    ensures forall j :: 0 <= j < |top| ==> top[j].idx < |scores|
  {
    ScoredDocsDistinct(scores);
    SortDescendingProperties(ScoredDocs(scores));
    RankedPrefixAreDocs(scores, SortDescending(ScoredDocs(scores)), topK);
  }

  /** One turn of the selection loop: the pair at `i` is reported exactly
      when its score is positive. */
  lemma SelectStep(metadata: seq<ChunkMeta>, top: seq<Scored>, i: nat)
    requires i < |top|
    requires forall j :: 0 <= j < |top| ==> top[j].idx < |metadata|
    ensures var x := top[i];
      Results(metadata, Filter(top[..i + 1], Positive))
      == Results(metadata, Filter(top[..i], Positive))
         + (if x.score > 0.0 then [Result(x.score, metadata[x.idx].text, metadata[x.idx].filename, metadata[x.idx].chunkNumber)] else [])
  {
    var x := top[i];
    assert top[..i + 1] == top[..i] + [x];
    FilterSnoc(top[..i], x, Positive);
    if x.score > 0.0 {
      ResultsSnoc(metadata, Filter(top[..i], Positive), x);
    } else {
      assert Filter(top[..i], Positive) + [] == Filter(top[..i], Positive);
      assert Results(metadata, Filter(top[..i], Positive)) + [] == Results(metadata, Filter(top[..i], Positive));
    }
  }

  lemma ResultsSnoc(metadata: seq<ChunkMeta>, top: seq<Scored>, x: Scored)
    requires forall i :: 0 <= i < |top| ==> top[i].idx < |metadata|
    requires x.idx < |metadata|
    ensures Results(metadata, top + [x])
      == Results(metadata, top) + [Result(x.score, metadata[x.idx].text, metadata[x.idx].filename, metadata[x.idx].chunkNumber)]
  {
  }

  /** Every pair of a prefix of the ranking is the score of the document it names. */
  lemma RankedPrefixAreDocs(scores: seq<real>, ranked: seq<Scored>, k: int)
    requires multiset(ranked) == multiset(ScoredDocs(scores))
    ensures forall j :: 0 <= j < |SliceTo(ranked, k)| ==>
      SliceTo(ranked, k)[j].idx < |scores| && scores[SliceTo(ranked, k)[j].idx] == SliceTo(ranked, k)[j].score
  {
    var top := SliceTo(ranked, k);
    forall j | 0 <= j < |top| ensures top[j].idx < |scores| && scores[top[j].idx] == top[j].score {
      assert top[j] == ranked[j];
      InRankedIsDoc(scores, ranked, top[j]);
    }
  }

  lemma ScoredDocsDistinct(scores: seq<real>)
    ensures DistinctIdx(ScoredDocs(scores))
  {
  }

  lemma InRankedIsDoc(scores: seq<real>, ranked: seq<Scored>, x: Scored)
    requires multiset(ranked) == multiset(ScoredDocs(scores))
    requires x in ranked
    ensures x.idx < |scores| && scores[x.idx] == x.score
  {
    assert x in multiset(ranked);
    var d := ScoredDocs(scores);
    assert x in multiset(d);
    var i :| 0 <= i < |d| && d[i] == x;
  }

  lemma BeforeTotal(a: Scored, b: Scored)
    requires a.idx != b.idx
    ensures Before(a, b) || Before(b, a)
  {
  }

  lemma DescendingCons(y: Scored, r: seq<Scored>)
    requires Descending(r)
    requires forall j :: 0 <= j < |r| ==> Before(y, r[j])
    ensures Descending([y] + r)
  {
    var s := [y] + r;
    forall i, j | 0 <= i < j < |s| ensures Before(s[i], s[j]) {
      assert s[j] == r[j - 1];
      if i > 0 {
        assert s[i] == r[i - 1];
      }
    }
  }

  lemma DescendingTail(s: seq<Scored>)
    requires Descending(s) && |s| > 0
    ensures Descending(s[1..])
    ensures forall j :: 0 <= j < |s| - 1 ==> Before(s[0], s[1..][j])
  {
    forall i, j | 0 <= i < j < |s| - 1 ensures Before(s[1..][i], s[1..][j]) {
      assert s[1..][i] == s[i + 1] && s[1..][j] == s[j + 1];
    }
    forall j | 0 <= j < |s| - 1 ensures Before(s[0], s[1..][j]) {
      assert s[1..][j] == s[j + 1];
    }
  }

  /** Inserting an element whose index is new into a ranking gives a ranking
      with that element added. */
  lemma {:induction false} InsertDescendingProperties(s: seq<Scored>, x: Scored)
    requires Descending(s)
    requires forall i :: 0 <= i < |s| ==> s[i].idx != x.idx
    ensures multiset(InsertDescending(s, x)) == multiset(s) + multiset{x}
    ensures Descending(InsertDescending(s, x))
    decreases |s|
  {
    if |s| == 0 {
    } else if Before(s[0], x) {
      var tail := s[1..];
      DescendingTail(s);
      InsertDescendingProperties(tail, x);
      var rest := InsertDescending(tail, x);
      assert s == [s[0]] + tail;
      forall j | 0 <= j < |rest| ensures Before(s[0], rest[j]) {
        assert rest[j] in multiset(rest);
        if rest[j] != x {
          assert rest[j] in multiset(tail);
          var k :| 0 <= k < |tail| && tail[k] == rest[j];
        }
      }
      DescendingCons(s[0], rest);
    } else {
      BeforeTotal(s[0], x);
      forall j | 0 <= j < |s| ensures Before(x, s[j]) {
        if j > 0 {
          assert Before(s[0], s[j]);
        }
      }
      DescendingCons(x, s);
    }
  }

  predicate DistinctIdx(s: seq<Scored>) {
    forall i, j :: 0 <= i < j < |s| ==> s[i].idx != s[j].idx
  }

  /** The insertion sort yields a ranking of the same pairs. */
  lemma {:induction false} SortDescendingProperties(s: seq<Scored>)
    requires DistinctIdx(s)
    ensures multiset(SortDescending(s)) == multiset(s)
    ensures Descending(SortDescending(s))
    decreases |s|
  {
    if |s| > 0 {
      var init, x := s[..|s| - 1], s[|s| - 1];
      assert DistinctIdx(init);
      SortDescendingProperties(init);
      var sorted := SortDescending(init);
      forall i | 0 <= i < |sorted| ensures sorted[i].idx != x.idx {
        assert sorted[i] in multiset(init);
        var k :| 0 <= k < |init| && init[k] == sorted[i];
      }
      InsertDescendingProperties(sorted, x);
      assert s == init + [x];
    }
  }

  /** Keeping only some pairs of a ranking leaves a ranking. */
  lemma {:induction false} FilterDescending(s: seq<Scored>, p: Scored -> bool)
    requires Descending(s)
    ensures Descending(Filter(s, p))
    decreases |s|
  {
    if |s| > 0 {
      DescendingTail(s);
      FilterDescending(s[1..], p);
      var rest := Filter(s[1..], p);
      if p(s[0]) {
        forall j | 0 <= j < |rest| ensures Before(s[0], rest[j]) {
          var k :| 0 <= k < |s[1..]| && s[1..][k] == rest[j];
        }
        DescendingCons(s[0], rest);
      } else {
        assert [] + rest == rest;
      }
    }
  }

  /** What `bm25_search` promises about its selection: at most `topK` pairs,
      best first, every pair left out with a positive score ranks after every
      pair reported, and with `topK` at least the corpus size every document
      with a positive score is reported. */
  lemma TopScoredProperties(scores: seq<real>, topK: int)
    ensures var t := TopScored(scores, topK);
      (topK >= 0 ==> |t| <= topK)
      && Descending(t)
      && (forall i, j :: 0 <= i < |t| && 0 <= j < |scores| && scores[j] > 0.0 && Scored(scores[j], j) !in t
            ==> Before(t[i], Scored(scores[j], j)))
      && (topK >= |scores| ==> forall j :: 0 <= j < |scores| && scores[j] > 0.0 ==> Scored(scores[j], j) in t)
      && (topK >= 0 && |t| < topK ==> forall j :: 0 <= j < |scores| && scores[j] > 0.0 ==> Scored(scores[j], j) in t)
  {
    var docs := ScoredDocs(scores);
    ScoredDocsDistinct(scores);
    SortDescendingProperties(docs);
    var ranked := SortDescending(docs);
    var top := SliceTo(ranked, topK);
    var t := TopScored(scores, topK);
    assert t == Filter(top, Positive);
    FilterDescending(ranked[..|top|], Positive);
    forall i, j | 0 <= i < |t| && 0 <= j < |scores| && scores[j] > 0.0 && Scored(scores[j], j) !in t
      ensures Before(t[i], Scored(scores[j], j))
    {
      assert docs[j] == Scored(scores[j], j);
      assert docs[j] in multiset(ranked);
      LeftOutRanksAfter(ranked, |top|, t, docs[j], i);
    }
    if topK >= |scores| {
      assert |ranked| == |scores| by {
        assert |multiset(ranked)| == |multiset(docs)|;
      }
      assert top == ranked;
      forall j | 0 <= j < |scores| && scores[j] > 0.0 ensures Scored(scores[j], j) in t {
        assert docs[j] == Scored(scores[j], j);
        assert docs[j] in multiset(ranked);
        var q :| 0 <= q < |ranked| && ranked[q] == docs[j];
      }
    }
    if topK >= 0 && |t| < topK {
      TopScoredComplete(scores, topK);
    }
  }

  /** Fewer than `topK` pairs are reported only when every document with a
      positive score is among them. */
  lemma TopScoredComplete(scores: seq<real>, topK: int)
    requires topK >= 0 && |TopScored(scores, topK)| < topK
    ensures forall j :: 0 <= j < |scores| && scores[j] > 0.0 ==> Scored(scores[j], j) in TopScored(scores, topK)
  {
    var docs := ScoredDocs(scores);
    ScoredDocsDistinct(scores);
    SortDescendingProperties(docs);
    var ranked := SortDescending(docs);
    var top := SliceTo(ranked, topK);
    var t := TopScored(scores, topK);
    assert t == Filter(top, Positive);
    forall j | 0 <= j < |scores| && scores[j] > 0.0 ensures Scored(scores[j], j) in t {
      assert docs[j] == Scored(scores[j], j);
      assert docs[j] in multiset(ranked);
      var q :| 0 <= q < |ranked| && ranked[q] == docs[j];
      ShortCutHoldsPositive(ranked, topK, q);
      assert top[q] == ranked[q];
    }
  }

  /** A cut of a descending ranking that keeps fewer than `topK` positive
      pairs has reached a pair that is not positive, or the end of the
      ranking; so every positive pair lies before the cut. */
  lemma ShortCutHoldsPositive(ranked: seq<Scored>, topK: int, q: nat)
    requires Descending(ranked) && 0 <= topK
    requires |Filter(SliceTo(ranked, topK), Positive)| < topK
    requires q < |ranked| && Positive(ranked[q])
    ensures q < |SliceTo(ranked, topK)|
  {
    var top := SliceTo(ranked, topK);
    if |top| < |ranked| {
      FilterShortHasRejected(top, Positive);
      var p :| 0 <= p < |top| && !Positive(top[p]);
      assert top[p] == ranked[p];
    }
  }

  /** A filter that drops something drops some element of the list. */
  lemma {:induction false} FilterShortHasRejected<T>(s: seq<T>, p: T -> bool)
    requires |Filter(s, p)| < |s|
    ensures exists i :: 0 <= i < |s| && !p(s[i])
    decreases |s|
  {
    if p(s[0]) {
      assert Filter(s, p) == [s[0]] + Filter(s[1..], p);
      FilterShortHasRejected(s[1..], p);
      var i :| 0 <= i < |s[1..]| && !p(s[1..][i]);
      assert s[i + 1] == s[1..][i];
    }
  }

  /** A positive pair of the ranking that the selection left out lies beyond
      the cut, so after every selected pair. */
  lemma LeftOutRanksAfter(ranked: seq<Scored>, m: nat, t: seq<Scored>, d: Scored, i: nat)
    requires Descending(ranked) && m <= |ranked|
    requires t == Filter(ranked[..m], Positive)
    requires d in ranked && Positive(d) && d !in t
    requires i < |t|
    ensures Before(t[i], d)
  {
    var top := ranked[..m];
    forall k | 0 <= k < m ensures ranked[k] != d {
      assert top[k] == ranked[k];
      assert Positive(top[k]) ==> top[k] in t;
    }
    var q :| 0 <= q < |ranked| && ranked[q] == d;
    var p :| 0 <= p < |top| && top[p] == t[i];
    assert top[p] == ranked[p];
  }

  /** The results of `bm25_search` for a score list: at most `topK`, each
      with a positive score that is its document's score, text, filename and
      chunk number read from that document's metadata, in non-increasing
      score order. */
  lemma SelectedResults(metadata: seq<ChunkMeta>, scores: seq<real>, topK: int)
    requires |scores| == |metadata|
    ensures var t := TopScored(scores, topK); var r := Results(metadata, t);
      |r| == |t|
      && (topK >= 0 ==> |r| <= topK)
      && (forall i :: 0 <= i < |r| ==>
            r[i].score > 0.0 && r[i].score == scores[t[i].idx]
            && r[i].text == metadata[t[i].idx].text
            && r[i].filename == metadata[t[i].idx].filename
            && r[i].chunkNumber == metadata[t[i].idx].chunkNumber)
      && (forall i, j :: 0 <= i < j < |r| ==> r[i].score >= r[j].score)
  {
    var t := TopScored(scores, topK);
    TopScoredProperties(scores, topK);
    var r := Results(metadata, t);
    forall i, j | 0 <= i < j < |r| ensures r[i].score >= r[j].score {
      assert Before(t[i], t[j]);
    }
  }
}
