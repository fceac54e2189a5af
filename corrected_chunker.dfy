/**
 * The chunker with a split pass that can cut. In `_chunk_with_overlap` the
 * sentences lose their terminators before the chunks are joined, so the
 * lookbehind split of `_split_oversized_chunks` never finds a place to cut
 * (`SemanticChunker.ChunkNeverSplits`). Here every chunk is kept as the list
 * of sentences it was joined from. The sentence lists are merged by the same
 * rule as `_merge_tiny_chunks` and split by the same greedy packing as
 * `_split_oversized_chunks`, and they are joined only at the end. An
 * oversized chunk is then cut between its sentences, as the split pass
 * intends.
 */
module CorrectedChunker {
  import opened Builtins
  import opened SemanticChunker

  predicate NonEmptyGroups(gs: seq<seq<string>>) {
    forall i :: 0 <= i < |gs| ==> |gs[i]| > 0
  }

  /** Every sentence in the groups is one of `pool`. */
  predicate From(gs: seq<seq<string>>, pool: seq<string>) {
    forall i, j :: 0 <= i < |gs| && 0 <= j < |gs[i]| ==> gs[i][j] in pool
  }

  /** Joining two non-empty lists of sentences is joining their joins with
      one space. */
  lemma {:induction false} JoinAppend(a: seq<string>, b: seq<string>)
    requires |a| > 0 && |b| > 0
    ensures Join(a + b) == Join(a) + " " + Join(b)
    decreases |b|
  {
    var ab := a + b;
    if |b| == 1 {
      assert ab[..|ab| - 1] == a;
    } else {
      var init := b[..|b| - 1];
      var x := b[|b| - 1];
      assert ab[..|ab| - 1] == a + init;
      assert ab[|ab| - 1] == x;
      JoinAppend(a, init);
      var p := Join(a) + " ";
      AppendAssoc(p, Join(init), " ");
      AppendAssoc(p, Join(init) + " ", x);
    }
  }

  lemma JoinAllPrefix(gs: seq<seq<string>>)
    requires |gs| > 0
    ensures JoinAll(gs)[..|gs| - 1] == JoinAll(gs[..|gs| - 1])
    ensures JoinAll(gs)[|gs| - 1] == Join(gs[|gs| - 1])
  {
  }

  // ---------------------------------------------------------------------
  // The provisional chunks as sentence lists
  // ---------------------------------------------------------------------

  /** The sentences of every span. */
  function SpanGroups(sentences: seq<string>, spans: seq<Span>): (r: seq<seq<string>>)
    ensures |r| == |spans|
  {
    seq(|spans|, k requires 0 <= k < |spans| => Slice(sentences, spans[k].start, spans[k].end))
  }

  /** The span groups join to the provisional chunks; each non-empty span
      gives a non-empty group, and every sentence in them is one of the
      text's sentences. */
  lemma SpanGroupsShape(sentences: seq<string>, spans: seq<Span>)
    requires forall k :: 0 <= k < |spans| ==> spans[k].start < spans[k].end <= |sentences|
    ensures JoinAll(SpanGroups(sentences, spans)) == JoinSpans(sentences, spans)
    ensures NonEmptyGroups(SpanGroups(sentences, spans))
    ensures From(SpanGroups(sentences, spans), sentences)
  {
    SpanGroupsJoin(sentences, spans);
    SpanGroupsNonEmpty(sentences, spans);
    SpanGroupsFrom(sentences, spans);
  }

  lemma SpanGroupsJoin(sentences: seq<string>, spans: seq<Span>)
    ensures JoinAll(SpanGroups(sentences, spans)) == JoinSpans(sentences, spans)
  {
    JoinSpansAt(sentences, spans);
  }

  lemma SpanGroupsNonEmpty(sentences: seq<string>, spans: seq<Span>)
    requires forall k :: 0 <= k < |spans| ==> spans[k].start < spans[k].end <= |sentences|
    ensures NonEmptyGroups(SpanGroups(sentences, spans))
  {
    var sg := SpanGroups(sentences, spans);
    forall k | 0 <= k < |spans| ensures |sg[k]| > 0 {
      assert sg[k] == sentences[spans[k].start..spans[k].end];
    }
  }

  lemma SpanGroupsFrom(sentences: seq<string>, spans: seq<Span>)
    requires forall k :: 0 <= k < |spans| ==> spans[k].start < spans[k].end <= |sentences|
    ensures From(SpanGroups(sentences, spans), sentences)
  {
    var sg := SpanGroups(sentences, spans);
    forall k, j | 0 <= k < |sg| && 0 <= j < |sg[k]| ensures sg[k][j] in sentences {
      assert sg[k] == sentences[spans[k].start..spans[k].end];
      assert sg[k][j] == sentences[spans[k].start + j];
    }
  }

  // ---------------------------------------------------------------------
  // Merging sentence lists by the rule of `_merge_tiny_chunks`
  // ---------------------------------------------------------------------

  /** `Carry` on sentence lists: a tiny list is put in front of the next. */
  function CarryGroups(gs: seq<seq<string>>, minChunkWords: int): (c: seq<seq<string>>)
    ensures |c| == |gs|
  {
    if |gs| <= 1 then gs
    else
      var c := CarryGroups(gs[..|gs| - 1], minChunkWords);
      var prev := c[|c| - 1];
      c + [if IsTiny(Join(prev), minChunkWords) then prev + gs[|gs| - 1] else gs[|gs| - 1]]
  }

  /** `Kept` on sentence lists. */
  function KeptGroups(c: seq<seq<string>>, minChunkWords: int): seq<seq<string>> {
    if |c| == 0 then []
    else KeptGroups(c[..|c| - 1], minChunkWords) + (if IsTiny(Join(c[|c| - 1]), minChunkWords) then [] else [c[|c| - 1]])
  }

  /** `AttachLast` on sentence lists. */
  function AttachLastGroup(kept: seq<seq<string>>, last: seq<string>, minChunkWords: int): seq<seq<string>> {
    if !IsTiny(Join(last), minChunkWords) then kept + [last]
    else if |kept| > 0 then kept[..|kept| - 1] + [kept[|kept| - 1] + last]
    else [last]
  }

  /** `MergeTiny` on sentence lists. */
  function MergeTinyGroups(gs: seq<seq<string>>, minChunkWords: int): seq<seq<string>> {
    if |gs| <= 1 then gs
    else
      var c := CarryGroups(gs, minChunkWords);
      AttachLastGroup(KeptGroups(c[..|c| - 1], minChunkWords), c[|c| - 1], minChunkWords)
  }

  lemma {:induction false} CarryGroupsNonEmpty(gs: seq<seq<string>>, minChunkWords: int)
    requires NonEmptyGroups(gs)
    ensures NonEmptyGroups(CarryGroups(gs, minChunkWords))
    decreases |gs|
  {
    if |gs| > 1 {
      var init := gs[..|gs| - 1];
      assert forall i :: 0 <= i < |init| ==> init[i] == gs[i];
      CarryGroupsNonEmpty(init, minChunkWords);
    }
  }

  /** Carrying sentence lists and joining them is carrying the joined chunks. */
  lemma {:induction false} CarryGroupsJoin(gs: seq<seq<string>>, minChunkWords: int)
    requires NonEmptyGroups(gs)
    ensures JoinAll(CarryGroups(gs, minChunkWords)) == Carry(JoinAll(gs), minChunkWords)
    decreases |gs|
  {
    if |gs| > 1 {
      var init := gs[..|gs| - 1];
      assert forall i :: 0 <= i < |init| ==> init[i] == gs[i];
      CarryGroupsJoin(init, minChunkWords);
      CarryGroupsNonEmpty(init, minChunkWords);
      var c := CarryGroups(init, minChunkWords);
      CarryGroupsJoinStep(gs, minChunkWords, c[|c| - 1]);
    }
  }

  lemma CarryGroupsJoinStep(gs: seq<seq<string>>, minChunkWords: int, prev: seq<string>)
    requires |gs| > 1 && |gs[|gs| - 1]| > 0
    requires var c := CarryGroups(gs[..|gs| - 1], minChunkWords); prev == c[|c| - 1] && |prev| > 0
    requires JoinAll(CarryGroups(gs[..|gs| - 1], minChunkWords)) == Carry(JoinAll(gs[..|gs| - 1]), minChunkWords)
    ensures JoinAll(CarryGroups(gs, minChunkWords)) == Carry(JoinAll(gs), minChunkWords)
  {
    var init := gs[..|gs| - 1];
    var g := gs[|gs| - 1];
    var c := CarryGroups(init, minChunkWords);
    var last := if IsTiny(Join(prev), minChunkWords) then prev + g else g;
    if IsTiny(Join(prev), minChunkWords) {
      JoinAppend(prev, g);
    }
    assert CarryGroups(gs, minChunkWords) == c + [last];
    JoinAllSnoc(c, last);
    JoinAllPrefix(gs);
    JoinAllPrefix(c);
    CarryStep(JoinAll(gs), minChunkWords);
  }

  lemma {:induction false} KeptGroupsJoin(c: seq<seq<string>>, minChunkWords: int)
    requires NonEmptyGroups(c)
    ensures NonEmptyGroups(KeptGroups(c, minChunkWords))
    ensures JoinAll(KeptGroups(c, minChunkWords)) == Kept(JoinAll(c), minChunkWords)
    decreases |c|
  {
    if |c| > 0 {
      var init := c[..|c| - 1];
      var x := c[|c| - 1];
      assert forall i :: 0 <= i < |init| ==> init[i] == c[i];
      KeptGroupsJoin(init, minChunkWords);
      JoinAllPrefix(c);
      var k := KeptGroups(init, minChunkWords);
      if IsTiny(Join(x), minChunkWords) {
        assert KeptGroups(c, minChunkWords) == k + [];
      } else {
        JoinAllSnoc(k, x);
      }
    }
  }

  lemma AttachLastGroupNonEmpty(kept: seq<seq<string>>, last: seq<string>, minChunkWords: int)
    requires NonEmptyGroups(kept) && |last| > 0
    ensures NonEmptyGroups(AttachLastGroup(kept, last, minChunkWords))
  {
    var r := AttachLastGroup(kept, last, minChunkWords);
    forall i | 0 <= i < |r| ensures |r[i]| > 0 {
      if i < |kept| && (!IsTiny(Join(last), minChunkWords) || i < |kept| - 1) {
        assert r[i] == kept[i];
      }
    }
  }

  /** The tiny last list put behind the one before it. */
  lemma AttachMergedJoin(kept: seq<seq<string>>, last: seq<string>)
    requires |kept| > 0 && |kept[|kept| - 1]| > 0 && |last| > 0
    ensures JoinAll(kept[..|kept| - 1] + [kept[|kept| - 1] + last])
      == JoinAll(kept)[..|kept| - 1] + [JoinAll(kept)[|kept| - 1] + " " + Join(last)]
  {
    var front := kept[..|kept| - 1];
    var k := kept[|kept| - 1];
    JoinAllPrefix(kept);
    JoinAppend(k, last);
    JoinAllSnoc(front, k + last);
  }

  lemma AttachLastGroupJoin(kept: seq<seq<string>>, last: seq<string>, minChunkWords: int)
    requires NonEmptyGroups(kept) && |last| > 0
    ensures JoinAll(AttachLastGroup(kept, last, minChunkWords)) == AttachLast(JoinAll(kept), Join(last), minChunkWords)
  {
    if !IsTiny(Join(last), minChunkWords) {
      JoinAllSnoc(kept, last);
    } else if |kept| > 0 {
      AttachMergedJoin(kept, last);
    }
  }

  /** Merging sentence lists and joining them is merging the joined chunks. */
  lemma MergeTinyGroupsJoin(gs: seq<seq<string>>, minChunkWords: int)
    requires NonEmptyGroups(gs)
    ensures NonEmptyGroups(MergeTinyGroups(gs, minChunkWords))
    ensures JoinAll(MergeTinyGroups(gs, minChunkWords)) == MergeTiny(JoinAll(gs), minChunkWords)
  {
    if |gs| > 1 {
      var c := CarryGroups(gs, minChunkWords);
      CarryGroupsJoin(gs, minChunkWords);
      CarryGroupsNonEmpty(gs, minChunkWords);
      var init := c[..|c| - 1];
      assert forall i :: 0 <= i < |init| ==> init[i] == c[i];
      KeptGroupsJoin(init, minChunkWords);
      JoinAllPrefix(c);
      AttachLastGroupNonEmpty(KeptGroups(init, minChunkWords), c[|c| - 1], minChunkWords);
      AttachLastGroupJoin(KeptGroups(init, minChunkWords), c[|c| - 1], minChunkWords);
    }
  }

  lemma {:induction false} CarryGroupsFrom(gs: seq<seq<string>>, minChunkWords: int, pool: seq<string>)
    requires From(gs, pool)
    ensures From(CarryGroups(gs, minChunkWords), pool)
    decreases |gs|
  {
    if |gs| > 1 {
      var init := gs[..|gs| - 1];
      var g := gs[|gs| - 1];
      assert forall i :: 0 <= i < |init| ==> init[i] == gs[i];
      CarryGroupsFrom(init, minChunkWords, pool);
      var c := CarryGroups(init, minChunkWords);
      var prev := c[|c| - 1];
      var last := if IsTiny(Join(prev), minChunkWords) then prev + g else g;
      var r := c + [last];
      assert CarryGroups(gs, minChunkWords) == r;
      forall i, j | 0 <= i < |r| && 0 <= j < |r[i]| ensures r[i][j] in pool {
        if i < |c| {
          assert r[i] == c[i];
        } else if last == prev + g && j < |prev| {
          assert r[i][j] == prev[j];
        } else if last == prev + g {
          assert r[i][j] == g[j - |prev|];
        } else {
          assert r[i][j] == g[j];
        }
      }
    }
  }

  lemma {:induction false} KeptGroupsFrom(c: seq<seq<string>>, minChunkWords: int, pool: seq<string>)
    requires From(c, pool)
    ensures From(KeptGroups(c, minChunkWords), pool)
    decreases |c|
  {
    if |c| > 0 {
      var init := c[..|c| - 1];
      assert forall i :: 0 <= i < |init| ==> init[i] == c[i];
      KeptGroupsFrom(init, minChunkWords, pool);
    }
  }

  /** Merging only regroups sentences: every sentence of the merged lists is
      one of the input's. */
  lemma MergeTinyGroupsFrom(gs: seq<seq<string>>, minChunkWords: int, pool: seq<string>)
    requires From(gs, pool)
    ensures From(MergeTinyGroups(gs, minChunkWords), pool)
  {
    if |gs| > 1 {
      var c := CarryGroups(gs, minChunkWords);
      CarryGroupsFrom(gs, minChunkWords, pool);
      var init := c[..|c| - 1];
      assert forall i :: 0 <= i < |init| ==> init[i] == c[i];
      KeptGroupsFrom(init, minChunkWords, pool);
      var kept := KeptGroups(init, minChunkWords);
      var last := c[|c| - 1];
      var r := AttachLastGroup(kept, last, minChunkWords);
      forall i, j | 0 <= i < |r| && 0 <= j < |r[i]| ensures r[i][j] in pool {
        if !IsTiny(Join(last), minChunkWords) || |kept| == 0 {
          if i < |kept| {
            assert r[i] == kept[i];
          }
        } else if i < |kept| - 1 {
          assert r[i] == kept[i];
        } else if j < |kept[|kept| - 1]| {
          assert r[i][j] == kept[|kept| - 1][j];
        } else {
          assert r[i][j] == last[j - |kept[|kept| - 1]|];
        }
      }
    }
  }

  // ---------------------------------------------------------------------
  // Splitting sentence lists
  // ---------------------------------------------------------------------

  /** One chunk: kept whole within the budget, otherwise packed greedily from
      its own sentences. */
  function SplitGroup(g: seq<string>, maxChunkWords: int): seq<string> {
    if |Words(Join(g))| <= maxChunkWords then [Join(g)]
    else JoinAll(Pack(g, maxChunkWords))
  }

  function SplitGroups(gs: seq<seq<string>>, maxChunkWords: int): seq<string> {
    if |gs| == 0 then []
    else SplitGroups(gs[..|gs| - 1], maxChunkWords) + SplitGroup(gs[|gs| - 1], maxChunkWords)
  }

  /** The pieces of one chunk hold its words in order, and each is within the
      budget or is one of its sentences. */
  lemma SplitGroupProperties(g: seq<string>, maxChunkWords: int)
    ensures FlatWords(SplitGroup(g, maxChunkWords)) == Words(Join(g))
    ensures forall p :: p in SplitGroup(g, maxChunkWords) ==> |Words(p)| <= maxChunkWords || p in g
  {
    if |Words(Join(g))| <= maxChunkWords {
      FlatWordsSingle(Join(g));
    } else {
      var groups := Pack(g, maxChunkWords);
      PackShape(g, maxChunkWords);
      JoinAllWords(groups);
      WordsOfJoin(g);
      forall p | p in SplitGroup(g, maxChunkWords) ensures |Words(p)| <= maxChunkWords || p in g {
        var i :| 0 <= i < |groups| && p == Join(groups[i]);
        assert groups[i] in groups;
        if |groups[i]| == 1 {
          InConcat(groups, i, 0);
        } else {
          WordsOfJoin(groups[i]);
        }
      }
    }
  }

  /** Splitting keeps the words of the joined lists, in order. */
  lemma {:induction false} SplitGroupsWords(gs: seq<seq<string>>, maxChunkWords: int)
    ensures FlatWords(SplitGroups(gs, maxChunkWords)) == FlatWords(JoinAll(gs))
    decreases |gs|
  {
    if |gs| > 0 {
      var init := gs[..|gs| - 1];
      var g := gs[|gs| - 1];
      SplitGroupsWords(init, maxChunkWords);
      SplitGroupsWordsStep(init, g, maxChunkWords);
      assert gs == init + [g];
    }
  }

  lemma SplitGroupsWordsStep(init: seq<seq<string>>, g: seq<string>, maxChunkWords: int)
    requires FlatWords(SplitGroups(init, maxChunkWords)) == FlatWords(JoinAll(init))
    ensures FlatWords(SplitGroups(init + [g], maxChunkWords)) == FlatWords(JoinAll(init + [g]))
  {
    var gs := init + [g];
    assert gs[..|gs| - 1] == init && gs[|gs| - 1] == g;
    SplitGroupProperties(g, maxChunkWords);
    FlatWordsAppend(SplitGroups(init, maxChunkWords), SplitGroup(g, maxChunkWords));
    JoinAllSnoc(init, g);
    FlatWordsSnoc(JoinAll(init), Join(g));
  }

  /** Every chunk of the split is within the budget or is a single sentence
      of the pool. */
  lemma {:induction false} SplitGroupsBound(gs: seq<seq<string>>, maxChunkWords: int, pool: seq<string>)
    requires From(gs, pool)
    ensures forall p :: p in SplitGroups(gs, maxChunkWords) ==> |Words(p)| <= maxChunkWords || p in pool
    decreases |gs|
  {
    if |gs| > 0 {
      var init := gs[..|gs| - 1];
      var g := gs[|gs| - 1];
      assert forall i :: 0 <= i < |init| ==> init[i] == gs[i];
      SplitGroupsBound(init, maxChunkWords, pool);
      SplitGroupProperties(g, maxChunkWords);
      forall p | p in SplitGroup(g, maxChunkWords) && p in g ensures p in pool {
        var j :| 0 <= j < |g| && g[j] == p;
        assert gs[|gs| - 1][j] == p;
      }
    }
  }

  /** Lists whose joins are all within the budget are only joined. */
  lemma {:induction false} SplitGroupsSmall(gs: seq<seq<string>>, maxChunkWords: int)
    requires forall i :: 0 <= i < |gs| ==> |Words(Join(gs[i]))| <= maxChunkWords
    ensures SplitGroups(gs, maxChunkWords) == JoinAll(gs)
    decreases |gs|
  {
    if |gs| > 0 {
      var init := gs[..|gs| - 1];
      assert forall i :: 0 <= i < |init| ==> init[i] == gs[i];
      SplitGroupsSmall(init, maxChunkWords);
      assert gs == init + [gs[|gs| - 1]];
      JoinAllSnoc(init, gs[|gs| - 1]);
    }
  }

  // ---------------------------------------------------------------------
  // The corrected chunker
  // ---------------------------------------------------------------------

  /** `chunk(text)` with a split pass that cuts an oversized chunk between
      the sentences it was made of. */
  function CorrectedChunk(text: string, sim: seq<real>, cfg: Config): seq<string>
    requires |Sentences(text)| >= 2 ==> |sim| == |Sentences(text)| - 1
  {
    var sentences := Sentences(text);
    var bps := Breakpoints(sim, cfg.threshold);
    if |sentences| <= 1 || bps == [] then [text]
    else
      var spans := Spans(sim, cfg.overlapThreshold, bps, 0, |sentences|);
      SplitGroups(MergeTinyGroups(SpanGroups(sentences, spans), cfg.minChunkWords), cfg.maxChunkWords)
  }

  /** The corrected chunker keeps the words of `chunk(text)` in order. Every
      chunk it emits is within `maxChunkWords` words, unless it is a single
      sentence of the text. It differs from `chunk` only where a chunk of
      `chunk(text)` is over the budget. */
  lemma CorrectedChunkProperties(text: string, sim: seq<real>, cfg: Config)
    requires |Sentences(text)| >= 2 ==> |sim| == |Sentences(text)| - 1
    ensures FlatWords(CorrectedChunk(text, sim, cfg)) == FlatWords(Chunk(text, sim, cfg))
    ensures |Sentences(text)| >= 2 && Breakpoints(sim, cfg.threshold) != [] ==>
      forall p :: p in CorrectedChunk(text, sim, cfg) ==> |Words(p)| <= cfg.maxChunkWords || p in Sentences(text)
    ensures (forall c :: c in Chunk(text, sim, cfg) ==> |Words(c)| <= cfg.maxChunkWords)
      ==> CorrectedChunk(text, sim, cfg) == Chunk(text, sim, cfg)
  {
    var sentences := Sentences(text);
    var bps := Breakpoints(sim, cfg.threshold);
    if |sentences| >= 2 && bps != [] {
      var spans := Spans(sim, cfg.overlapThreshold, bps, 0, |sentences|);
      RawChunksShape(sentences, sim, cfg);
      SpanGroupsShape(sentences, spans);
      var sg := SpanGroups(sentences, spans);
      var mg := MergeTinyGroups(sg, cfg.minChunkWords);
      MergeTinyGroupsJoin(sg, cfg.minChunkWords);
      MergeTinyGroupsFrom(sg, cfg.minChunkWords, sentences);
      ChunkNeverSplits(text, sim, cfg);
      assert JoinAll(mg) == Chunk(text, sim, cfg);
      SplitGroupsWords(mg, cfg.maxChunkWords);
      SplitGroupsBound(mg, cfg.maxChunkWords, sentences);
      if forall c :: c in Chunk(text, sim, cfg) ==> |Words(c)| <= cfg.maxChunkWords {
        forall i | 0 <= i < |mg| ensures |Words(Join(mg[i]))| <= cfg.maxChunkWords {
          assert JoinAll(mg)[i] in Chunk(text, sim, cfg);
        }
        SplitGroupsSmall(mg, cfg.maxChunkWords);
      }
    }
  }

  /** On the worked text "a. b" with a one-word budget, the corrected chunker
      cuts the two-sentence chunk "a b" that `chunk` emits whole. */
  lemma CorrectedChunkExample()
    ensures Sentences("a. b") == ["a", "b"]
      && CorrectedChunk("a. b", [0.0], Config(0.02, 0.5, 1, 1)) == ["a", "a", "b"]
  {
    var cfg := Config(0.02, 0.5, 1, 1);
    ExampleSentences();
    ExampleRawChunks(cfg);
    ExampleWords();
    ExampleSpanGroups();
    ExampleMergeGroups();
    ExampleSplitGroups();
  }

  lemma ExampleSpanGroups()
    ensures SpanGroups(["a", "b"], [Span(0, 1), Span(0, 2)]) == [["a"], ["a", "b"]]
  {
    assert Slice(["a", "b"], 0, 1) == ["a"];
    assert Slice(["a", "b"], 0, 2) == ["a", "b"];
  }

  lemma ExampleMergeGroups()
    requires Words("a") == ["a"] && Words("a b") == ["a", "b"]
    ensures MergeTinyGroups([["a"], ["a", "b"]], 1) == [["a"], ["a", "b"]]
  {
    var sg := [["a"], ["a", "b"]];
    assert Join(["a"]) == "a";
    assert Join(["a", "b"]) == "a b";
    assert sg[..1] == [["a"]];
    assert CarryGroups(sg, 1) == sg;
    assert KeptGroups([["a"]], 1) == [["a"]];
  }

  lemma ExamplePack()
    requires Words("a") == ["a"] && Words("b") == ["b"]
    ensures Pack(["a", "b"], 1) == [["a"], ["b"]]
  {
    assert ["a", "b"][..1] == ["a"];
    assert Pack(["a"], 1) == [["a"]];
    FlatWordsSingle("a");
  }

  lemma ExampleSplitGroups()
    requires Words("a") == ["a"] && Words("a b") == ["a", "b"]
    ensures SplitGroups([["a"], ["a", "b"]], 1) == ["a", "a", "b"]
  {
    ExampleWordsB();
    ExamplePack();
    assert Join(["a"]) == "a";
    assert Join(["b"]) == "b";
    assert Join(["a", "b"]) == "a b";
    assert SplitGroup(["a"], 1) == ["a"];
    assert SplitGroup(["a", "b"], 1) == ["a", "b"];
    var sg := [["a"], ["a", "b"]];
    assert sg[..1] == [["a"]];
    assert [["a"]][..0] == [];
    assert SplitGroups([["a"]], 1) == ["a"];
  }

  lemma ExampleWordsB()
    ensures Words("b") == ["b"]
  {
    assert !IsSpace('b');
    assert "b"[1..] == "" && "b"[..1] == "b";
    assert WordLen("b") == 1;
  }
}
