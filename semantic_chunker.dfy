/**
 * The semantic chunker: sentence splitting, similarity breakpoints, the
 * backward overlap walk, and the two size passes (merge tiny chunks, then
 * split oversized ones).
 *
 * The embedding model is not part of this model. The chunker only ever reads
 * the similarity of each sentence to the next one, so the caller passes those
 * values as `sim`, where `sim[i]` is the similarity of sentence i to sentence
 * i + 1.
 */
module SemanticChunker {
  import opened Builtins

  /** The chunker's settings, as taken by its constructor. */
  datatype Config = Config(
    threshold: real,
    overlapThreshold: real,
    minChunkWords: int,
    maxChunkWords: int)

  const DefaultConfig := Config(0.02, 0.5, 250, 800)

  // ---------------------------------------------------------------------
  // Sentences: the trimmed, non-empty pieces between runs of `.`, `!`, `?`
  // ---------------------------------------------------------------------

  predicate IsTerminator(c: char) {
    c == '.' || c == '!' || c == '?'
  }

  predicate NoTerminator(s: string) {
    forall i :: 0 <= i < |s| ==> !IsTerminator(s[i])
  }

  /** Index of the first terminator of `s`, or `|s|` when there is none. */
  function NextTerminator(s: string): (i: nat)
    ensures i <= |s|
    ensures NoTerminator(s[..i])
    ensures i < |s| ==> IsTerminator(s[i])
  {
    if |s| == 0 || IsTerminator(s[0]) then 0 else 1 + NextTerminator(s[1..])
  }

  /** Length of the run of terminators that starts `s`. */
  function TerminatorRun(s: string): (k: nat)
    ensures k <= |s|
    ensures |s| > 0 && IsTerminator(s[0]) ==> k > 0
  {
    if |s| == 0 || !IsTerminator(s[0]) then 0 else 1 + TerminatorRun(s[1..])
  }

  /** `re.split(r'[.!?]+', s)`: the pieces between maximal terminator runs. */
  function SplitOnTerminators(s: string): seq<string>
    decreases |s|
  {
    var i := NextTerminator(s);
    if i == |s| then [s]
    else
      var j := i + TerminatorRun(s[i..]);
      [s[..i]] + SplitOnTerminators(s[j..])
  }

  lemma {:induction false} PiecesHaveNoTerminator(s: string)
    ensures forall k :: 0 <= k < |SplitOnTerminators(s)| ==> NoTerminator(SplitOnTerminators(s)[k])
    decreases |s|
  {
    var i := NextTerminator(s);
    if i < |s| {
      PiecesHaveNoTerminator(s[i + TerminatorRun(s[i..])..]);
    }
  }

  /** `[p.strip() for p in pieces if p.strip()]` */
  function StripNonEmpty(pieces: seq<string>): seq<string> {
    if |pieces| == 0 then []
    else
      var t := Strip(pieces[0]);
      (if |t| == 0 then [] else [t]) + StripNonEmpty(pieces[1..])
  }

  /** The chunker's sentences of `text`: none is empty, none contains a
      terminator, and none starts or ends with whitespace. */
  function Sentences(text: string): (r: seq<string>)
    ensures forall k :: 0 <= k < |r| ==> IsSentence(r[k])
  {
    PiecesHaveNoTerminator(text);
    StripNonEmptyShape(SplitOnTerminators(text));
    StripNonEmpty(SplitOnTerminators(text))
  }

  predicate IsSentence(s: string) {
    |s| > 0 && NoTerminator(s) && !IsSpace(s[0]) && !IsSpace(s[|s| - 1])
  }

  lemma {:induction false} StripNonEmptyShape(pieces: seq<string>)
    requires forall k :: 0 <= k < |pieces| ==> NoTerminator(pieces[k])
    ensures forall k :: 0 <= k < |StripNonEmpty(pieces)| ==> IsSentence(StripNonEmpty(pieces)[k])
    decreases |pieces|
  {
    if |pieces| > 0 {
      var rest := StripNonEmpty(pieces[1..]);
      StripNonEmptyShape(pieces[1..]);
      var t := Strip(pieces[0]);
      if |t| > 0 {
        StrippedSentence(pieces[0]);
        assert StripNonEmpty(pieces) == [t] + rest;
        SentencesPrepend(t, rest);
      } else {
        assert StripNonEmpty(pieces) == rest;
      }
    }
  }

  lemma SentencesPrepend(t: string, rest: seq<string>)
    requires IsSentence(t)
    requires forall k :: 0 <= k < |rest| ==> IsSentence(rest[k])
    ensures forall k :: 0 <= k < |[t] + rest| ==> IsSentence(([t] + rest)[k])
  {
    forall k | 0 <= k < |[t] + rest| ensures IsSentence(([t] + rest)[k]) {
      if k > 0 {
        assert ([t] + rest)[k] == rest[k - 1];
      }
    }
  }

  /** A stripped, non-empty piece without terminators is a sentence. */
  lemma StrippedSentence(piece: string)
    requires NoTerminator(piece) && |Strip(piece)| > 0
    ensures IsSentence(Strip(piece))
  {
    var t := Strip(piece);
    forall i | 0 <= i < |t| ensures !IsTerminator(t[i]) {
      var j :| 0 <= j < |piece| && piece[j] == t[i];
    }
  }

  // ---------------------------------------------------------------------
  // Breakpoints and chunk spans
  // ---------------------------------------------------------------------

  /** The indices i + 1 at which the similarity of sentence i to sentence
      i + 1 is below `threshold`, in increasing order. */
  function Breakpoints(sim: seq<real>, threshold: real): (r: seq<nat>)
    ensures |r| <= |sim|
  {
    if |sim| == 0 then []
    else
      Breakpoints(sim[..|sim| - 1], threshold)
      + (if sim[|sim| - 1] < threshold then [|sim|] else [])
  }

  predicate StrictlyIncreasing(s: seq<nat>) {
    forall i, j :: 0 <= i < j < |s| ==> s[i] < s[j]
  }

  /** The breakpoints are exactly the positions after a similarity drop, and
      they come in strictly increasing order within [1, |sim|]. */
  lemma {:induction false} BreakpointsExact(sim: seq<real>, threshold: real)
    ensures forall b: nat :: b in Breakpoints(sim, threshold) <==> 1 <= b <= |sim| && sim[b - 1] < threshold
    ensures StrictlyIncreasing(Breakpoints(sim, threshold))
    decreases |sim|
  {
    if |sim| > 0 {
      var init := sim[..|sim| - 1];
      BreakpointsExact(init, threshold);
      assert forall j :: 0 <= j < |init| ==> init[j] == sim[j];
      var bi := Breakpoints(init, threshold);
      assert forall j :: 0 <= j < |bi| ==> bi[j] in bi;
    }
  }

  /** The backward overlap walk: step back from `o` while the step stays
      above `chunkStart`, inside the similarity list, and similar enough. */
  function WalkBack(sim: seq<real>, overlapThreshold: real, chunkStart: nat, o: int): (r: int)
    ensures chunkStart <= o ==> chunkStart <= r <= o
    ensures o <= chunkStart ==> r == o
    decreases o
  {
    if o > chunkStart && o < |sim| && sim[o] > overlapThreshold then
      WalkBack(sim, overlapThreshold, chunkStart, o - 1)
    else o
  }

  /** A chunk as the half-open range [start, end) of sentence indices. */
  datatype Span = Span(start: nat, end: nat)

  /** The spans of the provisional chunks: one per breakpoint, each from the
      current chunk start up to the breakpoint, then a final one to the end;
      after each breakpoint the start moves to the result of the walk. */
  function Spans(sim: seq<real>, overlapThreshold: real, bps: seq<nat>, chunkStart: nat, n: nat): (r: seq<Span>)
    ensures |bps| <= |r| <= |bps| + 1
    decreases |bps|
  {
    if |bps| == 0 then (if chunkStart < n then [Span(chunkStart, n)] else [])
    else
      var back := WalkBack(sim, overlapThreshold, chunkStart, bps[0] as int - 1);
      var next: nat := if chunkStart > back then chunkStart else back;
      [Span(chunkStart, bps[0])] + Spans(sim, overlapThreshold, bps[1..], next, n)
  }

  /** Breakpoints that a chunk starting at `chunkStart` can meet: each lies
      after the one before it (the first after `chunkStart`) and before `n`. */
  predicate BreakpointsAfter(bps: seq<nat>, chunkStart: nat, n: nat)
    decreases |bps|
  {
    |bps| == 0 || (chunkStart < bps[0] < n && BreakpointsAfter(bps[1..], bps[0], n))
  }

  lemma {:induction false} IncreasingBreakpointsAfter(bps: seq<nat>, cs: nat, n: nat)
    requires StrictlyIncreasing(bps)
    requires forall i :: 0 <= i < |bps| ==> cs < bps[i] < n
    ensures BreakpointsAfter(bps, cs, n)
    decreases |bps|
  {
    if |bps| > 0 {
      var rest := bps[1..];
      assert forall i :: 0 <= i < |rest| ==> rest[i] == bps[i + 1];
      IncreasingBreakpointsAfter(rest, bps[0], n);
    }
  }

  /** The breakpoints of `n` sentences all lie strictly inside them. */
  lemma BreakpointsFit(sim: seq<real>, threshold: real, n: nat)
    requires |sim| < n
    ensures BreakpointsAfter(Breakpoints(sim, threshold), 0, n)
  {
    var bps := Breakpoints(sim, threshold);
    BreakpointsExact(sim, threshold);
    forall i | 0 <= i < |bps| ensures 0 < bps[i] < n {
      assert bps[i] in bps;
    }
    IncreasingBreakpointsAfter(bps, 0, n);
  }

  /** The first span runs from the chunk start to the first breakpoint; the
      rest start at the result of the walk, which lies before that breakpoint
      and leaves the remaining breakpoints ahead of it. */
  lemma SpansUnfold(sim: seq<real>, ot: real, bps: seq<nat>, cs: nat, n: nat, back: int, next: int)
    requires BreakpointsAfter(bps, cs, n) && |bps| > 0
    requires back == WalkBack(sim, ot, cs, bps[0] as int - 1)
    requires next == if cs > back then cs else back
    ensures cs <= next < bps[0] < n
    ensures BreakpointsAfter(bps[1..], next, n)
    ensures Spans(sim, ot, bps, cs, n) == [Span(cs, bps[0])] + Spans(sim, ot, bps[1..], next, n)
  {
  }

  /** One span per breakpoint plus a final one, from the chunk start to `n`. */
  lemma {:induction false} SpansLength(sim: seq<real>, ot: real, bps: seq<nat>, cs: nat, n: nat)
    requires BreakpointsAfter(bps, cs, n)
    requires cs < n
    ensures var sp := Spans(sim, ot, bps, cs, n);
      |sp| == |bps| + 1 && sp[0].start == cs && sp[|bps|].end == n
    decreases |bps|
  {
    if |bps| > 0 {
      var back := WalkBack(sim, ot, cs, bps[0] as int - 1);
      var next := if cs > back then cs else back;
      SpansUnfold(sim, ot, bps, cs, n, back, next);
      SpansLength(sim, ot, bps[1..], next, n);
    }
  }

  /** Each span is non-empty, ends at its breakpoint (the last at `n`), and
      the next span starts no earlier than the previous one and at or before
      the sentence just before the breakpoint, so consecutive chunks share at
      least that sentence. */
  lemma {:induction false} SpansShape(sim: seq<real>, ot: real, bps: seq<nat>, cs: nat, n: nat)
    requires BreakpointsAfter(bps, cs, n)
    requires cs < n
    ensures var sp := Spans(sim, ot, bps, cs, n);
      && |sp| == |bps| + 1
      && sp[0].start == cs
      && sp[|bps|].end == n
      && (forall k :: 0 <= k < |sp| ==> sp[k].start < sp[k].end <= n)
      && (forall k :: 0 <= k < |bps| ==> sp[k].end == bps[k])
      && (forall k :: 0 <= k < |bps| ==> sp[k].start <= sp[k + 1].start <= sp[k].end - 1)
    decreases |bps|
  {
    SpansLength(sim, ot, bps, cs, n);
    if |bps| > 0 {
      var back := WalkBack(sim, ot, cs, bps[0] as int - 1);
      var next := if cs > back then cs else back;
      SpansUnfold(sim, ot, bps, cs, n, back, next);
      var rest := bps[1..];
      SpansShape(sim, ot, rest, next, n);
      SpansShapeStep(Spans(sim, ot, bps, cs, n), Spans(sim, ot, rest, next, n), bps, cs, next, n);
    }
  }

  /** The shape facts of `SpansShape` for `[Span(cs, bps[0])] + tail`, given
      them for `tail`. */
  lemma SpansShapeStep(sp: seq<Span>, tail: seq<Span>, bps: seq<nat>, cs: nat, next: nat, n: nat)
    requires |bps| > 0 && cs <= next < bps[0] <= n
    requires sp == [Span(cs, bps[0])] + tail
    requires |tail| == |bps| && tail[0].start == next
    requires forall k :: 0 <= k < |tail| ==> tail[k].start < tail[k].end <= n
    requires forall k :: 0 <= k < |bps| - 1 ==> tail[k].end == bps[1..][k]
    requires forall k :: 0 <= k < |bps| - 1 ==> tail[k].start <= tail[k + 1].start <= tail[k].end - 1
    ensures forall k :: 0 <= k < |sp| ==> sp[k].start < sp[k].end <= n
    ensures forall k :: 0 <= k < |bps| ==> sp[k].end == bps[k]
    ensures forall k :: 0 <= k < |bps| ==> sp[k].start <= sp[k + 1].start <= sp[k].end - 1
  {
    assert forall k :: 1 <= k < |sp| ==> sp[k] == tail[k - 1];
    assert forall k :: 1 <= k < |bps| ==> bps[k] == bps[1..][k - 1];
  }

  predicate Covers(spans: seq<Span>, i: nat) {
    exists k :: 0 <= k < |spans| && spans[k].start <= i < spans[k].end
  }

  /** Together the spans cover every sentence index from the first start on. */
  lemma {:induction false} SpansCover(sim: seq<real>, ot: real, bps: seq<nat>, cs: nat, n: nat)
    requires BreakpointsAfter(bps, cs, n)
    requires cs < n
    ensures forall i :: cs <= i < n ==> Covers(Spans(sim, ot, bps, cs, n), i)
    decreases |bps|
  {
    var sp := Spans(sim, ot, bps, cs, n);
    if |bps| == 0 {
      forall i | cs <= i < n ensures Covers(sp, i) {
        assert sp[0].start <= i < sp[0].end;
      }
    } else {
      var back := WalkBack(sim, ot, cs, bps[0] as int - 1);
      var next := if cs > back then cs else back;
      SpansUnfold(sim, ot, bps, cs, n, back, next);
      var rest := bps[1..];
      SpansCover(sim, ot, rest, next, n);
      var tail := Spans(sim, ot, rest, next, n);
      assert sp == [Span(cs, bps[0])] + tail;
      forall i | cs <= i < n ensures Covers(sp, i) {
        if i < bps[0] {
          assert sp[0].start <= i < sp[0].end;
        } else {
          assert Covers(tail, i);
          var k :| 0 <= k < |tail| && tail[k].start <= i < tail[k].end;
          assert sp[k + 1] == tail[k];
        }
      }
    }
  }

  /** When no breakpoint is preceded by a similarity above the overlap
      threshold, the walk never steps and every next chunk starts exactly at
      the sentence before the breakpoint. */
  lemma {:induction false} SpansOneSentenceOverlap(sim: seq<real>, ot: real, bps: seq<nat>, cs: nat, n: nat)
    requires BreakpointsAfter(bps, cs, n)
    requires cs < n
    requires forall i :: 0 <= i < |bps| ==> 0 < bps[i] <= |sim| && sim[bps[i] - 1] <= ot
    ensures |Spans(sim, ot, bps, cs, n)| == |bps| + 1
    ensures forall k :: 0 <= k < |bps| ==> Spans(sim, ot, bps, cs, n)[k + 1].start + 1 == bps[k]
    decreases |bps|
  {
    if |bps| > 0 {
      var back := WalkBack(sim, ot, cs, bps[0] as int - 1);
      assert back == bps[0] - 1;
      SpansUnfold(sim, ot, bps, cs, n, back, back);
      var rest := bps[1..];
      SpansOneSentenceOverlap(sim, ot, rest, bps[0] - 1, n);
      SpansLength(sim, ot, rest, bps[0] - 1, n);
    }
  }

  /** `' '.join(sentences[start:end])` for every span. */
  function JoinSpans(sentences: seq<string>, spans: seq<Span>): (r: seq<string>)
    ensures |r| == |spans|
  {
    if |spans| == 0 then []
    else [Join(Slice(sentences, spans[0].start, spans[0].end))] + JoinSpans(sentences, spans[1..])
  }

  /** Entry k of the joined spans is the join of span k's sentences. */
  lemma {:induction false} JoinSpansAt(sentences: seq<string>, spans: seq<Span>)
    ensures forall k :: 0 <= k < |spans| ==>
      JoinSpans(sentences, spans)[k] == Join(Slice(sentences, spans[k].start, spans[k].end))
    decreases |spans|
  {
    if |spans| > 0 {
      JoinSpansAt(sentences, spans[1..]);
    }
  }

  /** The provisional chunks of `_chunk_with_overlap`, before the size passes. */
  function RawChunks(sentences: seq<string>, sim: seq<real>, cfg: Config): (r: seq<string>)
    ensures var bps := Breakpoints(sim, cfg.threshold); |bps| <= |r| <= |bps| + 1
  {
    JoinSpans(sentences, Spans(sim, cfg.overlapThreshold, Breakpoints(sim, cfg.threshold), 0, |sentences|))
  }

  /** With at least two sentences and at least one breakpoint there are
      |breakpoints| + 1 provisional chunks, each the space-join of a non-empty
      contiguous run of sentences; together they cover every sentence, and
      consecutive chunks overlap in at least one sentence. */
  lemma RawChunksShape(sentences: seq<string>, sim: seq<real>, cfg: Config)
    requires |sentences| >= 2 && |sim| == |sentences| - 1
    ensures var bps := Breakpoints(sim, cfg.threshold);
      var sp := Spans(sim, cfg.overlapThreshold, bps, 0, |sentences|);
      && |RawChunks(sentences, sim, cfg)| == |bps| + 1 == |sp|
      && (forall k :: 0 <= k < |sp| ==>
            sp[k].start < sp[k].end <= |sentences|
            && RawChunks(sentences, sim, cfg)[k] == Join(sentences[sp[k].start..sp[k].end]))
      && (forall i :: 0 <= i < |sentences| ==> Covers(sp, i))
      && (forall k :: 0 <= k < |bps| ==> sp[k].end == bps[k] && sp[k].start <= sp[k + 1].start < bps[k])
  {
    var bps := Breakpoints(sim, cfg.threshold);
    BreakpointsFit(sim, cfg.threshold, |sentences|);
    SpansShape(sim, cfg.overlapThreshold, bps, 0, |sentences|);
    SpansCover(sim, cfg.overlapThreshold, bps, 0, |sentences|);
    JoinSpansAt(sentences, Spans(sim, cfg.overlapThreshold, bps, 0, |sentences|));
  }

  /** When `threshold <= overlapThreshold` the walk body never runs: every
      breakpoint follows a similarity below the threshold, hence not above the
      overlap threshold, so each next chunk starts exactly one sentence before
      its breakpoint. */
  lemma ThresholdBelowOverlapGivesOneSentence(sentences: seq<string>, sim: seq<real>, cfg: Config)
    requires |sentences| >= 2 && |sim| == |sentences| - 1
    requires cfg.threshold <= cfg.overlapThreshold
    ensures var bps := Breakpoints(sim, cfg.threshold);
      var sp := Spans(sim, cfg.overlapThreshold, bps, 0, |sentences|);
      |sp| == |bps| + 1 && forall k :: 0 <= k < |bps| ==> sp[k + 1].start + 1 == bps[k]
  {
    var bps := Breakpoints(sim, cfg.threshold);
    BreakpointsExact(sim, cfg.threshold);
    BreakpointsFit(sim, cfg.threshold, |sentences|);
    forall i | 0 <= i < |bps| ensures 0 < bps[i] <= |sim| && sim[bps[i] - 1] <= cfg.overlapThreshold {
      assert bps[i] in bps;
    }
    SpansOneSentenceOverlap(sim, cfg.overlapThreshold, bps, 0, |sentences|);
  }

  // ---------------------------------------------------------------------
  // Merging tiny chunks
  // ---------------------------------------------------------------------

  predicate IsTiny(chunk: string, minChunkWords: int) {
    |Words(chunk)| < minChunkWords
  }

  /** What the merge loop finds at each index once earlier tiny chunks have
      been prepended to their successors: entry i + 1 is chunk i + 1, with the
      carried entry i and a space in front when entry i is tiny. */
  function Carry(chunks: seq<string>, minChunkWords: int): (c: seq<string>)
    ensures |c| == |chunks|
    ensures |chunks| > 0 ==> c[0] == chunks[0]
  {
    if |chunks| <= 1 then chunks
    else
      var c := Carry(chunks[..|chunks| - 1], minChunkWords);
      var prev := c[|c| - 1];
      c + [if IsTiny(prev, minChunkWords) then prev + " " + chunks[|chunks| - 1] else chunks[|chunks| - 1]]
  }

  /** The entries that are not tiny, in order. */
  function Kept(c: seq<string>, minChunkWords: int): seq<string> {
    if |c| == 0 then []
    else Kept(c[..|c| - 1], minChunkWords) + (if IsTiny(c[|c| - 1], minChunkWords) then [] else [c[|c| - 1]])
  }

  /** The result of `_merge_tiny_chunks`: every carried entry before the last
      that is not tiny; the last carried entry is kept when it is not tiny,
      else appended to the previous kept chunk, else kept alone. */
  function MergeTiny(chunks: seq<string>, minChunkWords: int): (r: seq<string>)
    ensures |r| <= |chunks|
  {
    if |chunks| <= 1 then chunks
    else
      var c := Carry(chunks, minChunkWords);
      KeptLength(c[..|c| - 1], minChunkWords);
      AttachLast(Kept(c[..|c| - 1], minChunkWords), c[|c| - 1], minChunkWords)
  }

  lemma {:induction false} KeptLength(c: seq<string>, minChunkWords: int)
    ensures |Kept(c, minChunkWords)| <= |c|
    decreases |c|
  {
    if |c| > 0 {
      KeptLength(c[..|c| - 1], minChunkWords);
    }
  }

  /** How the merge loop treats the last entry: kept when not tiny, else
      appended to the previous kept chunk, else kept alone. */
  function AttachLast(kept: seq<string>, last: string, minChunkWords: int): seq<string> {
    if !IsTiny(last, minChunkWords) then kept + [last]
    else if |kept| > 0 then kept[..|kept| - 1] + [kept[|kept| - 1] + " " + last]
    else [last]
  }

  lemma AttachLastWords(kept: seq<string>, last: string, minChunkWords: int)
    ensures FlatWords(AttachLast(kept, last, minChunkWords)) == FlatWords(kept) + Words(last)
  {
    if !IsTiny(last, minChunkWords) {
      FlatWordsSnoc(kept, last);
    } else if |kept| > 0 {
      var init := kept[..|kept| - 1];
      var k := kept[|kept| - 1];
      assert kept == init + [k];
      FlatWordsSnoc(init, k);
      FlatWordsSnoc(init, k + " " + last);
      WordsOfSpace(k, last);
      AppendAssoc(FlatWords(init), Words(k), Words(last));
    } else {
      FlatWordsSingle(last);
    }
  }

  lemma {:induction false} KeptNotTiny(c: seq<string>, minChunkWords: int)
    ensures forall i :: 0 <= i < |Kept(c, minChunkWords)| ==> !IsTiny(Kept(c, minChunkWords)[i], minChunkWords)
    decreases |c|
  {
    if |c| > 0 {
      KeptNotTiny(c[..|c| - 1], minChunkWords);
    }
  }

  /** The carried entries of a longer list extend those of its prefix by one. */
  lemma CarryStep(chunks: seq<string>, minChunkWords: int)
    requires |chunks| >= 2
    ensures var c := Carry(chunks, minChunkWords);
      var ci := Carry(chunks[..|chunks| - 1], minChunkWords);
      var prev := ci[|ci| - 1];
      var x := chunks[|chunks| - 1];
      && c[..|c| - 1] == ci
      && c[|c| - 1] == (if IsTiny(prev, minChunkWords) then prev + " " + x else x)
  {
  }

  lemma KeptSnoc(c: seq<string>, x: string, minChunkWords: int)
    ensures IsTiny(x, minChunkWords) ==> Kept(c + [x], minChunkWords) == Kept(c, minChunkWords)
    ensures !IsTiny(x, minChunkWords) ==> Kept(c + [x], minChunkWords) == Kept(c, minChunkWords) + [x]
  {
    assert (c + [x])[..|c|] == c;
    assert Kept(c, minChunkWords) + [] == Kept(c, minChunkWords);
  }

  /** The kept words before the last carried entry, followed by that entry's
      words, are the words of all chunks. */
  lemma {:induction false} CarryWords(chunks: seq<string>, minChunkWords: int)
    requires |chunks| > 0
    ensures var c := Carry(chunks, minChunkWords);
      FlatWords(Kept(c[..|c| - 1], minChunkWords)) + Words(c[|c| - 1]) == FlatWords(chunks)
    decreases |chunks|
  {
    var c := Carry(chunks, minChunkWords);
    if |chunks| == 1 {
      assert c[..0] == [] && chunks[..0] == [];
    } else {
      var init := chunks[..|chunks| - 1];
      CarryWords(init, minChunkWords);
      CarryStep(chunks, minChunkWords);
      CarryWordsStep(chunks, Carry(init, minChunkWords), c, minChunkWords);
    }
  }

  /** One step of `CarryWords`: appending the last chunk to the carried entries. */
  lemma CarryWordsStep(chunks: seq<string>, ci: seq<string>, c: seq<string>, minChunkWords: int)
    requires |chunks| >= 2 && |ci| > 0 && |c| == |ci| + 1
    requires FlatWords(Kept(ci[..|ci| - 1], minChunkWords)) + Words(ci[|ci| - 1]) == FlatWords(chunks[..|chunks| - 1])
    requires c[..|c| - 1] == ci
    requires var prev := ci[|ci| - 1];
      var x := chunks[|chunks| - 1];
      c[|c| - 1] == if IsTiny(prev, minChunkWords) then prev + " " + x else x
    ensures FlatWords(Kept(c[..|c| - 1], minChunkWords)) + Words(c[|c| - 1]) == FlatWords(chunks)
  {
    var x := chunks[|chunks| - 1];
    var prev := ci[|ci| - 1];
    var before := ci[..|ci| - 1];
    assert ci == before + [prev];
    KeptSnoc(before, prev, minChunkWords);
    var kw, pw, xw := FlatWords(Kept(before, minChunkWords)), Words(prev), Words(x);
    if IsTiny(prev, minChunkWords) {
      WordsOfSpace(prev, x);
      AppendAssoc(kw, pw, xw);
    } else {
      FlatWordsSnoc(Kept(before, minChunkWords), prev);
    }
  }

  /** Merging neither loses, duplicates nor reorders a word. */
  lemma MergeTinyKeepsWords(chunks: seq<string>, minChunkWords: int)
    ensures FlatWords(MergeTiny(chunks, minChunkWords)) == FlatWords(chunks)
  {
    if |chunks| > 1 {
      var c := Carry(chunks, minChunkWords);
      CarryWords(chunks, minChunkWords);
      AttachLastWords(Kept(c[..|c| - 1], minChunkWords), c[|c| - 1], minChunkWords);
    }
  }

  /** At most one chunk is returned unchanged; otherwise the result is not
      empty, and every chunk in it has at least `minChunkWords` words unless
      it is the only one. */
  lemma MergeTinySizes(chunks: seq<string>, minChunkWords: int)
    ensures |chunks| <= 1 ==> MergeTiny(chunks, minChunkWords) == chunks
    ensures |chunks| >= 1 ==> |MergeTiny(chunks, minChunkWords)| >= 1
    ensures var m := MergeTiny(chunks, minChunkWords);
      |m| == 1 || forall i :: 0 <= i < |m| ==> |Words(m[i])| >= minChunkWords
  {
    if |chunks| > 1 {
      var c := Carry(chunks, minChunkWords);
      var kept := Kept(c[..|c| - 1], minChunkWords);
      var last := c[|c| - 1];
      KeptNotTiny(c[..|c| - 1], minChunkWords);
      if IsTiny(last, minChunkWords) && |kept| > 0 {
        WordsOfSpace(kept[|kept| - 1], last);
      }
    }
  }

  /** `_merge_tiny_chunks`. Like the source it overwrites entries of the list
      it is given, so the array ends up holding the carried entries. */
  method MergeTinyChunks(chunks: array<string>, minChunkWords: int) returns (merged: seq<string>)
    modifies chunks
    ensures chunks[..] == Carry(old(chunks[..]), minChunkWords)
    ensures merged == MergeTiny(old(chunks[..]), minChunkWords)
  {
    if chunks.Length <= 1 {
      return chunks[..];
    }
    ghost var s := chunks[..];
    var n := chunks.Length;
    merged := [];
    var i := 0;
    while i < n
      invariant 0 <= i <= n
      invariant i < n ==> chunks[..i + 1] == Carry(s[..i + 1], minChunkWords)
      invariant i < n ==> chunks[i + 1..] == s[i + 1..]
      invariant i < n ==> merged == Kept(chunks[..i], minChunkWords)
      invariant i == n ==> chunks[..] == Carry(s, minChunkWords)
      invariant i == n ==> merged == MergeTiny(s, minChunkWords)
    {
      var current := chunks[i];
      var wordCount := |Words(current)|;
      ghost var before := chunks[..];
      ghost var keptBefore := merged;
      assert before[..i + 1] == before[..i] + [current];
      KeptSnoc(before[..i], current, minChunkWords);
      if wordCount < minChunkWords {
        if i + 1 < n {
          chunks[i + 1] := current + " " + chunks[i + 1];
        } else if |merged| > 0 {
          merged := merged[..|merged| - 1] + [merged[|merged| - 1] + " " + current];
        } else {
          merged := merged + [current];
        }
      } else {
        merged := merged + [current];
      }
      if i + 1 < n {
        assert chunks[..] == before[i + 1 := chunks[i + 1]];
        CarryUpdate(s, before, i, minChunkWords, chunks[i + 1]);
      } else {
        assert merged == AttachLast(keptBefore, current, minChunkWords);
        assert before == before[..i + 1];
        assert s[..i + 1] == s;
      }
      i := i + 1;
    }
  }

  /** One turn of the merge loop on the array contents `before`: writing the
      carried value into entry i + 1 extends the carried prefix by one. */
  lemma CarryUpdate(s: seq<string>, before: seq<string>, i: nat, minChunkWords: int, v: string)
    requires i + 1 < |s| == |before|
    requires before[..i + 1] == Carry(s[..i + 1], minChunkWords)
    requires before[i + 1..] == s[i + 1..]
    requires v == if IsTiny(before[i], minChunkWords) then before[i] + " " + before[i + 1] else before[i + 1]
    ensures var after := before[i + 1 := v];
      after[..i + 2] == Carry(s[..i + 2], minChunkWords) && after[i + 2..] == s[i + 2..]
      && after[..i + 1] == before[..i + 1]
  {
    var after := before[i + 1 := v];
    CarryPrefixStep(s, i, minChunkWords);
    assert before[i + 1] == s[i + 1];
    assert after[..i + 2] == before[..i + 1] + [v];
    assert after[i + 2..] == before[i + 2..];
  }

  lemma CarryPrefixStep(s: seq<string>, i: nat, minChunkWords: int)
    requires i + 1 < |s|
    ensures var ci := Carry(s[..i + 1], minChunkWords);
      var prev := ci[i];
      Carry(s[..i + 2], minChunkWords) == ci + [if IsTiny(prev, minChunkWords) then prev + " " + s[i + 1] else s[i + 1]]
  {
    assert s[..i + 2][..i + 1] == s[..i + 1];
  }

  // ---------------------------------------------------------------------
  // Splitting oversized chunks
  // ---------------------------------------------------------------------

  /** A position where `re.split(r'(?<=[.!?])\s+', s)` can cut: whitespace
      right after a terminator. */
  predicate IsCut(s: string, m: int) {
    1 <= m < |s| && IsTerminator(s[m - 1]) && IsSpace(s[m])
  }

  /** The first cut at or after `m`, or `|s|` when there is none. */
  function NextCut(s: string, m: nat): (r: nat)
    requires 1 <= m
    ensures r <= |s|
    ensures r < |s| ==> IsCut(s, r) && m <= r
    ensures forall j :: m <= j < r ==> !IsCut(s, j)
    decreases |s| - m
  {
    if m >= |s| then |s|
    else if IsCut(s, m) then m
    else NextCut(s, m + 1)
  }

  /** Length of the whitespace run that starts `s`: `\s+` takes all of it. */
  function SpaceRun(s: string): (k: nat)
    ensures k <= |s|
    ensures AllSpace(s[..k])
    ensures k < |s| ==> !IsSpace(s[k])
    ensures |s| > 0 && IsSpace(s[0]) ==> k > 0
  {
    if |s| == 0 || !IsSpace(s[0]) then 0 else 1 + SpaceRun(s[1..])
  }

  /** `re.split(r'(?<=[.!?])\s+', s)`: pieces separated by whitespace runs
      that follow a terminator. */
  function SentencePieces(s: string): (r: seq<string>)
    ensures |r| >= 1
    decreases |s|
  {
    var i := NextCut(s, 1);
    if i >= |s| then [s]
    else
      var j := i + SpaceRun(s[i..]);
      [s[..i]] + SentencePieces(s[j..])
  }

  /** Cutting at sentence boundaries keeps every word, in order. */
  lemma {:induction false} SentencePiecesWords(s: string)
    ensures FlatWords(SentencePieces(s)) == Words(s)
    decreases |s|
  {
    var cut, i, j := SentencePiecesUnfold(s);
    if !cut {
      FlatWordsSingle(s);
    } else {
      var a, w, b := s[..i], s[i..j], s[j..];
      SentencePiecesWords(b);
      PiecesStep(a, w, b, SentencePieces(b));
    }
  }

  /** One step of the lookbehind split: either there is no cut and `s` is
      the only piece, or the first piece ends at a cut `i` followed by the
      whitespace run `s[i..j]`. */
  lemma SentencePiecesUnfold(s: string) returns (cut: bool, i: nat, j: nat)
    ensures !cut ==> SentencePieces(s) == [s]
    ensures cut ==> (0 < i < j <= |s| && AllSpace(s[i..j]) && s == s[..i] + s[i..j] + s[j..]
                     && SentencePieces(s) == [s[..i]] + SentencePieces(s[j..]))
  {
    i := NextCut(s, 1);
    cut := i < |s|;
    j := i;
    if cut {
      j := i + SpaceRun(s[i..]);
      assert s[i..j] == s[i..][..j - i];
    }
  }

  lemma FlatWordsSingle(s: string)
    ensures FlatWords([s]) == Words(s)
  {
    assert [s][..0] == [];
  }

  lemma PiecesStep(a: string, w: string, b: string, rest: seq<string>)
    requires |w| > 0 && AllSpace(w) && FlatWords(rest) == Words(b)
    ensures FlatWords([a] + rest) == Words(a + w + b)
  {
    WordsSeparated(a, w, b);
    FlatWordsAppend([a], rest);
    FlatWordsSingle(a);
  }

  /** The greedy grouping of `_split_oversized_chunks`: a sentence joins the
      current group unless that would take it over `maxChunkWords` words. */
  function Pack(ss: seq<string>, maxChunkWords: int): (groups: seq<seq<string>>)
    ensures |ss| > 0 ==> |groups| > 0
  {
    if |ss| == 0 then []
    else
      var p := Pack(ss[..|ss| - 1], maxChunkWords);
      var x := ss[|ss| - 1];
      if |p| == 0 then [[x]]
      else if |FlatWords(p[|p| - 1])| + |Words(x)| > maxChunkWords then p + [[x]]
      else p[..|p| - 1] + [p[|p| - 1] + [x]]
  }

  /** The groups, in order, are exactly the sentences; each group is
      non-empty, and one with two or more sentences is within the budget. */
  lemma {:induction false} PackShape(ss: seq<string>, maxChunkWords: int)
    ensures Concat(Pack(ss, maxChunkWords)) == ss
    ensures forall g :: g in Pack(ss, maxChunkWords) ==>
      |g| > 0 && (|g| == 1 || |FlatWords(g)| <= maxChunkWords)
    decreases |ss|
  {
    if |ss| > 0 {
      var init := ss[..|ss| - 1];
      var x := ss[|ss| - 1];
      var p := Pack(init, maxChunkWords);
      PackShape(init, maxChunkWords);
      assert ss == init + [x];
      if |p| == 0 {
        assert [[x]][..0] == [];
      } else if |FlatWords(p[|p| - 1])| + |Words(x)| > maxChunkWords {
        assert (p + [[x]])[..|p|] == p;
      } else {
        PackExtendLast(p, x, maxChunkWords);
      }
    }
  }

  /** Adding a sentence to the last group keeps every group within the
      budget and the sentences in order. */
  lemma PackExtendLast(p: seq<seq<string>>, x: string, maxChunkWords: int)
    requires |p| > 0
    requires forall g :: g in p ==> |g| > 0 && (|g| == 1 || |FlatWords(g)| <= maxChunkWords)
    requires |FlatWords(p[|p| - 1])| + |Words(x)| <= maxChunkWords
    ensures var q := p[..|p| - 1] + [p[|p| - 1] + [x]];
      && Concat(q) == Concat(p) + [x]
      && forall g :: g in q ==> |g| > 0 && (|g| == 1 || |FlatWords(g)| <= maxChunkWords)
  {
    var front, g := p[..|p| - 1], p[|p| - 1];
    var q := front + [g + [x]];
    assert p == front + [g];
    assert q[..|front|] == front && p[..|front|] == front;
    assert Concat(p) == Concat(front) + g;
    assert Concat(q) == Concat(front) + (g + [x]);
    AppendAssoc(Concat(front), g, [x]);
    FlatWordsSnoc(g, x);
    forall h | h in q ensures |h| > 0 && (|h| == 1 || |FlatWords(h)| <= maxChunkWords) {
      if h in front {
        assert h in p;
      }
    }
  }

  /** `' '.join(group)` for every group. */
  function JoinAll(groups: seq<seq<string>>): (r: seq<string>)
    ensures |r| == |groups|
    ensures forall i :: 0 <= i < |groups| ==> r[i] == Join(groups[i])
  {
    seq(|groups|, i requires 0 <= i < |groups| => Join(groups[i]))
  }

  lemma {:induction false} JoinAllWords(groups: seq<seq<string>>)
    ensures FlatWords(JoinAll(groups)) == FlatWords(Concat(groups))
    decreases |groups|
  {
    if |groups| > 0 {
      var init := groups[..|groups| - 1];
      var g := groups[|groups| - 1];
      JoinAllWords(init);
      assert JoinAll(groups)[..|groups| - 1] == JoinAll(init);
      WordsOfJoin(g);
      FlatWordsAppend(Concat(init), g);
    }
  }

  lemma {:induction false} InConcat<T>(groups: seq<seq<T>>, i: nat, j: nat)
    requires i < |groups| && j < |groups[i]|
    ensures groups[i][j] in Concat(groups)
    decreases |groups|
  {
    if i < |groups| - 1 {
      InConcat(groups[..|groups| - 1], i, j);
    }
  }

  /** What `_split_oversized_chunks` makes of one chunk. */
  function SplitChunk(chunk: string, maxChunkWords: int): (r: seq<string>)
    ensures |r| >= 1
  {
    if |Words(chunk)| <= maxChunkWords then [chunk]
    else JoinAll(Pack(SentencePieces(chunk), maxChunkWords))
  }

  /** What `_split_oversized_chunks` makes of a list: the pieces of each chunk,
      chunk by chunk, in order. */
  function SplitOversized(chunks: seq<string>, maxChunkWords: int): (r: seq<string>)
    ensures |r| >= |chunks|
  {
    if |chunks| == 0 then []
    else SplitOversized(chunks[..|chunks| - 1], maxChunkWords) + SplitChunk(chunks[|chunks| - 1], maxChunkWords)
  }

  /** `piece` is one whole sentence of one of `chunks`. */
  predicate IsSentencePieceOf(piece: string, chunks: seq<string>) {
    exists c :: c in chunks && piece in SentencePieces(c)
  }

  /** Splitting one chunk keeps its words, and every piece is within the
      budget unless it is a single sentence of the chunk. */
  lemma SplitChunkProperties(chunk: string, maxChunkWords: int)
    ensures FlatWords(SplitChunk(chunk, maxChunkWords)) == Words(chunk)
    ensures forall p :: p in SplitChunk(chunk, maxChunkWords) ==>
      |Words(p)| <= maxChunkWords || p in SentencePieces(chunk)
  {
    if |Words(chunk)| <= maxChunkWords {
      assert [chunk][..0] == [];
    } else {
      var pieces := SentencePieces(chunk);
      var groups := Pack(pieces, maxChunkWords);
      PackShape(pieces, maxChunkWords);
      JoinAllWords(groups);
      SentencePiecesWords(chunk);
      forall p | p in SplitChunk(chunk, maxChunkWords)
        ensures |Words(p)| <= maxChunkWords || p in pieces
      {
        var i :| 0 <= i < |groups| && p == Join(groups[i]);
        assert groups[i] in groups;
        if |groups[i]| == 1 {
          InConcat(groups, i, 0);
        } else {
          WordsOfJoin(groups[i]);
        }
      }
    }
  }

  /** Chunks within the budget pass through unchanged and in order. */
  lemma {:induction false} SplitOversizedKeepsSmall(chunks: seq<string>, maxChunkWords: int)
    requires forall i :: 0 <= i < |chunks| ==> |Words(chunks[i])| <= maxChunkWords
    ensures SplitOversized(chunks, maxChunkWords) == chunks
    decreases |chunks|
  {
    if |chunks| > 0 {
      SplitOversizedKeepsSmall(chunks[..|chunks| - 1], maxChunkWords);
    }
  }

  /** The split pass treats each chunk on its own: splitting a list in two
      parts splits each part. */
  lemma {:induction false} SplitOversizedAppend(a: seq<string>, b: seq<string>, maxChunkWords: int)
    ensures SplitOversized(a + b, maxChunkWords) == SplitOversized(a, maxChunkWords) + SplitOversized(b, maxChunkWords)
    decreases |b|
  {
    if |b| == 0 {
      assert a + b == a;
    } else {
      var init := b[..|b| - 1];
      var x := b[|b| - 1];
      assert (a + b)[..|a + b| - 1] == a + init;
      assert (a + b)[|a + b| - 1] == x;
      SplitOversizedAppend(a, init, maxChunkWords);
      AppendAssoc(SplitOversized(a, maxChunkWords), SplitOversized(init, maxChunkWords), SplitChunk(x, maxChunkWords));
    }
  }

  /** A chunk within the budget passes through unchanged, in its place, in
      any list, whatever happens to the chunks around it. */
  lemma SplitOversizedPassesSmall(a: seq<string>, c: string, b: seq<string>, maxChunkWords: int)
    requires |Words(c)| <= maxChunkWords
    ensures SplitOversized(a + [c] + b, maxChunkWords)
      == SplitOversized(a, maxChunkWords) + [c] + SplitOversized(b, maxChunkWords)
  {
    SplitOversizedAppend(a + [c], b, maxChunkWords);
    SplitOversizedAppend(a, [c], maxChunkWords);
    assert [c][..0] == [];
    assert SplitOversized([c], maxChunkWords) == [c];
  }

  /** Splitting keeps every word in order, and each output chunk is within
      the budget unless it is a single sentence of one input chunk. */
  lemma {:induction false} SplitOversizedProperties(chunks: seq<string>, maxChunkWords: int)
    ensures FlatWords(SplitOversized(chunks, maxChunkWords)) == FlatWords(chunks)
    ensures forall p :: p in SplitOversized(chunks, maxChunkWords) ==>
      |Words(p)| <= maxChunkWords || IsSentencePieceOf(p, chunks)
    decreases |chunks|
  {
    if |chunks| > 0 {
      var init := chunks[..|chunks| - 1];
      var c := chunks[|chunks| - 1];
      SplitOversizedProperties(init, maxChunkWords);
      SplitChunkProperties(c, maxChunkWords);
      FlatWordsAppend(SplitOversized(init, maxChunkWords), SplitChunk(c, maxChunkWords));
      forall p | p in SplitOversized(chunks, maxChunkWords)
        ensures |Words(p)| <= maxChunkWords || IsSentencePieceOf(p, chunks)
      {
        if p in SplitOversized(init, maxChunkWords) {
          if IsSentencePieceOf(p, init) {
            var d :| d in init && p in SentencePieces(d);
            assert d in chunks;
          }
        } else {
          assert c in chunks;
        }
      }
    }
  }

  lemma PackSnoc(ss: seq<string>, x: string, maxChunkWords: int)
    ensures var p := Pack(ss, maxChunkWords);
      Pack(ss + [x], maxChunkWords) ==
        if |p| == 0 then [[x]]
        else if |FlatWords(p[|p| - 1])| + |Words(x)| > maxChunkWords then p + [[x]]
        else p[..|p| - 1] + [p[|p| - 1] + [x]]
  {
    assert (ss + [x])[..|ss|] == ss;
  }

  lemma JoinAllSnoc(groups: seq<seq<string>>, g: seq<string>)
    ensures JoinAll(groups + [g]) == JoinAll(groups) + [Join(g)]
  {
  }

  lemma FlatWordsSnoc(xs: seq<string>, x: string)
    ensures FlatWords(xs + [x]) == FlatWords(xs) + Words(x)
  {
    assert (xs + [x])[..|xs|] == xs;
  }

  /** The groups of the inner loop: those emitted, then the open one. */
  function OpenGroups(done: seq<seq<string>>, current: seq<string>): seq<seq<string>> {
    if |current| > 0 then done + [current] else done
  }

  /** The inner loop of `_split_oversized_chunks`: accumulate sentences into
      `current_chunk` and emit the joined group whenever the next sentence
      would take it over the budget. */
  method PackSentences(sentences: seq<string>, maxChunkWords: int) returns (pieces: seq<string>)
    ensures pieces == JoinAll(Pack(sentences, maxChunkWords))
  {
    pieces := [];
    var currentChunk: seq<string> := [];
    var currentWords := 0;
    ghost var done: seq<seq<string>> := [];
    var j := 0;
    while j < |sentences|
      invariant 0 <= j <= |sentences|
      invariant currentWords == |FlatWords(currentChunk)|
      invariant |currentChunk| == 0 ==> j == 0 && done == []
      invariant OpenGroups(done, currentChunk) == Pack(sentences[..j], maxChunkWords)
      invariant pieces == JoinAll(done)
    {
      var sentence := sentences[j];
      var sentenceWords := |Words(sentence)|;
      ghost var prev := sentences[..j];
      assert sentences[..j + 1] == prev + [sentence];
      PackSnoc(prev, sentence, maxChunkWords);
      FlatWordsSnoc(currentChunk, sentence);
      if currentWords + sentenceWords > maxChunkWords && |currentChunk| > 0 {
        JoinAllSnoc(done, currentChunk);
        pieces := pieces + [Join(currentChunk)];
        done := done + [currentChunk];
        currentChunk := [sentence];
        currentWords := sentenceWords;
        FlatWordsSnoc([], sentence);
      } else {
        currentChunk := currentChunk + [sentence];
        currentWords := currentWords + sentenceWords;
      }
      j := j + 1;
    }
    assert sentences[..j] == sentences;
    if |currentChunk| > 0 {
      JoinAllSnoc(done, currentChunk);
      pieces := pieces + [Join(currentChunk)];
      done := done + [currentChunk];
    }
  }

  /** `_split_oversized_chunks`. */
  method SplitOversizedChunks(chunks: seq<string>, maxChunkWords: int) returns (result: seq<string>)
    ensures result == SplitOversized(chunks, maxChunkWords)
  {
    result := [];
    var c := 0;
    while c < |chunks|
      invariant 0 <= c <= |chunks|
      invariant result == SplitOversized(chunks[..c], maxChunkWords)
    {
      var chunk := chunks[c];
      var wordCount := |Words(chunk)|;
      if wordCount <= maxChunkWords {
        result := result + [chunk];
      } else {
        var sentences := SentencePieces(chunk);
        var pieces := PackSentences(sentences, maxChunkWords);
        result := result + pieces;
      }
      assert chunks[..c + 1][..c] == chunks[..c];
      c := c + 1;
    }
    assert chunks[..c] == chunks;
  }

  // ---------------------------------------------------------------------
  // The whole chunker
  // ---------------------------------------------------------------------

  /** `chunk(text)`: the text itself when it has at most one sentence or no
      breakpoint; otherwise the provisional chunks, merged, then split. */
  function Chunk(text: string, sim: seq<real>, cfg: Config): (r: seq<string>)
    requires |Sentences(text)| >= 2 ==> |sim| == |Sentences(text)| - 1
    ensures |r| >= 1
  {
    var sentences := Sentences(text);
    if |sentences| <= 1 || Breakpoints(sim, cfg.threshold) == [] then [text]
    else
      MergeTinySizes(RawChunks(sentences, sim, cfg), cfg.minChunkWords);
      SplitOversized(MergeTiny(RawChunks(sentences, sim, cfg), cfg.minChunkWords), cfg.maxChunkWords)
  }

  /** A text of at most one sentence, or one whose neighbouring sentences are
      all at least `threshold` similar, comes back as the single chunk `[text]`;
      otherwise there is a breakpoint and the text is cut. */
  lemma ChunkUnsplit(text: string, sim: seq<real>, cfg: Config)
    requires |Sentences(text)| >= 2 ==> |sim| == |Sentences(text)| - 1
    ensures (|Sentences(text)| <= 1 || forall i :: 0 <= i < |sim| ==> sim[i] >= cfg.threshold)
      ==> Chunk(text, sim, cfg) == [text]
    ensures |Sentences(text)| >= 2 && (exists i :: 0 <= i < |sim| && sim[i] < cfg.threshold)
      ==> Breakpoints(sim, cfg.threshold) != []
  {
    BreakpointsExact(sim, cfg.threshold);
    var bps := Breakpoints(sim, cfg.threshold);
    if bps != [] {
      assert bps[0] in bps;
    }
    if i :| 0 <= i < |sim| && sim[i] < cfg.threshold {
      assert i + 1 in bps;
    }
  }

  /** The size passes keep every word of the provisional chunks in order.
      The split pass gives back the merged chunks unchanged (see
      `ChunkNeverSplits`), so the final chunks are a single chunk or each
      holds at least `minChunkWords` words; each is also within
      `maxChunkWords` words or a whole sentence piece of a merged chunk, but
      only because every merged chunk is its own single piece. */
  lemma ChunkSizeAndWords(text: string, sim: seq<real>, cfg: Config)
    requires |Sentences(text)| >= 2 && |sim| == |Sentences(text)| - 1
    requires Breakpoints(sim, cfg.threshold) != []
    ensures var raw := RawChunks(Sentences(text), sim, cfg);
      var merged := MergeTiny(raw, cfg.minChunkWords);
      && Chunk(text, sim, cfg) == SplitOversized(merged, cfg.maxChunkWords) == merged
      && FlatWords(Chunk(text, sim, cfg)) == FlatWords(raw)
      && |Chunk(text, sim, cfg)| >= 1
      && (|Chunk(text, sim, cfg)| == 1
          || forall i :: 0 <= i < |Chunk(text, sim, cfg)| ==> |Words(Chunk(text, sim, cfg)[i])| >= cfg.minChunkWords)
      && forall p :: p in Chunk(text, sim, cfg) ==>
           |Words(p)| <= cfg.maxChunkWords || IsSentencePieceOf(p, merged)
  {
    var raw := RawChunks(Sentences(text), sim, cfg);
    var merged := MergeTiny(raw, cfg.minChunkWords);
    RawChunksShape(Sentences(text), sim, cfg);
    MergeTinyKeepsWords(raw, cfg.minChunkWords);
    MergeTinySizes(raw, cfg.minChunkWords);
    SplitOversizedProperties(merged, cfg.maxChunkWords);
    ChunkNeverSplits(text, sim, cfg);
  }

  // ---------------------------------------------------------------------
  // The split pass inside `chunk` never cuts
  // ---------------------------------------------------------------------

  predicate AllNoTerminator(xs: seq<string>) {
    forall i :: 0 <= i < |xs| ==> NoTerminator(xs[i])
  }

  lemma NoTerminatorSpace(a: string, b: string)
    requires NoTerminator(a) && NoTerminator(b)
    ensures NoTerminator(a + " " + b)
  {
    var t := a + " " + b;
    forall i | 0 <= i < |t| ensures !IsTerminator(t[i]) {
      if i < |a| {
        assert t[i] == a[i];
      } else if i > |a| {
        assert t[i] == b[i - |a| - 1];
      }
    }
  }

  /** Joining terminator-free strings with spaces adds no terminator. */
  lemma {:induction false} NoTerminatorJoin(xs: seq<string>)
    requires AllNoTerminator(xs)
    ensures NoTerminator(Join(xs))
    decreases |xs|
  {
    if |xs| > 1 {
      var init := xs[..|xs| - 1];
      assert forall i :: 0 <= i < |init| ==> init[i] == xs[i];
      NoTerminatorJoin(init);
      NoTerminatorSpace(Join(init), xs[|xs| - 1]);
    }
  }

  /** Provisional chunks made of sentences hold no terminator. */
  lemma {:induction false} JoinSpansNoTerminator(sentences: seq<string>, spans: seq<Span>)
    requires AllNoTerminator(sentences)
    ensures AllNoTerminator(JoinSpans(sentences, spans))
    decreases |spans|
  {
    if |spans| > 0 {
      var g := Slice(sentences, spans[0].start, spans[0].end);
      assert forall i :: 0 <= i < |g| ==> g[i] in sentences;
      NoTerminatorJoin(g);
      JoinSpansNoTerminator(sentences, spans[1..]);
      var r := JoinSpans(sentences, spans);
      assert forall i :: 1 <= i < |r| ==> r[i] == JoinSpans(sentences, spans[1..])[i - 1];
    }
  }

  lemma {:induction false} CarryNoTerminator(chunks: seq<string>, minChunkWords: int)
    requires AllNoTerminator(chunks)
    ensures AllNoTerminator(Carry(chunks, minChunkWords))
    decreases |chunks|
  {
    if |chunks| > 1 {
      var init := chunks[..|chunks| - 1];
      assert forall i :: 0 <= i < |init| ==> init[i] == chunks[i];
      CarryNoTerminator(init, minChunkWords);
      var c := Carry(init, minChunkWords);
      NoTerminatorSpace(c[|c| - 1], chunks[|chunks| - 1]);
    }
  }

  lemma {:induction false} KeptNoTerminator(c: seq<string>, minChunkWords: int)
    requires AllNoTerminator(c)
    ensures AllNoTerminator(Kept(c, minChunkWords))
    decreases |c|
  {
    if |c| > 0 {
      var init := c[..|c| - 1];
      assert forall i :: 0 <= i < |init| ==> init[i] == c[i];
      KeptNoTerminator(init, minChunkWords);
    }
  }

  /** Merging terminator-free chunks gives terminator-free chunks. */
  lemma MergeTinyNoTerminator(chunks: seq<string>, minChunkWords: int)
    requires AllNoTerminator(chunks)
    ensures AllNoTerminator(MergeTiny(chunks, minChunkWords))
  {
    if |chunks| > 1 {
      var c := Carry(chunks, minChunkWords);
      CarryNoTerminator(chunks, minChunkWords);
      var init := c[..|c| - 1];
      assert forall i :: 0 <= i < |init| ==> init[i] == c[i];
      KeptNoTerminator(init, minChunkWords);
      var kept := Kept(init, minChunkWords);
      if |kept| > 0 {
        NoTerminatorSpace(kept[|kept| - 1], c[|c| - 1]);
      }
    }
  }

  /** A chunk without terminators offers the lookbehind split no cut. */
  lemma NoTerminatorOnePiece(chunk: string)
    requires NoTerminator(chunk)
    ensures SentencePieces(chunk) == [chunk]
  {
    assert NextCut(chunk, 1) >= |chunk|;
  }

  /** So the split pass returns such a chunk whole, however long it is. */
  lemma SplitChunkWhole(chunk: string, maxChunkWords: int)
    requires NoTerminator(chunk)
    ensures SplitChunk(chunk, maxChunkWords) == [chunk]
  {
    NoTerminatorOnePiece(chunk);
    assert [chunk][..0] == [];
    assert Pack([chunk], maxChunkWords) == [[chunk]];
    assert JoinAll([[chunk]]) == [Join([chunk])];
  }

  lemma {:induction false} SplitOversizedWhole(chunks: seq<string>, maxChunkWords: int)
    requires AllNoTerminator(chunks)
    ensures SplitOversized(chunks, maxChunkWords) == chunks
    decreases |chunks|
  {
    if |chunks| > 0 {
      var init := chunks[..|chunks| - 1];
      assert forall i :: 0 <= i < |init| ==> init[i] == chunks[i];
      SplitOversizedWhole(init, maxChunkWords);
      SplitChunkWhole(chunks[|chunks| - 1], maxChunkWords);
    }
  }

  /** The sentences have lost their terminators, so no chunk built from them
      has a place where `re.split(r'(?<=[.!?])\s+', chunk)` can cut: the
      split pass gives back the merged chunks as they are, and a merged chunk
      over `maxChunkWords` words is emitted whole. */
  lemma ChunkNeverSplits(text: string, sim: seq<real>, cfg: Config)
    requires |Sentences(text)| >= 2 && |sim| == |Sentences(text)| - 1
    requires Breakpoints(sim, cfg.threshold) != []
    ensures Chunk(text, sim, cfg) == MergeTiny(RawChunks(Sentences(text), sim, cfg), cfg.minChunkWords)
  {
    var sentences := Sentences(text);
    var raw := RawChunks(sentences, sim, cfg);
    JoinSpansNoTerminator(sentences, Spans(sim, cfg.overlapThreshold, Breakpoints(sim, cfg.threshold), 0, |sentences|));
    MergeTinyNoTerminator(raw, cfg.minChunkWords);
    SplitOversizedWhole(MergeTiny(raw, cfg.minChunkWords), cfg.maxChunkWords);
  }

  /** The text "a. b" with its two sentences judged unrelated, and chunks of
      one word at most: the second chunk, "a b", holds two words and two
      sentences, but comes out whole. */
  lemma OversizedChunkExample()
    ensures var cfg := Config(0.02, 0.5, 1, 1);
      && Sentences("a. b") == ["a", "b"]
      && Chunk("a. b", [0.0], cfg) == ["a", "a b"]
      && |Words("a b")| == 2 > cfg.maxChunkWords
  {
    var cfg := Config(0.02, 0.5, 1, 1);
    ExampleSentences();
    ExampleRawChunks(cfg);
    ExampleWords();
    ExampleMerge();
    ChunkNeverSplits("a. b", [0.0], cfg);
  }

  lemma ExampleSentences()
    ensures Sentences("a. b") == ["a", "b"]
  {
    ExampleSplit();
    ExampleStrip();
    var pieces := ["a", " b"];
    assert pieces[1..] == [" b"] && pieces[1..][1..] == [];
    assert StripNonEmpty([" b"]) == ["b"];
  }

  lemma ExampleSplit()
    ensures SplitOnTerminators("a. b") == ["a", " b"]
  {
    var text := "a. b";
    assert text[1..] == ". b" && text[2..] == " b" && text[..1] == "a";
    assert NextTerminator(text) == 1;
    assert TerminatorRun(". b") == 1;
    assert NextTerminator(" b") == 2;
    assert SplitOnTerminators(" b") == [" b"];
  }

  lemma ExampleStrip()
    ensures Strip("a") == "a" && Strip(" b") == "b"
  {
    ExampleStripA();
    ExampleLStripB();
    ExampleRStripB();
  }

  lemma ExampleStripA()
    ensures Strip("a") == "a"
  {
    assert !IsSpace('a');
    assert LStrip("a") == "a";
    assert RStrip("a") == "a";
  }

  lemma ExampleLStripB()
    ensures LStrip(" b") == "b"
  {
    assert IsSpace(' ') && !IsSpace('b');
    assert " b"[1..] == "b";
    assert LStrip("b") == "b";
  }

  lemma ExampleRStripB()
    ensures RStrip("b") == "b"
  {
    assert !IsSpace('b');
  }

  lemma ExampleRawChunks(cfg: Config)
    requires cfg.threshold == 0.02 && cfg.overlapThreshold == 0.5
    ensures Breakpoints([0.0], cfg.threshold) == [1]
    ensures Spans([0.0], cfg.overlapThreshold, [1], 0, 2) == [Span(0, 1), Span(0, 2)]
    ensures RawChunks(["a", "b"], [0.0], cfg) == ["a", "a b"]
  {
    assert Breakpoints([0.0], 0.02) == [1];
    assert WalkBack([0.0], 0.5, 0, 0) == 0;
    assert Spans([0.0], 0.5, [1], 0, 2) == [Span(0, 1), Span(0, 2)];
    ExampleJoinSpans();
  }

  lemma ExampleJoinSpans()
    ensures JoinSpans(["a", "b"], [Span(0, 1), Span(0, 2)]) == ["a", "a b"]
  {
    var ss := ["a", "b"];
    assert Slice(ss, 0, 1) == ["a"];
    assert Slice(ss, 0, 2) == ss;
    assert Join(ss) == "a b";
    assert [Span(0, 1), Span(0, 2)][1..] == [Span(0, 2)];
    assert JoinSpans(ss, [Span(0, 2)]) == ["a b"];
  }

  lemma ExampleWords()
    ensures Words("a") == ["a"] && Words("a b") == ["a", "b"]
  {
    assert !IsSpace('a') && !IsSpace('b') && IsSpace(' ');
    assert "a"[1..] == "" && "b"[1..] == "" && "a"[..1] == "a" && "b"[..1] == "b";
    assert WordLen("a") == 1 && WordLen("b") == 1;
    assert Words("a") == ["a"];
    assert Words("b") == ["b"];
    assert "a b"[1..] == " b" && " b"[1..] == "b" && "a b"[..1] == "a";
    assert WordLen("a b") == 1;
    assert Words(" b") == ["b"];
  }

  lemma ExampleMerge()
    requires Words("a") == ["a"] && Words("a b") == ["a", "b"]
    ensures MergeTiny(["a", "a b"], 1) == ["a", "a b"]
  {
    assert Carry(["a", "a b"], 1) == ["a", "a b"];
    assert Kept(["a"], 1) == ["a"];
  }

  /** The breakpoint loop of `_chunk_with_overlap`. */
  method FindBreakpoints(sim: seq<real>, threshold: real) returns (breakpoints: seq<nat>)
    ensures breakpoints == Breakpoints(sim, threshold)
  {
    breakpoints := [];
    var i := 0;
    while i < |sim|
      invariant 0 <= i <= |sim|
      invariant breakpoints == Breakpoints(sim[..i], threshold)
    {
      assert sim[..i + 1][..i] == sim[..i];
      if sim[i] < threshold {
        breakpoints := breakpoints + [i + 1];
      }
      i := i + 1;
    }
    assert sim[..i] == sim;
  }

  /** The overlap walk of `_chunk_with_overlap` for one breakpoint. */
  method OverlapStart(sim: seq<real>, overlapThreshold: real, chunkStart: nat, breakpoint: nat)
    returns (overlapStart: int)
    requires chunkStart < breakpoint
    ensures overlapStart == WalkBack(sim, overlapThreshold, chunkStart, breakpoint - 1)
    ensures chunkStart <= overlapStart < breakpoint
  {
    overlapStart := breakpoint - 1;
    while overlapStart > chunkStart && overlapStart < |sim| && sim[overlapStart] > overlapThreshold
      invariant chunkStart <= overlapStart <= breakpoint - 1
      invariant WalkBack(sim, overlapThreshold, chunkStart, overlapStart)
        == WalkBack(sim, overlapThreshold, chunkStart, breakpoint - 1)
    {
      overlapStart := overlapStart - 1;
    }
  }

  /** The chunk-building loop of `_chunk_with_overlap`, before tiny chunks are merged. */
  method BuildRawChunks(sentences: seq<string>, sim: seq<real>, overlapThreshold: real, breakpoints: seq<nat>)
    returns (raw: seq<string>)
    requires BreakpointsAfter(breakpoints, 0, |sentences|)
    requires |breakpoints| > 0
    ensures raw == JoinSpans(sentences, Spans(sim, overlapThreshold, breakpoints, 0, |sentences|))
  {
    var n := |sentences|;
    raw := [];
    var chunkStart: nat := 0;
    var k := 0;
    assert breakpoints[0..] == breakpoints;
    while k < |breakpoints|
      invariant 0 <= k <= |breakpoints|
      invariant chunkStart < n
      invariant BreakpointsAfter(breakpoints[k..], chunkStart, n)
      invariant raw + JoinSpans(sentences, Spans(sim, overlapThreshold, breakpoints[k..], chunkStart, n))
        == JoinSpans(sentences, Spans(sim, overlapThreshold, breakpoints, 0, n))
    {
      var bp := breakpoints[k];
      var overlapStart := OverlapStart(sim, overlapThreshold, chunkStart, bp);
      var next := if chunkStart > overlapStart then chunkStart else overlapStart;
      BuildStep(sentences, sim, overlapThreshold, breakpoints, k, bp, chunkStart, overlapStart, next);
      AppendAssoc(raw, [Join(sentences[chunkStart..bp])],
        JoinSpans(sentences, Spans(sim, overlapThreshold, breakpoints[k + 1..], next, n)));
      raw := raw + [Join(sentences[chunkStart..bp])];
      chunkStart := next;
      k := k + 1;
    }
    assert breakpoints[k..] == [];
    assert sentences[chunkStart..n] == sentences[chunkStart..];
    JoinSpansLast(sentences, chunkStart);
    raw := raw + [Join(sentences[chunkStart..])];
  }

  /** One turn of the chunk-building loop: the remaining chunks are the one up
      to the current breakpoint followed by those from the next start. */
  lemma BuildStep(sentences: seq<string>, sim: seq<real>, ot: real, bps: seq<nat>, k: nat, bp: nat, cs: nat,
                  back: int, next: int)
    requires k < |bps| && bp == bps[k] && cs < |sentences|
    requires BreakpointsAfter(bps[k..], cs, |sentences|)
    requires back == WalkBack(sim, ot, cs, bp - 1)
    requires next == if cs > back then cs else back
    ensures 0 <= next < |sentences|
    ensures BreakpointsAfter(bps[k + 1..], next, |sentences|)
    ensures JoinSpans(sentences, Spans(sim, ot, bps[k..], cs, |sentences|))
      == [Join(sentences[cs..bp])] + JoinSpans(sentences, Spans(sim, ot, bps[k + 1..], next, |sentences|))
  {
    var n := |sentences|;
    var rest := bps[k..];
    assert rest[0] == bp && rest[1..] == bps[k + 1..];
    SpansUnfold(sim, ot, rest, cs, n, back, next);
    JoinSpansCons(sentences, Span(cs, bp), Spans(sim, ot, bps[k + 1..], next, n));
  }

  lemma JoinSpansLast(sentences: seq<string>, start: nat)
    requires start <= |sentences|
    ensures JoinSpans(sentences, [Span(start, |sentences|)]) == [Join(sentences[start..])]
  {
    assert sentences[start..|sentences|] == sentences[start..];
  }

  lemma JoinSpansCons(sentences: seq<string>, sp: Span, tail: seq<Span>)
    requires sp.start <= sp.end <= |sentences|
    ensures JoinSpans(sentences, [sp] + tail) == [Join(sentences[sp.start..sp.end])] + JoinSpans(sentences, tail)
  {
    assert ([sp] + tail)[1..] == tail;
  }

  /** `_chunk_with_overlap`, which `chunk` calls. */
  method ChunkWithOverlap(text: string, sim: seq<real>, cfg: Config) returns (chunks: seq<string>)
    requires |Sentences(text)| >= 2 ==> |sim| == |Sentences(text)| - 1
    ensures chunks == Chunk(text, sim, cfg)
  {
    var sentences := Sentences(text);
    if |sentences| <= 1 {
      return [text];
    }
    var n := |sentences|;
    var breakpoints := FindBreakpoints(sim, cfg.threshold);
    if |breakpoints| == 0 {
      return [text];
    }
    BreakpointsFit(sim, cfg.threshold, n);

    var raw := BuildRawChunks(sentences, sim, cfg.overlapThreshold, breakpoints);
    var pending := new string[|raw|](j requires 0 <= j < |raw| => raw[j]);
    assert pending[..] == raw;
    var merged := MergeTinyChunks(pending, cfg.minChunkWords);
    chunks := SplitOversizedChunks(merged, cfg.maxChunkWords);
  }
}
