/** The three title-finding methods, tried in this order for a person named
    by the span `[start, end)`:
    A, `method_noun_chunk`: a title written before the name inside the same
       noun chunk ("U.S. Treasury Secretary Steven Mnuchin");
    B, `method_depend_parsing`: an appositive after the name
       ("Yana Pechenik, a physician assistant at MyBotoxLA, ...");
    C, `method_search_noun_chunk`: a noun chunk ending in a dictionary word,
       joined to the name by "be" or standing right before it. */
module TitleMethods {
  import opened Options
  import opened AnnotatedDoc
  import opened SpanCleaners
  import opened TitleDictionary

  /** The person span the methods work on: non-empty and inside the sentence. */
  predicate PersonIn(doc: Doc, start: nat, end: nat) {
    WellFormed(doc) && start < end <= |doc.tokens|
  }

  // ----- Method A ---------------------------------------------------------

  /** Method A's chunk test: the chunk starts before the name and reaches at
      least to its end. */
  predicate Encloses(chunk: Span, start: nat, end: nat) {
    chunk.start < start && chunk.end >= end
  }

  /** The index of the first chunk that encloses the name, if any. */
  function FirstEnclosing(chunks: seq<Span>, start: nat, end: nat): (r: Option<nat>)
    ensures r.Some? ==> r.value < |chunks| && Encloses(chunks[r.value], start, end)
    ensures r.Some? ==> forall m :: 0 <= m < r.value ==> !Encloses(chunks[m], start, end)
    ensures r.None? <==> forall m :: 0 <= m < |chunks| ==> !Encloses(chunks[m], start, end)
    decreases |chunks|
  {
    if chunks == [] then None
    else if Encloses(chunks[0], start, end) then Some(0)
    else
      match FirstEnclosing(chunks[1..], start, end)
      case None => None
      case Some(k) => Some(k + 1)
  }

  /** Method A's title: the part of the first enclosing chunk that comes
      before the name, passed through the error check. It always ends where
      the name starts and lies inside that chunk; a part that does not start
      with punctuation is returned whole when it has at most ten tokens and
      rejected otherwise; a part that does start with punctuation is never
      rejected, and becomes what follows its last verb. */
  function NounChunkTitle(doc: Doc, start: nat, end: nat): (r: Option<Span>)
    requires PersonIn(doc, start, end)
    ensures FirstEnclosing(doc.chunks, start, end).None? ==> r.None?
    ensures r.Some? ==>
      var chunk := doc.chunks[FirstEnclosing(doc.chunks, start, end).value];
      chunk.start <= r.value.start < r.value.end == start
    ensures FirstEnclosing(doc.chunks, start, end).Some? ==>
      var chunk := doc.chunks[FirstEnclosing(doc.chunks, start, end).value];
      !doc.tokens[chunk.start].isPunct ==>
        && (r.None? <==> start - chunk.start > 10)
        && (r.Some? ==> r.value == Span(chunk.start, start))
    ensures FirstEnclosing(doc.chunks, start, end).Some? ==>
      var chunk := doc.chunks[FirstEnclosing(doc.chunks, start, end).value];
      doc.tokens[chunk.start].isPunct ==>
        var cut := LastVerbEnd(doc.tokens, chunk.start, start);
        r == Some(if cut < start then Span(cut, start) else Span(chunk.start, start))
  {
    var candidate :=
      match FirstEnclosing(doc.chunks, start, end)
      case None => None
      case Some(k) => Some(Span(doc.chunks[k].start, start));
    var checked := CheckedSpan(doc.tokens, candidate);
    if checked.Some? && checked.value.end - checked.value.start == 0 then None else checked
  }

  /** `method_noun_chunk`: the chunk loop stops at the first enclosing chunk. */
  method MethodNounChunk(doc: Doc, start: nat, end: nat) returns (r: Option<Span>)
    requires PersonIn(doc, start, end)
    ensures r == NounChunkTitle(doc, start, end)
  {
    var title: Option<Span> := None;
    for k := 0 to |doc.chunks|
      invariant title.None?
      invariant forall m :: 0 <= m < k ==> !Encloses(doc.chunks[m], start, end)
    {
      var chunk := doc.chunks[k];
      if chunk.start < start && chunk.end >= end {
        title := Some(Span(chunk.start, start));
        assert FirstEnclosing(doc.chunks, start, end) == Some(k);
        break;
      }
    }
    r := ErrorCheckNounChunk(doc.tokens, title);
    if r.Some? && r.value.end - r.value.start == 0 {
      r := None;
    }
  }

  // ----- Method B ---------------------------------------------------------

  /** The dependency subtree of the name's last token covers a gap-free range
      of tokens that starts where the name starts. */
  predicate SubtreeFromName(doc: Doc, start: nat, end: nat)
    requires PersonIn(doc, start, end)
  {
    var sub := doc.subtrees[end - 1];
    sub[|sub| - 1] as int - sub[0] as int == |sub| - 1 && sub[0] == start
  }

  /** The last token of the name's subtree. */
  function SubtreeLast(doc: Doc, end: nat): (e: nat)
    requires WellFormed(doc) && 0 < end <= |doc.tokens|
    ensures end - 1 <= e < |doc.tokens|
  {
    var sub := doc.subtrees[end - 1];
    assert sub[|sub| - 1] >= end - 1 by {
      var k :| 0 <= k < |sub| && sub[k] == end - 1;
      UpToLast(sub, k);
    }
    sub[|sub| - 1]
  }

  /** Method B's outcome. It raises `IndexError` exactly when the name's
      subtree is gap-free, starts at the name and ends with the name, since
      the slice after the name is then empty and its first token is read.
      It finds a title exactly when, besides the first two conditions, the
      subtree reaches past the name and the token right after the name is a
      comma; the title is then the trimmed rest of the subtree. */
  function DependParsingTitle(doc: Doc, start: nat, end: nat): (r: Outcome<Option<Span>>)
    requires PersonIn(doc, start, end)
    ensures r.IndexError? <==> SubtreeFromName(doc, start, end) && SubtreeLast(doc, end) == end - 1
    ensures r.Returned? && r.value.Some? ==>
      && SubtreeFromName(doc, start, end)
      && doc.tokens[end].isPunct && doc.tokens[end].lemmaText == CommaLemma
      && end <= r.value.value.start < r.value.value.end <= SubtreeLast(doc, end) + 1
    ensures
      && SubtreeFromName(doc, start, end) && SubtreeLast(doc, end) >= end
      && doc.tokens[end].isPunct && doc.tokens[end].lemmaText == CommaLemma
      ==> r == Returned(TrimDetPunct(doc.tokens, Some(Span(end, SubtreeLast(doc, end) + 1)))) && r.value.Some?
  {
    var sub := doc.subtrees[end - 1];
    var s, e := sub[0], SubtreeLast(doc, end);
    if e - s == |sub| - 1 && s == start then
      if e + 1 <= end then IndexError
      else if !(doc.tokens[end].isPunct && doc.tokens[end].lemmaText == CommaLemma) then Returned(None)
      else
        var title := TrimDetPunct(doc.tokens, Some(Span(end, e + 1)));
        if title.Some? && title.value.end - title.value.start == 0 then Returned(None)
        else Returned(title)
    else Returned(None)
  }

  // ----- Method C ---------------------------------------------------------

  /** Every chunk of `chunks` is a non-empty span of the sentence. */
  predicate ChunksIn(doc: Doc, chunks: seq<Span>) {
    forall k :: 0 <= k < |chunks| ==> NonEmptyIn(chunks[k], |doc.tokens|)
  }

  /** The dictionary gate: the chunk's last word, lower-cased, is a title word. */
  predicate EndsInTitleWord(doc: Doc, titles: set<string>, chunk: Span)
    requires NonEmptyIn(chunk, |doc.tokens|)
  {
    InTitleSet(titles, doc.tokens[chunk.end - 1].text)
  }

  /** `idx` lists, in increasing order, exactly the positions of `chunks`
      whose chunk passes the dictionary gate, and `r` holds those chunks in
      that order. */
  ghost predicate GatePositions(doc: Doc, titles: set<string>, chunks: seq<Span>, r: seq<Span>, idx: seq<nat>)
    requires ChunksIn(doc, chunks)
  {
    && |idx| == |r|
    && (forall a :: 0 <= a < |idx| ==> idx[a] < |chunks| && chunks[idx[a]] == r[a])
    && (forall a, b :: 0 <= a < b < |idx| ==> idx[a] < idx[b])
    && (forall i :: 0 <= i < |chunks| ==> (i in idx <==> EndsInTitleWord(doc, titles, chunks[i])))
  }

  /** The chunks that pass the dictionary gate, in their order (the order is
      stated by `CandidatesInOrder`). */
  function Candidates(doc: Doc, titles: set<string>, chunks: seq<Span>): (r: seq<Span>)
    requires ChunksIn(doc, chunks)
    ensures ChunksIn(doc, r)
    ensures forall c :: c in r <==> c in chunks && EndsInTitleWord(doc, titles, c)
    decreases |chunks|
  {
    if chunks == [] then []
    else
      var last := chunks[|chunks| - 1];
      var init := Candidates(doc, titles, chunks[..|chunks| - 1]);
      assert forall c :: c in chunks <==> c in chunks[..|chunks| - 1] || c == last;
      if EndsInTitleWord(doc, titles, last) then init + [last] else init
  }

  /** Adding one more chunk at the end extends the gate positions by that
      chunk's position when it passes the gate. */
  lemma GatePositionsExtend(doc: Doc, titles: set<string>, chunks: seq<Span>, init: seq<Span>, idx: seq<nat>)
    requires ChunksIn(doc, chunks) && |chunks| > 0
    requires GatePositions(doc, titles, chunks[..|chunks| - 1], init, idx)
    ensures
      var n := |chunks| - 1;
      if EndsInTitleWord(doc, titles, chunks[n])
      then GatePositions(doc, titles, chunks, init + [chunks[n]], idx + [n])
      else GatePositions(doc, titles, chunks, init, idx)
  {
    var n := |chunks| - 1;
    var gate := EndsInTitleWord(doc, titles, chunks[n]);
    var r := if gate then init + [chunks[n]] else init;
    var idx' := if gate then idx + [n] else idx;
    forall a | 0 <= a < |idx'|
      ensures idx'[a] < |chunks| && chunks[idx'[a]] == r[a]
    {
      if a < |idx| {
        assert idx'[a] == idx[a] && r[a] == init[a] && chunks[..n][idx[a]] == chunks[idx[a]];
      }
    }
    forall a, b | 0 <= a < b < |idx'|
      ensures idx'[a] < idx'[b]
    {
      assert idx[a] < n;
    }
    forall i | 0 <= i < |chunks|
      ensures i in idx' <==> EndsInTitleWord(doc, titles, chunks[i])
    {
      if i < n {
        assert chunks[..n][i] == chunks[i];
        assert i in idx' <==> i in idx;
      } else {
        assert n !in idx;
      }
    }
    assert GatePositions(doc, titles, chunks, r, idx');
  }

  /** The candidates are the gate-passing chunks in sentence order: there is
      an increasing list of exactly the positions whose chunk passes the gate,
      and the candidates are the chunks at those positions. */
  lemma {:induction false} CandidatesInOrder(doc: Doc, titles: set<string>, chunks: seq<Span>)
    requires ChunksIn(doc, chunks)
    ensures exists idx :: GatePositions(doc, titles, chunks, Candidates(doc, titles, chunks), idx)
    decreases |chunks|
  {
    if chunks == [] {
      assert Candidates(doc, titles, chunks) == [];
      assert GatePositions(doc, titles, chunks, [], []);
    } else {
      var n := |chunks| - 1;
      assert ChunksIn(doc, chunks[..n]);
      CandidatesInOrder(doc, titles, chunks[..n]);
      var init := Candidates(doc, titles, chunks[..n]);
      var idx :| GatePositions(doc, titles, chunks[..n], init, idx);
      GatePositionsExtend(doc, titles, chunks, init, idx);
      if EndsInTitleWord(doc, titles, chunks[n]) {
        assert GatePositions(doc, titles, chunks, Candidates(doc, titles, chunks), idx + [n]);
      } else {
        assert GatePositions(doc, titles, chunks, Candidates(doc, titles, chunks), idx);
      }
    }
  }

  /** Method C's selection rule: the chunk's last word and the name's last
      word have the same head and that head is a form of "be", or the chunk
      ends right where the name starts. */
  predicate Qualifies(doc: Doc, start: nat, end: nat, chunk: Span)
    requires PersonIn(doc, start, end) && NonEmptyIn(chunk, |doc.tokens|)
  {
    var ancestor := doc.tokens[end - 1].head;
    (doc.tokens[chunk.end - 1].head == ancestor && doc.tokens[ancestor].lemmaText == Copula)
    || chunk.end == start
  }

  /** `cands[k]` qualifies and no later candidate does. */
  predicate LastQualifyingAt(doc: Doc, start: nat, end: nat, cands: seq<Span>, k: nat)
    requires PersonIn(doc, start, end) && ChunksIn(doc, cands) && k < |cands|
  {
    && Qualifies(doc, start, end, cands[k])
    && forall m :: k < m < |cands| ==> !Qualifies(doc, start, end, cands[m])
  }

  /** The last candidate that qualifies. */
  function LastQualifying(doc: Doc, start: nat, end: nat, cands: seq<Span>): (r: Option<Span>)
    requires PersonIn(doc, start, end) && ChunksIn(doc, cands)
    ensures r.Some? ==> r.value in cands && Qualifies(doc, start, end, r.value)
    ensures r.Some? ==> exists k :: 0 <= k < |cands| && cands[k] == r.value && LastQualifyingAt(doc, start, end, cands, k)
    ensures r.None? <==> forall k :: 0 <= k < |cands| ==> !Qualifies(doc, start, end, cands[k])
    decreases |cands|
  {
    if cands == [] then None
    else
      var n := |cands| - 1;
      if Qualifies(doc, start, end, cands[n]) then
        assert LastQualifyingAt(doc, start, end, cands, n);
        Some(cands[n])
      else
        var r := LastQualifying(doc, start, end, cands[..n]);
        assert r.Some? ==> exists k :: 0 <= k < |cands| && cands[k] == r.value && LastQualifyingAt(doc, start, end, cands, k) by {
          if r.Some? {
            var k :| 0 <= k < n && cands[..n][k] == r.value && LastQualifyingAt(doc, start, end, cands[..n], k);
            assert cands[k] == r.value && LastQualifyingAt(doc, start, end, cands, k);
          }
        }
        r
  }

  /** A chunk method C may pick: it passes the dictionary gate and qualifies. */
  predicate Pickable(doc: Doc, titles: set<string>, start: nat, end: nat, chunk: Span)
    requires PersonIn(doc, start, end) && NonEmptyIn(chunk, |doc.tokens|)
  {
    EndsInTitleWord(doc, titles, chunk) && Qualifies(doc, start, end, chunk)
  }

  /** `chunks[k]` is pickable and no later chunk is. */
  predicate LastPickableAt(doc: Doc, titles: set<string>, start: nat, end: nat, chunks: seq<Span>, k: nat)
    requires PersonIn(doc, start, end) && ChunksIn(doc, chunks) && k < |chunks|
  {
    && Pickable(doc, titles, start, end, chunks[k])
    && forall m :: k < m < |chunks| ==> !Pickable(doc, titles, start, end, chunks[m])
  }

  /** The chunk method C picks, stated over the sentence's own chunk order:
      the last pickable chunk of the sentence, or none when no chunk is. */
  function LastPickable(doc: Doc, titles: set<string>, start: nat, end: nat, chunks: seq<Span>): (r: Option<Span>)
    requires PersonIn(doc, start, end) && ChunksIn(doc, chunks)
    ensures r.None? <==> forall k :: 0 <= k < |chunks| ==> !Pickable(doc, titles, start, end, chunks[k])
    ensures r.Some? ==> exists k :: 0 <= k < |chunks| && chunks[k] == r.value && LastPickableAt(doc, titles, start, end, chunks, k)
    ensures r.Some? ==> NonEmptyIn(r.value, |doc.tokens|)
    decreases |chunks|
  {
    if chunks == [] then None
    else
      var n := |chunks| - 1;
      if Pickable(doc, titles, start, end, chunks[n]) then
        assert LastPickableAt(doc, titles, start, end, chunks, n);
        Some(chunks[n])
      else
        var r := LastPickable(doc, titles, start, end, chunks[..n]);
        assert r.Some? ==> exists k :: 0 <= k < |chunks| && chunks[k] == r.value && LastPickableAt(doc, titles, start, end, chunks, k) by {
          if r.Some? {
            var k :| 0 <= k < n && chunks[..n][k] == r.value && LastPickableAt(doc, titles, start, end, chunks[..n], k);
            assert chunks[k] == r.value && LastPickableAt(doc, titles, start, end, chunks, k);
          }
        }
        r
  }

  /** Filtering by the dictionary first and then taking the last qualifying
      candidate picks the last pickable chunk of the sentence. */
  lemma {:induction false} CandidatesThenLast(doc: Doc, titles: set<string>, start: nat, end: nat, chunks: seq<Span>)
    requires PersonIn(doc, start, end) && ChunksIn(doc, chunks)
    ensures LastQualifying(doc, start, end, Candidates(doc, titles, chunks)) == LastPickable(doc, titles, start, end, chunks)
    decreases |chunks|
  {
    if chunks != [] {
      var n := |chunks| - 1;
      var init := Candidates(doc, titles, chunks[..n]);
      CandidatesThenLast(doc, titles, start, end, chunks[..n]);
      if EndsInTitleWord(doc, titles, chunks[n]) {
        assert (init + [chunks[n]])[..|init|] == init;
      }
    }
  }

  /** Method C's title: the picked chunk, passed through the error check and
      then the determiner/punctuation trim. It is none when no chunk is
      pickable; otherwise it lies inside the picked chunk, and it is none
      only when the error check's ten-token cap rejects that chunk. The
      picked chunk is the sentence's last pickable one (`CandidatesThenLast`). */
  function SearchNounChunkTitle(doc: Doc, titles: set<string>, start: nat, end: nat): (r: Option<Span>)
    requires PersonIn(doc, start, end)
    ensures LastPickable(doc, titles, start, end, doc.chunks).None? ==> r.None?
    ensures r.Some? ==>
      var chunk := LastPickable(doc, titles, start, end, doc.chunks);
      chunk.Some? && chunk.value.start <= r.value.start < r.value.end <= chunk.value.end
    ensures
      var chunk := LastPickable(doc, titles, start, end, doc.chunks);
      chunk.Some? ==> (r.None? <==> !doc.tokens[chunk.value.start].isPunct && chunk.value.end - chunk.value.start > 10)
    ensures ChunksIn(doc, doc.chunks)
    ensures r == TrimDetPunct(doc.tokens, CheckedSpan(doc.tokens, LastPickable(doc, titles, start, end, doc.chunks)))
  {
    assert ChunksIn(doc, doc.chunks);
    CandidatesThenLast(doc, titles, start, end, doc.chunks);
    var picked := LastQualifying(doc, start, end, Candidates(doc, titles, doc.chunks));
    TrimDetPunct(doc.tokens, CheckedSpan(doc.tokens, picked))
  }

  /** The first loop of `method_search_noun_chunk`: append every chunk whose
      last word is a title word. */
  method CollectCandidates(doc: Doc, titles: set<string>) returns (cdts: seq<Span>)
    requires WellFormed(doc)
    ensures ChunksIn(doc, doc.chunks) && cdts == Candidates(doc, titles, doc.chunks)
  {
    assert ChunksIn(doc, doc.chunks);
    cdts := [];
    for k := 0 to |doc.chunks|
      invariant cdts == Candidates(doc, titles, doc.chunks[..k])
    {
      var chunk := doc.chunks[k];
      assert doc.chunks[..k + 1][..k] == doc.chunks[..k];
      if InTitleSet(titles, doc.tokens[chunk.end - 1].text) {
        cdts := cdts + [chunk];
      }
    }
    assert doc.chunks[..|doc.chunks|] == doc.chunks;
  }

  /** The second loop of `method_search_noun_chunk`: every qualifying
      candidate overwrites the choice. */
  method PickLastQualifying(doc: Doc, start: nat, end: nat, cdts: seq<Span>) returns (title: Option<Span>)
    requires PersonIn(doc, start, end) && ChunksIn(doc, cdts)
    ensures title == LastQualifying(doc, start, end, cdts)
  {
    title := None;
    for k := 0 to |cdts|
      invariant title == LastQualifying(doc, start, end, cdts[..k])
    {
      var chunk := cdts[k];
      assert cdts[..k + 1][..k] == cdts[..k] && cdts[..k + 1][k] == chunk;
      assert LastQualifying(doc, start, end, cdts[..k + 1]) ==
        if Qualifies(doc, start, end, chunk) then Some(chunk) else LastQualifying(doc, start, end, cdts[..k]);
      var ancestor := doc.tokens[end - 1].head;
      if doc.tokens[chunk.end - 1].head == ancestor && doc.tokens[ancestor].lemmaText == Copula {
        title := Some(chunk);
      } else if chunk.end == start {
        title := Some(chunk);
      }
    }
    assert cdts[..|cdts|] == cdts;
  }

  /** `method_search_noun_chunk`: collect the candidates, then let every
      qualifying one overwrite the choice, then clean the result. */
  method MethodSearchNounChunk(doc: Doc, titles: set<string>, start: nat, end: nat) returns (r: Option<Span>)
    requires PersonIn(doc, start, end)
    ensures r == SearchNounChunkTitle(doc, titles, start, end)
  {
    var cdts := CollectCandidates(doc, titles);
    var title := PickLastQualifying(doc, start, end, cdts);
    r := ErrorCheckNounChunk(doc.tokens, title);
    r := RemoveDetPunct(doc.tokens, r);
  }
}
