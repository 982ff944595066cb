/** The two span cleaners shared by the title methods:
    `remove_det_punt_for_title_span`, which walks two cursors inward past
    determiners and punctuation, and `error_check_method_noun_chunk`, which
    re-slices a span that starts with punctuation and rejects a long one. */
module SpanCleaners {
  import opened Options
  import opened AnnotatedDoc

  /** What the left cursor walks past: punctuation or a determiner. */
  predicate Strippable(t: Token) {
    t.isPunct || t.tag == Determiner
  }

  /** Every token of `[lo, hi)` is `Strippable`. */
  predicate AllStrippable(tokens: seq<Token>, lo: nat, hi: nat)
    requires hi <= |tokens|
  {
    forall k :: lo <= k < hi ==> Strippable(tokens[k])
  }

  /** Every token of `[lo, hi)` is punctuation. */
  predicate AllPunct(tokens: seq<Token>, lo: nat, hi: nat)
    requires hi <= |tokens|
  {
    forall k :: lo <= k < hi ==> tokens[k].isPunct
  }

  /** Where the left cursor stops when it starts at `i` with the right cursor
      at `j`: the first token that is not `Strippable`, or `j`. */
  function LeftStop(tokens: seq<Token>, i: nat, j: nat): (r: nat)
    requires i <= j < |tokens|
    ensures i <= r <= j && AllStrippable(tokens, i, r)
    ensures r < j ==> !Strippable(tokens[r])
    decreases j - i
  {
    if i < j && Strippable(tokens[i]) then LeftStop(tokens, i + 1, j) else i
  }

  /** Where the right cursor stops when it starts at `j` with the left cursor
      stopped at `i`: the last token that is not punctuation, or `i`. */
  function RightStop(tokens: seq<Token>, i: nat, j: nat): (r: nat)
    requires i <= j < |tokens|
    ensures i <= r <= j && AllPunct(tokens, r + 1, j + 1)
    ensures i < r ==> !tokens[r].isPunct
    decreases j - i
  {
    if i < j && tokens[j].isPunct then RightStop(tokens, i, j - 1) else j
  }

  /** Past the determiners and punctuation before `m`, the single token at `m`
      is followed only by punctuation up to the end of `sp`. */
  predicate LoneWordAt(tokens: seq<Token>, sp: Span, m: nat)
    requires NonEmptyIn(sp, |tokens|) && sp.start <= m < sp.end
  {
    AllStrippable(tokens, sp.start, m) && AllPunct(tokens, m + 1, sp.end)
  }

  /** The span `remove_det_punt_for_title_span` returns. It is never longer
      than its input; when it differs from it, it keeps at least two tokens,
      what it dropped on the left is determiners and punctuation, what it
      dropped on the right is punctuation, and its own ends are neither.
      It is returned unchanged only when there was nothing to drop at either
      end, or when the cursors met on a lone word (the converse of
      `TrimKeepsLoneWord`). */
  function TrimDetPunct(tokens: seq<Token>, span: Option<Span>): (r: Option<Span>)
    requires span.Some? ==> NonEmptyIn(span.value, |tokens|)
    ensures r.None? <==> span.None?
    ensures r.Some? ==> span.value.start <= r.value.start < r.value.end <= span.value.end
    ensures r.Some? && r != span ==>
      && r.value.end - r.value.start >= 2
      && !Strippable(tokens[r.value.start]) && !tokens[r.value.end - 1].isPunct
      && AllStrippable(tokens, span.value.start, r.value.start)
      && AllPunct(tokens, r.value.end, span.value.end)
    ensures span.Some? && r == span ==>
      || (!Strippable(tokens[span.value.start]) && !tokens[span.value.end - 1].isPunct)
      || exists m :: span.value.start <= m < span.value.end && LoneWordAt(tokens, span.value, m)
  {
    match span
    case None => None
    case Some(sp) =>
      var i := LeftStop(tokens, sp.start, sp.end - 1);
      var j := RightStop(tokens, i, sp.end - 1);
      if j > i then Some(Span(i, j + 1))
      else
        assert LoneWordAt(tokens, sp, i);
        span
  }

  /** When, past the leading determiners and punctuation, a single token is
      followed only by punctuation, the cursors meet and the span is kept as
      it was: a one-word title keeps its article ("a winger"). */
  lemma TrimKeepsLoneWord(tokens: seq<Token>, sp: Span, m: nat)
    requires NonEmptyIn(sp, |tokens|) && sp.start <= m < sp.end
    requires LoneWordAt(tokens, sp, m)
    ensures TrimDetPunct(tokens, Some(sp)) == Some(sp)
  {
    var i := LeftStop(tokens, sp.start, sp.end - 1);
    assert m <= i;
  }

  /** `remove_det_punt_for_title_span`, with its two cursors. */
  method RemoveDetPunct(tokens: seq<Token>, span: Option<Span>) returns (r: Option<Span>)
    requires span.Some? ==> NonEmptyIn(span.value, |tokens|)
    ensures r == TrimDetPunct(tokens, span)
  {
    if span.None? {
      return None;
    }
    var first, last := span.value.start, span.value.end - 1;
    var i, j := first, last;
    while i < j
      invariant first <= i <= j <= last
      invariant j == last ==> LeftStop(tokens, i, last) == LeftStop(tokens, first, last)
      invariant j < last ==> i == LeftStop(tokens, first, last) && RightStop(tokens, i, j) == RightStop(tokens, i, last)
      decreases j - i
    {
      if tokens[i].isPunct || tokens[i].tag == Determiner {
        i := i + 1;
      } else if tokens[j].isPunct {
        j := j - 1;
      } else {
        break;
      }
    }
    if j > i {
      r := Some(Span(i, j + 1));
    } else {
      r := span;
    }
  }

  /** One past the last token tagged `VERB` in `[s, e)`, or `s` if there is none. */
  function LastVerbEnd(tokens: seq<Token>, s: nat, e: nat): (r: nat)
    requires s <= e <= |tokens|
    ensures s <= r <= e
    ensures s < r ==> tokens[r - 1].pos == Verb
    ensures forall k :: r <= k < e ==> tokens[k].pos != Verb
    decreases e - s
  {
    if e == s then s
    else if tokens[e - 1].pos == Verb then e
    else LastVerbEnd(tokens, s, e - 1)
  }

  /** The span `error_check_method_noun_chunk` returns. A span whose first
      token is not punctuation is kept when it has at most ten tokens and
      rejected otherwise. A span whose first token is punctuation is never
      rejected, whatever its length: it becomes the part after its last verb,
      or stays whole when it has no verb or ends with one. */
  function CheckedSpan(tokens: seq<Token>, span: Option<Span>): (r: Option<Span>)
    requires span.Some? ==> NonEmptyIn(span.value, |tokens|)
    ensures span.None? ==> r.None?
    ensures span.Some? && !tokens[span.value.start].isPunct ==>
      && (r.None? <==> span.value.end - span.value.start > 10)
      && (r.Some? ==> r == span)
    ensures span.Some? && tokens[span.value.start].isPunct ==>
      && r.Some? && r.value.end == span.value.end
      && span.value.start <= r.value.start < r.value.end
      && (r == span <==> tokens[span.value.end - 1].pos == Verb || forall k :: span.value.start <= k < span.value.end ==> tokens[k].pos != Verb)
      && (r != span ==> tokens[r.value.start - 1].pos == Verb && forall k :: r.value.start <= k < r.value.end ==> tokens[k].pos != Verb)
  {
    match span
    case None => None
    case Some(sp) =>
      if tokens[sp.start].isPunct then
        var cut := LastVerbEnd(tokens, sp.start, sp.end);
        if cut < sp.end then Some(Span(cut, sp.end)) else span
      else if sp.end - sp.start > 10 || sp.end - sp.start == 0 then None
      else span
  }

  /** `error_check_method_noun_chunk`, scanning for the last verb. */
  method ErrorCheckNounChunk(tokens: seq<Token>, span: Option<Span>) returns (r: Option<Span>)
    requires span.Some? ==> NonEmptyIn(span.value, |tokens|)
    ensures r == CheckedSpan(tokens, span)
  {
    if span.None? {
      return None;
    }
    var sp := span.value;
    var n := sp.end - sp.start;
    var i, lastI := 0, 0;
    r := span;
    if tokens[sp.start].isPunct {
      while i < n
        invariant 0 <= i <= n
        invariant sp.start + lastI == LastVerbEnd(tokens, sp.start, sp.start + i)
      {
        if tokens[sp.start + i].pos == Verb {
          lastI := i + 1;
        }
        i := i + 1;
      }
      if lastI < n {
        r := Some(Span(sp.start + lastI, sp.end));
      }
    } else if n > 10 || n == 0 {
      r := None;
    }
  }
}
