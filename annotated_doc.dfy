/** The annotated sentence the extractor receives from the language-analysis
    library, taken as an immutable value: its tokens, its named-entity spans,
    its noun-chunk spans and each token's dependency subtree. */
module AnnotatedDoc {

  /** One token: its text and whether a space follows it, its lemma (`lemmaText`), its
      fine-grained tag (`DT` for a determiner), its coarse part of speech
      (`VERB`, ...), its punctuation flag and the index of its dependency head. */
  datatype Token = Token(text: string, ws: bool, lemmaText: string, tag: string, pos: string, isPunct: bool, head: nat)

  /** A named-entity span `[start, end)` with its label. */
  datatype Entity = Entity(labelText: string, start: nat, end: nat)

  /** A half-open token range `[start, end)`; noun chunks and title spans. */
  datatype Span = Span(start: nat, end: nat)

  /** `subtrees[i]` lists, in increasing order, the indices of the tokens in
      the dependency subtree of token `i`, `i` included. */
  datatype Doc = Doc(tokens: seq<Token>, ents: seq<Entity>, chunks: seq<Span>, subtrees: seq<seq<nat>>)

  const Person := "PERSON"
  const Determiner := "DT"
  const Verb := "VERB"
  const CommaLemma := ","
  const Copula := "be"

  /** A non-empty span inside a sentence of `n` tokens. */
  predicate NonEmptyIn(sp: Span, n: nat) {
    sp.start < sp.end <= n
  }

  /** A strictly increasing index list that contains `root` and stays below `n`. */
  predicate IsSubtree(sub: seq<nat>, root: nat, n: nat) {
    && root in sub
    && (forall a :: 0 < a < |sub| ==> sub[a - 1] < sub[a])
    && (forall a :: 0 <= a < |sub| ==> sub[a] < n)
  }

  /** In a list that increases from each element to the next, no element
      exceeds the last one. */
  lemma {:induction false} UpToLast(sub: seq<nat>, k: nat)
    requires forall a :: 0 < a < |sub| ==> sub[a - 1] < sub[a]
    requires k < |sub|
    ensures sub[k] <= sub[|sub| - 1]
    decreases |sub| - k
  {
    if k < |sub| - 1 {
      UpToLast(sub, k + 1);
    }
  }

  /** What the model assumes of every sentence the annotation library returns:
      heads are tokens, entity and chunk spans are non-empty and inside the
      sentence, and every token has its subtree. */
  predicate WellFormed(doc: Doc) {
    var n := |doc.tokens|;
    && (forall k :: 0 <= k < n ==> doc.tokens[k].head < n)
    && (forall k :: 0 <= k < |doc.ents| ==> doc.ents[k].start < doc.ents[k].end <= n)
    && (forall k :: 0 <= k < |doc.chunks| ==> NonEmptyIn(doc.chunks[k], n))
    && |doc.subtrees| == n
    && (forall k :: 0 <= k < n ==> IsSubtree(doc.subtrees[k], k, n))
  }

  /** The text of `[s, e)`: each token followed by its space, except that the
      space after the last token is dropped. */
  function SpanText(tokens: seq<Token>, s: nat, e: nat): string
    requires s <= e <= |tokens|
    decreases e - s
  {
    if e <= s then ""
    else if s + 1 == e then tokens[s].text
    else tokens[s].text + (if tokens[s].ws then " " else "") + SpanText(tokens, s + 1, e)
  }
}
