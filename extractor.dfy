/** `extract_title_name`: locate the person, then try methods A, B and C in
    turn and post-process the text of the first title found. */
module Extractor {
  import opened Options
  import opened PyStr
  import opened AnnotatedDoc
  import opened PostProcessing
  import opened TitleMethods

  /** The `(name, title)` pair; `None` is an unset slot. */
  datatype NameTitle = NameTitle(name: Option<string>, title: Option<string>)

  /** `ents[k]` is a PERSON entity and no later entity is. */
  predicate LastPersonAt(ents: seq<Entity>, k: nat)
    requires k < |ents|
  {
    ents[k].labelText == Person && forall m :: k < m < |ents| ==> ents[m].labelText != Person
  }

  /** The person the extractor reports: the last PERSON entity of the
      sentence, or none when there is no PERSON entity. */
  function LastPerson(ents: seq<Entity>): (r: Option<Entity>)
    ensures r.None? <==> forall k :: 0 <= k < |ents| ==> ents[k].labelText != Person
    ensures r.Some? ==> exists k :: 0 <= k < |ents| && ents[k] == r.value && LastPersonAt(ents, k)
    ensures r.Some? ==> r.value in ents
    decreases |ents|
  {
    if ents == [] then None
    else
      var n := |ents| - 1;
      if ents[n].labelText == Person then
        assert LastPersonAt(ents, n);
        Some(ents[n])
      else
        var r := LastPerson(ents[..n]);
        assert r.Some? ==> exists k :: 0 <= k < |ents| && ents[k] == r.value && LastPersonAt(ents, k) by {
          if r.Some? {
            var k :| 0 <= k < n && ents[..n][k] == r.value && LastPersonAt(ents[..n], k);
            assert ents[k] == r.value && LastPersonAt(ents, k);
          }
        }
        r
  }

  /** The post-processed text of a title span, if there is one. */
  function TitleText(doc: Doc, span: Option<Span>): (r: Option<string>)
    requires span.Some? ==> NonEmptyIn(span.value, |doc.tokens|)
    ensures r.None? <==> span.None?
    ensures r.Some? ==> Clean(r.value, IsQuoteOrSpace)
    ensures r.Some? ==> StrippedFrom(SpanText(doc.tokens, span.value.start, span.value.end), r.value, IsQuoteOrSpace)
  {
    match span
    case None => None
    case Some(sp) => PostProcess(Some(SpanText(doc.tokens, sp.start, sp.end)))
  }

  /** What extraction yields for a sentence. With no PERSON entity, nothing
      is set. Otherwise the name is the text of the last PERSON entity and the
      title comes from method A, or from B when A found nothing, or from C
      when B found nothing either; when B raises, so does the extraction. */
  function Extract(doc: Doc, titles: set<string>): (r: Outcome<NameTitle>)
    requires WellFormed(doc)
    ensures LastPerson(doc.ents).None? ==> r == Returned(NameTitle(None, None))
    ensures r.Returned? && LastPerson(doc.ents).Some? ==>
      var p := LastPerson(doc.ents).value;
      r.value.name == Some(SpanText(doc.tokens, p.start, p.end))
    ensures r.Returned? && r.value.title.Some? ==> r.value.name.Some? && Clean(r.value.title.value, IsQuoteOrSpace)
    ensures r.IndexError? <==>
      && LastPerson(doc.ents).Some?
      && var p := LastPerson(doc.ents).value;
      && NounChunkTitle(doc, p.start, p.end).None?
      && SubtreeFromName(doc, p.start, p.end) && SubtreeLast(doc, p.end) == p.end - 1
  {
    match LastPerson(doc.ents)
    case None => Returned(NameTitle(None, None))
    case Some(p) =>
      var name := Some(SpanText(doc.tokens, p.start, p.end));
      var a := NounChunkTitle(doc, p.start, p.end);
      if a.Some? then Returned(NameTitle(name, TitleText(doc, a)))
      else
        match DependParsingTitle(doc, p.start, p.end)
        case IndexError => IndexError
        case Returned(b) =>
          if b.Some? then Returned(NameTitle(name, TitleText(doc, b)))
          else Returned(NameTitle(name, TitleText(doc, SearchNounChunkTitle(doc, titles, p.start, p.end))))
  }

  /** Method A's title, when there is one, is the title reported: B and C
      are not consulted, so B cannot raise. */
  lemma ExtractPrefersA(doc: Doc, titles: set<string>, p: Entity, a: Span)
    requires WellFormed(doc) && LastPerson(doc.ents) == Some(p)
    requires NounChunkTitle(doc, p.start, p.end) == Some(a)
    ensures Extract(doc, titles) == Returned(NameTitle(Some(SpanText(doc.tokens, p.start, p.end)), TitleText(doc, Some(a))))
  {
  }

  /** When A finds nothing and B finds a span, B's span is the title and C is
      not consulted. */
  lemma ExtractFallsBackToB(doc: Doc, titles: set<string>, p: Entity, b: Span)
    requires WellFormed(doc) && LastPerson(doc.ents) == Some(p)
    requires NounChunkTitle(doc, p.start, p.end).None?
    requires DependParsingTitle(doc, p.start, p.end) == Returned(Some(b))
    ensures Extract(doc, titles) == Returned(NameTitle(Some(SpanText(doc.tokens, p.start, p.end)), TitleText(doc, Some(b))))
  {
  }

  /** When A and B both find nothing (and B does not raise), C decides the
      title; C is the only method that consults the title dictionary. */
  lemma ExtractFallsBackToC(doc: Doc, titles: set<string>, p: Entity)
    requires WellFormed(doc) && LastPerson(doc.ents) == Some(p)
    requires NounChunkTitle(doc, p.start, p.end).None?
    requires DependParsingTitle(doc, p.start, p.end) == Returned(None)
    ensures Extract(doc, titles) == Returned(NameTitle(Some(SpanText(doc.tokens, p.start, p.end)),
                                                       TitleText(doc, SearchNounChunkTitle(doc, titles, p.start, p.end))))
  {
  }

  /** The entity loop of `extract_title_name`: every PERSON entity overwrites
      the name and its range, so the last one is kept. */
  method LocatePerson(doc: Doc) returns (name: Option<string>, start: Option<nat>, end: nat)
    requires WellFormed(doc)
    ensures LastPerson(doc.ents).None? ==> name.None? && start.None?
    ensures LastPerson(doc.ents).Some? ==>
      var p := LastPerson(doc.ents).value;
      && name == Some(SpanText(doc.tokens, p.start, p.end))
      && start == Some(p.start) && end == p.end
  {
    name, start, end := None, None, 0;
    for k := 0 to |doc.ents|
      invariant LastPerson(doc.ents[..k]).None? ==> name.None? && start.None?
      invariant LastPerson(doc.ents[..k]).Some? ==>
        var p := LastPerson(doc.ents[..k]).value;
        && p in doc.ents
        && name == Some(SpanText(doc.tokens, p.start, p.end))
        && start == Some(p.start) && end == p.end
    {
      assert doc.ents[..k + 1][..k] == doc.ents[..k];
      var ent := doc.ents[k];
      if ent.labelText == Person {
        name := Some(SpanText(doc.tokens, ent.start, ent.end));
        start, end := Some(ent.start), ent.end;
      }
    }
    assert doc.ents[..|doc.ents|] == doc.ents;
  }

  /** `extract_title_name` on an annotated sentence. */
  method ExtractTitleName(doc: Doc, titles: set<string>) returns (r: Outcome<NameTitle>)
    requires WellFormed(doc)
    ensures r == Extract(doc, titles)
  {
    var name, start, end := LocatePerson(doc);
    if start.None? {
      return Returned(NameTitle(name, None));
    }
    var s := start.value;
    var span := MethodNounChunk(doc, s, end);
    if span.None? {
      var b := DependParsingTitle(doc, s, end);
      if b.IndexError? {
        return IndexError;
      }
      span := b.value;
    }
    if span.None? {
      span := MethodSearchNounChunk(doc, titles, s, end);
    }
    var title: Option<string> := None;
    if span.Some? {
      title := PostProcess(Some(SpanText(doc.tokens, span.value.start, span.value.end)));
    }
    r := Returned(NameTitle(name, title));
  }
}
