/** Worked sentences, annotated by hand as a dependency parser plausibly
    would, and what extraction yields for each. */
module Scenarios {
  import opened Options
  import opened AnnotatedDoc
  import opened PostProcessing
  import opened SpanCleaners
  import opened TitleMethods
  import opened Extractor
  import opened Submission
  import opened PyStr

  function Word(text: string, ws: bool, lemmaText: string, tag: string, pos: string, head: nat): Token {
    Token(text, ws, lemmaText, tag, pos, false, head)
  }

  function Punct(text: string, ws: bool, head: nat): Token {
    Token(text, ws, text, text, "PUNCT", true, head)
  }

  /** Checks the conditions of `WellFormed` one at a time, which keeps each
      check on a literal sentence small. */
  lemma SentenceWellFormed(d: Doc)
    requires forall k :: 0 <= k < |d.tokens| ==> d.tokens[k].head < |d.tokens|
    requires forall k :: 0 <= k < |d.ents| ==> d.ents[k].start < d.ents[k].end <= |d.tokens|
    requires forall k :: 0 <= k < |d.chunks| ==> NonEmptyIn(d.chunks[k], |d.tokens|)
    requires |d.subtrees| == |d.tokens|
    requires forall k :: 0 <= k < |d.tokens| ==> IsSubtree(d.subtrees[k], k, |d.tokens|)
    ensures WellFormed(d)
  {
  }

  /** "U.S. Treasury Secretary Steven Mnuchin said on Saturday." */
  function MnuchinDoc(): Doc {
    Doc(
      [ Word("U.S.", true, "U.S.", "NNP", "PROPN", 2),
        Word("Treasury", true, "Treasury", "NNP", "PROPN", 2),
        Word("Secretary", true, "Secretary", "NNP", "PROPN", 4),
        Word("Steven", true, "Steven", "NNP", "PROPN", 4),
        Word("Mnuchin", true, "Mnuchin", "NNP", "PROPN", 5),
        Word("said", true, "say", "VBD", "VERB", 5),
        Word("on", true, "on", "IN", "ADP", 5),
        Word("Saturday", false, "Saturday", "NNP", "PROPN", 6),
        Punct(".", false, 5) ],
      [ Entity("PERSON", 3, 5), Entity("DATE", 7, 8) ],
      [ Span(0, 5), Span(7, 8) ],
      [ [0], [1], [0, 1, 2], [3], [0, 1, 2, 3, 4], [0, 1, 2, 3, 4, 5, 6, 7, 8], [6, 7], [7], [8] ])
  }

  lemma MnuchinWellFormed()
    ensures WellFormed(MnuchinDoc())
  {
    SentenceWellFormed(MnuchinDoc());
  }

  lemma MnuchinTexts()
    ensures SpanText(MnuchinDoc().tokens, 3, 5) == "Steven Mnuchin"
    ensures SpanText(MnuchinDoc().tokens, 0, 3) == "U.S. Treasury Secretary"
  {
    var t := MnuchinDoc().tokens;
    assert SpanText(t, 4, 5) == "Mnuchin";
    assert SpanText(t, 3, 5) == "Steven" + " " + "Mnuchin";
    assert SpanText(t, 2, 3) == "Secretary";
    assert SpanText(t, 1, 3) == "Treasury" + " " + "Secretary";
    assert SpanText(t, 0, 3) == "U.S." + " " + "Treasury Secretary";
  }

  /** The three scenario titles are clean at both ends, so post-processing
      keeps them as they are. */
  lemma TitlesKept()
    ensures PostProcess(Some("U.S. Treasury Secretary")) == Some("U.S. Treasury Secretary")
    ensures PostProcess(Some("physician assistant at MyBotoxLA")) == Some("physician assistant at MyBotoxLA")
    ensures PostProcess(Some("a winger")) == Some("a winger")
  {
    var s1, s2, s3 := "U.S. Treasury Secretary", "physician assistant at MyBotoxLA", "a winger";
    assert s1[0] == 'U' && s1[|s1| - 1] == 'y';
    PostProcessKeepsClean(s1);
    assert s2[0] == 'p' && s2[|s2| - 1] == 'A';
    PostProcessKeepsClean(s2);
    assert s3[0] == 'a' && s3[|s3| - 1] == 'r';
    PostProcessKeepsClean(s3);
  }

  /** A title written before the name is found by method A. */
  lemma MnuchinTitleBeforeName()
    ensures WellFormed(MnuchinDoc())
    ensures Extract(MnuchinDoc(), {}) == Returned(NameTitle(Some("Steven Mnuchin"), Some("U.S. Treasury Secretary")))
  {
    var d := MnuchinDoc();
    MnuchinWellFormed();
    assert LastPerson(d.ents) == Some(Entity("PERSON", 3, 5));
    assert FirstEnclosing(d.chunks, 3, 5) == Some(0);
    assert NounChunkTitle(d, 3, 5) == Some(Span(0, 3));
    ExtractPrefersA(d, {}, Entity("PERSON", 3, 5), Span(0, 3));
    MnuchinTexts();
    TitlesKept();
  }

  /** "Yana Pechenik, a physician assistant at MyBotoxLA, said the treatment works." */
  function PechenikDoc(): Doc {
    Doc(
      [ Word("Yana", true, "Yana", "NNP", "PROPN", 1),
        Word("Pechenik", false, "Pechenik", "NNP", "PROPN", 9),
        Punct(",", true, 1),
        Word("a", true, "a", "DT", "DET", 5),
        Word("physician", true, "physician", "NN", "NOUN", 5),
        Word("assistant", true, "assistant", "NN", "NOUN", 1),
        Word("at", true, "at", "IN", "ADP", 5),
        Word("MyBotoxLA", false, "MyBotoxLA", "NNP", "PROPN", 6),
        Punct(",", true, 1),
        Word("said", true, "say", "VBD", "VERB", 9),
        Word("the", true, "the", "DT", "DET", 11),
        Word("treatment", true, "treatment", "NN", "NOUN", 12),
        Word("works", false, "work", "VBZ", "VERB", 9),
        Punct(".", false, 9) ],
      [ Entity("PERSON", 0, 2), Entity("ORG", 7, 8) ],
      [ Span(0, 2), Span(3, 6), Span(7, 8), Span(10, 12) ],
      [ [0], [0, 1, 2, 3, 4, 5, 6, 7, 8], [2], [3], [4], [3, 4, 5, 6, 7], [6, 7], [7], [8],
        [0, 1, 2, 3, 4, 5, 6, 7, 8, 9, 10, 11, 12, 13], [10], [10, 11], [10, 11, 12], [13] ])
  }

  lemma PechenikWellFormed()
    ensures WellFormed(PechenikDoc())
  {
    SentenceWellFormed(PechenikDoc());
  }

  /** Method B on the Pechenik sentence: the subtree of "Pechenik" runs to
      the second comma, and the trim leaves "physician assistant at MyBotoxLA". */
  lemma PechenikMethodB()
    ensures WellFormed(PechenikDoc())
    ensures DependParsingTitle(PechenikDoc(), 0, 2) == Returned(Some(Span(4, 8)))
  {
    var d := PechenikDoc();
    PechenikWellFormed();
    assert SubtreeLast(d, 2) == 8;
    assert LeftStop(d.tokens, 2, 8) == 4;
    assert RightStop(d.tokens, 4, 8) == 7;
    assert TrimDetPunct(d.tokens, Some(Span(2, 9))) == Some(Span(4, 8));
  }

  /** `span.text` of four words, each followed by a space but the last. */
  lemma SpanTextOfFour(t: seq<Token>, s: nat, a: string, b: string, c: string, d: string)
    requires s + 4 <= |t|
    requires t[s].text == a && t[s].ws && t[s + 1].text == b && t[s + 1].ws
    requires t[s + 2].text == c && t[s + 2].ws && t[s + 3].text == d
    ensures SpanText(t, s, s + 4) == a + " " + (b + " " + (c + " " + d))
  {
    assert SpanText(t, s + 3, s + 4) == d;
    assert SpanText(t, s + 2, s + 4) == c + " " + d;
    assert SpanText(t, s + 1, s + 4) == b + " " + (c + " " + d);
  }

  lemma PechenikTexts()
    ensures SpanText(PechenikDoc().tokens, 0, 2) == "Yana Pechenik"
    ensures SpanText(PechenikDoc().tokens, 4, 8) == "physician assistant at MyBotoxLA"
  {
    var t := PechenikDoc().tokens;
    assert SpanText(t, 1, 2) == "Pechenik";
    assert SpanText(t, 0, 2) == "Yana" + " " + "Pechenik";
    SpanTextOfFour(t, 4, "physician", "assistant", "at", "MyBotoxLA");
  }

  /** The appositive is found by method B, and the trim walks past the comma
      and then past the article "a" too. */
  lemma PechenikAppositive()
    ensures WellFormed(PechenikDoc())
    ensures Extract(PechenikDoc(), {}) == Returned(NameTitle(Some("Yana Pechenik"), Some("physician assistant at MyBotoxLA")))
  {
    var d := PechenikDoc();
    PechenikMethodB();
    assert LastPerson(d.ents) == Some(Entity("PERSON", 0, 2));
    assert FirstEnclosing(d.chunks, 0, 2) == None;
    assert NounChunkTitle(d, 0, 2) == None;
    PechenikTexts();
    ExtractFallsBackToB(d, {}, Entity("PERSON", 0, 2), Span(4, 8));
    TitlesKept();
  }

  /** "Justin Williams of Toronto is a winger." */
  function WilliamsDoc(): Doc {
    Doc(
      [ Word("Justin", true, "Justin", "NNP", "PROPN", 1),
        Word("Williams", true, "Williams", "NNP", "PROPN", 4),
        Word("of", true, "of", "IN", "ADP", 1),
        Word("Toronto", true, "Toronto", "NNP", "PROPN", 2),
        Word("is", true, "be", "VBZ", "AUX", 4),
        Word("a", true, "a", "DT", "DET", 6),
        Word("winger", false, "winger", "NN", "NOUN", 4),
        Punct(".", false, 4) ],
      [ Entity("PERSON", 0, 2), Entity("GPE", 3, 4) ],
      [ Span(0, 2), Span(3, 4), Span(5, 7) ],
      [ [0], [0, 1, 2, 3], [2, 3], [3], [0, 1, 2, 3, 4, 5, 6, 7], [5], [5, 6], [7] ])
  }

  lemma WilliamsWellFormed()
    ensures WellFormed(WilliamsDoc())
  {
    SentenceWellFormed(WilliamsDoc());
  }

  /** Method C on the Williams sentence: "a winger" is the only chunk ending
      in a dictionary word, and it hangs from "is", the head of "Williams". */
  lemma WilliamsMethodC()
    ensures WellFormed(WilliamsDoc())
    ensures SearchNounChunkTitle(WilliamsDoc(), {"winger"}, 0, 2) == Some(Span(5, 7))
  {
    var d := WilliamsDoc();
    WilliamsWellFormed();
    assert AsciiLower("winger") == "winger";
    assert !EndsInTitleWord(d, {"winger"}, Span(0, 2));
    assert !EndsInTitleWord(d, {"winger"}, Span(3, 4));
    assert EndsInTitleWord(d, {"winger"}, Span(5, 7));
    assert Candidates(d, {"winger"}, d.chunks[..1]) == [];
    assert Candidates(d, {"winger"}, d.chunks[..2]) == [];
    assert d.chunks[..3] == d.chunks;
    assert Candidates(d, {"winger"}, d.chunks) == [Span(5, 7)];
    assert LastQualifying(d, 0, 2, [Span(5, 7)]) == Some(Span(5, 7));
    assert CheckedSpan(d.tokens, Some(Span(5, 7))) == Some(Span(5, 7));
    assert TrimDetPunct(d.tokens, Some(Span(5, 7))) == Some(Span(5, 7));
  }

  lemma WilliamsTexts()
    ensures SpanText(WilliamsDoc().tokens, 0, 2) == "Justin Williams"
    ensures SpanText(WilliamsDoc().tokens, 5, 7) == "a winger"
  {
    var t := WilliamsDoc().tokens;
    assert SpanText(t, 1, 2) == "Williams";
    assert SpanText(t, 0, 2) == "Justin" + " " + "Williams";
    assert SpanText(t, 6, 7) == "winger";
    assert SpanText(t, 5, 7) == "a" + " " + "winger";
  }

  /** On the Williams sentence, method A finds no enclosing chunk and method B
      finds no comma after the name's subtree. */
  lemma WilliamsNoAOrB()
    ensures WellFormed(WilliamsDoc())
    ensures LastPerson(WilliamsDoc().ents) == Some(Entity("PERSON", 0, 2))
    ensures NounChunkTitle(WilliamsDoc(), 0, 2) == None
    ensures DependParsingTitle(WilliamsDoc(), 0, 2) == Returned(None)
  {
    var d := WilliamsDoc();
    WilliamsWellFormed();
    assert LastPerson(d.ents) == Some(Entity("PERSON", 0, 2));
    assert FirstEnclosing(d.chunks, 0, 2) == None;
    assert SubtreeLast(d, 2) == 3;
  }

  /** Method C picks the dictionary chunk joined to the name by "be"; the
      trim's cursors meet on "winger", so the article stays. */
  lemma WilliamsCopula()
    ensures WellFormed(WilliamsDoc())
    ensures Extract(WilliamsDoc(), {"winger"}) == Returned(NameTitle(Some("Justin Williams"), Some("a winger")))
  {
    var d := WilliamsDoc();
    WilliamsMethodC();
    WilliamsNoAOrB();
    WilliamsTexts();
    ExtractFallsBackToC(d, {"winger"}, Entity("PERSON", 0, 2));
    TitlesKept();
  }

  /** "Justin Williams is a winger." */
  function BareNameDoc(): Doc {
    Doc(
      [ Word("Justin", true, "Justin", "NNP", "PROPN", 1),
        Word("Williams", true, "Williams", "NNP", "PROPN", 2),
        Word("is", true, "be", "VBZ", "AUX", 2),
        Word("a", true, "a", "DT", "DET", 4),
        Word("winger", false, "winger", "NN", "NOUN", 2),
        Punct(".", false, 2) ],
      [ Entity("PERSON", 0, 2) ],
      [ Span(0, 2), Span(3, 5) ],
      [ [0], [0, 1], [0, 1, 2, 3, 4, 5], [3], [3, 4], [5] ])
  }

  lemma BareNameWellFormed()
    ensures WellFormed(BareNameDoc())
  {
    SentenceWellFormed(BareNameDoc());
  }

  /** When the name's subtree is the name alone, method B reads the first
      token of an empty slice: extraction raises before method C is tried. */
  lemma BareNameRaises()
    ensures WellFormed(BareNameDoc())
    ensures Extract(BareNameDoc(), {"winger"}) == IndexError
  {
    var d := BareNameDoc();
    BareNameWellFormed();
    assert LastPerson(d.ents) == Some(Entity("PERSON", 0, 2));
    assert FirstEnclosing(d.chunks, 0, 2) == None;
    assert NounChunkTitle(d, 0, 2) == None;
    assert SubtreeFromName(d, 0, 2) && SubtreeLast(d, 2) == 1;
  }

  /** "The sky is blue." */
  function SkyDoc(): Doc {
    Doc(
      [ Word("The", true, "the", "DT", "DET", 1),
        Word("sky", true, "sky", "NN", "NOUN", 2),
        Word("is", true, "be", "VBZ", "AUX", 2),
        Word("blue", false, "blue", "JJ", "ADJ", 2),
        Punct(".", false, 2) ],
      [],
      [ Span(0, 2) ],
      [ [0], [0, 1], [0, 1, 2, 3, 4], [3], [4] ])
  }

  lemma SkyHasNoPerson()
    ensures WellFormed(SkyDoc())
    ensures Extract(SkyDoc(), {}) == Returned(NameTitle(None, None))
  {
  }

  /** A submission whose name does not occur in its text is refused. */
  lemma SubmitNameNotInText()
    ensures Submit("Steven Mnuchin said", Some("Yellen"), Some("Secretary"), "title")
            == SubmitReply("failed", NameMissingMsg, false)
  {
    var text := "Steven Mnuchin said";
    assert forall k :: 0 <= k < |text| ==> text[k] != 'Y';
    forall i | 0 <= i
      ensures !OccursAt("Yellen", text, i)
    {
      if i + 6 <= |text| {
        assert text[i..i + 6][0] == text[i];
      }
    }
    assert !IsSpace("Yellen"[0]) && !IsSpace("Secretary"[0]);
  }
}
