/** `post_process`: the last step applied to a title's text, which removes
    whitespace and curly double quotes from both ends. The two regular
    expressions `^[\s“”]+` and `[\s“”]+$` are applied one after the other,
    and each removes the whole run at its end of the string, so the pair
    behaves like `strip` over that character class. */
module PostProcessing {
  import opened Options
  import opened PyStr

  /** The class `[\s“”]`. */
  predicate IsQuoteOrSpace(c: char) {
    IsSpace(c) || c == '\U{201C}' || c == '\U{201D}'
  }

  /** `None` stays `None`; a string becomes the part of it left between the
      runs of whitespace and curly quotes at its two ends. */
  function PostProcess(title: Option<string>): (r: Option<string>)
    ensures r.None? <==> title.None?
    ensures title.Some? ==> StrippedFrom(title.value, r.value, IsQuoteOrSpace)
    ensures title.Some? ==> Clean(r.value, IsQuoteOrSpace)
  {
    match title
    case None => None
    case Some(t) => Some(Strip(t, IsQuoteOrSpace))
  }

  /** Any answer that cuts quote/space runs from the ends and leaves a clean
      string is `PostProcess`'s answer. */
  lemma PostProcessUnique(s: string, r: string)
    requires StrippedFrom(s, r, IsQuoteOrSpace) && Clean(r, IsQuoteOrSpace)
    ensures PostProcess(Some(s)) == Some(r)
  {
    StripUnique(s, r, IsQuoteOrSpace);
  }

  /** A title with no whitespace or curly quote at either end is kept as it is. */
  lemma PostProcessKeepsClean(s: string)
    requires Clean(s, IsQuoteOrSpace)
    ensures PostProcess(Some(s)) == Some(s)
  {
    assert s == s[0..|s|];
    assert StrippedFrom(s, s, IsQuoteOrSpace);
    PostProcessUnique(s, s);
  }

  /** Post-processing a post-processed title changes nothing. */
  lemma PostProcessIdempotent(title: Option<string>)
    ensures PostProcess(PostProcess(title)) == PostProcess(title)
  {
    if title.Some? {
      PostProcessKeepsClean(PostProcess(title).value);
    }
  }
}
