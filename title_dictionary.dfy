/** The title dictionary: the words that may end a title, read once from a
    word list at start-up, and the lookup method C performs against it. */
module TitleDictionary {
  import opened PyStr

  /** `line.startswith("#")`. */
  predicate IsComment(line: string) {
    |line| > 0 && line[0] == '#'
  }

  /** The characters of `strip('\t\n')`. */
  predicate IsTabOrNewline(c: char) {
    c == '\t' || c == '\n'
  }

  /** The dictionary built from the file's lines (as `readlines` gives them,
      line ends included): every line that is not a comment, with tabs and
      newlines stripped from both ends, and nothing else. */
  function TitleSet(lines: seq<string>): (titles: set<string>)
    ensures forall line :: line in lines && !IsComment(line) ==> Strip(line, IsTabOrNewline) in titles
    ensures forall w :: w in titles ==> Clean(w, IsTabOrNewline)
    ensures forall w :: w in titles ==> exists line :: line in lines && !IsComment(line) && StrippedFrom(line, w, IsTabOrNewline)
  {
    set line | line in lines && !IsComment(line) :: Strip(line, IsTabOrNewline)
  }

  /** Method C's gate `chunk[-1].text.lower() in title_set`: the word is
      lower-cased, the dictionary entries are not. */
  predicate InTitleSet(titles: set<string>, word: string) {
    AsciiLower(word) in titles
  }

  /** The lookup does not depend on how the word is capitalised. */
  lemma LookupIgnoresCase(titles: set<string>, word: string)
    ensures InTitleSet(titles, AsciiUpper(word)) == InTitleSet(titles, word)
  {
    LowerOfUpper(word);
  }

  /** An entry holding a capital letter can never be matched, since only the
      looked-up word is lower-cased. */
  lemma CapitalisedEntryUnreachable(entry: string, k: nat, word: string)
    requires k < |entry| && IsAsciiUpper(entry[k])
    ensures AsciiLower(word) != entry
  {
  }
}
