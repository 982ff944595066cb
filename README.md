# Title extractor: a Dafny model

The extractor takes one English sentence and returns a person's name and the
title that goes with it, for example "Steven Mnuchin" and "U.S. Treasury
Secretary". A language-analysis library annotates the sentence: its tokens,
part-of-speech tags, lemmas, dependency heads and subtrees, named entities and
noun chunks. The extractor then runs a fixed heuristic over these annotations:

- It takes the last PERSON entity as the name.
- It looks for a title in three ways, in this order, stopping at the first one
  that finds something:
  - A: a title written before the name, inside the same noun chunk.
  - B: an appositive after a comma ("Yana Pechenik, a physician assistant ...").
  - C: a noun chunk that ends in a word from a title dictionary, joined to
    the name by "be" or standing right before it.
- Two span cleaners are shared by these methods:
  - an error check that re-slices spans starting with punctuation and
    rejects long ones;
  - a trim that walks two cursors inward past determiners and punctuation.
- The title text is finally stripped of whitespace and curly quotes.

The model covers two more pieces:

- the line filter that builds the title dictionary from its word list;
- the validation step of the `/submit` endpoint, which accepts or refuses a
  user's corrected sample.

The annotated sentence is an immutable value, `AnnotatedDoc.Doc`. Its
predicate `WellFormed` states what the model assumes of the library's output:

- heads are tokens of the sentence;
- entity and chunk spans are non-empty and inside the sentence;
- every token's subtree is a strictly increasing list of token indices that
  contains the token (true of projective parses).

Modules:

| file | module | models |
|---|---|---|
| options.dfy | `Options` | `Option` and `Outcome`; `Outcome.IndexError` is the exception one step can raise |
| python_str.dfy | `PyStr` | `str.isspace`, `str.strip` over a character class, ASCII `lower`/`upper`, `needle in hay` |
| post_process.dfy | `PostProcessing` | `post_process` |
| title_dictionary.dfy | `TitleDictionary` | the `title_set` line filter and method C's lookup |
| annotated_doc.dfy | `AnnotatedDoc` | tokens, entities, spans, the sentence and `span.text` |
| span_cleaners.dfy | `SpanCleaners` | `remove_det_punt_for_title_span`, `error_check_method_noun_chunk` |
| title_methods.dfy | `TitleMethods` | methods A, B and C |
| extractor.dfy | `Extractor` | `extract_title_name` |
| submission.dfy | `Submission` | the validation branch of `submit` |
| scenarios.dfy | `Scenarios` | hand-annotated sentences and what extraction yields for them |

The source mixes two styles, and the model keeps both:

- Loops over cursors or lists become methods with loops. Each is proved equal
  to a specification function: `RemoveDetPunct`, `ErrorCheckNounChunk`,
  `MethodNounChunk`, `CollectCandidates`, `PickLastQualifying`,
  `MethodSearchNounChunk`, `LocatePerson` and
  `ExtractTitleName`.
- Conditionals over values become functions: `PostProcess`,
  `DependParsingTitle`, `Submit` and `TitleSet`.

The specification functions carry the properties themselves.

### Behaviours of the code worth knowing

- **Leading article.** The trim's left cursor passes every determiner, so
  method B turns "a physician assistant at MyBotoxLA" into "physician
  assistant at MyBotoxLA" (`Scenarios.PechenikAppositive`).
  - The article survives only when the cursors meet on a single word
    (`SpanCleaners.TrimKeepsLoneWord`, `Scenarios.WilliamsCopula`).
- **Title length.** The ten-token cap does not apply on two paths:
  - The error check applies the cap only when the span does not start with
    punctuation.
  - Method B never calls the error check.
- **Exception in method B.** Method B reads the first token of `doc[end:e+1]`,
  and that slice is empty when the name's subtree ends with the name.
  - The model returns `IndexError` there, which is what a bounds-checked span
    index raises.
  - `extract_title_name` passes it on, and method C is not tried
    (`Scenarios.BareNameRaises`).

## Model

All source paths are in `wsw/title_extractor_sever.py`.

| member | source | states |
|---|---|---|
| PostProcessing.PostProcess | wsw/title_extractor_sever.py:19-26 | `None` stays `None`. A string becomes a substring of itself: only runs of whitespace, U+201C and U+201D are cut from its two ends, and the result has none of them at either end. |
| PostProcessing.PostProcessUnique | wsw/title_extractor_sever.py:19-26 | Any cut of such runs from the two ends that leaves clean ends is exactly the post-processed title. The contract determines the result. |
| PostProcessing.PostProcessKeepsClean | wsw/title_extractor_sever.py:22-26 | A title with no whitespace or curly quote at either end is returned unchanged. |
| PostProcessing.PostProcessIdempotent | wsw/title_extractor_sever.py:22-26 | Post-processing twice gives the same result as post-processing once. |
| PyStr.Strip | wsw/title_extractor_sever.py:15 | `strip(chars)` cuts a run of `chars` from each end and leaves clean ends. The result is empty exactly when every character is in `chars`. |
| PyStr.StripUnique | wsw/title_extractor_sever.py:15 | Any cut of `chars` runs that leaves clean ends is `strip`'s result. |
| PyStr.Contains | wsw/title_extractor_sever.py:194 | `name in text` holds exactly when `name` occurs at some position of `text`. |
| TitleDictionary.TitleSet | wsw/title_extractor_sever.py:15-17 | Every line that does not start with `#`, stripped of tabs and newlines, is in the dictionary. Every entry is such a stripped line and has no tab or newline at either end. |
| TitleDictionary.LookupIgnoresCase | wsw/title_extractor_sever.py:96 | The lookup lower-cases the word, so upper-casing the word first changes nothing. This is stated for the A-Z case mapping the model uses, that is for ASCII words. |
| TitleDictionary.CapitalisedEntryUnreachable | wsw/title_extractor_sever.py:15-17 | Entries are not lower-cased, so an entry with a capital letter never matches any word. |
| SpanCleaners.TrimDetPunct | wsw/title_extractor_sever.py:32-46 | `None` stays `None`. The result is a sub-range of the span. A changed span has at least two tokens. Its first token is neither punctuation nor `DT`, and its last token is not punctuation. It dropped only determiners and punctuation on the left and only punctuation on the right. The span comes back unchanged only when there is nothing to drop, or when the cursors meet on one word that follows only determiners and punctuation and is followed only by punctuation. |
| SpanCleaners.RemoveDetPunct | wsw/title_extractor_sever.py:32-46 | The two-cursor loop with its `break` returns `TrimDetPunct`'s span. |
| SpanCleaners.TrimKeepsLoneWord | wsw/title_extractor_sever.py:37-46 | Suppose that after the leading determiners and punctuation one word remains, followed only by punctuation. Then the cursors meet and the span is returned unchanged. With `TrimDetPunct`'s contract this is an if-and-only-if for a span that has something to drop. |
| SpanCleaners.LastVerbEnd | wsw/title_extractor_sever.py:119-124 | One past the last `VERB` in the range, or its start when there is none. No token after that point is a verb. |
| SpanCleaners.CheckedSpan | wsw/title_extractor_sever.py:113-132 | `None` gives `None`. If the first token is not punctuation, a span of more than ten tokens is rejected and a shorter one is kept unchanged. If the first token is punctuation, the span is never rejected, whatever its length. It becomes the non-empty suffix after the last verb, and stays whole exactly when it has no verb or ends with one. |
| SpanCleaners.ErrorCheckNounChunk | wsw/title_extractor_sever.py:113-132 | The `last_i` scan returns `CheckedSpan`'s span. |
| TitleMethods.FirstEnclosing | wsw/title_extractor_sever.py:76-83 | The index of the first chunk that starts before the name and reaches its end. No earlier chunk does; `None` exactly when no chunk does. |
| TitleMethods.NounChunkTitle | wsw/title_extractor_sever.py:74-88 | Method A finds nothing without an enclosing chunk. Any title lies in the first enclosing chunk and ends exactly where the name starts. When the chunk does not start with punctuation, the title is the chunk's part before the name, rejected exactly when that part has more than ten tokens. When it starts with punctuation, the part is never rejected: the title is what follows the part's last verb, or the whole part when it has no verb or ends with one. |
| TitleMethods.MethodNounChunk | wsw/title_extractor_sever.py:74-88 | The chunk loop that breaks at the first enclosing chunk returns `NounChunkTitle`'s span. |
| TitleMethods.DependParsingTitle | wsw/title_extractor_sever.py:48-69 | Method B raises `IndexError` exactly when the name's subtree is gap-free, starts at the name and ends with it. A title is found only if the subtree is gap-free and starts at the name, and the token after the name is a comma. That title lies after the name, within the subtree. Conversely, when the subtree is gap-free, starts at the name, reaches past it and the next token is a comma, the result is the trim of the comma through the subtree's end, and it is never empty. |
| TitleMethods.Candidates | wsw/title_extractor_sever.py:94-97 | A chunk is a candidate exactly when its last word, lower-cased, is in the dictionary. |
| TitleMethods.CandidatesInOrder | wsw/title_extractor_sever.py:94-97 | The candidates are the chunks that pass the dictionary gate, each taken once, in the sentence's order: there are strictly increasing chunk positions that yield them, and these are exactly the positions of the chunks that pass. |
| TitleMethods.LastQualifying | wsw/title_extractor_sever.py:98-106 | The result is a qualifying candidate: its last word shares the name's head and that head is "be", or it ends where the name starts. It sits at a position after which no candidate qualifies (last wins). `None` exactly when no candidate qualifies. |
| TitleMethods.LastPickable | wsw/title_extractor_sever.py:92-106 | The last chunk of the sentence that both passes the dictionary and qualifies. `None` exactly when there is none. |
| TitleMethods.CandidatesThenLast | wsw/title_extractor_sever.py:94-106 | Filtering by the dictionary and then letting each qualifying candidate overwrite the choice picks the sentence's last pickable chunk. |
| TitleMethods.SearchNounChunkTitle | wsw/title_extractor_sever.py:92-109 | Method C finds nothing when no chunk is pickable. Otherwise its title is the last pickable chunk passed through the error check and then the determiner/punctuation trim: the part after the chunk's last verb when the chunk starts with punctuation, the chunk itself otherwise, with leading determiners and punctuation and trailing punctuation dropped. It lies inside the picked chunk, and it is none exactly when the error check rejects that chunk: the chunk does not start with punctuation and has more than ten tokens. |
| TitleMethods.CollectCandidates | wsw/title_extractor_sever.py:94-97 | The loop that appends each chunk ending in a title word builds `Candidates`' list. |
| TitleMethods.PickLastQualifying | wsw/title_extractor_sever.py:98-106 | The loop that lets each qualifying candidate overwrite `title_span` returns `LastQualifying`'s choice. |
| TitleMethods.MethodSearchNounChunk | wsw/title_extractor_sever.py:92-109 | Building `cdts` and then overwriting `title_span` in a loop returns `SearchNounChunkTitle`'s span. |
| Extractor.LastPerson | wsw/title_extractor_sever.py:139-142 | The chosen entity is a PERSON and no later entity is (last wins). `None` exactly when there is no PERSON entity. |
| Extractor.LocatePerson | wsw/title_extractor_sever.py:137-142 | The entity loop leaves `name`, `start` and `end` set from `LastPerson`'s entity, or unset when there is none. |
| Extractor.TitleText | wsw/title_extractor_sever.py:157-160 | A found span gives its text, post-processed and clean at both ends. No span gives no title. |
| Extractor.Extract | wsw/title_extractor_sever.py:135-161 | No PERSON gives `(None, None)`. Otherwise the name is the text of the last PERSON entity. A title is never set without a name and is clean at both ends. Extraction raises exactly when A finds nothing and B's slice is empty. |
| Extractor.ExtractPrefersA | wsw/title_extractor_sever.py:145-146 | When method A finds a title, that title is reported and B and C are not consulted. |
| Extractor.ExtractFallsBackToB | wsw/title_extractor_sever.py:147-151 | When A finds nothing and B finds a span, B's span gives the title. |
| Extractor.ExtractFallsBackToC | wsw/title_extractor_sever.py:152-156 | When A and B find nothing, C's span decides the title. |
| Extractor.ExtractTitleName | wsw/title_extractor_sever.py:135-161 | The imperative orchestration returns `Extract`'s outcome. |
| Submission.Submit | wsw/title_extractor_sever.py:188-199 | The sample is stored exactly when the code is `ok`, and the code is `ok` or `failed`. The code is `ok` exactly when name and title are present, neither is all whitespace, and the name occurs in the text. A missing or blank field gives "Name or Title can not be empty.". When both fields are present and not blank but the name is absent from the text, the message is "name dose not appear in the text!", and every other failure carries that message too, with the name absent from the text. |
| Scenarios.MnuchinTitleBeforeName | wsw/title_extractor_sever.py:71-88 | "U.S. Treasury Secretary Steven Mnuchin said on Saturday." yields "Steven Mnuchin" / "U.S. Treasury Secretary" through method A. |
| Scenarios.PechenikAppositive | wsw/title_extractor_sever.py:32-69 | "Yana Pechenik, a physician assistant at MyBotoxLA, said ..." yields "Yana Pechenik" / "physician assistant at MyBotoxLA" through method B; the article is trimmed. |
| Scenarios.WilliamsCopula | wsw/title_extractor_sever.py:91-109 | "Justin Williams of Toronto is a winger." with "winger" in the dictionary yields "Justin Williams" / "a winger" through method C. |
| Scenarios.BareNameRaises | wsw/title_extractor_sever.py:58-64 | "Justin Williams is a winger." makes method B index an empty slice, so extraction raises. |
| Scenarios.SkyHasNoPerson | wsw/title_extractor_sever.py:143-144 | A sentence without a PERSON entity yields `(None, None)`. |
| Scenarios.SubmitNameNotInText | wsw/title_extractor_sever.py:194-195 | A submission whose name is not in its text is refused with "name dose not appear in the text!" and not stored. |

## Left out

- The language-analysis library (tokenising, tagging, parsing, entity and chunk detection) is not modelled. The annotated sentence is an input; `WellFormed` states what the model assumes of it.
- The HTTP layer (`extract` and `submit` handlers, request parsing, CORS, `jsonify`, `app.run`) is not modelled. In the `extract` handler, the title line meant to substitute `"null"` compares instead of assigning, so an unset title leaves as an absent value; this is outside the model.
- The bare `except` in the `extract` handler is not modelled. `Outcome.IndexError` is what reaches it, and at that point the handler would report the name as unset too.
- The key-value store write in `submit` is a foreign call; `SubmitReply.stored` records whether it happens.
- Reading the dictionary file is I/O; `TitleDictionary.TitleSet` takes the file's lines as given by `readlines`.
- The regular expressions of `post_process` are not modelled as a regex engine. Each removes a whole run at one end of the string, so the pair is modelled as stripping that character class.
- Debug printing (`debug_show_tokens_in_span` and every `debug` branch) is left out: it changes no result.
- Extractor.Extract: `DependParsingTitle` raises `IndexError` on an empty slice. That is the behaviour of a bounds-checked span index; a library version whose span index is not bounds-checked would read the token after the name instead, and that behaviour is not modelled.
- TitleDictionary.InTitleSet: `lower()` is modelled for the letters A-Z only; other letters are left unchanged. So `LookupIgnoresCase` is a statement about ASCII words: Python's full case mapping can change a word's length (`"ß".upper().lower()` is `"ss"`), which the model does not capture.
- TitleMethods.Candidates: its own contract states which chunks are candidates; their sentence order is stated by the partner lemma `TitleMethods.CandidatesInOrder`, which keeps the proofs of the function's callers small.
- Submission.Submit: JSON `null` is `None` and a missing key is the empty string, as `json_d.get(key, '')` gives. Non-string JSON values (numbers, lists) are not modelled.
- SpanCleaners.CheckedSpan: the span passed in is required to be non-empty, because every caller passes a non-empty one. The source's `len == 0` test is therefore never reached, and reading the first token of an empty span is not modelled there.
- AnnotatedDoc.WellFormed: subtrees are assumed to be sorted token lists, which holds for projective parses. The library lists a subtree as the left children's subtrees, the token, then the right children's subtrees, so after a non-projective parse the first and last entries need not be the lowest and highest indices; method B's gap test on such a subtree is not modelled.
- AnnotatedDoc.SpanText: `span.text` is modelled as each token's text followed by a single space when the token has trailing whitespace, with the space after the last token dropped.
