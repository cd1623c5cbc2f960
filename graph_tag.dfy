/**
 * The text side of the tagging graph: the phrase library is joined with
 * full-width commas into the prompt, and the model's reply is parsed back
 * into a list of tags.
 */
module GraphTag {
  import opened GoStrings

  /** `PhraseLibrary`: all the phrases a text may be tagged with. */
  datatype PhraseLibrary = PhraseLibrary(phrases: seq<string>)

  /** `TagResult`: the tagged text and the tags found for it. */
  datatype TagResult = TagResult(text: string, tags: seq<string>)

  /** The ASCII comma the tags are split on. */
  const Comma: char := ','

  /** The full-width comma `，` (U+FF0C) the library is joined with and replies may use. */
  const FullWidthComma: char := '\U{FF0C}'

  /** The library as it is written into the system prompt: the phrases joined with `，`. */
  function LibraryText(lib: PhraseLibrary): string {
    Join(lib.phrases, [FullWidthComma])
  }

  /**
   * When no phrase has a comma, turning the library text's `，` into `,`
   * gives the phrases joined with `,`, and splitting that on `,` gives the
   * phrases back.
   */
  lemma LibraryTextSplits(lib: PhraseLibrary)
    requires CommaFree(lib.phrases)
    ensures NormalizeCommas(LibraryText(lib)) == Join(lib.phrases, [Comma])
    ensures |lib.phrases| >= 1 ==> Split(NormalizeCommas(LibraryText(lib)), [Comma]) == lib.phrases
  {
    ReplaceAllRuneJoin(lib.phrases, FullWidthComma, Comma);
    if |lib.phrases| >= 1 {
      SplitJoin(lib.phrases, Comma);
    }
  }

  /**
   * `strings.ReplaceAll(s, "，", ",")`: rune by rune, every `，` becomes a `,`
   * and every other rune stays; so no `，` is left, the `,` count grows by the
   * `，` count, and a string without `，` is left as it is.
   */
  function NormalizeCommas(s: string): (r: string)
    ensures |r| == |s| && FullWidthComma !in r
    ensures forall k :: 0 <= k < |s| ==> r[k] == if s[k] == FullWidthComma then Comma else s[k]
    ensures CountRune(r, Comma) == CountRune(s, Comma) + CountRune(s, FullWidthComma)
    ensures FullWidthComma !in s ==> r == s
  {
    ReplaceAllRuneCount(s, FullWidthComma, Comma);
    if FullWidthComma in s then
      ReplaceAllRune(s, FullWidthComma, Comma)
    else
      ReplaceAllRuneAbsent(s, FullWidthComma, Comma);
      ReplaceAllRune(s, FullWidthComma, Comma)
  }

  /**
   * The `parse` node: trim the reply, turn full-width commas into ASCII ones
   * and split on `,`. The result keeps the text being tagged, not the reply.
   */
  function Parse(text: string, content: string): (r: TagResult)
    ensures r.text == text
    ensures |r.tags| == 1 + CountRune(TrimSpace(content), Comma) + CountRune(TrimSpace(content), FullWidthComma)
    ensures forall tag :: tag in r.tags ==> Comma !in tag && FullWidthComma !in tag
    ensures Join(r.tags, [Comma]) == NormalizeCommas(TrimSpace(content))
  {
    var trimmed := TrimSpace(content);
    var out := NormalizeCommas(trimmed);
    ReplaceAllRuneCount(trimmed, FullWidthComma, Comma);
    SplitCount(out, Comma);
    SplitPiecesAvoidSeparator(out, Comma);
    SplitPiecesWithin(out, [Comma], FullWidthComma);
    JoinSplit(out, [Comma]);
    TagResult(text, Split(out, [Comma]))
  }

  /** An empty or all-white-space reply gives one empty tag, never an empty list. */
  lemma ParseBlankContent(text: string, content: string)
    requires AllSpace(content)
    ensures Parse(text, content).tags == [""]
  {
    assert TrimSpace(content) == "";
    assert Index("", [Comma]) == -1;
  }

  predicate NoLeadingSpace(p: string) {
    p == [] || !IsSpace(p[0])
  }

  predicate NoTrailingSpace(p: string) {
    p == [] || !IsSpace(p[|p| - 1])
  }

  /** No phrase contains either comma. */
  predicate CommaFree(phrases: seq<string>) {
    forall p :: p in phrases ==> Comma !in p && FullWidthComma !in p
  }

  /**
   * When parsing the library text gives back the library: there is at least
   * one phrase, no phrase has a comma of either kind, and white space does
   * not stand at the very start or the very end of the joined text.
   */
  predicate RoundTrips(lib: PhraseLibrary) {
    |lib.phrases| >= 1 && CommaFree(lib.phrases)
    && NoLeadingSpace(lib.phrases[0]) && NoTrailingSpace(lib.phrases[|lib.phrases| - 1])
  }

  /** A reply that repeats the library text parses back to the library exactly when RoundTrips holds. */
  lemma LibraryRoundTrip(text: string, lib: PhraseLibrary)
    ensures Parse(text, LibraryText(lib)).tags == lib.phrases <==> RoundTrips(lib)
  {
    if RoundTrips(lib) {
      RoundTripsParsesBack(text, lib);
    }
    if Parse(text, LibraryText(lib)).tags == lib.phrases {
      ParsedBackRoundTrips(text, lib);
    }
  }

  // The "if" half of LibraryRoundTrip.
  lemma RoundTripsParsesBack(text: string, lib: PhraseLibrary)
    requires RoundTrips(lib)
    ensures Parse(text, LibraryText(lib)).tags == lib.phrases
  {
    LibraryTextUntrimmed(lib);
    LibraryTextSplits(lib);
  }

  // The "only if" half of LibraryRoundTrip.
  lemma ParsedBackRoundTrips(text: string, lib: PhraseLibrary)
    requires Parse(text, LibraryText(lib)).tags == lib.phrases
    ensures RoundTrips(lib)
  {
    var J := LibraryText(lib);
    assert CommaFree(lib.phrases);
    ReplaceAllRuneJoin(lib.phrases, FullWidthComma, Comma);
    assert |TrimSpace(J)| == |NormalizeCommas(TrimSpace(J))| == |NormalizeCommas(J)| == |J|;
    UntrimmedLibraryEnds(lib);
  }

  // Under RoundTrips the library text has no white space to trim.
  lemma LibraryTextUntrimmed(lib: PhraseLibrary)
    requires RoundTrips(lib)
    ensures TrimSpace(LibraryText(lib)) == LibraryText(lib)
  {
    JoinFirst(lib.phrases, FullWidthComma);
    JoinLast(lib.phrases, FullWidthComma);
    TrimSpaceFixpoint(LibraryText(lib));
  }

  // A library text with no white space to trim has neither leading nor trailing white space in its phrases.
  lemma UntrimmedLibraryEnds(lib: PhraseLibrary)
    requires |lib.phrases| >= 1 && TrimSpace(LibraryText(lib)) == LibraryText(lib)
    ensures NoLeadingSpace(lib.phrases[0]) && NoTrailingSpace(lib.phrases[|lib.phrases| - 1])
  {
    TrimSpaceFixpoint(LibraryText(lib));
    JoinFirst(lib.phrases, FullWidthComma);
    JoinLast(lib.phrases, FullWidthComma);
  }

  /**
   * White space around a reply that repeats the library is trimmed off: the
   * reply still parses back to the library.
   */
  lemma PaddedLibraryParsesBack(text: string, lib: PhraseLibrary, w1: string, w2: string)
    requires RoundTrips(lib) && AllSpace(w1) && AllSpace(w2)
    ensures Parse(text, w1 + LibraryText(lib) + w2).tags == lib.phrases
  {
    LibraryTextUntrimmed(lib);
    TrimPadded(w1, LibraryText(lib), w2);
    RoundTripsParsesBack(text, lib);
  }

  /**
   * White space next to an inner comma stays in the tags: only the two outer
   * ends of the reply are trimmed. Here `a` may end and `b` may start with
   * white space, and the reply may be padded on both sides.
   */
  lemma InteriorSpacesKept(text: string, w1: string, a: string, b: string, w2: string)
    requires AllSpace(w1) && AllSpace(w2)
    requires CommaFree([a, b]) && NoLeadingSpace(a) && NoTrailingSpace(b)
    ensures Parse(text, w1 + a + [FullWidthComma] + b + w2).tags == [a, b]
  {
    var lib := PhraseLibrary([a, b]);
    assert [a, b][1..] == [b];
    assert Join([a, b], [FullWidthComma]) == a + [FullWidthComma] + Join([b], [FullWidthComma]);
    assert w1 + a + [FullWidthComma] + b + w2 == w1 + LibraryText(lib) + w2;
    PaddedLibraryParsesBack(text, lib, w1, w2);
  }
}
