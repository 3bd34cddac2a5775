/**
  The pipeline around the segmenter in the `ThaiTextNurse` component: reading the dictionary
  text, the static `TryTokenize` / `SafeTokenize` (separator composition, word-break stripping,
  join and word count), and the component's cached `PreprocessText`.

  The static tokenizer is passed in as an optional trie (absent when no dictionary could be
  loaded), and `ThaiFontAdjuster.Adjust` as an opaque function.
*/
module Nurse {
  import opened Wrappers
  import opened Text
  import opened PhTokenizer
  import TokenizerProperties

  // ---------------------------------------------------------------------------------------
  // Settings and the dictionary text
  // ---------------------------------------------------------------------------------------

  /** The word break used when no settings asset exists. */
  const ZeroWidthSpace: char := '\U{200B}'

  /** The built-in resource path of the dictionary. */
  const DefaultDictionaryPath: string := "dictionary"

  /** `ThaiTextCareSettings` as far as the pipeline reads it; its word-break string is taken as given. */
  datatype Settings = Settings(dictionaryResourcePath: string, wordBreakCharacter: string)

  /** The word break of the settings asset, or the zero-width space without one. */
  function GetWordBreakCharacter(settings: Option<Settings>): (r: string)
    ensures settings.None? ==> r == [ZeroWidthSpace] && |r| == 1
    ensures settings.Some? ==> r == settings.value.wordBreakCharacter
  {
    match settings
    case None => [ZeroWidthSpace]
    case Some(s) => s.wordBreakCharacter
  }

  /** The resource path of the dictionary asset, `"dictionary"` without settings. */
  function GetDictionaryPath(settings: Option<Settings>): (r: string)
    ensures settings.None? ==> r == DefaultDictionaryPath
    ensures settings.Some? ==> r == settings.value.dictionaryResourcePath
  {
    match settings
    case None => DefaultDictionaryPath
    case Some(s) => s.dictionaryResourcePath
  }

  /** `"\r\n"` and then any remaining `'\r'` become `'\n'`: no carriage return is left. */
  function NormalizeNewLines(content: string): (r: string)
    ensures '\r' !in r
  {
    var t := ReplaceAll(content, "\r\n", "\n");
    ReplaceCharRemovesIt(t, '\r', '\n');
    ReplaceAll(t, "\r", "\n")
  }

  /** Drops zero-length lines, trims the rest, and drops those whose trimmed form starts with `'/'`. */
  function KeepWords(lines: seq<string>): seq<string> {
    if |lines| == 0 then []
    else
      var w := Trim(lines[0]);
      (if |lines[0]| > 0 && !StartsWith(w, '/') then [w] else []) + KeepWords(lines[1..])
  }

  /** The word list of a dictionary text: one entry per line, comment lines starting with `'/'` skipped. */
  function WordsFromDictionary(content: string): seq<string> {
    KeepWords(Split(NormalizeNewLines(content), '\n'))
  }

  /** A word is kept exactly when it is the trimmed form of a non-empty line that is not a comment. */
  lemma {:induction false} KeepWordsMembers(lines: seq<string>, w: string)
    ensures w in KeepWords(lines) <==>
      exists k :: 0 <= k < |lines| && |lines[k]| > 0 && Trim(lines[k]) == w && !StartsWith(w, '/')
  {
    if |lines| > 0 {
      KeepWordsMembers(lines[1..], w);
      if w in KeepWords(lines[1..]) {
        var k :| 0 <= k < |lines[1..]| && |lines[1..][k]| > 0 && Trim(lines[1..][k]) == w && !StartsWith(w, '/');
        assert lines[k + 1] == lines[1..][k];
      }
      if exists k :: 0 <= k < |lines| && |lines[k]| > 0 && Trim(lines[k]) == w && !StartsWith(w, '/') {
        var k :| 0 <= k < |lines| && |lines[k]| > 0 && Trim(lines[k]) == w && !StartsWith(w, '/');
        if k > 0 {
          assert lines[1..][k - 1] == lines[k];
        }
      }
    }
  }

  lemma {:induction false} KeepWordsClean(lines: seq<string>)
    requires forall line :: line in lines ==> '\n' !in line && '\r' !in line
    ensures forall w :: w in KeepWords(lines) ==>
      Trim(w) == w && !StartsWith(w, '/') && '\n' !in w && '\r' !in w
  {
    if |lines| > 0 {
      var line, rest := lines[0], lines[1..];
      assert line in lines;
      assert forall l :: l in rest ==> l in lines;
      KeepWordsClean(rest);
      TrimIdempotent(line);
      TrimKeepsAbsent(line, '\n');
      TrimKeepsAbsent(line, '\r');
      assert KeepWords(lines) == (if |line| > 0 && !StartsWith(Trim(line), '/') then [Trim(line)] else []) + KeepWords(rest);
    }
  }

  /**
    Every dictionary word is trimmed, lies within one line, and is not a comment; and every
    non-empty line of the normalised text that is not a comment gives its trimmed form as a word.
  */
  lemma DictionaryWords(content: string)
    ensures forall w :: w in WordsFromDictionary(content) ==>
      Trim(w) == w && !StartsWith(w, '/') && '\n' !in w && '\r' !in w
    ensures var lines := Split(NormalizeNewLines(content), '\n');
      forall k :: 0 <= k < |lines| && |lines[k]| > 0 && !StartsWith(Trim(lines[k]), '/') ==>
        Trim(lines[k]) in WordsFromDictionary(content)
  {
    var normalized := NormalizeNewLines(content);
    var lines := Split(normalized, '\n');
    SplitKeepsAbsent(normalized, '\n', '\r');
    forall line | line in lines ensures '\n' !in line && '\r' !in line {
      var k :| 0 <= k < |lines| && lines[k] == line;
    }
    KeepWordsClean(lines);
    forall k | 0 <= k < |lines| && |lines[k]| > 0 && !StartsWith(Trim(lines[k]), '/')
      ensures Trim(lines[k]) in WordsFromDictionary(content)
    {
      KeepWordsMembers(lines, Trim(lines[k]));
    }
  }

  /** A line of white space only is non-empty before trimming, so it survives as the empty word. */
  lemma BlankLineGivesEmptyWord()
    ensures WordsFromDictionary(" ") == [""]
  {
    assert ReplaceAll(" ", "\r\n", "\n") == " ";
    assert ReplaceAll(" ", "\r", "\n") == [' '] + ReplaceAll("", "\r", "\n");
    assert " "[1..] == "";
    assert Split(" ", '\n') == [[' '] + Split("", '\n')[0]] + Split("", '\n')[1..];
    assert Trim(" ") == "";
  }

  /**
    `TryRebuildDictionary`: loads the dictionary text found at the settings' path (`resources`
    stands for `Resources.Load`) and builds a tokenizer accepting exactly its words.
  */
  method TryRebuildDictionary(settings: Option<Settings>, resources: string -> Option<string>)
    returns (tokenizer: Option<Tokenizer>)
    ensures tokenizer.None? <==> resources(GetDictionaryPath(settings)).None?
    ensures tokenizer.Some? ==> fresh(tokenizer.value) && tokenizer.value.Valid()
    ensures tokenizer.Some? ==> forall w :: Accepts(tokenizer.value.nodes, w) <==>
      w in WordsFromDictionary(resources(GetDictionaryPath(settings)).value)
  {
    var asset := resources(GetDictionaryPath(settings));
    if asset.None? {
      return None;
    }
    var built := new Tokenizer(WordsFromDictionary(asset.value));
    tokenizer := Some(built);
  }

  // ---------------------------------------------------------------------------------------
  // TryTokenize and SafeTokenize
  // ---------------------------------------------------------------------------------------

  datatype TokenizeRequest = TokenizeRequest(input: string, separator: string, isBreakWords: bool, isSupportRichText: bool)

  /** The request built from an input alone: no extra separator, word breaks and rich text on. */
  function DefaultRequest(input: string): (r: TokenizeRequest)
    ensures r.input == input && r.separator == "" && r.isBreakWords && r.isSupportRichText
  {
    TokenizeRequest(input, "", true, true)
  }

  datatype TokenizeResult = TokenizeResult(result: string, wordCount: nat)

  /** The exceptions that escape `TryTokenize`: the tokenizer's, and `Replace` with an empty old value. */
  datatype NurseError = TokenizerError(error: TokenizeError) | EmptyOldValue

  datatype TryTokenizeOutcome = Declined | Tokenized(value: TokenizeResult) | Threw(error: NurseError)

  predicate TokenizerReady(tokenizer: Option<seq<TrieNode>>) {
    tokenizer.Some? ==> WellFormed(tokenizer.value)
  }

  /** The request's separator, followed by the word break when words are to be broken. */
  function FinalSeparator(settings: Option<Settings>, request: TokenizeRequest): (r: string)
    ensures |r| == |request.separator| + (if request.isBreakWords then |GetWordBreakCharacter(settings)| else 0)
    ensures r[..|request.separator|] == request.separator
  {
    request.separator + (if request.isBreakWords then GetWordBreakCharacter(settings) else "")
  }

  /** The input with every occurrence of the (non-empty) word break deleted. */
  function StripBreaks(input: string, wordBreak: string): string
    requires |wordBreak| > 0
  {
    if Contains(input, wordBreak) then ReplaceAll(input, wordBreak, "") else input
  }

  /** For a one-character word break, stripping deletes exactly that character. */
  lemma StripSingleBreak(input: string, c: char)
    ensures StripBreaks(input, [c]) == Without(input, c)
  {
    ContainsChar(input, c);
    if c in input {
      RemoveCharIsWithout(input, c);
    } else {
      WithoutAbsent(input, c);
    }
  }

  /** The number of words that are not blank after trimming. */
  function CountWords(words: seq<string>): (n: nat)
    ensures n <= |words|
  {
    if |words| == 0 then 0 else (if Trim(words[0]) != [] then 1 else 0) + CountWords(words[1..])
  }

  /** No word counts exactly when every word is white space; every word counts when none is. */
  lemma {:induction false} CountWordsBounds(words: seq<string>)
    ensures CountWords(words) == 0 <==> forall k :: 0 <= k < |words| ==> AllWhiteSpace(words[k])
    ensures CountWords(words) == |words| <==> forall k :: 0 <= k < |words| ==> !AllWhiteSpace(words[k])
  {
    if |words| > 0 {
      CountWordsBounds(words[1..]);
      TrimEmptyIff(words[0]);
      assert forall k :: 1 <= k < |words| ==> words[k] == words[1..][k - 1];
    }
  }

  /**
    The static `TryTokenize`: declines without a tokenizer or with an empty final separator;
    otherwise deletes existing word breaks, segments, and joins the tokens with the final
    separator, counting the tokens that are not blank.
  */
  function TryTokenize(tokenizer: Option<seq<TrieNode>>, settings: Option<Settings>, request: TokenizeRequest)
    : (r: TryTokenizeOutcome)
    requires TokenizerReady(tokenizer)
    ensures r.Declined? <==> tokenizer.None? || FinalSeparator(settings, request) == []
    ensures r == Threw(EmptyOldValue) <==>
      tokenizer.Some? && GetWordBreakCharacter(settings) == [] && request.separator != []
  {
    if tokenizer.None? then Declined
    else
      var wordBreak := GetWordBreakCharacter(settings);
      var finalSeparator := FinalSeparator(settings, request);
      if finalSeparator == [] then Declined
      else if wordBreak == [] then Threw(EmptyOldValue)
      else
        match Segment(tokenizer.value, StripBreaks(request.input, wordBreak), request.isSupportRichText)
        case Err(e) => Threw(TokenizerError(e))
        case Ok(words) => Tokenized(TokenizeResult(Join(words, finalSeparator), CountWords(words)))
  }

  /** The tokenized text, the input unchanged when declined, or the exception. */
  function SafeTokenize(tokenizer: Option<seq<TrieNode>>, settings: Option<Settings>, request: TokenizeRequest)
    : (r: Result<string, NurseError>)
    requires TokenizerReady(tokenizer)
    ensures TryTokenize(tokenizer, settings, request).Declined? ==> r == Ok(request.input)
    ensures r.Err? <==> TryTokenize(tokenizer, settings, request).Threw?
  {
    match TryTokenize(tokenizer, settings, request)
    case Declined => Ok(request.input)
    case Tokenized(result) => Ok(result.result)
    case Threw(e) => Err(e)
  }

  /**
    On success the result is a join of tokens that partition the input without its word
    breaks, and the word count is the number of tokens that are not blank.
  */
  lemma TokenizedIsJoinedPartition(tokenizer: Option<seq<TrieNode>>, settings: Option<Settings>, request: TokenizeRequest)
    requires TokenizerReady(tokenizer)
    requires TryTokenize(tokenizer, settings, request).Tokenized?
    ensures tokenizer.Some? && |GetWordBreakCharacter(settings)| > 0
    ensures var wordBreak := GetWordBreakCharacter(settings);
      var words := Segment(tokenizer.value, StripBreaks(request.input, wordBreak), request.isSupportRichText);
      var result := TryTokenize(tokenizer, settings, request).value;
      && words.Ok?
      && Concat(words.value) == StripBreaks(request.input, wordBreak)
      && (forall k :: 0 <= k < |words.value| ==> words.value[k] != [])
      && result.result == Join(words.value, FinalSeparator(settings, request))
      && result.wordCount == CountWords(words.value) <= |words.value|
  {
    var wordBreak := GetWordBreakCharacter(settings);
    TokenizerProperties.SegmentIsPartition(tokenizer.value, StripBreaks(request.input, wordBreak), request.isSupportRichText);
  }

  /** Deleting a separator character from a join of words that lack it gives their concatenation. */
  lemma {:induction false} WithoutJoin(words: seq<string>, c: char)
    requires forall k :: 0 <= k < |words| ==> c !in words[k]
    ensures Without(Join(words, [c]), c) == Concat(words)
  {
    if |words| == 1 {
      WithoutAbsent(words[0], c);
      assert Concat(words) == words[0] + Concat([]);
    } else if |words| > 1 {
      WithoutJoin(words[1..], c);
      WithoutAbsent(words[0], c);
      WithoutAppend(words[0] + [c], Join(words[1..], [c]), c);
      WithoutAppend(words[0], [c], c);
    }
  }

  /**
    With a one-character word break and no extra separator, deleting the word breaks from the
    tokenized text gives back the input without its word breaks: tokenizing only inserts breaks.
  */
  lemma BreaksRemovedGiveInput(tokenizer: Option<seq<TrieNode>>, settings: Option<Settings>, input: string, rich: bool)
    requires TokenizerReady(tokenizer) && |GetWordBreakCharacter(settings)| == 1
    ensures var once := TryTokenize(tokenizer, settings, TokenizeRequest(input, "", true, rich));
      var c := GetWordBreakCharacter(settings)[0];
      once.Tokenized? ==> Without(once.value.result, c) == Without(input, c)
  {
    var request := TokenizeRequest(input, "", true, rich);
    var wordBreak := GetWordBreakCharacter(settings);
    var c := wordBreak[0];
    assert wordBreak == [c];
    if TryTokenize(tokenizer, settings, request).Tokenized? {
      TokenizedIsJoinedPartition(tokenizer, settings, request);
      StripSingleBreak(input, c);
      var words := Segment(tokenizer.value, Without(input, c), rich).value;
      NotInConcat(words, c);
      WithoutJoin(words, c);
    }
  }

  /**
    With a one-character word break and no extra separator, tokenizing already tokenized text
    gives the same result: the existing breaks are deleted before segmenting again.
  */
  lemma TokenizeIdempotent(tokenizer: Option<seq<TrieNode>>, settings: Option<Settings>, input: string, rich: bool)
    requires TokenizerReady(tokenizer) && |GetWordBreakCharacter(settings)| == 1
    ensures var once := TryTokenize(tokenizer, settings, TokenizeRequest(input, "", true, rich));
      once.Tokenized? ==> TryTokenize(tokenizer, settings, TokenizeRequest(once.value.result, "", true, rich)) == once
  {
    var wordBreak := GetWordBreakCharacter(settings);
    var c := wordBreak[0];
    assert wordBreak == [c];
    var once := TryTokenize(tokenizer, settings, TokenizeRequest(input, "", true, rich));
    if once.Tokenized? {
      BreaksRemovedGiveInput(tokenizer, settings, input, rich);
      StripSingleBreak(input, c);
      StripSingleBreak(once.value.result, c);
      WithoutAbsent(Without(input, c), c);
      assert StripBreaks(once.value.result, wordBreak) == StripBreaks(input, wordBreak);
    }
  }

  /** `SafeTokenize` of its own output under the default request returns that output again. */
  lemma SafeTokenizeIdempotent(tokenizer: Option<seq<TrieNode>>, input: string)
    requires TokenizerReady(tokenizer)
    ensures var once := SafeTokenize(tokenizer, None, DefaultRequest(input));
      once.Ok? ==> SafeTokenize(tokenizer, None, DefaultRequest(once.value)) == once
  {
    var outcome := TryTokenize(tokenizer, None, DefaultRequest(input));
    if outcome.Tokenized? {
      TokenizeIdempotent(tokenizer, None, input, true);
    }
  }

  // ---------------------------------------------------------------------------------------
  // The text component
  // ---------------------------------------------------------------------------------------

  /** `ThaiGlyphCorrection`; `NoCorrection` is the member called `None`. */
  datatype ThaiGlyphCorrection = NoCorrection | YoorYingAndToorTaan | FullC90

  /**
    What a rebuild reads from outside the component: the static tokenizer, the settings asset,
    and the glyph adjuster.
  */
  datatype Environment = Environment(
    tokenizer: Option<seq<TrieNode>>,
    settings: Option<Settings>,
    adjust: (string, ThaiGlyphCorrection) -> string)

  predicate Ready(env: Environment) {
    TokenizerReady(env.tokenizer)
  }

  const LineHeightOpen: string := "<line-height=100%>"
  const LineHeightClose: string := "</line-height>"

  /**
    The component's fields as a value: the inspector settings, the two flags it reads from or
    sets on the text component, the cache, and every result passed to `OnTokenized`.
  */
  datatype NurseState = NurseState(
    correction: ThaiGlyphCorrection,
    isForceFullLineHeight: bool,
    isTokenize: bool,
    separator: string,
    richText: bool,
    havePropertiesChanged: bool,
    lastKnownText: string,
    outputString: string,
    lastWordCount: int,
    isRebuildRequired: bool,
    tokenized: seq<TokenizeResult>)

  /** The new state and what the call returns (or the exception escaping it). */
  datatype Step = Step(state: NurseState, ret: Result<string, NurseError>)

  /** Both inspector flags, and nothing of the cache, change. */
  function NotifyChangeSpec(s: NurseState): (r: NurseState)
    ensures r.isRebuildRequired && r.havePropertiesChanged
    ensures r.(isRebuildRequired := s.isRebuildRequired, havePropertiesChanged := s.havePropertiesChanged) == s
  {
    s.(isRebuildRequired := true, havePropertiesChanged := true)
  }

  /** The request the instance `Tokenize` passes to the static `TryTokenize`. */
  function TokenizeRequestOf(s: NurseState): (r: TokenizeRequest)
    ensures r.input == s.outputString && r.separator == s.separator && r.isBreakWords && r.isSupportRichText == s.richText
  {
    TokenizeRequest(s.outputString, s.separator, true, s.richText)
  }

  /**
    The instance `Tokenize`, given the outcome of the static `TryTokenize` for its request: a
    result replaces `outputString` and the word count and is raised through `OnTokenized`.
  */
  function TokenizeStep(s: NurseState, outcome: TryTokenizeOutcome): Step {
    match outcome
    case Tokenized(result) =>
      var t := s.(lastWordCount := result.wordCount, outputString := result.result, tokenized := s.tokenized + [result]);
      Step(t, Ok(t.outputString))
    case Declined => Step(s, Ok(s.outputString))
    case Threw(e) => Step(s, Err(e))
  }

  /**
    `RebuildOutputString`, given the tokenizer's outcome for the text and the glyph adjuster:
    reset the output to the text, tokenize, adjust glyphs, and wrap in full line height.
  */
  function RebuildStep(s: NurseState, text: string, outcome: TryTokenizeOutcome, adjust: (string, ThaiGlyphCorrection) -> string): Step {
    FinishRebuild(TokenizePhase(s.(outputString := text), outcome), adjust)
  }

  /** The first half of a rebuild: tokenize the reset output when tokenizing is on. */
  function TokenizePhase(reset: NurseState, outcome: TryTokenizeOutcome): Step {
    if reset.isTokenize then TokenizeStep(reset, outcome) else Step(reset, Ok(reset.outputString))
  }

  /** The second half of a rebuild: unless tokenizing threw, adjust glyphs and wrap in full line height. */
  function FinishRebuild(tokenized: Step, adjust: (string, ThaiGlyphCorrection) -> string): Step {
    if tokenized.ret.Err? then tokenized
    else
      var t := tokenized.state;
      var adjusted := if t.correction != NoCorrection then t.(outputString := adjust(t.outputString, t.correction)) else t;
      Step(adjusted, Ok(if adjusted.isForceFullLineHeight
                        then LineHeightOpen + adjusted.outputString + LineHeightClose
                        else adjusted.outputString))
  }

  /** `PreprocessText`: the stored output when neither the text nor a setting changed, else a rebuild. */
  function PreprocessStep(s: NurseState, text: string, outcome: TryTokenizeOutcome, adjust: (string, ThaiGlyphCorrection) -> string): Step {
    if s.lastKnownText == text && !s.isRebuildRequired then Step(s, Ok(s.outputString))
    else RebuildStep(s.(lastKnownText := text, isRebuildRequired := false), text, outcome, adjust)
  }

  /** What the static `TryTokenize` gives for the text under the component's settings. */
  function OutcomeFor(s: NurseState, env: Environment, text: string): TryTokenizeOutcome
    requires Ready(env)
  {
    TryTokenize(env.tokenizer, env.settings, TokenizeRequestOf(s.(outputString := text)))
  }

  /**
    After any call, calling again with the same text and no change notification in between
    returns the stored `outputString` and changes nothing, whatever the tokenizer and the
    adjuster give by then.
  */
  lemma RepeatedCallHitsCache(s: NurseState, text: string, outcome: TryTokenizeOutcome, later: TryTokenizeOutcome,
                              adjust: (string, ThaiGlyphCorrection) -> string, laterAdjust: (string, ThaiGlyphCorrection) -> string)
    ensures var first := PreprocessStep(s, text, outcome, adjust);
      PreprocessStep(first.state, text, later, laterAdjust) == Step(first.state, Ok(first.state.outputString))
  {
  }

  /** After a change notification the call returns the same as for any state with the same settings. */
  lemma NotifiedCallIgnoresCache(s: NurseState, u: NurseState, env: Environment, text: string)
    requires Ready(env)
    requires s.correction == u.correction && s.isForceFullLineHeight == u.isForceFullLineHeight
    requires s.isTokenize == u.isTokenize && s.separator == u.separator && s.richText == u.richText
    ensures OutcomeFor(s, env, text) == OutcomeFor(u, env, text)
    ensures PreprocessStep(NotifyChangeSpec(s), text, OutcomeFor(s, env, text), env.adjust).ret
         == PreprocessStep(NotifyChangeSpec(u), text, OutcomeFor(u, env, text), env.adjust).ret
  {
  }

  /**
    With full line height on, the line-height wrapper is only in the value a rebuild returns:
    the stored output lacks it, so the repeated call returns the text without it.
  */
  lemma CacheHitDropsLineHeight(s: NurseState, text: string, outcome: TryTokenizeOutcome, later: TryTokenizeOutcome,
                                adjust: (string, ThaiGlyphCorrection) -> string, laterAdjust: (string, ThaiGlyphCorrection) -> string)
    requires s.isForceFullLineHeight && (s.lastKnownText != text || s.isRebuildRequired)
    ensures var first := PreprocessStep(s, text, outcome, adjust);
      first.ret.Ok? ==>
        && first.ret == Ok(LineHeightOpen + first.state.outputString + LineHeightClose)
        && PreprocessStep(first.state, text, later, laterAdjust).ret == Ok(first.state.outputString)
  {
  }

  /**
    When tokenizing throws, the text is already recorded and stored as the output, so the
    repeated call returns the untokenized text.
  */
  lemma ThrowCachesInput(s: NurseState, text: string, outcome: TryTokenizeOutcome, adjust: (string, ThaiGlyphCorrection) -> string)
    ensures var first := PreprocessStep(s, text, outcome, adjust);
      first.ret.Err? ==>
        && first.state.lastKnownText == text && first.state.outputString == text
        && !first.state.isRebuildRequired && first.state.tokenized == s.tokenized
        && PreprocessStep(first.state, text, outcome, adjust).ret == Ok(text)
  {
  }

  /**
    A rebuild either raises `OnTokenized` once, with tokenizing on, with a result whose word
    count becomes the component's, or leaves the word count and the raised results as they were.
  */
  lemma RebuildRaisesAtMostOnce(s: NurseState, text: string, outcome: TryTokenizeOutcome, adjust: (string, ThaiGlyphCorrection) -> string)
    ensures var r := RebuildStep(s, text, outcome, adjust).state;
      || (r.tokenized == s.tokenized && r.lastWordCount == s.lastWordCount)
      || (s.isTokenize && |r.tokenized| == |s.tokenized| + 1 && r.tokenized[..|s.tokenized|] == s.tokenized
          && r.lastWordCount == r.tokenized[|s.tokenized|].wordCount)
  {
  }

  /** The component. Its fields are the source's; `State` reads them as one value. */
  class ThaiTextNurse {
    var correction: ThaiGlyphCorrection
    var isForceFullLineHeight: bool
    var isTokenize: bool
    var separator: string
    /** `richText` of the attached text component. */
    var richText: bool
    /** `havePropertiesChanged` of the attached text component. */
    var havePropertiesChanged: bool
    var lastKnownText: string
    var outputString: string
    var lastWordCount: int
    var isRebuildRequired: bool
    /** The results raised through `OnTokenized`, oldest first. */
    var tokenized: seq<TokenizeResult>

    function State(): NurseState
      reads this
    {
      NurseState(correction, isForceFullLineHeight, isTokenize, separator, richText, havePropertiesChanged,
                 lastKnownText, outputString, lastWordCount, isRebuildRequired, tokenized)
    }

    /** Field initialisers and `Awake`: tokenizing on, everything else off, a rebuild pending. */
    constructor (richText: bool)
      ensures State() == NurseState(NoCorrection, false, true, "", richText, false, "", "", 0, true, [])
    {
      correction := NoCorrection;
      isForceFullLineHeight := false;
      isTokenize := true;
      separator := "";
      this.richText := richText;
      havePropertiesChanged := false;
      lastKnownText := "";
      outputString := "";
      lastWordCount := 0;
      isRebuildRequired := true;
      tokenized := [];
    }

    method NotifyChange()
      modifies this
      ensures State() == NotifyChangeSpec(old(State()))
    {
      isRebuildRequired := true;
      havePropertiesChanged := true;
    }

    method SetCorrection(value: ThaiGlyphCorrection)
      modifies this
      ensures State() == NotifyChangeSpec(old(State()).(correction := value))
    {
      correction := value;
      NotifyChange();
    }

    method SetIsForceFullLineHeight(value: bool)
      modifies this
      ensures State() == NotifyChangeSpec(old(State()).(isForceFullLineHeight := value))
    {
      isForceFullLineHeight := value;
      NotifyChange();
    }

    method SetIsTokenize(value: bool)
      modifies this
      ensures State() == NotifyChangeSpec(old(State()).(isTokenize := value))
    {
      isTokenize := value;
      NotifyChange();
    }

    method SetSeparator(value: string)
      modifies this
      ensures State() == NotifyChangeSpec(old(State()).(separator := value))
    {
      separator := value;
      NotifyChange();
    }

    /** The text component's hook: the cached output, or a rebuild when the text or a setting changed. */
    method PreprocessText(env: Environment, text: string) returns (r: Result<string, NurseError>)
      requires Ready(env)
      modifies this
      ensures Step(State(), r) == PreprocessStep(old(State()), text, OutcomeFor(old(State()), env, text), env.adjust)
    {
      if lastKnownText == text && !isRebuildRequired {
        return Ok(outputString);
      }
      lastKnownText := text;
      isRebuildRequired := false;
      r := RebuildOutputString(env, text);
    }

    method RebuildOutputString(env: Environment, text: string) returns (r: Result<string, NurseError>)
      requires Ready(env)
      modifies this
      ensures Step(State(), r) == RebuildStep(old(State()), text, OutcomeFor(old(State()), env, text), env.adjust)
    {
      ghost var reset := old(State()).(outputString := text);
      ghost var outcome := OutcomeFor(old(State()), env, text);
      outputString := text;
      assert State() == reset;
      if isTokenize {
        var tokenizedText := Tokenize(env);
        assert Step(State(), tokenizedText) == TokenizeStep(reset, outcome);
        if tokenizedText.Err? {
          return tokenizedText;
        }
        outputString := tokenizedText.value;
      }
      assert Step(State(), Ok(outputString)) == TokenizePhase(reset, outcome);
      if correction != NoCorrection {
        outputString := env.adjust(outputString, correction);
      }
      if isForceFullLineHeight {
        r := Ok(LineHeightOpen + outputString + LineHeightClose);
      } else {
        r := Ok(outputString);
      }
    }

    method Tokenize(env: Environment) returns (r: Result<string, NurseError>)
      requires Ready(env)
      modifies this
      ensures Step(State(), r) == TokenizeStep(old(State()), TryTokenize(env.tokenizer, env.settings, TokenizeRequestOf(old(State()))))
    {
      var request := TokenizeRequestOf(State());
      var outcome := TryTokenize(env.tokenizer, env.settings, request);
      match outcome
      case Tokenized(result) =>
        lastWordCount := result.wordCount;
        outputString := result.result;
        tokenized := tokenized + [result];
        r := Ok(outputString);
      case Declined =>
        r := Ok(outputString);
      case Threw(e) =>
        r := Err(e);
    }
  }
}
