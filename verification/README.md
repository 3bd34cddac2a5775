# ThaiTextCare core, modelled in Dafny

ThaiTextCare is a Unity package for Thai text in TextMesh Pro. This project models its core:

- **`PhTokenizer`** (`tokenizer.dfy`, `tokenizer_props.dfy`). A dictionary trie and a longest-match Thai
  word segmenter. It knows about brackets, the clause-end marks `ๆ` and `ฯ`, follower glyphs,
  runs of characters it never looks up, and rich-text tags.
- **`ThaiTextNurse`** (`nurse.dfy`). The text component's pipeline:
  - reads the dictionary text;
  - runs the static `TryTokenize` / `SafeTokenize`, which compose the separator, strip existing word
    breaks, join the tokens and count the words;
  - keeps a cache in `PreprocessText` and rebuilds the output string.
- **`ThaiTextCareEditorCore`** (`editor_core.dfy`). Adding words to the dictionary file and removing
  words from it.
- **`WordUtils`, `WordHit` and `WordHighlighter`** (`word_utils.dfy`, `hits.dfy`, `highlights.dfy`).
  - `WordUtils` finds the word under a laid-out character.
  - `WordHighlighter` keeps a list of word hits and a list of highlights, with duplicate handling
    (blocked, removed or allowed) and a single or appending mode.
- **The font doctor** (`glyph_helper.dfy`, `glyph_groups.dfy`, `font_doctor.dfy`).
  - Thai glyph presets and their names.
  - Glyph groups and glyph combinations.
  - `ThaiFontDoctor`, which writes the placements of the enabled combinations into a font asset's
    glyph-pair adjustment table. It remembers the records it wrote and removes them before the
    next application.

Shared pieces:

- `wrappers.dfy` has `Option` and `Result`.
- `text.dfy` has the .NET string operations the core uses (`Trim`, `Split`, `Join`, `Replace`,
  `Contains`) together with their laws.
- `lists.dfy` has `List.Remove` as removal of the first equal element.

The form of the model follows the form of the code:

- **Trie.** The trie is an arena of nodes inside the `Tokenizer` class. `AddWord` is an imperative loop.
- **`Tokenize`.** It keeps the original's nested loops and is proved equal to a functional specification
  (`Segment`).
- **Nurse and highlighter.** Both are classes whose methods are proved against state functions.
- **Font doctor.** It is a class whose loops over the pair table are proved against per-pair effects.
- **Pure helpers.** These are functions.

Three behaviours of the code that a reader might not expect, each modelled as written:

- **The segmenter can throw.** When an open bracket is followed by follower glyphs at the end of
  the input and no match was recorded, the no-match branch (`PhTokenizer.cs:176-189`) asks
  `Substring` for one character more than is left. `TokenizerProperties.BracketBeforeFinalFollowerThrows`
  exhibits this.
- **Blank dictionary lines.** `Split(..., RemoveEmptyEntries)` drops only zero-length lines, so a
  line of spaces survives the split and becomes the empty word after trimming
  (`Nurse.BlankLineGivesEmptyWord`). The empty word only marks the root of the trie, which the
  scan never asks about, so it changes no segmentation (`TokenizerProperties.EmptyWordIgnored`).
- **A follower glyph can be cut off after an open bracket.** With a bracket pending and no match,
  the no-match branch checks for a follower after the bracket, not after the letter it takes
  with it (`PhTokenizer.cs:163-169`). So `(กา` with an empty dictionary gives `(ก` and `า`
  (`TokenizerProperties.BracketSplitsFollower`). Without an open bracket the cut never falls
  there (`TokenizerProperties.SegmentKeepsFollowers`).

## Model

| member | source | states |
|---|---|---|
| PhTokenizer.WithChild | Runtime/ThaiTextNurse/PhTokenizer.cs:29-32 | adding a missing child appends one node, linked from the parent under the letter |
| PhTokenizer.GrowKeepsInv | Runtime/ThaiTextNurse/PhTokenizer.cs:29-32 | adding a missing child keeps every node reachable along its own path and only extends the trie |
| PhTokenizer.MissingLinkRejects | Runtime/ThaiTextNurse/PhTokenizer.cs:27-34 | when the walk along a prefix of a word has no link for the next letter, the word is not in the trie |
| PhTokenizer.MarkEndLanguage | Runtime/ThaiTextNurse/PhTokenizer.cs:35 | marking the node reached by a word adds exactly that word to the accepted words; a word already present leaves the trie unchanged |
| PhTokenizer.RunEnd | Runtime/ThaiTextNurse/PhTokenizer.cs:84-98 | the end of the maximal run of never-looked-up characters: all before it are in the run, the one at it is not |
| PhTokenizer.TagEnd | Runtime/ThaiTextNurse/PhTokenizer.cs:104-124 | the end of a rich-text tag lies past its `<` and within the input |
| PhTokenizer.TrieStep | Runtime/ThaiTextNurse/PhTokenizer.cs:129-146 | a trie step keeps any recorded match a non-empty piece of the input starting at the cursor |
| PhTokenizer.ScanStep | Runtime/ThaiTextNurse/PhTokenizer.cs:58-151 | one character of the scan keeps the scan facts, and a match recorded when the scan stops is a piece of the input starting at the cursor |
| PhTokenizer.ScanFrom | Runtime/ThaiTextNurse/PhTokenizer.cs:56-152 | the match the inner loop records is a non-empty piece of the input starting at the cursor |
| PhTokenizer.FollowerChainEnd | Runtime/ThaiTextNurse/PhTokenizer.cs:179-185 | the chain of follower glyphs ends at an index with no follower after it |
| PhTokenizer.NextToken | Runtime/ThaiTextNurse/PhTokenizer.cs:154-191 | the token emitted at the cursor is a non-empty piece of the input that starts there |
| PhTokenizer.SegmentStep | Runtime/ThaiTextNurse/PhTokenizer.cs:155-159 | emitting a token advances the cursor by its length and appends it to the tokens |
| PhTokenizer.Tokenizer.constructor | Runtime/ThaiTextNurse/PhTokenizer.cs:15-22 | the built trie accepts exactly the words of the dictionary |
| PhTokenizer.Tokenizer.AddWord | Runtime/ThaiTextNurse/PhTokenizer.cs:24-36 | the trie accepts what it accepted before plus the word; adding a present word changes nothing |
| PhTokenizer.Tokenizer.SkipRun | Runtime/ThaiTextNurse/PhTokenizer.cs:84-98 | the loop over non-tokenizable characters stops at the end of their run |
| PhTokenizer.Tokenizer.SkipTag | Runtime/ThaiTextNurse/PhTokenizer.cs:104-124 | the tag loop stops where the tag ends |
| PhTokenizer.Tokenizer.ScanOne | Runtime/ThaiTextNurse/PhTokenizer.cs:58-151 | the body of the inner loop does what the scan specification says for one character |
| PhTokenizer.Tokenizer.Scan | Runtime/ThaiTextNurse/PhTokenizer.cs:50-152 | the inner loop ends with the match and bracket flag of the scan specification |
| PhTokenizer.Tokenizer.FallbackToken | Runtime/ThaiTextNurse/PhTokenizer.cs:160-191 | the no-match branch takes one or two characters or the follower chain, or fails where `Substring` would throw |
| PhTokenizer.Tokenizer.Tokenize | Runtime/ThaiTextNurse/PhTokenizer.cs:44-195 | the nested loops give exactly the segmentation of the specification, or its exception |
| TokenizerProperties.SegmentIsPartition | Runtime/ThaiTextNurse/PhTokenizer.cs:44-195 | a successful segmentation cuts the input into non-empty tokens whose concatenation is the input |
| TokenizerProperties.CloseBracketEndsToken | Runtime/ThaiTextNurse/PhTokenizer.cs:59-73 | a close bracket met at the cursor or after an optional open bracket and trie letters ends the token and belongs to it |
| TokenizerProperties.ThaiEndMarkToken | Runtime/ThaiTextNurse/PhTokenizer.cs:65-73 | `ๆ` or `ฯ` at the cursor is a token, with a close bracket right after it included |
| TokenizerProperties.RunToken | Runtime/ThaiTextNurse/PhTokenizer.cs:76-101 | a never-looked-up character at the cursor starts a token that is the maximal run of such characters |
| TokenizerProperties.TagToken | Runtime/ThaiTextNurse/PhTokenizer.cs:103-127 | with rich text on, `<` at the cursor starts a token that reaches the end of its tag |
| TokenizerProperties.FirstAngle | Runtime/ThaiTextNurse/PhTokenizer.cs:108-124 | the first `<` or `>` from a position, or the end of the input |
| TokenizerProperties.TagEndByFirstAngle | Runtime/ThaiTextNurse/PhTokenizer.cs:104-124 | a tag ends just past the first `>`; a `<` before it makes the token the lone `<`; with neither, the tag runs to the end of the input |
| TokenizerProperties.WordIsNeverSplit | Runtime/ThaiTextNurse/PhTokenizer.cs:129-146 | longest match: a dictionary word at the cursor with no follower glyph after it gives a token at least as long as the word |
| TokenizerProperties.StopOnPath | Runtime/ThaiTextNurse/PhTokenizer.cs:129-159 | a scan that follows the trie until the input ends or a link is missing ends with the text up to the longest dictionary word with no follower after it, or with no match |
| TokenizerProperties.TokenIsLongestWord | Runtime/ThaiTextNurse/PhTokenizer.cs:129-175 | where the scan stops at a missing link or the end of the input, the token is the longest dictionary word at the cursor with no follower glyph after it; with none, the no-match token |
| TokenizerProperties.BracketJoinsLongestWord | Runtime/ThaiTextNurse/PhTokenizer.cs:139-169 | a pending open bracket counts once in the match: the token is the bracket and the longest dictionary word after it, or the no-match token with the bracket pending |
| TokenizerProperties.ScanMeetsCloseBracket | Runtime/ThaiTextNurse/PhTokenizer.cs:66-73 | a scan that meets a close bracket stops there and takes it along, whatever it matched before |
| TokenizerProperties.ScanMeetsThaiEnd | Runtime/ThaiTextNurse/PhTokenizer.cs:65-73 | a scan that meets a clause-end mark stops there, with a close bracket after it taken along |
| TokenizerProperties.ScanMeetsRun | Runtime/ThaiTextNurse/PhTokenizer.cs:76-83 | a scan past a Thai letter that meets a never-looked-up character stops just before it |
| TokenizerProperties.ScanMeetsTag | Runtime/ThaiTextNurse/PhTokenizer.cs:103-127 | with rich text on, a scan that meets `<` takes the tag along and stops |
| TokenizerProperties.ThaiEndAfterLetters | Runtime/ThaiTextNurse/PhTokenizer.cs:59-73 | trie letters, after an optional open bracket, followed by a clause-end mark make one token with the mark |
| TokenizerProperties.ThaiEndJoinsPath | Runtime/ThaiTextNurse/PhTokenizer.cs:65-73 | a trie path followed by `ๆ` or `ฯ` is one token with the mark |
| TokenizerProperties.RunAfterLetters | Runtime/ThaiTextNurse/PhTokenizer.cs:59-83 | at least one trie letter, after an optional open bracket, followed by a never-looked-up character is cut exactly before it |
| TokenizerProperties.PathCutBeforeRun | Runtime/ThaiTextNurse/PhTokenizer.cs:76-83 | Thai letters on a trie path are cut before a space, Latin letter or digit, whether or not they form a word |
| TokenizerProperties.TagAfterLetters | Runtime/ThaiTextNurse/PhTokenizer.cs:59-127 | with rich text on, trie letters, after an optional open bracket, followed by `<` make one token with the tag |
| TokenizerProperties.PathJoinsFollowingTag | Runtime/ThaiTextNurse/PhTokenizer.cs:103-127 | Thai letters on a trie path directly before a tag end up in the same token as the tag |
| TokenizerProperties.NoOpenBracketNeverThrows | Runtime/ThaiTextNurse/PhTokenizer.cs:160-191 | without an open bracket in the input, the segmentation never throws |
| TokenizerProperties.BracketBeforeFinalFollowerThrows | Runtime/ThaiTextNurse/PhTokenizer.cs:176-189 | `(` followed by a final follower glyph with no trie link makes `Substring` throw |
| TokenizerProperties.TokenKeepsFollowers | Runtime/ThaiTextNurse/PhTokenizer.cs:129-190 | without an open bracket, the token at the cursor never ends just before a follower glyph, unless it ends in a never-looked-up character or a tag's `<` or `>` |
| TokenizerProperties.SegmentKeepsFollowers | Runtime/ThaiTextNurse/PhTokenizer.cs:44-195 | without an open bracket in the input, no cut between two tokens separates a follower glyph from the letter before it, except after a never-looked-up character or a tag |
| TokenizerProperties.BracketSplitsFollower | Runtime/ThaiTextNurse/PhTokenizer.cs:163-169 | `(กา` with an empty dictionary segments as `(ก` and `า`: after an open bracket a follower glyph is cut off its letter |
| TokenizerProperties.EmptyWordIgnored | Runtime/ThaiTextNurse/PhTokenizer.cs:129-146 | the end-of-word mark is read only after a step to a child, so setting or clearing the root's mark (all that `AddWord("")` does) leaves the segmentation of every input unchanged |
| Nurse.GetWordBreakCharacter | Runtime/ThaiTextNurse/ThaiTextNurse.cs:227-230 | the settings' word break, or the one-character zero-width space without settings |
| Nurse.GetDictionaryPath | Runtime/ThaiTextNurse/ThaiTextNurse.cs:331-334 | the settings' resource path, or `"dictionary"` without settings |
| Nurse.NormalizeNewLines | Runtime/ThaiTextNurse/ThaiTextNurse.cs:348-349 | no carriage return is left after normalising line ends |
| Nurse.KeepWordsMembers | Runtime/ThaiTextNurse/ThaiTextNurse.cs:351-356 | a word is kept if and only if it is the trimmed form of a non-empty line and does not start with `/` |
| Nurse.DictionaryWords | Runtime/ThaiTextNurse/ThaiTextNurse.cs:344-357 | every dictionary word is trimmed, lies within one line and is not a comment; every non-empty, non-comment line gives its trimmed form |
| Nurse.BlankLineGivesEmptyWord | Runtime/ThaiTextNurse/ThaiTextNurse.cs:352-354 | a line of spaces survives as the empty word; by `TokenizerProperties.EmptyWordIgnored` that word does not change any segmentation |
| Nurse.TryRebuildDictionary | Runtime/ThaiTextNurse/ThaiTextNurse.cs:309-342 | fails exactly when no asset is found at the settings' path; otherwise builds a tokenizer accepting exactly the asset's words |
| Nurse.FinalSeparator | Runtime/ThaiTextNurse/ThaiTextNurse.cs:210-212 | the request's separator, followed by the word break when words are broken |
| Nurse.StripSingleBreak | Runtime/ThaiTextNurse/ThaiTextNurse.cs:217-220 | for a one-character word break, stripping deletes exactly that character |
| Nurse.CountWords | Runtime/ThaiTextNurse/ThaiTextNurse.cs:223 | the word count is at most the number of tokens |
| Nurse.CountWordsBounds | Runtime/ThaiTextNurse/ThaiTextNurse.cs:223 | the count is 0 if and only if every token is blank, and equals the token count if and only if none is |
| Nurse.TryTokenize | Runtime/ThaiTextNurse/ThaiTextNurse.cs:199-225 | declines if and only if there is no tokenizer or the final separator is empty; throws in `Replace` if and only if the word break is empty while the separator is not |
| Nurse.SafeTokenize | Runtime/ThaiTextNurse/ThaiTextNurse.cs:189-192 | a declined request gives the input back; the result is an error if and only if tokenizing threw |
| Nurse.TokenizedIsJoinedPartition | Runtime/ThaiTextNurse/ThaiTextNurse.cs:217-224 | on success the result joins non-empty tokens that partition the input without its word breaks, and the count is the number of tokens that are not blank |
| Nurse.BreaksRemovedGiveInput | Runtime/ThaiTextNurse/ThaiTextNurse.cs:217-224 | with an empty separator and a one-character word break: deleting the word breaks from the tokenized text gives the input without its word breaks |
| Nurse.TokenizeIdempotent | Runtime/ThaiTextNurse/ThaiTextNurse.cs:199-225 | with an empty separator and a one-character word break: tokenizing already tokenized text gives the same result |
| Nurse.SafeTokenizeIdempotent | Runtime/ThaiTextNurse/ThaiTextNurse.cs:184-192 | `SafeTokenize` of its own output returns that output again |
| Nurse.NotifyChangeSpec | Runtime/ThaiTextNurse/ThaiTextNurse.cs:114-118 | a change notification sets the two flags and changes nothing else |
| Nurse.RepeatedCallHitsCache | Runtime/ThaiTextNurse/ThaiTextNurse.cs:120-131 | the same text again without a notification returns the stored output and changes nothing |
| Nurse.NotifiedCallIgnoresCache | Runtime/ThaiTextNurse/ThaiTextNurse.cs:114-131 | after a notification the result depends only on the settings, not on the cache |
| Nurse.CacheHitDropsLineHeight | Runtime/ThaiTextNurse/ThaiTextNurse.cs:120-146 | with full line height on, a rebuild that does not throw returns the stored output wrapped in the line-height tags, and the next call with the same text returns the stored output without them |
| Nurse.ThrowCachesInput | Runtime/ThaiTextNurse/ThaiTextNurse.cs:120-158 | when tokenizing throws, the text is already recorded as the output, and the repeated call returns it untokenized |
| Nurse.RebuildRaisesAtMostOnce | Runtime/ThaiTextNurse/ThaiTextNurse.cs:133-158 | a rebuild raises `OnTokenized` at most once, and only with tokenizing on; the word count is that result's |
| Nurse.ThaiTextNurse.constructor | Runtime/ThaiTextNurse/ThaiTextNurse.cs:50-97 | tokenizing on, no correction, no separator, a rebuild pending |
| Nurse.ThaiTextNurse.NotifyChange | Runtime/ThaiTextNurse/ThaiTextNurse.cs:114-118 | the new state is the old one after a change notification |
| Nurse.ThaiTextNurse.SetCorrection | Runtime/ThaiTextNurse/ThaiTextNurse.cs:17-25 | sets the correction, then notifies |
| Nurse.ThaiTextNurse.SetIsForceFullLineHeight | Runtime/ThaiTextNurse/ThaiTextNurse.cs:28-36 | sets the flag, then notifies |
| Nurse.ThaiTextNurse.SetIsTokenize | Runtime/ThaiTextNurse/ThaiTextNurse.cs:41-49 | sets the flag, then notifies |
| Nurse.ThaiTextNurse.SetSeparator | Runtime/ThaiTextNurse/ThaiTextNurse.cs:52-60 | sets the separator, then notifies |
| Nurse.ThaiTextNurse.PreprocessText | Runtime/ThaiTextNurse/ThaiTextNurse.cs:120-131 | the new state and return value are those of the cached-preprocess specification |
| Nurse.ThaiTextNurse.RebuildOutputString | Runtime/ThaiTextNurse/ThaiTextNurse.cs:133-146 | reset, tokenize, adjust glyphs and wrap, as the rebuild specification says |
| Nurse.ThaiTextNurse.Tokenize | Runtime/ThaiTextNurse/ThaiTextNurse.cs:148-158 | a tokenized result replaces the output and word count and is raised; otherwise nothing changes |
| EditorCore.TrimAll | Editor/ThaiTextNurse/ThaiTextCareEditorCore.cs:53 | every piece trimmed, in order |
| EditorCore.GetWordsShape | Editor/ThaiTextNurse/ThaiTextCareEditorCore.cs:51-54 | one word per space-separated piece, each trimmed and without spaces; an empty piece gives an empty word |
| EditorCore.AddedWordsFacts | Editor/ThaiTextNurse/ThaiTextCareEditorCore.cs:29-36 | only words not yet present are appended, none twice, and afterwards every input word is present |
| EditorCore.AddedInInputOrder | Editor/ThaiTextNurse/ThaiTextCareEditorCore.cs:29-36 | the appended words keep their input order |
| EditorCore.AddWords | Editor/ThaiTextNurse/ThaiTextCareEditorCore.cs:27-36 | the merge loop appends exactly the added words to the dictionary list |
| EditorCore.RemovalKeepsMultiset | Editor/ThaiTextNurse/ThaiTextCareEditorCore.cs:66-70 | what remains and what was removed make up the original list |
| EditorCore.RemovedAreInput | Editor/ThaiTextNurse/ThaiTextCareEditorCore.cs:66-70 | only input words are removed |
| EditorCore.RemovalCounts | Editor/ThaiTextNurse/ThaiTextCareEditorCore.cs:66-70 | each word is removed as many times as the smaller of its count in the input and its count in the list, and the rest of its occurrences remain |
| EditorCore.RemovedInInputOrder | Editor/ThaiTextNurse/ThaiTextCareEditorCore.cs:66-70 | the removed words are reported in input order |
| EditorCore.RemoveWords | Editor/ThaiTextNurse/ThaiTextCareEditorCore.cs:64-70 | the removal loop leaves the remaining list and collects the removed words |
| EditorCore.Notification | Editor/ThaiTextNurse/ThaiTextCareEditorCore.cs:39 | names the word when exactly one succeeded, the count otherwise; used with "Added"/"New Words" here and "Removed"/"Words" at line 73 |
| EditorCore.AddWordsToDictionary | Editor/ThaiTextNurse/ThaiTextCareEditorCore.cs:19-42 | nothing without an asset; otherwise the file content, message and log of the merge |
| EditorCore.RemoveWordsFromDictionary | Editor/ThaiTextNurse/ThaiTextCareEditorCore.cs:56-76 | nothing without an asset; otherwise the file content, message and log of the removal |
| EditorCore.SaveLoadRoundTrip | Editor/ThaiTextNurse/ThaiTextCareEditorCore.cs:37 | clean words written one per line read back as the same list, with either line end |
| Hits.WordHit.constructor | Runtime/Utility/WordHit.cs:10-20 | stores the arguments and copies the text's font size |
| Hits.SameAsIsEquivalence | Runtime/Utility/WordHit.cs:37-43 | `IsSameAs` is reflexive, symmetric and transitive |
| Hits.SameAsIgnoresNearestAndSize | Runtime/Utility/WordHit.cs:37-43 | hits on the same text, word and indices are the same whatever their nearest character and font size |
| WordUtils.SeparatorCharacters | Runtime/Utility/WordUtils.cs:132-136 | the separators are tab, space, line feed, carriage return, the custom ones and a one-character zero-width literal; `"\r\n"` never matches |
| WordUtils.FindNearestSeparator | Runtime/Utility/WordUtils.cs:138-152 | the index just before the first separator in the direction, or the end of the text; nothing between is a separator |
| WordUtils.GetWord | Runtime/Utility/WordUtils.cs:123-130 | the characters from start to end inclusive, trimmed; empty when the range is empty |
| WordUtils.NearestSeparatorsBoundRun | Runtime/Utility/WordUtils.cs:37-38 | from a non-separator, the two nearest separators bound its maximal run of non-separators |
| WordUtils.GetWordFromCharacterInfoIndex | Runtime/Utility/WordUtils.cs:29-60 | no hit if and only if the character is a separator; otherwise a new hit on the maximal run around it, carrying that run trimmed |
| Highlights.Highlight.constructor | Runtime/Utility/Highlights/Highlight.cs:8-13 | the highlight marks the given word |
| Highlights.MatchingMembers | Runtime/Utility/Highlights/WordHighlighter.cs:69-74 | a highlight is found if and only if it is listed and its word is the same as the hit |
| Highlights.MatchingFacts | Runtime/Utility/Highlights/WordHighlighter.cs:69-74 | the found highlights are listed, none twice, and dropping them leaves the others |
| Highlights.RemoveKeepsStep | Runtime/Utility/Highlights/WordHighlighter.cs:93-98 | removing a listed highlight and its word keeps the lists free of duplicates and in step |
| Highlights.WordHighlighter.constructor | Runtime/Utility/Highlights/WordHighlighter.cs:21-24 | empty lists with the given settings, and valid |
| Highlights.WordHighlighter.ListsInStep | Runtime/Utility/Highlights/WordHighlighter.cs:21-25 | the two lists have the same length |
| Highlights.WordHighlighter.AddHighlight | Runtime/Utility/Highlights/WordHighlighter.cs:76-91 | without a prefab nothing changes; otherwise the word and a new highlight for it are appended and announced, and the lists stay valid |
| Highlights.WordHighlighter.RemoveHighlight | Runtime/Utility/Highlights/WordHighlighter.cs:93-98 | the first occurrence of the word and of the highlight are removed and the highlight disposed of; the lists stay valid when the highlight is listed |
| Highlights.WordHighlighter.Dispose | Runtime/Utility/Highlights/WordHighlighter.cs:100-104 | the highlight is announced as disposed of; the lists are unchanged |
| Highlights.WordHighlighter.DisposeAll | Runtime/Utility/Highlights/WordHighlighter.cs:106-114 | every listed highlight is disposed of in order, and both lists are emptied |
| Highlights.WordHighlighter.TryAddHighlight | Runtime/Utility/Highlights/WordHighlighter.cs:45-67 | single mode clears first and always adds; allowed duplicates always add; otherwise blocked or removed as the mode says |
| Highlights.WordHighlighter.AddUnlessDuplicated | Runtime/Utility/Highlights/WordHighlighter.cs:51-67 | the duplicate check and its three outcomes |
| Highlights.WordHighlighter.RemoveAll | Runtime/Utility/Highlights/WordHighlighter.cs:58-63 | removing each found highlight drops them all from the list and their words from the word list |
| ThaiGlyphHelper.GetDisplayedString | Editor/ThaiFontDoctor/ThaiGlyphHelper.cs:43-59 | empty if and only if blank; otherwise the trimmed text, with a dash before a trailing glyph or after a leading vowel |
| ThaiGlyphHelper.DashSidesDisjoint | Editor/ThaiFontDoctor/ThaiGlyphHelper.cs:8-19 | no glyph is both behind a dash and a leading vowel |
| ThaiGlyphHelper.DisplayedGlyph | Editor/ThaiFontDoctor/ThaiGlyphHelper.cs:43-59 | a single glyph gets a dash on exactly the side its set says, or none |
| ThaiGlyphHelper.DisplayedStringIdempotent | Editor/ThaiFontDoctor/ThaiGlyphHelper.cs:43-59 | displaying a displayed string again changes nothing |
| ThaiGlyphHelper.GroupNamesDistinct | Editor/ThaiFontDoctor/ThaiGlyphHelper.cs:61-92 | every preset has a non-empty name and no two share one |
| ThaiGlyphHelper.GetGlyphsOf | Editor/ThaiFontDoctor/ThaiGlyphHelper.cs:94-125 | empty if and only if the preset is custom; the single-glyph presets give their glyph |
| ThaiGlyphHelper.UpperGlyphsCover | Editor/ThaiFontDoctor/ThaiGlyphHelper.cs:17-21 | upper vowels, tone marks and the thanthakhat are upper glyphs |
| ThaiGlyphHelper.TailedConsonantsAreConsonants | Editor/ThaiFontDoctor/ThaiGlyphHelper.cs:24-41 | ascender and descender consonants are consonants |
| GlyphGroups.DisplayedEach | Editor/ThaiFontDoctor/GlyphGroup.cs:22 | each glyph shown on its own, in order |
| GlyphGroups.DisplayNameCases | Editor/ThaiFontDoctor/GlyphGroup.cs:15-28 | a preset is named after itself; a one-glyph custom group is that glyph displayed; an empty one is `[  ]` |
| GlyphGroups.CustomListNeverLooksLikePreset | Editor/ThaiFontDoctor/GlyphGroup.cs:15-28 | a custom group of other than one glyph never shows a preset's name |
| GlyphGroups.GlyphGroup.GlyphCount | Editor/ThaiFontDoctor/GlyphGroup.cs:14 | the length of the glyph string, 0 when there is none |
| GlyphGroups.GlyphGroup.constructor | Editor/ThaiFontDoctor/GlyphGroup.cs:30-34 | an empty custom group with no placement |
| GlyphGroups.GlyphGroup.Copy | Editor/ThaiFontDoctor/GlyphGroup.cs:36-42 | a group with the same preset, glyphs and placement |
| GlyphGroups.GlyphGroup.AssignGroup | Editor/ThaiFontDoctor/GlyphGroup.cs:44-50 | takes the preset, and its glyphs unless it is custom; the placement is kept |
| GlyphGroups.GlyphCombination.constructor | Editor/ThaiFontDoctor/GlyphCombination.cs:12-17 | enabled, with two new, distinct, empty custom groups |
| GlyphGroups.GlyphCombination.Copy | Editor/ThaiFontDoctor/GlyphCombination.cs:19-23 | new groups equal in content to the original's; the copy is enabled |
| GlyphGroups.GlyphCombination.DisplayName | Editor/ThaiFontDoctor/GlyphCombination.cs:25 | the two names joined by ` + `; none where a group or name is missing |
| GlyphGroups.GlyphCombination.VariantCount | Editor/ThaiFontDoctor/GlyphCombination.cs:27-36 | 0 without both groups, else the product of their glyph counts |
| FontDoctor.Snapshot | Editor/ThaiFontDoctor/ThaiFontDoctor.cs:65-68 | the settings exist if and only if both groups and their glyph strings exist |
| FontDoctor.TryGetGlyphIndex | Editor/ThaiFontDoctor/ThaiFontDoctor.cs:147-161 | found if and only if some entry has the character; then the first one, its glyph and position; otherwise 0 and -1 |
| FontDoctor.PairRowMembers | Editor/ThaiFontDoctor/ThaiFontDoctor.cs:74-81 | a row holds exactly the target glyph paired with each glyph drawing a pair character |
| FontDoctor.InjectedPairsAreProduct | Editor/ThaiFontDoctor/ThaiFontDoctor.cs:65-83 | the visited pairs are the Cartesian product of the glyphs drawing the targets and those drawing the partners |
| FontDoctor.InjectedPairsBound | Editor/ThaiFontDoctor/ThaiFontDoctor.cs:65-83 | at most one pair per target character and pair character |
| FontDoctor.VariantCountBoundsPairs | Editor/ThaiFontDoctor/ThaiFontDoctor.cs:65-83 | a combination adjusts no more pairs than its variant count |
| FontDoctor.FindPair | Editor/ThaiFontDoctor/ThaiFontDoctor.cs:88-93 | the first record for the pair, or none if no record has it |
| FontDoctor.ApplyPlacement | Editor/ThaiFontDoctor/ThaiFontDoctor.cs:139-145 | the group's placement, with the record's advances kept |
| FontDoctor.Modified | Editor/ThaiFontDoctor/ThaiFontDoctor.cs:102-110 | same glyph pair, carrying the combination's placements |
| FontDoctor.ModifiedOverrides | Editor/ThaiFontDoctor/ThaiFontDoctor.cs:102-110 | a later placement overrides an earlier one |
| FontDoctor.Enabled | Editor/ThaiFontDoctor/ThaiFontDoctor.cs:48 | exactly the enabled combinations |
| FontDoctor.InjectPairOther | Editor/ThaiFontDoctor/ThaiFontDoctor.cs:79-80 | injecting a pair leaves the records and cache entries of every other pair |
| FontDoctor.InjectPairSame | Editor/ThaiFontDoctor/ThaiFontDoctor.cs:79-80 | the first record of an injected pair (or a zero record) is replaced by its placed copy at the end, later duplicates stay, and the copy is cached |
| FontDoctor.InjectAllEffect | Editor/ThaiFontDoctor/ThaiFontDoctor.cs:65-83 | after a combination, each pair it adjusts has one record with its placement; other pairs are untouched |
| FontDoctor.LastCovering | Editor/ThaiFontDoctor/ThaiFontDoctor.cs:48-50 | the last combination adjusting a pair, or none if no combination does |
| FontDoctor.ApplyCombinationsEffect | Editor/ThaiFontDoctor/ThaiFontDoctor.cs:48-50 | after the combinations, a pair has the placement of the last one adjusting it; other pairs are untouched |
| FontDoctor.RemoveKeyKeyed | Editor/ThaiFontDoctor/ThaiFontDoctor.cs:58-60 | `RemoveAll` for one pair removes all its records and no other |
| FontDoctor.RemoveCachedKeyed | Editor/ThaiFontDoctor/ThaiFontDoctor.cs:55-63 | disposing of the cache removes every record of a cached pair and no other |
| FontDoctor.ApplyModificationsEffect | Editor/ThaiFontDoctor/ThaiFontDoctor.cs:41-53 | after applying, each adjusted pair has one record placed as its last enabled combination says; a cached pair restarts from zero; the cache holds exactly the adjusted pairs |
| FontDoctor.ReapplyStartsFromZero | Editor/ThaiFontDoctor/ThaiFontDoctor.cs:41-63 | a second application rebuilds every adjusted pair from a zero record, losing its original advances |
| FontDoctor.RebuildEffect | Editor/ThaiFontDoctor/ThaiFontDoctor.cs:132-137 | after a clean rebuild only adjusted pairs have records, each a zero record placed by its last combination |
| FontDoctor.ThaiFontDoctor.constructor | Editor/ThaiFontDoctor/ThaiFontDoctor.cs:35-38 | the given asset and combinations, with an empty cache |
| FontDoctor.ThaiFontDoctor.ApplyModifications | Editor/ThaiFontDoctor/ThaiFontDoctor.cs:41-53 | nothing without an asset; otherwise the table and cache of disposing, then injecting the enabled combinations in order |
| FontDoctor.ThaiFontDoctor.DisposeCachedPairs | Editor/ThaiFontDoctor/ThaiFontDoctor.cs:55-63 | every record of a cached pair removed, and the cache emptied |
| FontDoctor.ThaiFontDoctor.InjectCombination | Editor/ThaiFontDoctor/ThaiFontDoctor.cs:65-83 | the nested loops inject exactly the combination's pairs, in order |
| FontDoctor.ThaiFontDoctor.InjectRow | Editor/ThaiFontDoctor/ThaiFontDoctor.cs:74-81 | the inner loop injects exactly one row of pairs |
| FontDoctor.ThaiFontDoctor.GetPairAdjustmentRecord | Editor/ThaiFontDoctor/ThaiFontDoctor.cs:85-100 | the first record for the pair; without one, a zero record appended to the table |
| FontDoctor.ThaiFontDoctor.ModifyPair | Editor/ThaiFontDoctor/ThaiFontDoctor.cs:102-114 | the record is replaced by its placed copy at the end of the table, and the copy is cached |
| FontDoctor.ThaiFontDoctor.CleanAndRebuild | Editor/ThaiFontDoctor/ThaiFontDoctor.cs:132-137 | throws if and only if there is no asset; otherwise the table rebuilt from empty with the enabled combinations |

## Left out

- Unity and TextMesh Pro plumbing is not modelled. This covers:
  - `Awake`, `OnEnable`, `OnDisable`, `OnDestroy`, gizmos and `VisualizeInEditor`;
  - the `textPreprocessor` hook;
  - progress bars, scene notifications, `Debug.Log` and `Debug.LogError`;
  - `Undo`, `SetDirty`, `ReadFontAssetDefinition` and the font-property event.

  These are engine calls with no effect on the modelled state.
- Resource loading is a parameter: `resources` in `Nurse.TryRebuildDictionary`, and the optional asset text in the editor operations.
  - The asynchronous rebuild (`RebuildDictionaryAsync`) and `UpdateAllNursesInScene` are not modelled.
  - Neither are the scene-wide `EnableAllTokenizerInScene` and `DisableAllTokenizerInScene`.
  - The reason is that they iterate over scene objects.
- The static tokenizer is an optional trie passed in. The lazy rebuild inside `TryTokenize`, when no tokenizer is loaded yet, is not modelled: an absent trie declines. The same goes for the `IsDictionaryLoaded` flag.
- `ThaiFontAdjuster.Adjust` is an opaque function parameter. Its source is not part of this model.
- A `null` separator is taken as the empty string.
- PhTokenizer.Segment, Nurse.TryTokenize, FontDoctor.InjectCombination: strings are sequences of Unicode scalar values, while the C# code indexes UTF-16 code units (`Length`, `input[i]`, `Substring`, `foreach (char c …)`). For a character outside the Basic Multilingual Plane that starts no dictionary word, such as U+1F600, the code emits its two surrogates as separate tokens and `TryTokenize` puts a word break between them and counts two words; the model keeps the character whole as one token. Lone surrogates cannot be represented. The same mismatch applies to the glyph lookups by character in `InjectCombination` and `TryGetGlyphIndex`.
- Highlights.WordHighlighter.TryAddHighlight, Highlights.WordHighlighter.AddUnlessDuplicated, Highlights.WordHighlighter.RemoveAll: stated for states where `Valid()` holds, which the class's own operations keep. A public `RemoveHighlight` of a highlight that is not listed, while its word is, can leave the two lists out of step; the model says nothing about calls made from such a state.
- BreaksRemovedGiveInput: stated for an empty separator and a one-character word break only. A non-empty separator stays in the output after the breaks are deleted, so the property does not hold for it; a longer break makes `Replace` match substrings, which the model's string laws cover only for one character.
- TokenizeIdempotent: stated for an empty separator and a one-character word break only. A non-empty separator is kept by the second pass and segmented again, so the output grows; a longer break is left out for the reason above.
- The `OnTokenized` and `OnWordHighlighted` event handlers are represented by logs of the values raised, not by calls into subscribers.
- `SaveDictionaryAndRebuild` is represented by the content it would write. The file write, the asset refresh and the rebuild are not modelled.
- WordUtils.GetWordFromCharacterInfoIndex does not model:
  - the line-info adjustment of the end index (lines 45-50);
  - the screen positions (lines 52-55).

  Both need layout data. The hit carries the indices found from the separators.
- `TryGetHitFromMouse`, `FindNearestCharacter` and `PointIntersectRectangle` are not modelled. They are screen geometry with floating-point vectors.
- The zero-width alternative of `IsEndOfWordOrSpace` is a parameter (`zeroWidth`). The literal in the file is stored in a decoding-dependent form.
- `WordHit` fields are immutable in the model, because nothing in the core writes them after construction. `Width` and the positions are not modelled.
- `Highlight` is reduced to the word it marks, fixed when it is made. The abstract `Clone`, `PlaceAt`, `SetWord` and `Dispose` are not modelled; the model records only which highlights were disposed of, in order. `highlightPrefab` is reduced to whether it is set.
- `HighlightWordFromMouse`, `TryHighlightWordFromMouse` and `maxDistance` are not modelled. They depend on the camera and the mouse.
- The font doctor reads its combinations as values (`FontDoctor.CombinationSettings`, taken from a `GlyphCombination` by `FontDoctor.Snapshot`).
  - A combination whose group or glyph string is `null` makes `InjectCombination` throw. The model does not represent such a combination in the list.
- GlyphGroups.GlyphCombination.Copy: requires both groups of the original to be set. The copy constructor dereferences them and throws `NullReferenceException` when one is `null`; that exception is not modelled.
- `fontAsset` and `glyphCombinationList` are fixed per doctor object. So `SetFontAsset`, `SetTesterTMPText`, `SetTestText` and `ApplyToTesterText` are not modelled (the tester text is display only), and neither is editing the list.
- InjectAllEffect, ApplyCombinationsEffect, ApplyModificationsEffect, ReapplyStartsFromZero: stated for a pair with at most one record in the starting table, as TextMesh Pro keeps one record per glyph pair. With duplicates, each injection replaces the first record and a later duplicate would be picked up next (`FontDoctor.InjectPairSame` states that general step).
- `List.Remove(pairRecord)` is modelled as removal of the first record equal in value. TextMesh Pro's own equality for pair records is not part of this model.
- Placements and advances are opaque `real` values. `float` rounding is not modelled.
- `FontDoctor.TryGetGlyphIndex` uses an unbounded `nat` for the `uint` glyph index, because glyph indices never wrap in the table.
- The `default:` branches of `GetThaiGlyphGroupName` and `GetGlyphsOf` throw for values outside the enum. The Dafny enum has no such values.
- The `startIndex < 0 || endIndex >= length` check of `GetWordFromCharacterInfoIndex` is kept but cannot fire, because `FindNearestSeparator` stays in range.
