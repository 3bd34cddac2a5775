/**
  The editor's dictionary editing: the words typed by the user are merged into, or removed
  from, the word list read from the dictionary text; the list is written back one word per
  line and a notification message is shown.

  The dictionary text is passed in (absent when the asset cannot be loaded); writing the file,
  refreshing the asset database and rebuilding the static tokenizer are not part of this model.
*/
module EditorCore {
  import opened Wrappers
  import opened Text
  import Nurse
  import opened Lists

  /** Every piece trimmed. */
  function TrimAll(pieces: seq<string>): (r: seq<string>)
    ensures |r| == |pieces| && forall k :: 0 <= k < |r| ==> r[k] == Trim(pieces[k])
  {
    if |pieces| == 0 then [] else [Trim(pieces[0])] + TrimAll(pieces[1..])
  }

  /** `GetWords`: the input split on single spaces, each piece trimmed. */
  function GetWords(input: string): seq<string> {
    TrimAll(Split(input, ' '))
  }

  /**
    There is one word per space-separated piece, and each is trimmed and free of spaces, so two
    spaces in a row give an empty word.
  */
  lemma GetWordsShape(input: string)
    ensures |GetWords(input)| == |Split(input, ' ')| >= 1
    ensures forall k :: 0 <= k < |GetWords(input)| ==>
      var w := GetWords(input)[k];
      Trim(w) == w && ' ' !in w && (Split(input, ' ')[k] == [] ==> w == [])
  {
    var pieces := Split(input, ' ');
    forall k | 0 <= k < |pieces|
      ensures Trim(GetWords(input)[k]) == GetWords(input)[k] && ' ' !in GetWords(input)[k]
    {
      TrimIdempotent(pieces[k]);
      TrimKeepsAbsent(pieces[k], ' ');
    }
  }

  // ---------------------------------------------------------------------------------------
  // Adding words
  // ---------------------------------------------------------------------------------------

  /** The input words appended, in input order, by the merge into `list`: those not yet present. */
  function AddedWords(list: seq<string>, words: seq<string>): seq<string>
    decreases |words|
  {
    if |words| == 0 then []
    else if words[0] in list then AddedWords(list, words[1..])
    else [words[0]] + AddedWords(list + [words[0]], words[1..])
  }

  /**
    Only input words that were not in the list are appended, none twice, and afterwards every
    input word is in the list.
  */
  lemma {:induction false} AddedWordsFacts(list: seq<string>, words: seq<string>)
    ensures var added := AddedWords(list, words);
      && (forall w :: w in added ==> w in words && w !in list)
      && (forall w :: w in words ==> w in list + added)
      && NoDuplicates(added)
    decreases |words|
  {
    if |words| > 0 {
      var w := words[0];
      if w in list {
        AddedWordsFacts(list, words[1..]);
      } else {
        AddedWordsFacts(list + [w], words[1..]);
        var rest := AddedWords(list + [w], words[1..]);
        assert list + [w] + rest == list + ([w] + rest);
        forall i, j | 0 <= i < j < |[w] + rest| ensures ([w] + rest)[i] != ([w] + rest)[j] {
          assert ([w] + rest)[j] == rest[j - 1] && rest[j - 1] in rest;
          if i > 0 { assert ([w] + rest)[i] == rest[i - 1]; }
        }
      }
    }
  }

  /** Added words are appended in input order. */
  lemma {:induction false} AddedInInputOrder(list: seq<string>, words: seq<string>)
    ensures IsSubsequence(AddedWords(list, words), words)
    decreases |words|
  {
    if |words| > 0 {
      var w := words[0];
      if w in list {
        AddedInInputOrder(list, words[1..]);
        SubsequenceSkip(AddedWords(list, words[1..]), w, words[1..]);
      } else {
        AddedInInputOrder(list + [w], words[1..]);
        var rest := AddedWords(list + [w], words[1..]);
        assert ([w] + rest)[1..] == rest;
      }
      assert [w] + words[1..] == words;
    }
  }

  /** The merge loop of `AddWordsToDictionary`. */
  method AddWords(dictionary: seq<string>, words: seq<string>) returns (list: seq<string>, succeeded: seq<string>)
    ensures succeeded == AddedWords(dictionary, words)
    ensures list == dictionary + succeeded
  {
    list := dictionary;
    succeeded := [];
    for t := 0 to |words|
      invariant list == dictionary + succeeded
      invariant AddedWords(dictionary, words) == succeeded + AddedWords(list, words[t..])
    {
      var word := words[t];
      assert words[t..][1..] == words[t + 1..];
      if word !in list {
        assert AddedWords(list, words[t..]) == [word] + AddedWords(list + [word], words[t + 1..]);
        list := list + [word];
        succeeded := succeeded + [word];
      } else {
        assert AddedWords(list, words[t..]) == AddedWords(list, words[t + 1..]);
      }
    }
  }

  // ---------------------------------------------------------------------------------------
  // Removing words
  // ---------------------------------------------------------------------------------------

  /** The input words found, in input order, by successive removals from `list`. */
  function RemovedWords(list: seq<string>, words: seq<string>): seq<string>
    decreases |words|
  {
    if |words| == 0 then []
    else if words[0] in list then [words[0]] + RemovedWords(RemoveFirst(list, words[0]), words[1..])
    else RemovedWords(list, words[1..])
  }

  /** What is left of `list` after the successive removals. */
  function Remaining(list: seq<string>, words: seq<string>): seq<string>
    decreases |words|
  {
    if |words| == 0 then list else Remaining(RemoveFirst(list, words[0]), words[1..])
  }

  /**
    Each found word takes away exactly one occurrence: what remains and what was removed make up
    the original list.
  */
  lemma {:induction false} RemovalKeepsMultiset(list: seq<string>, words: seq<string>)
    ensures multiset(Remaining(list, words)) + multiset(RemovedWords(list, words)) == multiset(list)
    decreases |words|
  {
    if |words| > 0 {
      var w := words[0];
      var smaller := RemoveFirst(list, w);
      RemovalKeepsMultiset(smaller, words[1..]);
      var rest := RemovedWords(smaller, words[1..]);
      assert Remaining(list, words) == Remaining(smaller, words[1..]);
      if w in list {
        assert RemovedWords(list, words) == [w] + rest;
        assert multiset([w] + rest) == multiset{w} + multiset(rest);
        assert multiset(smaller) + multiset{w} == multiset(list);
      } else {
        assert RemovedWords(list, words) == rest;
      }
    }
  }

  /** Only input words are removed. */
  lemma {:induction false} RemovedAreInput(list: seq<string>, words: seq<string>)
    ensures forall w :: w in RemovedWords(list, words) ==> w in words
    decreases |words|
  {
    if |words| > 0 {
      RemovedAreInput(RemoveFirst(list, words[0]), words[1..]);
    }
  }

  /**
    Each word is removed as often as the input asks for it and the list still holds it: the
    removed copies of `x` are the smaller of its count in the input and its count in the list,
    and the rest stay.
  */
  lemma {:induction false} RemovalCounts(list: seq<string>, words: seq<string>, x: string)
    ensures var asked, held := multiset(words)[x], multiset(list)[x];
      var removed := if asked <= held then asked else held;
      && multiset(RemovedWords(list, words))[x] == removed
      && multiset(Remaining(list, words))[x] == held - removed
    decreases |words|
  {
    RemovalKeepsMultiset(list, words);
    if |words| > 0 {
      var w := words[0];
      var smaller := RemoveFirst(list, w);
      RemovalCounts(smaller, words[1..], x);
      assert words == [w] + words[1..];
      assert multiset(words) == multiset{w} + multiset(words[1..]);
      if w in list {
        var rest := RemovedWords(smaller, words[1..]);
        assert RemovedWords(list, words) == [w] + rest;
        assert multiset([w] + rest) == multiset{w} + multiset(rest);
      } else {
        assert RemovedWords(list, words) == RemovedWords(smaller, words[1..]);
      }
    }
  }

  /** Removed words are reported in input order. */
  lemma {:induction false} RemovedInInputOrder(list: seq<string>, words: seq<string>)
    ensures IsSubsequence(RemovedWords(list, words), words)
    decreases |words|
  {
    if |words| > 0 {
      var w := words[0];
      RemovedInInputOrder(RemoveFirst(list, w), words[1..]);
      var rest := RemovedWords(RemoveFirst(list, w), words[1..]);
      if w in list {
        assert ([w] + rest)[1..] == rest;
      } else {
        SubsequenceSkip(rest, w, words[1..]);
      }
      assert [w] + words[1..] == words;
    }
  }

  /** The removal loop of `RemoveWordsFromDictionary`. */
  method RemoveWords(dictionary: seq<string>, words: seq<string>) returns (list: seq<string>, succeeded: seq<string>)
    ensures list == Remaining(dictionary, words)
    ensures succeeded == RemovedWords(dictionary, words)
  {
    list := dictionary;
    succeeded := [];
    for t := 0 to |words|
      invariant Remaining(dictionary, words) == Remaining(list, words[t..])
      invariant RemovedWords(dictionary, words) == succeeded + RemovedWords(list, words[t..])
    {
      var word := words[t];
      assert words[t..][1..] == words[t + 1..];
      assert Remaining(list, words[t..]) == Remaining(RemoveFirst(list, word), words[t + 1..]);
      if word in list {
        assert RemovedWords(list, words[t..]) == [word] + RemovedWords(RemoveFirst(list, word), words[t + 1..]);
        list := RemoveFirst(list, word);
        succeeded := succeeded + [word];
      }
    }
  }

  // ---------------------------------------------------------------------------------------
  // Messages and the two editor operations
  // ---------------------------------------------------------------------------------------

  /**
    The notification after an edit: the word itself when exactly one succeeded, the count of
    words otherwise.
  */
  function Notification(verb: string, noun: string, succeeded: seq<string>): (r: string)
    ensures |succeeded| == 1 ==> r == verb + " '" + succeeded[0] + "'"
    ensures |succeeded| != 1 ==> r == verb + " " + NatToString(|succeeded|) + " " + noun
  {
    if |succeeded| == 1 then verb + " '" + succeeded[0] + "'"
    else verb + " " + NatToString(|succeeded|) + " " + noun
  }

  /** What an edit produces: the text written back to the dictionary file, the notification and the log line. */
  datatype EditOutcome = EditOutcome(content: string, message: string, log: string)

  /**
    `AddWordsToDictionary`: nothing happens without a dictionary asset; otherwise the new words
    are appended and the list is written back joined by `newLine` (`Environment.NewLine`).
  */
  method AddWordsToDictionary(asset: Option<string>, pendingWords: string, newLine: string) returns (r: Option<EditOutcome>)
    ensures asset.None? <==> r.None?
    ensures asset.Some? ==>
      var dictionary := Nurse.WordsFromDictionary(asset.value);
      var added := AddedWords(dictionary, GetWords(pendingWords));
      r == Some(EditOutcome(Join(dictionary + added, newLine), Notification("Added", "New Words", added), "Added: " + Join(added, ", ")))
  {
    if asset.None? {
      return None;
    }
    var inputWords := GetWords(pendingWords);
    var dictionaryWordList, succeedList := AddWords(Nurse.WordsFromDictionary(asset.value), inputWords);
    var content := Join(dictionaryWordList, newLine);
    r := Some(EditOutcome(content, Notification("Added", "New Words", succeedList), "Added: " + Join(succeedList, ", ")));
  }

  /** `RemoveWordsFromDictionary`: as adding, with the found words removed instead. */
  method RemoveWordsFromDictionary(asset: Option<string>, pendingWords: string, newLine: string) returns (r: Option<EditOutcome>)
    ensures asset.None? <==> r.None?
    ensures asset.Some? ==>
      var dictionary := Nurse.WordsFromDictionary(asset.value);
      var words := GetWords(pendingWords);
      var removed := RemovedWords(dictionary, words);
      r == Some(EditOutcome(Join(Remaining(dictionary, words), newLine), Notification("Removed", "Words", removed), "Removed: " + Join(removed, ", ")))
  {
    if asset.None? {
      return None;
    }
    var inputWords := GetWords(pendingWords);
    var dictionaryWordList, succeedList := RemoveWords(Nurse.WordsFromDictionary(asset.value), inputWords);
    var content := Join(dictionaryWordList, newLine);
    r := Some(EditOutcome(content, Notification("Removed", "Words", succeedList), "Removed: " + Join(succeedList, ", ")));
  }

  // ---------------------------------------------------------------------------------------
  // Writing the list back and reading it again
  // ---------------------------------------------------------------------------------------

  /** A word that survives a round trip through the dictionary file. */
  predicate CleanWord(w: string) {
    |w| > 0 && Trim(w) == w && !StartsWith(w, '/') && '\n' !in w && '\r' !in w
  }

  lemma {:induction false} KeepCleanWords(list: seq<string>)
    requires forall w :: w in list ==> CleanWord(w)
    ensures Nurse.KeepWords(list) == list
  {
    if |list| > 0 {
      var w, rest := list[0], list[1..];
      assert list == [w] + rest;
      KeepCleanWords(rest);
      assert CleanWord(w);
    }
  }

  /** Windows line ends become `'\n'` one by one. */
  lemma {:induction false} NormalizeCrLfJoin(list: seq<string>)
    requires forall k :: 0 <= k < |list| ==> '\r' !in list[k]
    ensures ReplaceAll(Join(list, "\r\n"), "\r\n", "\n") == Join(list, "\n")
  {
    if |list| == 1 {
      ReplaceAbsent(list[0], "\r\n", "\n");
    } else if |list| > 1 {
      NormalizeCrLfJoin(list[1..]);
      ReplaceAcross(list[0], "\r\n", "\n", Join(list[1..], "\r\n"));
      assert list[0] + "\r\n" + Join(list[1..], "\r\n") == Join(list, "\r\n");
    }
  }

  /**
    Reading back a list of clean words written one per line, with either line end, gives the
    list again.
  */
  lemma SaveLoadRoundTrip(list: seq<string>, newLine: string)
    requires newLine == "\n" || newLine == "\r\n"
    requires forall w :: w in list ==> CleanWord(w)
    ensures Nurse.WordsFromDictionary(Join(list, newLine)) == list
  {
    var joined := Join(list, "\n");
    forall k | 0 <= k < |list| ensures '\r' !in list[k] && '\n' !in list[k] {
      assert list[k] in list;
    }
    JoinKeepsAbsent(list, "\n", '\r');
    if newLine == "\r\n" {
      NormalizeCrLfJoin(list);
    } else {
      ReplaceAbsent(joined, "\r\n", "\n");
    }
    ReplaceAbsent(joined, "\r", "\n");
    assert Nurse.NormalizeNewLines(Join(list, newLine)) == joined;
    if |list| == 0 {
      assert Split(joined, '\n') == [""];
    } else {
      SplitJoin(list, '\n');
      KeepCleanWords(list);
    }
  }
}
