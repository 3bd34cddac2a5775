/**
  The word highlighter: a list of word hits and a list of the highlights placed on them, kept in
  step, under a highlight mode (one highlight at a time, or appending) and a duplicate mode
  (a hit the same as a highlighted word is blocked, removes the existing highlights, or is
  allowed).

  A highlight is an object marking one word hit; cloning the prefab, placing the highlight and
  disposing of it are outside this model. The two events the highlighter raises are kept as the
  sequences of highlights they were raised with.
*/
module Highlights {
  import opened Hits
  import opened Lists

  datatype HighlightMode = Append | Single

  datatype DuplicateHighlightMode = Blocked | Remove | Allowed

  /**
    A highlight as the highlighter sees it: the word hit it marks, given when the prefab is
    cloned for that word (`Clone` followed by `SetWord`).
  */
  class Highlight {
    const word: WordHit

    constructor (word: WordHit)
      ensures this.word == word
    {
      this.word := word;
    }
  }

  /** The words the highlights mark, in order. */
  function WordsOf(hs: seq<Highlight>): (r: seq<WordHit>)
    ensures |r| == |hs| && forall k :: 0 <= k < |hs| ==> r[k] == hs[k].word
  {
    if |hs| == 0 then [] else [hs[0].word] + WordsOf(hs[1..])
  }

  /** `GetExistingHighlightsOf`: the highlights whose word is the same as the hit, in order. */
  function Matching(hs: seq<Highlight>, hit: WordHit): (r: seq<Highlight>)
    ensures |r| <= |hs|
  {
    if |hs| == 0 then []
    else (if hs[0].word.IsSameAs(hit) then [hs[0]] else []) + Matching(hs[1..], hit)
  }

  /** The highlights whose word is not the same as the hit, in order. */
  function NotMatching(hs: seq<Highlight>, hit: WordHit): (r: seq<Highlight>)
    ensures |r| <= |hs|
  {
    if |hs| == 0 then []
    else (if hs[0].word.IsSameAs(hit) then [] else [hs[0]]) + NotMatching(hs[1..], hit)
  }

  /** The matching highlights are exactly the listed ones whose word is the same as the hit. */
  lemma {:induction false} MatchingMembers(hs: seq<Highlight>, hit: WordHit, h: Highlight)
    ensures h in Matching(hs, hit) <==> h in hs && h.word.IsSameAs(hit)
  {
    if |hs| > 0 {
      MatchingMembers(hs[1..], hit, h);
      assert hs == [hs[0]] + hs[1..];
    }
  }

  /**
    The matching highlights are listed ones, none twice when the list has no duplicates, and
    dropping them leaves exactly the others.
  */
  lemma {:induction false} MatchingFacts(hs: seq<Highlight>, hit: WordHit)
    requires NoDuplicates(hs)
    ensures forall k :: 0 <= k < |Matching(hs, hit)| ==> Matching(hs, hit)[k] in hs
    ensures NoDuplicates(Matching(hs, hit))
    ensures Drop(hs, Matching(hs, hit)) == NotMatching(hs, hit)
  {
    if |hs| > 0 {
      var h0, rest := hs[0], hs[1..];
      assert NoDuplicates(rest) by {
        forall a, b | 0 <= a < b < |rest| ensures rest[a] != rest[b] { assert rest[a] == hs[a + 1] && rest[b] == hs[b + 1]; }
      }
      assert h0 !in rest by {
        forall k | 0 <= k < |rest| ensures rest[k] != h0 { assert rest[k] == hs[k + 1]; }
      }
      MatchingFacts(rest, hit);
      var m := Matching(rest, hit);
      MatchingMembers(rest, hit, h0);
      assert forall k :: 0 <= k < |m| ==> m[k] in hs by {
        forall k | 0 <= k < |m| ensures m[k] in hs { assert m[k] in rest; }
      }
      if h0.word.IsSameAs(hit) {
        assert Matching(hs, hit) == [h0] + m;
        forall a, b | 0 <= a < b < |[h0] + m| ensures ([h0] + m)[a] != ([h0] + m)[b] {
          assert ([h0] + m)[b] == m[b - 1] && m[b - 1] in m;
          if a > 0 { assert ([h0] + m)[a] == m[a - 1]; }
        }
        DropAbsent(rest, m, h0);
        DropAfterHead(hs, [h0] + m);
        assert Drop(rest, m + [h0]) == Drop(rest, m);
        DropOrder(rest, [h0], m);
      } else {
        assert Matching(hs, hit) == m;
        DropAfterHead(hs, m);
      }
    }
  }

  /**
    One step of removing the listed, duplicate-free highlights `gone` one by one: the next one is
    still listed, and removing it drops it too.
  */
  lemma RemovalStep(base: seq<Highlight>, gone: seq<Highlight>, t: nat)
    requires NoDuplicates(base) && NoDuplicates(gone) && t < |gone|
    requires forall k :: 0 <= k < |gone| ==> gone[k] in base
    ensures gone[t] in Drop(base, gone[..t])
    ensures RemoveFirst(Drop(base, gone[..t]), gone[t]) == Drop(base, gone[..t + 1])
  {
    assert gone[t] !in gone[..t];
    DropMembers(base, gone[..t], gone[t]);
    RemoveFirstOfDrop(base, gone[..t], gone[t]);
    NextPrefix([], gone, t);
  }

  /** Extending a prefix of `gone` by its next element. */
  lemma NextPrefix(before: seq<Highlight>, gone: seq<Highlight>, t: nat)
    requires t < |gone|
    ensures gone[..t + 1] == gone[..t] + [gone[t]]
    ensures before + gone[..t + 1] == before + gone[..t] + [gone[t]]
  {
    assert gone[..t + 1] == gone[..t] + [gone[t]];
  }

  /** Removing the words of one more highlight is removing its word from what was left. */
  lemma RemoveEachStep(words: seq<WordHit>, gone: seq<Highlight>, t: nat)
    requires t < |gone|
    ensures RemoveEach(words, WordsOf(gone[..t + 1])) == RemoveFirst(RemoveEach(words, WordsOf(gone[..t])), gone[t].word)
  {
    assert WordsOf(gone[..t + 1])[..t] == WordsOf(gone[..t]);
  }

  /** Unfolding `Drop` at the head of a non-empty list. */
  lemma DropAfterHead(list: seq<Highlight>, gone: seq<Highlight>)
    requires |list| > 0
    ensures Drop(list, gone) == (if list[0] in gone then [] else [list[0]]) + Drop(list[1..], gone)
  {
  }

  /** What is dropped depends only on the elements of `gone`, not on their order. */
  lemma {:induction false} DropOrder(list: seq<Highlight>, a: seq<Highlight>, b: seq<Highlight>)
    ensures Drop(list, a + b) == Drop(list, b + a)
  {
    if |list| > 0 {
      DropOrder(list[1..], a, b);
      assert list[0] in a + b <==> list[0] in b + a;
    }
  }

  class WordHighlighter {
    var highlightMode: HighlightMode
    var duplicateHighlightMode: DuplicateHighlightMode
    /** `highlightPrefab != null`. */
    var hasPrefab: bool
    var wordHitList: seq<WordHit>
    var highlightList: seq<Highlight>
    /** The highlights `OnWordHighlighted` was raised with, oldest first. */
    var highlighted: seq<Highlight>
    /** The highlights disposed of (`OnDispose`, then `Dispose`), oldest first. */
    var disposed: seq<Highlight>

    /**
      Every highlight marks a word, no highlight is listed twice, and the word list holds
      exactly the marked words, as many times each.
    */
    predicate Valid()
      reads this
    {
      && NoDuplicates(highlightList)
      && multiset(wordHitList) == multiset(WordsOf(highlightList))
    }

    function Settings(): (HighlightMode, DuplicateHighlightMode, bool)
      reads this
    {
      (highlightMode, duplicateHighlightMode, hasPrefab)
    }

    constructor (highlightMode: HighlightMode, duplicateHighlightMode: DuplicateHighlightMode, hasPrefab: bool)
      ensures Valid() && Settings() == (highlightMode, duplicateHighlightMode, hasPrefab)
      ensures wordHitList == [] && highlightList == [] && highlighted == [] && disposed == []
    {
      this.highlightMode := highlightMode;
      this.duplicateHighlightMode := duplicateHighlightMode;
      this.hasPrefab := hasPrefab;
      wordHitList := [];
      highlightList := [];
      highlighted := [];
      disposed := [];
    }

    /** Both lists keep the same length. */
    lemma ListsInStep()
      requires Valid()
      ensures |wordHitList| == |highlightList|
    {
      assert |multiset(wordHitList)| == |multiset(WordsOf(highlightList))|;
    }

    /**
      `AddHighlight`: without a prefab nothing changes and no highlight is returned; otherwise the
      word and a new highlight marking it are appended together and the highlight is announced.
    */
    method AddHighlight(word: WordHit) returns (highlight: Highlight?)
      modifies this
      ensures Settings() == old(Settings()) && disposed == old(disposed)
      ensures !hasPrefab ==>
        && highlight == null
        && wordHitList == old(wordHitList) && highlightList == old(highlightList) && highlighted == old(highlighted)
      ensures hasPrefab ==>
        && highlight != null && fresh(highlight) && highlight.word == word
        && wordHitList == old(wordHitList) + [word] && highlightList == old(highlightList) + [highlight]
        && highlighted == old(highlighted) + [highlight]
      ensures old(Valid()) ==> Valid()
    {
      if !hasPrefab {
        return null;
      }
      wordHitList := wordHitList + [word];
      var h := new Highlight(word);
      highlightList := highlightList + [h];
      highlighted := highlighted + [h];
      highlight := h;
      assert WordsOf(highlightList) == WordsOf(old(highlightList)) + [word];
      assert h !in old(highlightList);
    }

    /**
      `RemoveHighlight`: the first occurrence of the highlight's word and of the highlight are
      removed, and the highlight is disposed of. The lists stay valid when the highlight is listed.
    */
    method RemoveHighlight(highlight: Highlight)
      modifies this
      ensures Settings() == old(Settings()) && highlighted == old(highlighted)
      ensures wordHitList == RemoveFirst(old(wordHitList), highlight.word)
      ensures highlightList == RemoveFirst(old(highlightList), highlight)
      ensures disposed == old(disposed) + [highlight]
      ensures old(Valid()) && highlight in old(highlightList) ==> Valid()
    {
      wordHitList := RemoveFirst(wordHitList, highlight.word);
      highlightList := RemoveFirst(highlightList, highlight);
      Dispose(highlight);
      if old(Valid()) && highlight in old(highlightList) {
        RemoveKeepsStep(old(highlightList), old(wordHitList), highlight);
      }
    }

    /** `Dispose`: the highlight is announced as disposed of. */
    method Dispose(highlight: Highlight)
      modifies this
      ensures Settings() == old(Settings()) && highlighted == old(highlighted)
      ensures wordHitList == old(wordHitList) && highlightList == old(highlightList)
      ensures disposed == old(disposed) + [highlight]
    {
      disposed := disposed + [highlight];
    }

    /** `DisposeAll`: every listed highlight is disposed of in order, and both lists are emptied. */
    method DisposeAll()
      modifies this
      ensures Settings() == old(Settings()) && highlighted == old(highlighted)
      ensures disposed == old(disposed) + old(highlightList)
      ensures wordHitList == [] && highlightList == [] && Valid()
    {
      for t := 0 to |highlightList|
        invariant Settings() == old(Settings()) && highlighted == old(highlighted)
        invariant highlightList == old(highlightList) && wordHitList == old(wordHitList)
        invariant disposed == old(disposed) + highlightList[..t]
      {
        Dispose(highlightList[t]);
        assert highlightList[..t + 1] == highlightList[..t] + [highlightList[t]];
      }
      assert highlightList[..|highlightList|] == highlightList;
      wordHitList := [];
      highlightList := [];
    }

    /**
      The outcome of adding `hit` onto the given lists and event logs: unless duplicates are
      allowed, the highlights of words the same as the hit are looked up; with some found, a
      blocked call changes nothing and a removing call removes all of them, and the result is
      false. Otherwise the hit is added (when there is a prefab) and the result is true.
    */
    predicate AddOutcome(added: bool, hit: WordHit, baseHighlights: seq<Highlight>, baseWords: seq<WordHit>,
                         baseDisposed: seq<Highlight>, baseHighlighted: seq<Highlight>)
      reads this
    {
      var existing := if duplicateHighlightMode == Allowed then [] else Matching(baseHighlights, hit);
      && (added <==> existing == [])
      && (added ==>
            && disposed == baseDisposed
            && wordHitList == baseWords + (if hasPrefab then [hit] else [])
            && |highlightList| == |baseHighlights| + (if hasPrefab then 1 else 0)
            && highlightList[..|baseHighlights|] == baseHighlights
            && highlighted == baseHighlighted + highlightList[|baseHighlights|..]
            && (hasPrefab ==> highlightList[|baseHighlights|].word == hit))
      && (!added && duplicateHighlightMode == Blocked ==>
            && wordHitList == baseWords && highlightList == baseHighlights
            && disposed == baseDisposed && highlighted == baseHighlighted)
      && (!added && duplicateHighlightMode == Remove ==>
            && highlightList == NotMatching(baseHighlights, hit)
            && wordHitList == RemoveEach(baseWords, WordsOf(existing))
            && disposed == baseDisposed + existing && highlighted == baseHighlighted)
    }

    /**
      `TryAddHighlight`: in single mode everything is disposed of first, so the call is never
      blocked or turned into a removal and always returns true; then the hit is added onto what is
      left as `AddOutcome` says, a highlight added being a new one.
    */
    method TryAddHighlight(hit: WordHit) returns (added: bool)
      requires Valid()
      modifies this
      ensures Valid() && Settings() == old(Settings())
      ensures old(highlightMode) == Single ==> added
      ensures old(duplicateHighlightMode) == Allowed ==> added
      ensures var cleared := old(highlightMode) == Single;
        AddOutcome(added, hit, if cleared then [] else old(highlightList), if cleared then [] else old(wordHitList),
                   old(disposed) + (if cleared then old(highlightList) else []), old(highlighted))
      ensures added && hasPrefab ==> fresh(highlightList[|highlightList| - 1])
    {
      ghost var cleared := highlightMode == Single;
      ghost var baseHighlights := if cleared then [] else highlightList;
      ghost var baseWords := if cleared then [] else wordHitList;
      ghost var baseDisposed := disposed + (if cleared then highlightList else []);
      if highlightMode == Single {
        DisposeAll();
      }
      assert highlightList == baseHighlights && wordHitList == baseWords && disposed == baseDisposed;
      added := AddUnlessDuplicated(hit);
      assert AddOutcome(added, hit, baseHighlights, baseWords, baseDisposed, old(highlighted));
    }

    /** The part of `TryAddHighlight` after the single-mode clearing. */
    method AddUnlessDuplicated(hit: WordHit) returns (added: bool)
      requires Valid()
      modifies this
      ensures Valid() && Settings() == old(Settings())
      ensures AddOutcome(added, hit, old(highlightList), old(wordHitList), old(disposed), old(highlighted))
      ensures added && hasPrefab ==> fresh(highlightList[|highlightList| - 1])
    {
      var existingHighlights := if duplicateHighlightMode == Allowed then [] else Matching(highlightList, hit);
      var isDuplicated := |existingHighlights| != 0;
      if duplicateHighlightMode == Blocked && isDuplicated {
        return false;
      }
      if duplicateHighlightMode == Remove && isDuplicated {
        MatchingFacts(highlightList, hit);
        RemoveAll(existingHighlights);
        return false;
      }
      var _ := AddHighlight(hit);
      added := true;
    }

    /**
      The removal loop of `TryAddHighlight`: each of the given listed highlights, none given twice,
      is removed in turn.
    */
    method RemoveAll(existing: seq<Highlight>)
      requires Valid() && NoDuplicates(existing)
      requires forall k :: 0 <= k < |existing| ==> existing[k] in highlightList
      modifies this
      ensures Valid() && Settings() == old(Settings()) && highlighted == old(highlighted)
      ensures highlightList == Drop(old(highlightList), existing)
      ensures wordHitList == RemoveEach(old(wordHitList), WordsOf(existing))
      ensures disposed == old(disposed) + existing
    {
      ghost var base := highlightList;
      DropNothing(base);
      for t := 0 to |existing|
        invariant Valid() && Settings() == old(Settings()) && highlighted == old(highlighted)
        invariant highlightList == Drop(base, existing[..t])
        invariant wordHitList == RemoveEach(old(wordHitList), WordsOf(existing[..t]))
        invariant disposed == old(disposed) + existing[..t]
      {
        RemovalStep(base, existing, t);
        RemoveEachStep(old(wordHitList), existing, t);
        NextPrefix(old(disposed), existing, t);
        RemoveHighlight(existing[t]);
      }
      assert existing[..|existing|] == existing;
    }
  }

  /**
    Removing a listed highlight from a duplicate-free list, and its word from a list holding the
    marked words, keeps the lists duplicate-free and in step.
  */
  lemma RemoveKeepsStep(hs: seq<Highlight>, words: seq<WordHit>, h: Highlight)
    requires NoDuplicates(hs) && multiset(words) == multiset(WordsOf(hs)) && h in hs
    ensures NoDuplicates(RemoveFirst(hs, h))
    ensures multiset(RemoveFirst(words, h.word)) == multiset(WordsOf(RemoveFirst(hs, h)))
  {
    RemoveFirstNoDuplicates(hs, h);
    WordsOfRemoveFirst(hs, h);
    var i := FirstIndex(hs, h);
    assert WordsOf(hs)[i] == h.word;
    assert h.word in multiset(WordsOf(hs));
  }

  /** Removing a listed highlight removes one occurrence of its word from the marked words. */
  lemma WordsOfRemoveFirst(hs: seq<Highlight>, h: Highlight)
    requires h in hs
    ensures multiset(WordsOf(RemoveFirst(hs, h))) == multiset(WordsOf(hs)) - multiset{h.word}
  {
    var i := FirstIndex(hs, h);
    var front, back := hs[..i], hs[i + 1..];
    assert RemoveFirst(hs, h) == front + back;
    assert hs == front + [h] + back;
    WordsOfAppend(front, back);
    WordsOfAppend(front + [h], back);
    WordsOfAppend(front, [h]);
  }

  /** The marked words of two lists of highlights, one after the other. */
  lemma WordsOfAppend(a: seq<Highlight>, b: seq<Highlight>)
    ensures WordsOf(a + b) == WordsOf(a) + WordsOf(b)
  {
    assert forall k :: 0 <= k < |a| + |b| ==> WordsOf(a + b)[k] == (WordsOf(a) + WordsOf(b))[k];
  }
}
