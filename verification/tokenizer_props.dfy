/**
  What the segmentation of `PhTokenizer` guarantees: the tokens partition the input, the token
  at a cursor has the shape its first character dictates, a dictionary word followed by a
  non-follower is never split, and the only exception comes from an open bracket.
*/
module TokenizerProperties {
  import opened Wrappers
  import opened Text
  import opened PhTokenizer

  // ---------------------------------------------------------------------------------------
  // The tokens partition the input
  // ---------------------------------------------------------------------------------------

  /** What a segmentation that went on from `tokens` guarantees about its result. */
  predicate CoversFrom(input: string, i: nat, tokens: seq<string>, r: Result<seq<string>, TokenizeError>)
    requires i <= |input|
  {
    r.Ok? ==>
      Concat(r.value) == Concat(tokens) + input[i..]
      && |tokens| <= |r.value| && r.value[..|tokens|] == tokens
      && forall k :: |tokens| <= k < |r.value| ==> r.value[k] != []
  }

  /** Emitting a non-empty token `t` of the input at `i` keeps the guarantee. */
  lemma CoversStep(input: string, i: nat, tokens: seq<string>, t: string, r: Result<seq<string>, TokenizeError>)
    requires 1 <= |t| && i + |t| <= |input| && t == input[i..i + |t|]
    requires CoversFrom(input, i + |t|, tokens + [t], r)
    ensures CoversFrom(input, i, tokens, r)
  {
    ConcatAppend(tokens, t);
    assert input[i..] == t + input[i + |t|..];
    if r.Ok? {
      assert r.value[..|tokens|] == r.value[..|tokens| + 1][..|tokens|];
    }
  }

  lemma {:induction false} SegmentFromCovers(nodes: seq<TrieNode>, input: string, rich: bool, i: nat, tokens: seq<string>)
    requires WellFormed(nodes) && i <= |input|
    ensures CoversFrom(input, i, tokens, SegmentFrom(nodes, input, rich, i, tokens))
    decreases |input| - i
  {
    if i < |input| {
      var next := NextToken(nodes, input, rich, i);
      if next.Ok? {
        var t := next.value;
        SegmentStep(nodes, input, rich, i, tokens, t);
        SegmentFromCovers(nodes, input, rich, i + |t|, tokens + [t]);
        CoversStep(input, i, tokens, t, SegmentFrom(nodes, input, rich, i + |t|, tokens + [t]));
      }
    } else {
      assert input[i..] == [];
    }
  }

  /** A successful segmentation cuts the input into non-empty tokens that concatenate back to it. */
  lemma SegmentIsPartition(nodes: seq<TrieNode>, input: string, rich: bool)
    requires WellFormed(nodes)
    ensures var r := Segment(nodes, input, rich);
      r.Ok? ==> Concat(r.value) == input && forall k :: 0 <= k < |r.value| ==> r.value[k] != []
  {
    SegmentFromCovers(nodes, input, rich, 0, []);
  }

  // ---------------------------------------------------------------------------------------
  // The token at a cursor, by its first character
  // ---------------------------------------------------------------------------------------

  /** `ๆ` or `ฯ` is a token of its own, together with a close bracket right after it. */
  lemma ThaiEndMarkToken(nodes: seq<TrieNode>, input: string, rich: bool, i: nat)
    requires WellFormed(nodes) && i < |input| && IsThaiEndCharacter(input[i])
    ensures NextToken(nodes, input, rich, i)
      == Ok(if i + 1 < |input| && IsCloseBracket(input[i + 1]) then input[i..i + 2] else input[i..i + 1])
  {
  }

  /**
    Latin letters, Thai and Arabic digits, spaces and the other characters that are never
    looked up are grouped into one maximal run.
  */
  lemma RunToken(nodes: seq<TrieNode>, input: string, rich: bool, i: nat)
    requires WellFormed(nodes) && i < |input|
    requires IsShouldNotTokenize(input[i]) && !IsCloseBracket(input[i]) && !IsThaiEndCharacter(input[i])
    ensures NextToken(nodes, input, rich, i) == Ok(input[i..RunEnd(input, i + 1)])
  {
  }

  /** With rich text on, a `<` starts a token that reaches to where its tag ends. */
  lemma TagToken(nodes: seq<TrieNode>, input: string, i: nat)
    requires WellFormed(nodes) && i < |input| && input[i] == '<'
    ensures NextToken(nodes, input, true, i) == Ok(input[i..TagEnd(input, i, i + 1)])
  {
  }

  /** The first `<` or `>` at or after `j`, or the end of the input. */
  function FirstAngle(input: string, j: nat): (r: nat)
    requires j <= |input|
    ensures j <= r <= |input|
    ensures forall m :: j <= m < r ==> input[m] != '<' && input[m] != '>'
    ensures r < |input| ==> input[r] == '<' || input[r] == '>'
    decreases |input| - j
  {
    if j == |input| || input[j] == '<' || input[j] == '>' then j else FirstAngle(input, j + 1)
  }

  /**
    A tag opened at `k` ends just past the first `>` when no `<` comes before it; a second `<`
    first makes the token the lone `<`; with neither, the tag swallows the rest of the input.
  */
  lemma {:induction false} TagEndByFirstAngle(input: string, k: nat, j: nat)
    requires k < j <= |input|
    ensures var f := FirstAngle(input, j);
      TagEnd(input, k, j) == (if f == |input| then |input| else if input[f] == '>' then f + 1 else k + 1)
    decreases |input| - j
  {
    if j < |input| && input[j] != '<' && input[j] != '>' {
      TagEndByFirstAngle(input, k, j + 1);
    }
  }

  // ---------------------------------------------------------------------------------------
  // Walking the trie along the input
  // ---------------------------------------------------------------------------------------

  /** A character the scan hands to the trie: none of the special classes applies to it. */
  predicate TrieChar(c: char, rich: bool) {
    !IsOpenBracket(c) && !IsShouldNotTokenize(c) && !(rich && c == '<')
  }

  /** The node reached from the root by following the letters `input[i..j]`, if every link exists. */
  function WalkAt(nodes: seq<TrieNode>, input: string, i: nat, j: nat): (r: Option<nat>)
    requires WellFormed(nodes) && i <= j <= |input|
    ensures r.Some? ==> r.value < |nodes|
    decreases j - i
  {
    if j == i then Some(0)
    else match WalkAt(nodes, input, i, j - 1)
      case None => None
      case Some(n) => if input[j - 1] in nodes[n].children then Some(nodes[n].children[input[j - 1]]) else None
  }

  /** Following the letters of the input one by one is walking the word they spell. */
  lemma {:induction false} WalkAtIsWalk(nodes: seq<TrieNode>, input: string, i: nat, j: nat)
    requires WellFormed(nodes) && i <= j <= |input|
    ensures WalkAt(nodes, input, i, j) == Walk(nodes, 0, input[i..j])
    decreases j - i
  {
    if j == i {
      assert input[i..j] == [];
    } else {
      WalkAtIsWalk(nodes, input, i, j - 1);
      assert input[i..j] == input[i..j - 1] + [input[j - 1]];
      WalkSnoc(nodes, 0, input[i..j - 1], input[j - 1]);
    }
  }

  /** A walk that gets through `input[i..j]` gets through every prefix of it. */
  lemma {:induction false} WalkAtPrefix(nodes: seq<TrieNode>, input: string, i: nat, k: nat, j: nat)
    requires WellFormed(nodes) && i <= k <= j <= |input| && WalkAt(nodes, input, i, j).Some?
    ensures WalkAt(nodes, input, i, k).Some?
    decreases j - k
  {
    if k < j {
      WalkAtPrefix(nodes, input, i, k, j - 1);
    }
  }

  /** A word of trie letters that sits in the input at `i`, seen letter by letter. */
  lemma PathInInput(nodes: seq<TrieNode>, input: string, rich: bool, i: nat, w: string)
    requires WellFormed(nodes) && i + |w| <= |input| && input[i..i + |w|] == w
    requires forall k :: 0 <= k < |w| ==> TrieChar(w[k], rich)
    ensures WalkAt(nodes, input, i, i + |w|) == Walk(nodes, 0, w)
    ensures forall m :: i <= m < i + |w| ==> TrieChar(input[m], rich)
  {
    WalkAtIsWalk(nodes, input, i, i + |w|);
    forall m | i <= m < i + |w|
      ensures TrieChar(input[m], rich)
    {
      assert input[m] == w[m - i];
    }
  }

  /** Where the letters of the token at `i` start: at `i`, or just past an open bracket at `i`. */
  predicate PathStart(input: string, i: nat, s: nat) {
    s == i || (s == i + 1 && i < |input| && IsOpenBracket(input[i]))
  }

  /**
    A dictionary word sits in the input at `p`, spelt with letters the scan hands to the trie,
    and no follower glyph comes right after it.
  */
  predicate IsWordAt(nodes: seq<TrieNode>, input: string, rich: bool, p: nat, w: string) {
    && WellFormed(nodes) && |w| >= 1 && p + |w| <= |input| && input[p..p + |w|] == w
    && (forall k :: 0 <= k < |w| ==> TrieChar(w[k], rich))
    && Accepts(nodes, w) && HasNoFollower(input, p + |w| - 1)
  }

  /** The walk along `input[s..m]` ends at the end of a word, and no follower glyph comes after it. */
  predicate Recordable(nodes: seq<TrieNode>, input: string, s: nat, m: nat) {
    && WellFormed(nodes) && s < m <= |input|
    && (var n := WalkAt(nodes, input, s, m); n.Some? && nodes[n.value].isEndOfWord && HasNoFollower(input, m - 1))
  }

  /** The match recorded up to `j` ends at the last recordable position, or there is none. */
  predicate BestSoFar(nodes: seq<TrieNode>, input: string, i: nat, s: nat, j: nat, longestMatch: Option<string>) {
    match longestMatch
    case None => forall m :: s < m <= j ==> !Recordable(nodes, input, s, m)
    case Some(t) =>
      && s < i + |t| <= j && Recordable(nodes, input, s, i + |t|)
      && forall m :: i + |t| < m <= j ==> !Recordable(nodes, input, s, m)
  }

  /**
    The scan of the token at `i` has followed the trie along `input[s..j]`; a pending open
    bracket at `i` counts once in the match length, and the match recorded so far is the
    longest one.
  */
  predicate OnPath(nodes: seq<TrieNode>, input: string, i: nat, s: nat, j: nat, st: ScanState) {
    && ScanInv(nodes, input, i, j, st) && PathStart(input, i, s) && s <= j
    && WalkAt(nodes, input, s, j) == Some(st.node)
    && st.matchLength + (if st.wasOpenBracket then 1 else 0) == j - i
    && (st.wasOpenBracket <==> s == i + 1 && st.longestMatch.None?)
    && (st.wasThaiCharacter <==> s < j)
    && BestSoFar(nodes, input, i, s, j, st.longestMatch)
  }

  /**
    Where the next letter is on the trie, the trie step keeps the scan on the path: at the end
    of a word with no follower glyph after it, the match becomes everything up to here, the
    pending bracket included.
  */
  lemma PathStep(nodes: seq<TrieNode>, input: string, i: nat, s: nat, j: nat, st: ScanState)
    requires OnPath(nodes, input, i, s, j, st) && j < |input| && WalkAt(nodes, input, s, j + 1).Some?
    ensures input[j] in nodes[st.node].children
    ensures OnPath(nodes, input, i, s, j + 1, TrieStep(nodes, input, i, j, st))
  {
    var next := TrieStep(nodes, input, i, j, st);
    assert WalkAt(nodes, input, s, j + 1) == Some(next.node);
    if next.longestMatch == st.longestMatch {
      assert !Recordable(nodes, input, s, j + 1);
    } else {
      assert Recordable(nodes, input, s, j + 1);
    }
  }

  /** On a letter the scan hands to the trie, the scan takes that trie step and goes on. */
  lemma PathAdvance(nodes: seq<TrieNode>, input: string, rich: bool, i: nat, s: nat, j: nat, st: ScanState)
    requires OnPath(nodes, input, i, s, j, st) && j < |input| && WalkAt(nodes, input, s, j + 1).Some?
    requires TrieChar(input[j], rich)
    ensures input[j] in nodes[st.node].children
    ensures ScanFrom(nodes, input, rich, i, j, st) == ScanFrom(nodes, input, rich, i, j + 1, TrieStep(nodes, input, i, j, st))
  {
    PathStep(nodes, input, i, s, j, st);
    assert ScanStep(nodes, input, rich, i, j, st) == Advance(TrieStep(nodes, input, i, j, st));
  }

  /** The scan state after following the trie from `j` to `k`. */
  function PathState(nodes: seq<TrieNode>, input: string, i: nat, s: nat, j: nat, st: ScanState, k: nat): (r: ScanState)
    requires OnPath(nodes, input, i, s, j, st) && j <= k <= |input| && WalkAt(nodes, input, s, k).Some?
    ensures OnPath(nodes, input, i, s, k, r)
    decreases k - j
  {
    if j == k then st
    else
      WalkAtPrefix(nodes, input, s, j + 1, k);
      PathStep(nodes, input, i, s, j, st);
      PathState(nodes, input, i, s, j + 1, TrieStep(nodes, input, i, j, st), k)
  }

  /** Along letters the scan hands to the trie, the scan from `k` ends as the scan from `j`. */
  lemma {:induction false} PathScan(nodes: seq<TrieNode>, input: string, rich: bool, i: nat, s: nat, j: nat, st: ScanState, k: nat)
    requires OnPath(nodes, input, i, s, j, st) && j <= k <= |input| && WalkAt(nodes, input, s, k).Some?
    requires forall m :: j <= m < k ==> TrieChar(input[m], rich)
    ensures ScanFrom(nodes, input, rich, i, j, st) == ScanFrom(nodes, input, rich, i, k, PathState(nodes, input, i, s, j, st, k))
    decreases k - j
  {
    if j < k {
      var next := PathStateStep(nodes, input, i, s, j, st, k);
      PathAdvance(nodes, input, rich, i, s, j, st);
      PathScan(nodes, input, rich, i, s, j + 1, next, k);
    }
  }

  /** One trie step of the path, as `PathState` takes it. */
  lemma PathStateStep(nodes: seq<TrieNode>, input: string, i: nat, s: nat, j: nat, st: ScanState, k: nat) returns (next: ScanState)
    requires OnPath(nodes, input, i, s, j, st) && j < k <= |input| && WalkAt(nodes, input, s, k).Some?
    ensures WalkAt(nodes, input, s, j + 1).Some? && next == TrieStep(nodes, input, i, j, st)
    ensures OnPath(nodes, input, i, s, j + 1, next)
    ensures PathState(nodes, input, i, s, j, st, k) == PathState(nodes, input, i, s, j + 1, next, k)
  {
    WalkAtPrefix(nodes, input, s, j + 1, k);
    PathStep(nodes, input, i, s, j, st);
    next := TrieStep(nodes, input, i, j, st);
  }

  /**
    The scan of the token at `i` follows the trie along `input[s..k]` when it hands every letter
    to the trie; an open bracket at `i` only leaves the bracket pending.
  */
  lemma ScanAlongPath(nodes: seq<TrieNode>, input: string, rich: bool, i: nat, s: nat, k: nat) returns (st: ScanState)
    requires WellFormed(nodes) && PathStart(input, i, s) && s <= k <= |input| && WalkAt(nodes, input, s, k).Some?
    requires forall m :: s <= m < k ==> TrieChar(input[m], rich)
    ensures OnPath(nodes, input, i, s, k, st)
    ensures ScanFrom(nodes, input, rich, i, i, StartState) == ScanFrom(nodes, input, rich, i, k, st)
  {
    var first := if s == i then StartState else StartState.(wasOpenBracket := true);
    if s == i + 1 {
      assert ScanStep(nodes, input, rich, i, i, StartState) == Advance(first);
    }
    assert OnPath(nodes, input, i, s, s, first);
    st := PathState(nodes, input, i, s, s, first, k);
    PathScan(nodes, input, rich, i, s, s, first, k);
  }

  // ---------------------------------------------------------------------------------------
  // Longest match
  // ---------------------------------------------------------------------------------------

  /** One step of a scan that has recorded a match of length `n` keeps a match at least that long. */
  lemma StepKeepsMatch(nodes: seq<TrieNode>, input: string, rich: bool, i: nat, j: nat, st: ScanState, n: nat)
    requires ScanInv(nodes, input, i, j, st) && j < |input| && st.wasThaiCharacter && i + n <= j
    requires st.longestMatch.Some? && |st.longestMatch.value| >= n
    ensures match ScanStep(nodes, input, rich, i, j, st)
      case Advance(next) => next.wasThaiCharacter && next.longestMatch.Some? && |next.longestMatch.value| >= n
      case Stop(e) => e.longestMatch.Some? && |e.longestMatch.value| >= n
  {
  }

  /** Once a match of length `n` is recorded past `n` letters, the scan ends with one at least as long. */
  lemma {:induction false} RecordedMatchKeeps(nodes: seq<TrieNode>, input: string, rich: bool, i: nat, j: nat, st: ScanState, n: nat)
    requires ScanInv(nodes, input, i, j, st) && st.wasThaiCharacter && i + n <= j
    requires st.longestMatch.Some? && |st.longestMatch.value| >= n
    ensures ScanFrom(nodes, input, rich, i, j, st).longestMatch.Some?
    ensures |ScanFrom(nodes, input, rich, i, j, st).longestMatch.value| >= n
    decreases |input| - j
  {
    if j < |input| {
      StepKeepsMatch(nodes, input, rich, i, j, st, n);
      match ScanStep(nodes, input, rich, i, j, st)
      case Advance(next) =>
        RecordedMatchKeeps(nodes, input, rich, i, j + 1, next, n);
      case Stop(e) =>
    }
  }

  /** The last letter of a word, not followed by a follower glyph, records the word. */
  lemma LastLetterRecordsWord(nodes: seq<TrieNode>, input: string, i: nat, k: nat, st: ScanState)
    requires i < k <= |input| && OnPath(nodes, input, i, i, k - 1, st) && WalkAt(nodes, input, i, k).Some?
    requires nodes[WalkAt(nodes, input, i, k).value].isEndOfWord && HasNoFollower(input, k - 1)
    ensures input[k - 1] in nodes[st.node].children
    ensures var next := TrieStep(nodes, input, i, k - 1, st);
      next.wasThaiCharacter && next.longestMatch.Some? && |next.longestMatch.value| == k - i
  {
    PathStep(nodes, input, i, i, k - 1, st);
  }

  /** Past the last letter of a word on the trie, the scan has recorded the word. */
  lemma WordPathEnd(nodes: seq<TrieNode>, input: string, rich: bool, i: nat, k: nat) returns (next: ScanState)
    requires WellFormed(nodes) && i < k <= |input| && WalkAt(nodes, input, i, k).Some?
    requires nodes[WalkAt(nodes, input, i, k).value].isEndOfWord && HasNoFollower(input, k - 1)
    requires forall m :: i <= m < k ==> TrieChar(input[m], rich)
    ensures ScanInv(nodes, input, i, k, next) && next.wasThaiCharacter
    ensures next.longestMatch.Some? && |next.longestMatch.value| == k - i
    ensures ScanFrom(nodes, input, rich, i, i, StartState) == ScanFrom(nodes, input, rich, i, k, next)
  {
    WalkAtPrefix(nodes, input, i, k - 1, k);
    var st := ScanAlongPath(nodes, input, rich, i, i, k - 1);
    LastLetterRecordsWord(nodes, input, i, k, st);
    PathAdvance(nodes, input, rich, i, i, k - 1, st);
    next := TrieStep(nodes, input, i, k - 1, st);
  }

  /** The scan of the token at the start of a word on the trie records a match at least as long. */
  lemma WordRecorded(nodes: seq<TrieNode>, input: string, rich: bool, i: nat, k: nat)
    requires WellFormed(nodes) && i < k <= |input| && WalkAt(nodes, input, i, k).Some?
    requires nodes[WalkAt(nodes, input, i, k).value].isEndOfWord && HasNoFollower(input, k - 1)
    requires forall m :: i <= m < k ==> TrieChar(input[m], rich)
    ensures ScanFrom(nodes, input, rich, i, i, StartState).longestMatch.Some?
    ensures |ScanFrom(nodes, input, rich, i, i, StartState).longestMatch.value| >= k - i
  {
    var next := WordPathEnd(nodes, input, rich, i, k);
    RecordedMatchKeeps(nodes, input, rich, i, k, next, k - i);
  }

  /** A recorded match is the token at `i`. */
  lemma MatchIsToken(nodes: seq<TrieNode>, input: string, rich: bool, i: nat)
    requires WellFormed(nodes) && i < |input|
    requires ScanFrom(nodes, input, rich, i, i, StartState).longestMatch.Some?
    ensures NextToken(nodes, input, rich, i) == Ok(ScanFrom(nodes, input, rich, i, i, StartState).longestMatch.value)
  {
  }

  /**
    Longest match: when a dictionary word of Thai letters starts at `i` and the character after
    it is not a follower glyph, the token at `i` is at least as long as the word.
  */
  lemma WordIsNeverSplit(nodes: seq<TrieNode>, input: string, rich: bool, i: nat, w: string)
    requires WellFormed(nodes) && |w| >= 1 && i + |w| <= |input| && input[i..i + |w|] == w
    requires forall k :: 0 <= k < |w| ==> TrieChar(w[k], rich)
    requires Accepts(nodes, w) && HasNoFollower(input, i + |w| - 1)
    ensures NextToken(nodes, input, rich, i).Ok?
    ensures |NextToken(nodes, input, rich, i).value| >= |w|
  {
    PathInInput(nodes, input, rich, i, w);
    WordRecorded(nodes, input, rich, i, i + |w|);
    MatchIsToken(nodes, input, rich, i);
  }

  /** The scan stops at `k`: the input ends there, or the letter there has no link from the node reached. */
  predicate StopsAt(nodes: seq<TrieNode>, input: string, rich: bool, s: nat, k: nat)
    requires WellFormed(nodes) && s <= k <= |input|
  {
    var n := WalkAt(nodes, input, s, k);
    n.Some? && (k == |input| || (TrieChar(input[k], rich) && input[k] !in nodes[n.value].children))
  }

  /** A word at `s` lies within the letters walked up to a stop at `k`, and its end is recordable. */
  lemma WordAtRecordable(nodes: seq<TrieNode>, input: string, rich: bool, s: nat, k: nat, w: string)
    requires WellFormed(nodes) && s <= k <= |input| && StopsAt(nodes, input, rich, s, k)
    requires IsWordAt(nodes, input, rich, s, w)
    ensures s + |w| <= k && Recordable(nodes, input, s, s + |w|)
  {
    PathInInput(nodes, input, rich, s, w);
    if s + |w| > k {
      WalkAtPrefix(nodes, input, s, k + 1, s + |w|);
    }
  }

  /** A scan that follows the trie along `input[s..k]` and stops at `k` ends with what it recorded on the way. */
  lemma ScanStopsOnPath(nodes: seq<TrieNode>, input: string, rich: bool, i: nat, s: nat, k: nat) returns (st: ScanState)
    requires WellFormed(nodes) && PathStart(input, i, s) && s <= k <= |input| && StopsAt(nodes, input, rich, s, k)
    requires forall m :: s <= m < k ==> TrieChar(input[m], rich)
    ensures OnPath(nodes, input, i, s, k, st)
    ensures ScanFrom(nodes, input, rich, i, i, StartState) == ScanEnd(st.longestMatch, st.wasOpenBracket)
  {
    st := ScanAlongPath(nodes, input, rich, i, s, k);
    if k < |input| {
      assert ScanStep(nodes, input, rich, i, k, st) == Stop(ScanEnd(st.longestMatch, st.wasOpenBracket));
    }
  }

  /** A match recorded on the path from `s` is the text before `s` and a dictionary word at `s`. */
  lemma RecordedIsWord(nodes: seq<TrieNode>, input: string, rich: bool, i: nat, s: nat, k: nat, st: ScanState)
    requires OnPath(nodes, input, i, s, k, st) && st.longestMatch.Some?
    requires forall m :: s <= m < k ==> TrieChar(input[m], rich)
    ensures var t := st.longestMatch.value;
      s - i < |t| && t[..s - i] == input[i..s] && IsWordAt(nodes, input, rich, s, t[s - i..])
  {
    var t := st.longestMatch.value;
    var w := t[s - i..];
    assert w == input[s..i + |t|];
    WalkAtIsWalk(nodes, input, s, i + |t|);
    forall m | 0 <= m < |w| ensures TrieChar(w[m], rich) {
      assert w[m] == input[s + m];
    }
  }

  /** Every dictionary word at `s` fits in the match recorded by a scan that stopped at `k`. */
  lemma WordWithinMatch(nodes: seq<TrieNode>, input: string, rich: bool, i: nat, s: nat, k: nat, st: ScanState, w: string)
    requires OnPath(nodes, input, i, s, k, st) && StopsAt(nodes, input, rich, s, k)
    requires IsWordAt(nodes, input, rich, s, w)
    ensures st.longestMatch.Some? && s - i + |w| <= |st.longestMatch.value|
  {
    WordAtRecordable(nodes, input, rich, s, k, w);
  }

  /**
    A scan that follows the trie along `input[s..k]` and stops at `k` ends with the pending
    bracket and the text up to the end of the longest dictionary word at `s`, or with no match.
  */
  lemma StopOnPath(nodes: seq<TrieNode>, input: string, rich: bool, i: nat, s: nat, k: nat) returns (e: ScanEnd)
    requires WellFormed(nodes) && PathStart(input, i, s) && s <= k <= |input| && StopsAt(nodes, input, rich, s, k)
    requires forall m :: s <= m < k ==> TrieChar(input[m], rich)
    ensures e == ScanFrom(nodes, input, rich, i, i, StartState)
    ensures e.longestMatch.Some? ==>
      && s - i < |e.longestMatch.value| && e.longestMatch.value[..s - i] == input[i..s]
      && IsWordAt(nodes, input, rich, s, e.longestMatch.value[s - i..])
    ensures forall w :: IsWordAt(nodes, input, rich, s, w) ==> e.longestMatch.Some? && s - i + |w| <= |e.longestMatch.value|
    ensures e.longestMatch.None? ==> (e.wasOpenBracket <==> s == i + 1)
  {
    var st := ScanStopsOnPath(nodes, input, rich, i, s, k);
    e := ScanEnd(st.longestMatch, st.wasOpenBracket);
    forall w | IsWordAt(nodes, input, rich, s, w)
      ensures e.longestMatch.Some? && s - i + |w| <= |e.longestMatch.value|
    {
      WordWithinMatch(nodes, input, rich, i, s, k, st, w);
    }
    if e.longestMatch.Some? {
      RecordedIsWord(nodes, input, rich, i, s, k, st);
    }
  }

  /** No dictionary word sits in the input at `p`. */
  ghost predicate NoWordAt(nodes: seq<TrieNode>, input: string, rich: bool, p: nat) {
    forall w :: !IsWordAt(nodes, input, rich, p, w)
  }

  /**
    Longest match, the converse: where the scan follows the trie from `i` until the input ends
    or a letter has no link, the token at `i` is the longest dictionary word at `i` with no
    follower glyph after it; when there is none, it is the no-match token.
  */
  lemma TokenIsLongestWord(nodes: seq<TrieNode>, input: string, rich: bool, i: nat, k: nat)
    requires WellFormed(nodes) && i < |input| && i <= k <= |input| && StopsAt(nodes, input, rich, i, k)
    requires forall m :: i <= m < k ==> TrieChar(input[m], rich)
    ensures var t := NextToken(nodes, input, rich, i);
      || (t.Ok? && IsWordAt(nodes, input, rich, i, t.value)
          && forall w :: IsWordAt(nodes, input, rich, i, w) ==> |w| <= |t.value|)
      || (t == Fallback(input, i, false) && NoWordAt(nodes, input, rich, i))
  {
    var e := StopOnPath(nodes, input, rich, i, i, k);
    if e.longestMatch.Some? {
      assert e.longestMatch.value[0..] == e.longestMatch.value;
    }
  }

  /**
    A pending open bracket is taken into the match once: where the scan follows the trie from
    just past an open bracket at `i` until the input ends or a letter has no link, the token is
    the bracket and the longest dictionary word after it; when there is none, it is the
    no-match token with the bracket pending.
  */
  lemma BracketJoinsLongestWord(nodes: seq<TrieNode>, input: string, rich: bool, i: nat, k: nat)
    requires WellFormed(nodes) && i < |input| && IsOpenBracket(input[i])
    requires i + 1 <= k <= |input| && StopsAt(nodes, input, rich, i + 1, k)
    requires forall m :: i + 1 <= m < k ==> TrieChar(input[m], rich)
    ensures var t := NextToken(nodes, input, rich, i);
      || (t.Ok? && |t.value| >= 2 && t.value[0] == input[i] && IsWordAt(nodes, input, rich, i + 1, t.value[1..])
          && forall w :: IsWordAt(nodes, input, rich, i + 1, w) ==> |w| + 1 <= |t.value|)
      || (t == Fallback(input, i, true) && NoWordAt(nodes, input, rich, i + 1))
  {
    var e := StopOnPath(nodes, input, rich, i, i + 1, k);
    if e.longestMatch.Some? {
      assert e.longestMatch.value[..1] == input[i..i + 1];
    }
  }

  // ---------------------------------------------------------------------------------------
  // What ends a run of trie letters
  // ---------------------------------------------------------------------------------------

  /** The end of the token when the scan meets a clause-end mark at `j`. */
  function ThaiEndTokenEnd(input: string, j: nat): nat
    requires j < |input|
  {
    if j + 1 < |input| && IsCloseBracket(input[j + 1]) then j + 2 else j + 1
  }

  /** A scan that meets `ๆ` or `ฯ` at `j` stops there, taking a close bracket right after it along. */
  lemma ScanMeetsThaiEnd(nodes: seq<TrieNode>, input: string, rich: bool, i: nat, j: nat, st: ScanState)
    requires ScanInv(nodes, input, i, j, st) && j < |input| && IsThaiEndCharacter(input[j])
    ensures ScanFrom(nodes, input, rich, i, j, st) == ScanEnd(Some(input[i..ThaiEndTokenEnd(input, j)]), st.wasOpenBracket)
  {
  }

  /** A scan that meets a close bracket at `j` stops there and takes it along, whatever it has matched. */
  lemma ScanMeetsCloseBracket(nodes: seq<TrieNode>, input: string, rich: bool, i: nat, j: nat, st: ScanState)
    requires ScanInv(nodes, input, i, j, st) && j < |input| && IsCloseBracket(input[j])
    ensures ScanFrom(nodes, input, rich, i, j, st) == ScanEnd(Some(input[i..j + 1]), st.wasOpenBracket)
  {
  }

  /** A scan past a Thai letter that meets a never-looked-up character stops just before it. */
  lemma ScanMeetsRun(nodes: seq<TrieNode>, input: string, rich: bool, i: nat, j: nat, st: ScanState)
    requires ScanInv(nodes, input, i, j, st) && j < |input| && st.wasThaiCharacter
    requires IsShouldNotTokenize(input[j]) && !IsCloseBracket(input[j]) && !IsThaiEndCharacter(input[j])
    ensures ScanFrom(nodes, input, rich, i, j, st) == ScanEnd(Some(input[i..j]), st.wasOpenBracket)
  {
  }

  /** With rich text on, a scan that meets a `<` at `j` takes the tag along and stops. */
  lemma ScanMeetsTag(nodes: seq<TrieNode>, input: string, i: nat, j: nat, st: ScanState)
    requires ScanInv(nodes, input, i, j, st) && j < |input| && input[j] == '<'
    ensures ScanFrom(nodes, input, true, i, j, st) == ScanEnd(Some(input[i..TagEnd(input, j, j + 1)]), st.wasOpenBracket)
  {
  }

  /**
    A close bracket ends the token it is met in and belongs to it: from the cursor, past an
    optional open bracket and trie letters, up to and including the close bracket, so `(word)`
    stays together and a close bracket at the cursor is a token of its own.
  */
  lemma CloseBracketEndsToken(nodes: seq<TrieNode>, input: string, rich: bool, i: nat, s: nat, k: nat)
    requires WellFormed(nodes) && PathStart(input, i, s) && s <= k < |input| && WalkAt(nodes, input, s, k).Some?
    requires forall m :: s <= m < k ==> TrieChar(input[m], rich)
    requires IsCloseBracket(input[k])
    ensures NextToken(nodes, input, rich, i) == Ok(input[i..k + 1])
  {
    var st := ScanAlongPath(nodes, input, rich, i, s, k);
    ScanMeetsCloseBracket(nodes, input, rich, i, k, st);
  }

  /** Trie letters, after an optional open bracket, up to a clause-end mark at `k` make one token with the mark. */
  lemma ThaiEndAfterLetters(nodes: seq<TrieNode>, input: string, rich: bool, i: nat, s: nat, k: nat)
    requires WellFormed(nodes) && PathStart(input, i, s) && s <= k < |input| && WalkAt(nodes, input, s, k).Some?
    requires forall m :: s <= m < k ==> TrieChar(input[m], rich)
    requires IsThaiEndCharacter(input[k])
    ensures NextToken(nodes, input, rich, i) == Ok(input[i..ThaiEndTokenEnd(input, k)])
  {
    var st := ScanAlongPath(nodes, input, rich, i, s, k);
    ScanMeetsThaiEnd(nodes, input, rich, i, k, st);
  }

  /**
    A trie path followed by `ๆ` or `ฯ` is one token with the mark (and a close bracket right
    after it): the repeated word is kept with its repetition mark.
  */
  lemma ThaiEndJoinsPath(nodes: seq<TrieNode>, input: string, rich: bool, i: nat, w: string)
    requires WellFormed(nodes) && i + |w| < |input| && input[i..i + |w|] == w
    requires forall k :: 0 <= k < |w| ==> TrieChar(w[k], rich)
    requires Walk(nodes, 0, w).Some? && IsThaiEndCharacter(input[i + |w|])
    ensures NextToken(nodes, input, rich, i) == Ok(input[i..ThaiEndTokenEnd(input, i + |w|)])
  {
    PathInInput(nodes, input, rich, i, w);
    ThaiEndAfterLetters(nodes, input, rich, i, i, i + |w|);
  }

  /**
    At least one trie letter, after an optional open bracket, up to a never-looked-up character
    at `k` is cut exactly there.
  */
  lemma RunAfterLetters(nodes: seq<TrieNode>, input: string, rich: bool, i: nat, s: nat, k: nat)
    requires WellFormed(nodes) && PathStart(input, i, s) && s < k < |input| && WalkAt(nodes, input, s, k).Some?
    requires forall m :: s <= m < k ==> TrieChar(input[m], rich)
    requires IsShouldNotTokenize(input[k]) && !IsCloseBracket(input[k]) && !IsThaiEndCharacter(input[k])
    ensures NextToken(nodes, input, rich, i) == Ok(input[i..k])
  {
    var st := ScanAlongPath(nodes, input, rich, i, s, k);
    ScanMeetsRun(nodes, input, rich, i, k, st);
  }

  /**
    Thai letters along a trie path, followed by a space, a Latin letter, a digit or another
    never-looked-up character, are cut exactly there, whether or not they form a word.
  */
  lemma PathCutBeforeRun(nodes: seq<TrieNode>, input: string, rich: bool, i: nat, w: string)
    requires WellFormed(nodes) && |w| >= 1 && i + |w| < |input| && input[i..i + |w|] == w
    requires forall k :: 0 <= k < |w| ==> TrieChar(w[k], rich)
    requires Walk(nodes, 0, w).Some? && IsShouldNotTokenize(input[i + |w|])
    requires !IsCloseBracket(input[i + |w|]) && !IsThaiEndCharacter(input[i + |w|])
    ensures NextToken(nodes, input, rich, i) == Ok(w)
  {
    PathInInput(nodes, input, rich, i, w);
    RunAfterLetters(nodes, input, rich, i, i, i + |w|);
  }

  /** With rich text on, trie letters, after an optional open bracket, up to a `<` at `k` make one token with the tag. */
  lemma TagAfterLetters(nodes: seq<TrieNode>, input: string, i: nat, s: nat, k: nat)
    requires WellFormed(nodes) && PathStart(input, i, s) && s <= k < |input| && WalkAt(nodes, input, s, k).Some?
    requires forall m :: s <= m < k ==> TrieChar(input[m], true)
    requires input[k] == '<'
    ensures NextToken(nodes, input, true, i) == Ok(input[i..TagEnd(input, k, k + 1)])
  {
    var st := ScanAlongPath(nodes, input, true, i, s, k);
    ScanMeetsTag(nodes, input, i, k, st);
  }

  /**
    With rich text on, Thai letters along a trie path directly before a `<` end up in the same
    token as the tag: the token always starts at the cursor.
  */
  lemma PathJoinsFollowingTag(nodes: seq<TrieNode>, input: string, i: nat, w: string)
    requires WellFormed(nodes) && i + |w| < |input| && input[i..i + |w|] == w
    requires forall k :: 0 <= k < |w| ==> TrieChar(w[k], true)
    requires Walk(nodes, 0, w).Some? && input[i + |w|] == '<'
    ensures NextToken(nodes, input, true, i) == Ok(input[i..TagEnd(input, i + |w|, i + |w| + 1)])
  {
    PathInInput(nodes, input, true, i, w);
    TagAfterLetters(nodes, input, i, i, i + |w|);
  }

  // ---------------------------------------------------------------------------------------
  // When the segmentation throws
  // ---------------------------------------------------------------------------------------

  lemma {:induction false} ScanWithoutBracket(nodes: seq<TrieNode>, input: string, rich: bool, i: nat, j: nat, st: ScanState)
    requires ScanInv(nodes, input, i, j, st) && !st.wasOpenBracket
    requires forall m :: j <= m < |input| ==> !IsOpenBracket(input[m])
    ensures !ScanFrom(nodes, input, rich, i, j, st).wasOpenBracket
    decreases |input| - j
  {
    if j < |input| {
      var step := ScanStep(nodes, input, rich, i, j, st);
      if step.Advance? {
        ScanWithoutBracket(nodes, input, rich, i, j + 1, step.next);
      }
    }
  }

  /** Without an open bracket from `i` on, the token at `i` is found. */
  lemma NoBracketTokenOk(nodes: seq<TrieNode>, input: string, rich: bool, i: nat)
    requires WellFormed(nodes) && i < |input|
    requires forall m :: i <= m < |input| ==> !IsOpenBracket(input[m])
    ensures NextToken(nodes, input, rich, i).Ok?
  {
    ScanWithoutBracket(nodes, input, rich, i, i, StartState);
    if !HasNoFollower(input, i) {
      var k := FollowerChainEnd(input, i + 1);
      assert i + (k - i + 1) <= |input|;
    }
  }

  lemma {:induction false} SegmentFromWithoutBracket(nodes: seq<TrieNode>, input: string, rich: bool, i: nat, tokens: seq<string>)
    requires WellFormed(nodes) && i <= |input|
    requires forall m :: 0 <= m < |input| ==> !IsOpenBracket(input[m])
    ensures SegmentFrom(nodes, input, rich, i, tokens).Ok?
    decreases |input| - i
  {
    if i < |input| {
      NoBracketTokenOk(nodes, input, rich, i);
      var next := NextToken(nodes, input, rich, i);
      SegmentStep(nodes, input, rich, i, tokens, next.value);
      SegmentFromWithoutBracket(nodes, input, rich, i + |next.value|, tokens + [next.value]);
    }
  }

  /** Without an open bracket in the input the segmentation never throws. */
  lemma NoOpenBracketNeverThrows(nodes: seq<TrieNode>, input: string, rich: bool)
    requires WellFormed(nodes)
    requires forall m :: 0 <= m < |input| ==> !IsOpenBracket(input[m])
    ensures Segment(nodes, input, rich).Ok?
  {
    SegmentFromWithoutBracket(nodes, input, rich, 0, []);
  }

  /**
    An open bracket directly followed by a follower glyph that ends the input, with no trie link
    from the root for it, makes the no-match branch ask for three characters of two: `Substring`
    throws.
  */
  lemma BracketBeforeFinalFollowerThrows(nodes: seq<TrieNode>, rich: bool, c: char)
    requires WellFormed(nodes) && IsFollowingThaiGlyph(c) && !IsShouldNotTokenize(c) && c != '<'
    requires c !in nodes[0].children
    ensures Segment(nodes, ['(', c], rich) == Err(ArgumentOutOfRange)
  {
    var input := ['(', c];
    assert ScanStep(nodes, input, rich, 0, 0, StartState) == Advance(StartState.(wasOpenBracket := true));
    assert ScanFrom(nodes, input, rich, 0, 0, StartState) == ScanEnd(None, true);
    assert FollowerChainEnd(input, 1) == 1;
    assert NextToken(nodes, input, rich, 0) == Fallback(input, 0, true) == Err(ArgumentOutOfRange);
    assert SegmentFrom(nodes, input, rich, 0, []) == Emit(nodes, input, rich, 0, [], Err(ArgumentOutOfRange));
  }

  // ---------------------------------------------------------------------------------------
  // Follower glyphs and the cuts between tokens
  // ---------------------------------------------------------------------------------------

  /**
    A token `t` that ends just before position `e` does not cut a follower glyph off the letter
    it belongs to: the character at `e` is not a follower glyph, or `t` ends in a never-looked-up
    character, or (with rich text on) in the `<` or `>` of a tag.
  */
  predicate FollowerSafeCut(input: string, rich: bool, t: string, e: nat) {
    && e >= 1 && |t| >= 1
    && (HasNoFollower(input, e - 1) || IsShouldNotTokenize(t[|t| - 1]) || (rich && (t[|t| - 1] == '<' || t[|t| - 1] == '>')))
  }

  /** The cut between two neighbouring tokens does not separate a follower glyph from its letter. */
  predicate KeepsFollower(rich: bool, t: string, u: string) {
    |t| >= 1 && |u| >= 1 ==>
      !IsFollowingThaiGlyph(u[0]) || IsShouldNotTokenize(t[|t| - 1]) || (rich && (t[|t| - 1] == '<' || t[|t| - 1] == '>'))
  }

  /** A tag opened at `k` ends at the end of the input, just past a `>`, or just past its `<`. */
  lemma {:induction false} TagEndLast(input: string, k: nat, j: nat)
    requires k < j <= |input|
    ensures var r := TagEnd(input, k, j); r == |input| || input[r - 1] == '>' || r == k + 1
    decreases |input| - j
  {
    if j < |input| && input[j] != '>' && input[j] != '<' {
      TagEndLast(input, k, j + 1);
    }
  }

  /** The cut at the end of a scan stopped by a run, a tag, a bracket or a clause-end mark. */
  lemma StopKeepsFollowers(nodes: seq<TrieNode>, input: string, rich: bool, i: nat, j: nat, st: ScanState)
    requires Aligned(nodes, input, i, j, st) && j < |input| && !IsOpenBracket(input[j])
    requires ScanStep(nodes, input, rich, i, j, st).Stop?
    ensures SafeEnd(input, rich, i, ScanStep(nodes, input, rich, i, j, st).result)
  {
    var c := input[j];
    var e := ScanStep(nodes, input, rich, i, j, st).result;
    if e.longestMatch.None? || e.longestMatch == st.longestMatch {
      return;
    }
    var t := e.longestMatch.value;
    if IsCloseBracket(c) || IsThaiEndCharacter(c) {
    } else if IsShouldNotTokenize(c) {
      if !st.wasThaiCharacter {
        var r := RunEnd(input, j + 1);
        assert t[|t| - 1] == input[r - 1];
      } else {
        assert input[i + |t|] == c;
      }
    } else if rich && c == '<' {
      TagEndLast(input, j, j + 1);
      var r := TagEnd(input, j, j + 1);
      if r == j + 1 {
        assert t[|t| - 1] == input[j];
      } else if r < |input| {
        assert t[|t| - 1] == input[r - 1];
      }
    }
  }

  /** The scan state has seen no open bracket and its match, if any, ends with no follower glyph after it. */
  predicate Aligned(nodes: seq<TrieNode>, input: string, i: nat, j: nat, st: ScanState) {
    && ScanInv(nodes, input, i, j, st) && !st.wasOpenBracket && st.matchLength == j - i
    && (st.longestMatch.Some? ==> HasNoFollower(input, i + |st.longestMatch.value| - 1))
  }

  /** The scan ended with no bracket pending and a token that does not cut a follower glyph off. */
  predicate SafeEnd(input: string, rich: bool, i: nat, e: ScanEnd) {
    !e.wasOpenBracket && (e.longestMatch.Some? ==> FollowerSafeCut(input, rich, e.longestMatch.value, i + |e.longestMatch.value|))
  }

  /** Without an open bracket, a step that goes on keeps the match length equal to the letters walked. */
  lemma AdvanceKeepsAlignment(nodes: seq<TrieNode>, input: string, rich: bool, i: nat, j: nat, st: ScanState)
    requires Aligned(nodes, input, i, j, st) && j < |input|
    requires !IsOpenBracket(input[j]) && ScanStep(nodes, input, rich, i, j, st).Advance?
    ensures Aligned(nodes, input, i, j + 1, ScanStep(nodes, input, rich, i, j, st).next)
  {
  }

  /**
    Without an open bracket, a scan keeps its match aligned with the letters it walked, so the
    token it ends with never cuts a follower glyph off its letter.
  */
  lemma {:induction false} ScanKeepsFollowers(nodes: seq<TrieNode>, input: string, rich: bool, i: nat, j: nat, st: ScanState)
    requires Aligned(nodes, input, i, j, st)
    requires forall m :: j <= m < |input| ==> !IsOpenBracket(input[m])
    ensures SafeEnd(input, rich, i, ScanFrom(nodes, input, rich, i, j, st))
    decreases |input| - j
  {
    if j < |input| {
      var step := ScanStep(nodes, input, rich, i, j, st);
      if step.Advance? {
        AdvanceKeepsAlignment(nodes, input, rich, i, j, st);
        ScanKeepsFollowers(nodes, input, rich, i, j + 1, step.next);
      } else {
        StopKeepsFollowers(nodes, input, rich, i, j, st);
      }
    }
  }

  /** Without an open bracket from `i` on, the token at `i` is found and does not cut a follower glyph off. */
  lemma TokenKeepsFollowers(nodes: seq<TrieNode>, input: string, rich: bool, i: nat)
    requires WellFormed(nodes) && i < |input|
    requires forall m :: i <= m < |input| ==> !IsOpenBracket(input[m])
    ensures var t := NextToken(nodes, input, rich, i);
      t.Ok? && FollowerSafeCut(input, rich, t.value, i + |t.value|)
  {
    ScanKeepsFollowers(nodes, input, rich, i, i, StartState);
    NoBracketTokenOk(nodes, input, rich, i);
  }

  /** A safe cut before the token that starts at `i` keeps its follower glyph with the letter before it. */
  lemma CutKeepsFollower(input: string, rich: bool, last: string, t: string, i: nat)
    requires FollowerSafeCut(input, rich, last, i)
    requires 1 <= |t| && i + |t| <= |input| && t == input[i..i + |t|]
    ensures KeepsFollower(rich, last, t)
  {
    assert t[0] == input[i];
  }

  lemma AppendKeeps(rich: bool, tokens: seq<string>, t: string)
    requires forall k :: 0 <= k < |tokens| - 1 ==> KeepsFollower(rich, tokens[k], tokens[k + 1])
    requires |tokens| > 0 ==> KeepsFollower(rich, tokens[|tokens| - 1], t)
    ensures var more := tokens + [t]; forall k :: 0 <= k < |more| - 1 ==> KeepsFollower(rich, more[k], more[k + 1])
  {
  }

  lemma {:induction false} SegmentFromKeeps(nodes: seq<TrieNode>, input: string, rich: bool, i: nat, tokens: seq<string>)
    requires WellFormed(nodes) && i <= |input|
    requires forall m :: 0 <= m < |input| ==> !IsOpenBracket(input[m])
    requires |tokens| > 0 ==> FollowerSafeCut(input, rich, tokens[|tokens| - 1], i)
    requires forall k :: 0 <= k < |tokens| - 1 ==> KeepsFollower(rich, tokens[k], tokens[k + 1])
    ensures SegmentFrom(nodes, input, rich, i, tokens).Ok?
    ensures var r := SegmentFrom(nodes, input, rich, i, tokens).value;
      forall k :: 0 <= k < |r| - 1 ==> KeepsFollower(rich, r[k], r[k + 1])
    decreases |input| - i
  {
    if i < |input| {
      TokenKeepsFollowers(nodes, input, rich, i);
      var t := NextToken(nodes, input, rich, i).value;
      SegmentStep(nodes, input, rich, i, tokens, t);
      if |tokens| > 0 {
        CutKeepsFollower(input, rich, tokens[|tokens| - 1], t, i);
      }
      AppendKeeps(rich, tokens, t);
      var more := tokens + [t];
      assert more[|more| - 1] == t;
      SegmentFromKeeps(nodes, input, rich, i + |t|, more);
    }
  }

  /**
    Without an open bracket in the input, no cut between two tokens separates a follower glyph
    from the letter before it, except after a never-looked-up character or a tag.
  */
  lemma SegmentKeepsFollowers(nodes: seq<TrieNode>, input: string, rich: bool)
    requires WellFormed(nodes)
    requires forall m :: 0 <= m < |input| ==> !IsOpenBracket(input[m])
    ensures Segment(nodes, input, rich).Ok?
    ensures var r := Segment(nodes, input, rich).value;
      forall k :: 0 <= k < |r| - 1 ==> KeepsFollower(rich, r[k], r[k + 1])
  {
    SegmentFromKeeps(nodes, input, rich, 0, []);
  }

  /**
    After an open bracket the no-match token is two characters long whatever follows, so a
    follower glyph after the letter is cut off into a token of its own: `(กา` with an empty
    dictionary gives `(ก` and `า`.
  */
  lemma BracketSplitsFollower(rich: bool)
    ensures var r := Segment([TrieNode(map[], false)], ['(', '\U{0E01}', '\U{0E32}'], rich);
      r == Ok([['(', '\U{0E01}'], ['\U{0E32}']]) && !KeepsFollower(rich, r.value[0], r.value[1])
  {
    var nodes := [TrieNode(map[], false)];
    var input := ['(', '\U{0E01}', '\U{0E32}'];
    assert ScanStep(nodes, input, rich, 0, 0, StartState) == Advance(StartState.(wasOpenBracket := true));
    assert ScanFrom(nodes, input, rich, 0, 1, StartState.(wasOpenBracket := true)) == ScanEnd(None, true);
    assert NextToken(nodes, input, rich, 0) == Ok(input[0..2]);
    SegmentStep(nodes, input, rich, 0, [], input[0..2]);
    assert [] + [input[0..2]] == [input[0..2]];
    assert ScanFrom(nodes, input, rich, 2, 2, StartState) == ScanEnd(None, false);
    assert NextToken(nodes, input, rich, 2) == Ok(input[2..3]);
    SegmentStep(nodes, input, rich, 2, [input[0..2]], input[2..3]);
    assert [input[0..2]] + [input[2..3]] == [input[0..2], input[2..3]];
    assert input[0..2] == ['(', '\U{0E01}'] && input[2..3] == ['\U{0E32}'];
    assert SegmentFrom(nodes, input, rich, 3, [input[0..2], input[2..3]]) == Ok([input[0..2], input[2..3]]);
    assert Segment(nodes, input, rich) == Ok([['(', '\U{0E01}'], ['\U{0E32}']]);
    assert !IsShouldNotTokenize('\U{0E01}') && IsFollowingThaiGlyph('\U{0E32}');
    assert !KeepsFollower(rich, ['(', '\U{0E01}'], ['\U{0E32}']);
  }

  // ---------------------------------------------------------------------------------------
  // The empty word
  // ---------------------------------------------------------------------------------------

  /** The arena with the root's end-of-word flag set to `b`, which is what adding the empty word does. */
  function WithRootFlag(nodes: seq<TrieNode>, b: bool): (r: seq<TrieNode>)
    requires WellFormed(nodes)
    ensures WellFormed(r) && |r| == |nodes|
    ensures forall k :: 0 <= k < |r| ==> r[k].children == nodes[k].children
    ensures forall k :: 1 <= k < |r| ==> r[k] == nodes[k]
    ensures Accepts(r, []) == b
  {
    nodes[0 := nodes[0].(isEndOfWord := b)]
  }

  /** No link of the trie leads back to the root, whose path is the only empty one. */
  lemma NoLinkToRoot(nodes: seq<TrieNode>, paths: seq<string>, k: nat, c: char)
    requires TrieInv(nodes, paths) && k < |nodes| && c in nodes[k].children
    ensures nodes[k].children[c] != 0
  {
    assert paths[nodes[k].children[c]] == paths[k] + [c];
  }

  /** One step of the scan never reads the root's end-of-word flag. */
  lemma RootFlagStep(nodes: seq<TrieNode>, paths: seq<string>, b: bool, input: string, rich: bool, i: nat, j: nat, st: ScanState)
    requires TrieInv(nodes, paths) && ScanInv(nodes, input, i, j, st) && j < |input|
    ensures ScanStep(WithRootFlag(nodes, b), input, rich, i, j, st) == ScanStep(nodes, input, rich, i, j, st)
  {
    if input[j] in nodes[st.node].children {
      NoLinkToRoot(nodes, paths, st.node, input[j]);
    }
  }

  lemma {:induction false} RootFlagScan(nodes: seq<TrieNode>, paths: seq<string>, b: bool, input: string, rich: bool,
                                        i: nat, j: nat, st: ScanState)
    requires TrieInv(nodes, paths) && ScanInv(nodes, input, i, j, st)
    ensures ScanFrom(WithRootFlag(nodes, b), input, rich, i, j, st) == ScanFrom(nodes, input, rich, i, j, st)
    decreases |input| - j
  {
    if j < |input| {
      RootFlagStep(nodes, paths, b, input, rich, i, j, st);
      var r := ScanStep(nodes, input, rich, i, j, st);
      if r.Advance? {
        RootFlagScan(nodes, paths, b, input, rich, i, j + 1, r.next);
      }
    }
  }

  lemma RootFlagToken(nodes: seq<TrieNode>, paths: seq<string>, b: bool, input: string, rich: bool, i: nat)
    requires TrieInv(nodes, paths) && i < |input|
    ensures NextToken(WithRootFlag(nodes, b), input, rich, i) == NextToken(nodes, input, rich, i)
  {
    RootFlagScan(nodes, paths, b, input, rich, i, i, StartState);
  }

  lemma {:induction false} RootFlagSegmentFrom(nodes: seq<TrieNode>, paths: seq<string>, b: bool, input: string, rich: bool,
                                               i: nat, tokens: seq<string>)
    requires TrieInv(nodes, paths) && i <= |input|
    ensures SegmentFrom(WithRootFlag(nodes, b), input, rich, i, tokens) == SegmentFrom(nodes, input, rich, i, tokens)
    decreases |input| - i
  {
    if i < |input| {
      var marked := WithRootFlag(nodes, b);
      RootFlagToken(nodes, paths, b, input, rich, i);
      var t := NextToken(nodes, input, rich, i);
      if t.Ok? {
        SegmentStep(nodes, input, rich, i, tokens, t.value);
        SegmentStep(marked, input, rich, i, tokens, t.value);
        RootFlagSegmentFrom(nodes, paths, b, input, rich, i + |t.value|, tokens + [t.value]);
      } else {
        assert SegmentFrom(marked, input, rich, i, tokens) == Emit(marked, input, rich, i, tokens, t);
        assert SegmentFrom(nodes, input, rich, i, tokens) == Emit(nodes, input, rich, i, tokens, t);
      }
    }
  }

  /**
    Whether the empty word is in the dictionary (a blank line of the dictionary file adds it)
    makes no difference to the segmentation: it only marks the root, and the scan never asks
    whether the root ends a word.
  */
  lemma EmptyWordIgnored(nodes: seq<TrieNode>, paths: seq<string>, b: bool, input: string, rich: bool)
    requires TrieInv(nodes, paths)
    ensures Segment(WithRootFlag(nodes, b), input, rich) == Segment(nodes, input, rich)
  {
    RootFlagSegmentFrom(nodes, paths, b, input, rich, 0, []);
  }
}
