/**
  The dictionary trie and the longest-match Thai word segmenter of `PhTokenizer`.

  The trie is kept as an arena: `nodes[0]` is the root and a child link is the index of the
  child node, standing in for the object reference of the original `Dictionary<char, TrieNode>`.
  `Tokenize` is a method with the original's nested loops; it is proved equal to the functional
  specification `Segment`, built from `ScanFrom` (the inner `for` loop), `Fallback` (the
  no-match branch) and `SegmentFrom` (the outer `while` loop).
*/
module PhTokenizer {
  import opened Wrappers
  import opened Text

  // ---------------------------------------------------------------------------------------
  // Character classes
  // ---------------------------------------------------------------------------------------

  /** THAI CHARACTER MAIYAMOK, the repetition mark. */
  const MaiYamok: char := '\U{0E46}'
  /** THAI CHARACTER PAIYANNOI, the abbreviation mark. */
  const PaiyanNoi: char := '\U{0E2F}'
  /** THAI CHARACTER LAKKHANGYAO. */
  const LakkhangYao: char := '\U{0E45}'

  predicate IsOpenBracket(c: char) {
    c == '(' || c == '{' || c == '['
  }

  predicate IsCloseBracket(c: char) {
    c == ')' || c == '}' || c == ']'
  }

  /** The clause-end glyphs that always end the current token. */
  predicate IsThaiEndCharacter(c: char) {
    c == MaiYamok || c == PaiyanNoi
  }

  /** Following vowels, tone marks and signs that must stay with the character before them. */
  predicate IsFollowingThaiGlyph(c: char) {
    ('\U{0E30}' <= c <= '\U{0E39}')
    || c == '\U{0E4C}' || c == '\U{0E47}' || c == '\U{0E48}' || c == '\U{0E49}' || c == '\U{0E4A}' || c == '\U{0E4B}'
    || c == MaiYamok || c == PaiyanNoi || c == LakkhangYao
  }

  /** Characters that are never looked up in the dictionary but grouped into runs. */
  predicate IsShouldNotTokenize(c: char) {
    ('A' <= c <= 'Z') || ('a' <= c <= 'z')
    || ('\U{0E50}' <= c <= '\U{0E59}') || ('0' <= c <= '9')
    || c == '~' || c == MaiYamok || c == PaiyanNoi || c == '\U{201C}' || c == '\U{201D}' || c == ',' || c == '.'
    || c == ' ' || c == '\n' || c == '\r' || c == '\t' || c == '\\'
    || IsCloseBracket(c)
  }

  /** True at the last index, or when the next character is not a follower glyph. */
  predicate HasNoFollower(input: string, currentIndex: nat) {
    currentIndex >= |input| - 1 || !IsFollowingThaiGlyph(input[currentIndex + 1])
  }

  // ---------------------------------------------------------------------------------------
  // The trie
  // ---------------------------------------------------------------------------------------

  datatype TrieNode = TrieNode(children: map<char, nat>, isEndOfWord: bool)

  /** There is a root, and every child link points into the arena. */
  predicate WellFormed(nodes: seq<TrieNode>) {
    |nodes| > 0
    && forall k, c :: 0 <= k < |nodes| && c in nodes[k].children ==> nodes[k].children[c] < |nodes|
  }

  /** The node reached from `n` by following the letters of `w`, if every link exists. */
  function Walk(nodes: seq<TrieNode>, n: nat, w: string): (r: Option<nat>)
    requires WellFormed(nodes) && n < |nodes|
    ensures r.Some? ==> r.value < |nodes|
    decreases |w|
  {
    if w == [] then Some(n)
    else if w[0] in nodes[n].children then Walk(nodes, nodes[n].children[w[0]], w[1..])
    else None
  }

  /** `w` is a root path that ends at a node marked as the end of a word. */
  predicate Accepts(nodes: seq<TrieNode>, w: string)
    requires WellFormed(nodes)
  {
    var e := Walk(nodes, 0, w);
    e.Some? && nodes[e.value].isEndOfWord
  }

  /**
    Every link of `before` is still in `after` with the same target, before nodes keep their
    end-of-word flag, and the nodes added after them are not ends of words.
  */
  ghost predicate Extends(before: seq<TrieNode>, after: seq<TrieNode>) {
    |before| <= |after|
    && (forall k, c :: 0 <= k < |before| && c in before[k].children ==> c in after[k].children && after[k].children[c] == before[k].children[c])
    && (forall k :: 0 <= k < |before| ==> after[k].isEndOfWord == before[k].isEndOfWord)
    && (forall k :: |before| <= k < |after| ==> !after[k].isEndOfWord)
  }

  /** Each node's ghost path is its parent's path plus the letter of the link. */
  ghost predicate PathsFollowLinks(nodes: seq<TrieNode>, paths: seq<string>) {
    |paths| == |nodes|
    && forall k, c :: 0 <= k < |nodes| && c in nodes[k].children && nodes[k].children[c] < |nodes| ==>
         paths[nodes[k].children[c]] == paths[k] + [c]
  }

  lemma {:induction false} WalkPath(nodes: seq<TrieNode>, paths: seq<string>, n: nat, w: string)
    requires WellFormed(nodes) && n < |nodes| && PathsFollowLinks(nodes, paths)
    requires Walk(nodes, n, w).Some?
    ensures paths[Walk(nodes, n, w).value] == paths[n] + w
    decreases |w|
  {
    if w != [] {
      var child := nodes[n].children[w[0]];
      WalkPath(nodes, paths, child, w[1..]);
      assert paths[child] == paths[n] + [w[0]];
      assert w == [w[0]] + w[1..];
    }
  }

  lemma {:induction false} WalkExtends(before: seq<TrieNode>, after: seq<TrieNode>, n: nat, w: string)
    requires WellFormed(before) && WellFormed(after) && Extends(before, after) && n < |before|
    requires Walk(before, n, w).Some?
    ensures Walk(after, n, w) == Walk(before, n, w)
    decreases |w|
  {
    if w != [] {
      WalkExtends(before, after, before[n].children[w[0]], w[1..]);
    }
  }

  lemma {:induction false} WalkSnoc(nodes: seq<TrieNode>, n: nat, w: string, c: char)
    requires WellFormed(nodes) && n < |nodes|
    ensures Walk(nodes, n, w + [c]) ==
      match Walk(nodes, n, w)
      case None => None
      case Some(m) => if c in nodes[m].children then Some(nodes[m].children[c]) else None
    decreases |w|
  {
    if w == [] {
      assert w + [c] == [c];
    } else {
      assert (w + [c])[0] == w[0] && (w + [c])[1..] == w[1..] + [c];
      if w[0] in nodes[n].children {
        WalkSnoc(nodes, nodes[n].children[w[0]], w[1..], c);
      }
    }
  }

  lemma {:induction false} WalkPrefix(nodes: seq<TrieNode>, n: nat, w: string, t: nat)
    requires WellFormed(nodes) && n < |nodes| && t <= |w|
    requires Walk(nodes, n, w).Some?
    ensures Walk(nodes, n, w[..t]).Some?
    decreases |w|
  {
    if t > 0 {
      assert w[..t][0] == w[0] && w[..t][1..] == w[1..][..t - 1];
      WalkPrefix(nodes, nodes[n].children[w[0]], w[1..], t - 1);
    }
  }

  /** The invariant of the trie together with the ghost path of every node. */
  ghost predicate TrieInv(nodes: seq<TrieNode>, paths: seq<string>) {
    WellFormed(nodes) && PathsFollowLinks(nodes, paths) && paths[0] == []
    && forall k :: 0 <= k < |nodes| ==> Walk(nodes, 0, paths[k]) == Some(k)
  }

  /** The arena after adding a fresh node as the `letter` child of node `n`. */
  function WithChild(nodes: seq<TrieNode>, n: nat, letter: char): (r: seq<TrieNode>)
    requires n < |nodes|
    ensures |r| == |nodes| + 1 && letter in r[n].children && r[n].children[letter] == |nodes|
  {
    nodes[n := nodes[n].(children := nodes[n].children[letter := |nodes|])] + [TrieNode(map[], false)]
  }

  lemma ExtendsTransitive(a: seq<TrieNode>, b: seq<TrieNode>, c: seq<TrieNode>)
    requires Extends(a, b) && Extends(b, c)
    ensures Extends(a, c)
  {
  }

  /** Adding a missing child keeps the invariant and only extends the trie. */
  lemma GrowKeepsInv(nodes: seq<TrieNode>, paths: seq<string>, n: nat, letter: char)
    requires TrieInv(nodes, paths) && n < |nodes| && letter !in nodes[n].children
    ensures TrieInv(WithChild(nodes, n, letter), paths + [paths[n] + [letter]])
    ensures Extends(nodes, WithChild(nodes, n, letter))
    ensures (paths + [paths[n] + [letter]])[..|nodes|] == paths
  {
    var grown, grownPaths := WithChild(nodes, n, letter), paths + [paths[n] + [letter]];
    assert Extends(nodes, grown);
    assert WellFormed(grown);
    assert PathsFollowLinks(grown, grownPaths);
    forall k | 0 <= k < |grown| ensures Walk(grown, 0, grownPaths[k]) == Some(k) {
      if k < |nodes| {
        WalkExtends(nodes, grown, 0, paths[k]);
      } else {
        WalkExtends(nodes, grown, 0, paths[n]);
        WalkSnoc(grown, 0, paths[n], letter);
      }
    }
  }

  /** When the walk along `word[..t]` ends at `n` and the next letter has no link, `word` is rejected. */
  lemma MissingLinkRejects(nodes: seq<TrieNode>, paths: seq<string>, n: nat, word: string, t: nat)
    requires TrieInv(nodes, paths) && n < |nodes| && t < |word| && paths[n] == word[..t]
    requires word[t] !in nodes[n].children
    ensures Walk(nodes, 0, word).None?
  {
    if Walk(nodes, 0, word).Some? {
      WalkPrefix(nodes, 0, word, t + 1);
      assert word[..t + 1] == word[..t] + [word[t]];
      WalkSnoc(nodes, 0, word[..t], word[t]);
    }
  }

  /** The walks of two arenas with the same links agree. */
  lemma {:induction false} SameLinksWalk(a: seq<TrieNode>, b: seq<TrieNode>, n: nat, w: string)
    requires WellFormed(a) && WellFormed(b) && |a| == |b| && n < |a|
    requires forall k :: 0 <= k < |a| ==> a[k].children == b[k].children
    ensures Walk(a, n, w) == Walk(b, n, w)
    decreases |w|
  {
    if w != [] && w[0] in a[n].children {
      SameLinksWalk(a, b, a[n].children[w[0]], w[1..]);
    }
  }

  /** Marking the node reached by `word` adds exactly `word` to the words of the original trie. */
  lemma MarkEndLanguage(before: seq<TrieNode>, beforePaths: seq<string>, walked: seq<TrieNode>, paths: seq<string>,
                        n: nat, word: string)
    requires TrieInv(before, beforePaths) && TrieInv(walked, paths) && Extends(before, walked)
    requires beforePaths == paths[..|before|] && n < |walked| && paths[n] == word
    requires Accepts(before, word) ==> walked == before
    ensures TrieInv(walked[n := walked[n].(isEndOfWord := true)], paths)
    ensures forall w :: Accepts(walked[n := walked[n].(isEndOfWord := true)], w) <==> Accepts(before, w) || w == word
    ensures Accepts(before, word) ==> walked[n := walked[n].(isEndOfWord := true)] == before
  {
    var marked := walked[n := walked[n].(isEndOfWord := true)];
    forall w ensures Walk(marked, 0, w) == Walk(walked, 0, w) {
      SameLinksWalk(marked, walked, 0, w);
    }
    assert PathsFollowLinks(marked, paths);
    forall w ensures Accepts(marked, w) <==> Accepts(before, w) || w == word {
      if Accepts(before, w) {
        WalkExtends(before, walked, 0, w);
        var e := Walk(before, 0, w).value;
        assert marked[e].isEndOfWord;
      }
      if w == word {
        assert Walk(walked, 0, paths[n]) == Some(n);
      }
      if Accepts(marked, w) {
        var e := Walk(marked, 0, w).value;
        WalkPath(marked, paths, 0, w);
        assert paths[e] == w;
        if e != n {
          assert walked[e].isEndOfWord;
          assert e < |before|;
          assert beforePaths[e] == w;
          assert Walk(before, 0, beforePaths[e]) == Some(e);
        }
      }
    }
    if Accepts(before, word) {
      assert Walk(before, 0, word) == Some(n);
    }
  }

  // ---------------------------------------------------------------------------------------
  // The scan at one cursor position (the inner `for` loop of Tokenize)
  // ---------------------------------------------------------------------------------------

  datatype TokenizeError = ArgumentOutOfRange

  /** The locals of one scan: trie position, pending length, flags, and the recorded match. */
  datatype ScanState = ScanState(
    node: nat, matchLength: nat, wasOpenBracket: bool, wasThaiCharacter: bool, longestMatch: Option<string>)

  /** What the scan leaves behind when it stops: the recorded token, if any, and the bracket flag. */
  datatype ScanEnd = ScanEnd(longestMatch: Option<string>, wasOpenBracket: bool)

  const StartState := ScanState(0, 0, false, false, None)

  /** The facts the scan keeps: a recorded match is a non-empty piece of the input starting at `i`. */
  predicate ScanInv(nodes: seq<TrieNode>, input: string, i: nat, j: nat, st: ScanState) {
    WellFormed(nodes) && st.node < |nodes| && i <= j <= |input|
    && st.matchLength + (if st.wasOpenBracket then 1 else 0) <= j - i
    && (st.wasThaiCharacter ==> i < j)
    && (st.longestMatch.Some? ==>
          1 <= |st.longestMatch.value| <= st.matchLength && st.longestMatch.value == input[i..i + |st.longestMatch.value|])
  }

  /** The end of the run of non-tokenizable characters starting at `j`. */
  function RunEnd(input: string, j: nat): (r: nat)
    requires j <= |input|
    ensures j <= r <= |input|
    ensures forall m :: j <= m < r ==> IsShouldNotTokenize(input[m])
    ensures r == |input| || !IsShouldNotTokenize(input[r])
    decreases |input| - j
  {
    if j < |input| && IsShouldNotTokenize(input[j]) then RunEnd(input, j + 1) else j
  }

  /**
    Where a rich-text tag opened by the `<` at `k` ends, scanning from `j`: just past the first
    `>`, or just past `k` when another `<` comes first, or the end of the input.
  */
  function TagEnd(input: string, k: nat, j: nat): (r: nat)
    requires k < j <= |input|
    ensures k < r <= |input|
    decreases |input| - j
  {
    if j >= |input| then |input|
    else if input[j] == '>' then j + 1
    else if input[j] == '<' then k + 1
    else TagEnd(input, k, j + 1)
  }

  /** One successful trie step on `input[j]`, recording a match when the word may end here. */
  function TrieStep(nodes: seq<TrieNode>, input: string, i: nat, j: nat, st: ScanState): (r: ScanState)
    requires ScanInv(nodes, input, i, j, st) && j < |input| && input[j] in nodes[st.node].children
    ensures ScanInv(nodes, input, i, j + 1, r)
  {
    var child := nodes[st.node].children[input[j]];
    var ml := st.matchLength + 1;
    if nodes[child].isEndOfWord && HasNoFollower(input, j) then
      var recorded := if st.wasOpenBracket then ml + 1 else ml;
      ScanState(child, recorded, false, true, Some(input[i..i + recorded]))
    else
      ScanState(child, ml, st.wasOpenBracket, true, st.longestMatch)
  }

  /** The outcome of looking at one character: move on with new locals, or stop the scan. */
  datatype ScanStepResult = Advance(next: ScanState) | Stop(result: ScanEnd)

  /** The body of the inner loop at position `j`. */
  function ScanStep(nodes: seq<TrieNode>, input: string, rich: bool, i: nat, j: nat, st: ScanState): (r: ScanStepResult)
    requires ScanInv(nodes, input, i, j, st) && j < |input|
    ensures r.Advance? ==> ScanInv(nodes, input, i, j + 1, r.next)
    ensures r.Stop? && r.result.longestMatch.Some? ==>
      1 <= |r.result.longestMatch.value| <= |input| - i && r.result.longestMatch.value == input[i..i + |r.result.longestMatch.value|]
  {
    var c := input[j];
    if IsOpenBracket(c) then
      Advance(st.(wasOpenBracket := true))
    else if IsCloseBracket(c) || IsThaiEndCharacter(c) then
      var last := if IsThaiEndCharacter(c) && j < |input| - 1 && IsCloseBracket(input[j + 1]) then j + 1 else j;
      Stop(ScanEnd(Some(input[i..last + 1]), st.wasOpenBracket))
    else if IsShouldNotTokenize(c) then
      if st.wasThaiCharacter then Stop(ScanEnd(Some(input[i..j]), st.wasOpenBracket))
      else Stop(ScanEnd(Some(input[i..RunEnd(input, j + 1)]), st.wasOpenBracket))
    else if rich && c == '<' then
      Stop(ScanEnd(Some(input[i..TagEnd(input, j, j + 1)]), st.wasOpenBracket))
    else if c in nodes[st.node].children then
      Advance(TrieStep(nodes, input, i, j, st))
    else
      Stop(ScanEnd(st.longestMatch, st.wasOpenBracket))
  }

  /** The scan from position `j` on, for a token starting at `i`. */
  function ScanFrom(nodes: seq<TrieNode>, input: string, rich: bool, i: nat, j: nat, st: ScanState): (r: ScanEnd)
    requires ScanInv(nodes, input, i, j, st)
    ensures r.longestMatch.Some? ==>
      1 <= |r.longestMatch.value| <= |input| - i && r.longestMatch.value == input[i..i + |r.longestMatch.value|]
    decreases |input| - j
  {
    if j >= |input| then ScanEnd(st.longestMatch, st.wasOpenBracket)
    else match ScanStep(nodes, input, rich, i, j, st)
      case Stop(e) => e
      case Advance(next) => ScanFrom(nodes, input, rich, i, j + 1, next)
  }

  // ---------------------------------------------------------------------------------------
  // The token at one cursor position, and the whole segmentation
  // ---------------------------------------------------------------------------------------

  /** The last index of the chain of follower glyphs that continues from `k`. */
  function FollowerChainEnd(input: string, k: nat): (r: nat)
    requires k < |input|
    ensures k <= r < |input| && HasNoFollower(input, r)
    decreases |input| - k
  {
    if HasNoFollower(input, k) then k else FollowerChainEnd(input, k + 1)
  }

  /**
    The token taken when no match was recorded: one character, two when an open bracket was
    seen, or the character with its chain of followers (plus one for a bracket), which can
    run past the end of the input, where `Substring` throws.
  */
  function Fallback(input: string, i: nat, wasOpenBracket: bool): Result<string, TokenizeError>
    requires i < |input|
  {
    if HasNoFollower(input, i) then
      if wasOpenBracket && i < |input| - 1 then Ok(input[i..i + 2]) else Ok(input[i..i + 1])
    else
      var k := FollowerChainEnd(input, i + 1);
      var substringLength := k - i + 1 + (if wasOpenBracket then 1 else 0);
      if i + substringLength <= |input| then Ok(input[i..i + substringLength]) else Err(ArgumentOutOfRange)
  }

  /** The token emitted at cursor `i`: a non-empty piece of the input that starts at `i`. */
  function NextToken(nodes: seq<TrieNode>, input: string, rich: bool, i: nat): (r: Result<string, TokenizeError>)
    requires WellFormed(nodes) && i < |input|
    ensures r.Ok? ==> 1 <= |r.value| <= |input| - i && r.value == input[i..i + |r.value|]
  {
    var e := ScanFrom(nodes, input, rich, i, i, StartState);
    if e.longestMatch.Some? then Ok(e.longestMatch.value) else Fallback(input, i, e.wasOpenBracket)
  }

  /** The outer loop: emit the token at `i`, advance by its length, until the input is used up. */
  function SegmentFrom(nodes: seq<TrieNode>, input: string, rich: bool, i: nat, tokens: seq<string>)
    : Result<seq<string>, TokenizeError>
    requires WellFormed(nodes) && i <= |input|
    decreases |input| - i, 1
  {
    if i == |input| then Ok(tokens) else Emit(nodes, input, rich, i, tokens, NextToken(nodes, input, rich, i))
  }

  function Emit(nodes: seq<TrieNode>, input: string, rich: bool, i: nat, tokens: seq<string>, next: Result<string, TokenizeError>)
    : Result<seq<string>, TokenizeError>
    requires WellFormed(nodes) && i < |input|
    requires next.Ok? ==> 1 <= |next.value| <= |input| - i
    decreases |input| - i, 0
  {
    match next
    case Err(e) => Err(e)
    case Ok(t) => SegmentFrom(nodes, input, rich, i + |t|, tokens + [t])
  }

  /** One turn of the outer loop. */
  lemma SegmentStep(nodes: seq<TrieNode>, input: string, rich: bool, i: nat, tokens: seq<string>, t: string)
    requires WellFormed(nodes) && i < |input| && NextToken(nodes, input, rich, i) == Ok(t)
    ensures i + |t| <= |input|
    ensures SegmentFrom(nodes, input, rich, i, tokens) == SegmentFrom(nodes, input, rich, i + |t|, tokens + [t])
  {
    assert SegmentFrom(nodes, input, rich, i, tokens) == Emit(nodes, input, rich, i, tokens, Ok(t));
  }

  /** The tokens of the whole input, or the exception that ends the scan. */
  function Segment(nodes: seq<TrieNode>, input: string, rich: bool): Result<seq<string>, TokenizeError>
    requires WellFormed(nodes)
  {
    SegmentFrom(nodes, input, rich, 0, [])
  }

  // ---------------------------------------------------------------------------------------
  // The tokenizer object
  // ---------------------------------------------------------------------------------------

  class Tokenizer {
    var nodes: seq<TrieNode>
    /** The letters on the way from the root to each node. */
    ghost var paths: seq<string>

    ghost predicate Valid()
      reads this
    {
      TrieInv(nodes, paths)
    }

    /** Builds the trie from the word list: exactly the listed words are accepted. */
    constructor (dictionary: seq<string>)
      ensures Valid()
      ensures forall w :: Accepts(nodes, w) <==> w in dictionary
    {
      nodes := [TrieNode(map[], false)];
      paths := [[]];
      new;
      forall w ensures !Accepts(nodes, w) {
        if w != [] {
          assert Walk(nodes, 0, w) == None;
        }
      }
      for t := 0 to |dictionary|
        invariant Valid()
        invariant forall w :: Accepts(nodes, w) <==> w in dictionary[..t]
      {
        AddWord(dictionary[t]);
        assert dictionary[..t + 1] == dictionary[..t] + [dictionary[t]];
      }
      assert dictionary[..|dictionary|] == dictionary;
    }

    /**
      Adds one word: afterwards the accepted words are the earlier ones plus `word`, and a word
      that was already accepted leaves the trie exactly as it was.
    */
    method AddWord(word: string)
      requires Valid()
      modifies this
      ensures Valid()
      ensures forall w :: Accepts(nodes, w) <==> old(Accepts(nodes, w)) || w == word
      ensures old(Accepts(nodes, word)) ==> nodes == old(nodes)
    {
      ghost var before, beforePaths := nodes, paths;
      var currentNode: nat := 0;
      for t := 0 to |word|
        invariant TrieInv(nodes, paths)
        invariant currentNode < |nodes| && paths[currentNode] == word[..t]
        invariant Extends(before, nodes) && beforePaths == paths[..|before|]
        invariant Accepts(before, word) ==> nodes == before
      {
        var letter := word[t];
        assert word[..t + 1] == word[..t] + [letter];
        if letter !in nodes[currentNode].children {
          if Accepts(before, word) {
            MissingLinkRejects(nodes, paths, currentNode, word, t);
          }
          var created := |nodes|;
          GrowKeepsInv(nodes, paths, currentNode, letter);
          ExtendsTransitive(before, nodes, WithChild(nodes, currentNode, letter));
          paths := paths + [paths[currentNode] + [letter]];
          nodes := nodes[currentNode := nodes[currentNode].(children := nodes[currentNode].children[letter := created])]
            + [TrieNode(map[], false)];
        }
        currentNode := nodes[currentNode].children[letter];
      }
      assert word[..|word|] == word;
      MarkEndLanguage(before, beforePaths, nodes, paths, currentNode, word);
      nodes := nodes[currentNode := nodes[currentNode].(isEndOfWord := true)];
    }

    /** The run of non-tokenizable characters from `j` (the innermost loop of that branch). */
    static method SkipRun(input: string, j: nat) returns (end: nat)
      requires j <= |input|
      ensures end == RunEnd(input, j)
    {
      var length := |input|;
      end := j;
      while end < length
        invariant j <= end <= length && RunEnd(input, end) == RunEnd(input, j)
        decreases length - end
      {
        var c := input[end];
        if IsShouldNotTokenize(c) {
          end := end + 1;
        } else {
          break;
        }
      }
    }

    /** The end of the rich-text tag whose `<` is at `k` (the innermost loop of that branch). */
    static method SkipTag(input: string, k: nat) returns (j: nat)
      requires k < |input|
      ensures j == TagEnd(input, k, k + 1)
    {
      var length := |input|;
      j := k + 1;
      while j < length
        invariant k < j <= length && TagEnd(input, k, j) == TagEnd(input, k, k + 1)
        decreases length - j
      {
        var c := input[j];
        if c == '>' {
          j := j + 1;
          break;
        }
        if c == '<' || j >= length {
          j := k + 1;
          break;
        }
        j := j + 1;
      }
    }

    /**
      One turn of the inner loop of `Tokenize` at position `j`, for the token starting at `i`:
      the locals after a trie step or an open bracket, or the match the loop breaks with.
    */
    method ScanOne(input: string, isSupportRichTextTags: bool, i: nat, j: nat, st: ScanState) returns (r: ScanStepResult)
      requires ScanInv(nodes, input, i, j, st) && j < |input|
      ensures r == ScanStep(nodes, input, isSupportRichTextTags, i, j, st)
    {
      var length := |input|;
      var c := input[j];
      if IsOpenBracket(c) {
        return Advance(st.(wasOpenBracket := true));
      }

      var isThaiEndCharacter := IsThaiEndCharacter(c);
      if IsCloseBracket(c) || isThaiEndCharacter {
        var last := j;
        if isThaiEndCharacter && j < length - 1 && IsCloseBracket(input[j + 1]) {
          last := j + 1;
        }
        return Stop(ScanEnd(Some(input[i..last + 1]), st.wasOpenBracket));
      }

      if IsShouldNotTokenize(c) {
        if st.wasThaiCharacter {
          return Stop(ScanEnd(Some(input[i..j]), st.wasOpenBracket));
        }
        var end := SkipRun(input, j + 1);
        return Stop(ScanEnd(Some(input[i..end]), st.wasOpenBracket));
      }

      if isSupportRichTextTags && c == '<' {
        var end := SkipTag(input, j);
        return Stop(ScanEnd(Some(input[i..end]), st.wasOpenBracket));
      }

      if c in nodes[st.node].children {
        var currentNode := nodes[st.node].children[c];
        var matchLength := st.matchLength + 1;
        var wasOpenBracket := st.wasOpenBracket;
        var longestMatch := st.longestMatch;
        if nodes[currentNode].isEndOfWord {
          if HasNoFollower(input, j) {
            if wasOpenBracket {
              matchLength := matchLength + 1;
              wasOpenBracket := false;
            }
            longestMatch := Some(input[i..i + matchLength]);
          }
        }
        return Advance(ScanState(currentNode, matchLength, wasOpenBracket, true, longestMatch));
      }
      return Stop(ScanEnd(st.longestMatch, st.wasOpenBracket));
    }

    /**
      The inner loop of `Tokenize` at cursor `i`: walks the trie and the special characters and
      returns the recorded match and the open-bracket flag.
    */
    method Scan(input: string, isSupportRichTextTags: bool, i: nat) returns (longestMatch: Option<string>, wasOpenBracket: bool)
      requires WellFormed(nodes) && i < |input|
      ensures ScanEnd(longestMatch, wasOpenBracket) == ScanFrom(nodes, input, isSupportRichTextTags, i, i, StartState)
    {
      var st := StartState;
      var length := |input|;
      var j: nat := i;
      while j < length
        invariant ScanInv(nodes, input, i, j, st)
        invariant ScanFrom(nodes, input, isSupportRichTextTags, i, j, st)
          == ScanFrom(nodes, input, isSupportRichTextTags, i, i, StartState)
        decreases length - j
      {
        var step := ScanOne(input, isSupportRichTextTags, i, j, st);
        if step.Stop? {
          return step.result.longestMatch, step.result.wasOpenBracket;
        }
        st := step.next;
        j := j + 1;
      }
      return st.longestMatch, st.wasOpenBracket;
    }

    /**
      The no-match branch of `Tokenize` at cursor `i`: the token length, with the loop over the
      chain of follower glyphs, or the exception `Substring` throws when it runs past the end.
    */
    method FallbackToken(input: string, i: nat, wasOpenBracket: bool) returns (r: Result<string, TokenizeError>)
      requires i < |input|
      ensures r == Fallback(input, i, wasOpenBracket)
    {
      var length := |input|;
      if HasNoFollower(input, i) {
        if wasOpenBracket && i < length - 1 {
          return Ok(input[i..i + 2]);
        }
        return Ok(input[i..i + 1]);
      }
      var substringLength: nat := 2;
      var k: nat := i + 1;
      while !HasNoFollower(input, k)
        invariant i + 1 <= k < length && substringLength == k - i + 1
        invariant FollowerChainEnd(input, k) == FollowerChainEnd(input, i + 1)
        decreases length - k
      {
        substringLength := substringLength + 1;
        k := k + 1;
      }
      if wasOpenBracket {
        substringLength := substringLength + 1;
      }
      if i + substringLength > length {
        return Err(ArgumentOutOfRange);
      }
      return Ok(input[i..i + substringLength]);
    }

    /** `Tokenize`: the segmentation of `input`, with the loops of the original. */
    method Tokenize(input: string, isSupportRichTextTags: bool) returns (r: Result<seq<string>, TokenizeError>)
      requires WellFormed(nodes)
      ensures r == Segment(nodes, input, isSupportRichTextTags)
    {
      var rich := isSupportRichTextTags;
      var tokens: seq<string> := [];
      var i: nat := 0;
      var length := |input|;
      ghost var goal := Segment(nodes, input, rich);
      while i < length
        invariant i <= length
        invariant SegmentFrom(nodes, input, rich, i, tokens) == goal
        decreases length - i
      {
        var longestMatch, wasOpenBracket := Scan(input, rich, i);
        var token: string;
        if longestMatch.Some? {
          token := longestMatch.value;
        } else {
          var fallback := FallbackToken(input, i, wasOpenBracket);
          if fallback.Err? {
            return Err(fallback.error);
          }
          token := fallback.value;
        }
        SegmentStep(nodes, input, rich, i, tokens, token);
        tokens := tokens + [token];
        i := i + |token|;
      }
      return Ok(tokens);
    }
  }
}
