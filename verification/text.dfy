/**
  The handful of .NET string operations the modelled code relies on: `Trim`, `Split(char)`,
  `string.Join`, `Replace`, `StartsWith` and integer formatting, written out over `seq<char>`.
*/
module Text {

  /** `char.IsWhiteSpace`: the Unicode space separators plus the control characters .NET counts as white space. */
  predicate IsWhiteSpace(c: char) {
    ('\t' <= c <= '\r') || c == ' ' || c == '\U{0085}' || c == '\U{00A0}' || c == '\U{1680}'
    || ('\U{2000}' <= c <= '\U{200A}') || c == '\U{2028}' || c == '\U{2029}' || c == '\U{202F}'
    || c == '\U{205F}' || c == '\U{3000}'
  }

  predicate AllWhiteSpace(s: string) {
    forall k :: 0 <= k < |s| ==> IsWhiteSpace(s[k])
  }

  /** Drops leading white space. */
  function TrimStart(s: string): (r: string)
    ensures |r| <= |s| && r == s[|s| - |r|..]
    ensures r == [] || !IsWhiteSpace(r[0])
  {
    if |s| > 0 && IsWhiteSpace(s[0]) then TrimStart(s[1..]) else s
  }

  /** Drops trailing white space. */
  function TrimEnd(s: string): (r: string)
    ensures |r| <= |s| && r == s[..|r|]
    ensures r == [] || !IsWhiteSpace(r[|r| - 1])
  {
    if |s| > 0 && IsWhiteSpace(s[|s| - 1]) then TrimEnd(s[..|s| - 1]) else s
  }

  /** What `TrimStart` drops is white space. */
  lemma {:induction false} TrimStartDropsWhiteSpace(s: string)
    ensures AllWhiteSpace(s[..|s| - |TrimStart(s)|])
  {
    if |s| > 0 && IsWhiteSpace(s[0]) {
      TrimStartDropsWhiteSpace(s[1..]);
      var n := |s| - |TrimStart(s)|;
      forall k | 0 <= k < n ensures IsWhiteSpace(s[k]) {
        if k > 0 { assert s[k] == s[1..][..n - 1][k - 1]; }
      }
    }
  }

  /** What `TrimEnd` drops is white space. */
  lemma {:induction false} TrimEndDropsWhiteSpace(s: string)
    ensures AllWhiteSpace(s[|TrimEnd(s)|..])
  {
    if |s| > 0 && IsWhiteSpace(s[|s| - 1]) {
      var p := s[..|s| - 1];
      TrimEndDropsWhiteSpace(p);
      var m := |TrimEnd(s)|;
      forall k | 0 <= k < |s| - m ensures IsWhiteSpace(s[m..][k]) {
        if m + k < |s| - 1 { assert s[m..][k] == p[m..][k]; }
      }
    }
  }

  /** `string.Trim()`: the input with white space removed from both ends. */
  function Trim(s: string): (r: string)
    ensures |r| <= |s|
    ensures r == [] || (!IsWhiteSpace(r[0]) && !IsWhiteSpace(r[|r| - 1]))
  {
    if |s| > 0 && IsWhiteSpace(s[0]) then Trim(s[1..])
    else
      var r := TrimEnd(s);
      assert r != [] ==> r[0] == s[0];
      r
  }

  /** Trimming both ends is trimming the start and then the end. */
  lemma {:induction false} TrimBothEnds(s: string)
    ensures Trim(s) == TrimEnd(TrimStart(s))
  {
    if |s| > 0 && IsWhiteSpace(s[0]) {
      TrimBothEnds(s[1..]);
    }
  }

  /** What `Trim` removes is white space at the two ends and nothing else. */
  lemma TrimIsInnerSlice(s: string) returns (a: nat, b: nat)
    ensures a <= b <= |s| && Trim(s) == s[a..b]
    ensures AllWhiteSpace(s[..a]) && AllWhiteSpace(s[b..])
  {
    TrimBothEnds(s);
    a, b := TrimStartEndSlice(s);
  }

  /** `TrimEnd(TrimStart(s))` is the slice between two white-space ends. */
  lemma TrimStartEndSlice(s: string) returns (a: nat, b: nat)
    ensures a <= b <= |s| && TrimEnd(TrimStart(s)) == s[a..b]
    ensures AllWhiteSpace(s[..a]) && AllWhiteSpace(s[b..])
  {
    var t := TrimStart(s);
    var r := TrimEnd(t);
    TrimStartDropsWhiteSpace(s);
    TrimEndDropsWhiteSpace(t);
    a, b := InnerSlice(s, t, r);
  }

  /** A prefix `r` of a suffix `t` of `s`, with white space cut at both ends, is a middle slice of `s`. */
  lemma InnerSlice(s: string, t: string, r: string) returns (a: nat, b: nat)
    requires |t| <= |s| && t == s[|s| - |t|..] && AllWhiteSpace(s[..|s| - |t|])
    requires |r| <= |t| && r == t[..|r|] && AllWhiteSpace(t[|r|..])
    ensures a == |s| - |t| && b == a + |r| && b <= |s| && r == s[a..b]
    ensures AllWhiteSpace(s[..a]) && AllWhiteSpace(s[b..])
  {
    a := |s| - |t|;
    b := a + |r|;
    assert t[|r|..] == s[b..];
  }

  /** `Trim` gives the empty string exactly for all-white-space input. */
  lemma TrimEmptyIff(s: string)
    ensures Trim(s) == [] <==> AllWhiteSpace(s)
  {
    TrimBothEnds(s);
    var t := TrimStart(s);
    var r := TrimEnd(t);
    var a := |s| - |t|;
    assert t == s[a..];
    if r == [] {
      TrimStartDropsWhiteSpace(s);
      TrimEndDropsWhiteSpace(t);
      AllWhiteSpaceSplit(s, a);
    } else {
      assert r[0] == s[a];
    }
  }

  lemma AllWhiteSpaceSplit(s: string, a: nat)
    requires a <= |s| && AllWhiteSpace(s[..a]) && AllWhiteSpace(s[a..])
    ensures AllWhiteSpace(s)
  {
    forall k | 0 <= k < |s| ensures IsWhiteSpace(s[k]) {
      if k < a { assert s[k] == s[..a][k]; } else { assert s[k] == s[a..][k - a]; }
    }
  }

  lemma {:induction false} TrimIdempotent(s: string)
    ensures Trim(Trim(s)) == Trim(s)
  {
    var r := Trim(s);
    if r != [] {
      assert TrimEnd(r) == r;
    }
  }

  predicate StartsWith(s: string, c: char) {
    |s| > 0 && s[0] == c
  }

  /** `string.Split(sep)`: the pieces between separators, empty pieces included. */
  function Split(s: string, sep: char): (r: seq<string>)
    ensures |r| >= 1
    ensures forall k :: 0 <= k < |r| ==> sep !in r[k]
  {
    if |s| == 0 then [""]
    else if s[0] == sep then [""] + Split(s[1..], sep)
    else
      var rest := Split(s[1..], sep);
      [[s[0]] + rest[0]] + rest[1..]
  }

  /** `string.Join(sep, parts)`. */
  function Join(parts: seq<string>, sep: string): string {
    if |parts| == 0 then ""
    else if |parts| == 1 then parts[0]
    else parts[0] + sep + Join(parts[1..], sep)
  }

  /** Joining the pieces of a split with the separator gives back the split string. */
  lemma {:induction false} JoinSplit(s: string, sep: char)
    ensures Join(Split(s, sep), [sep]) == s
  {
    if |s| == 0 {
    } else if s[0] == sep {
      JoinSplit(s[1..], sep);
      assert s == [sep] + s[1..];
    } else {
      JoinSplit(s[1..], sep);
      var rest := Split(s[1..], sep);
      if |rest| == 1 {
        assert s == [s[0]] + s[1..];
      } else {
        assert Join(rest, [sep]) == rest[0] + [sep] + Join(rest[1..], [sep]);
        assert s == [s[0]] + s[1..];
      }
    }
  }

  /** A string without the separator is a single piece. */
  lemma {:induction false} SplitNoSeparator(s: string, sep: char)
    requires sep !in s
    ensures Split(s, sep) == [s]
  {
    if |s| > 0 {
      SplitNoSeparator(s[1..], sep);
      assert s == [s[0]] + s[1..];
    }
  }

  /** A leading piece followed by the separator splits off as the first piece. */
  lemma {:induction false} SplitFirstPiece(piece: string, sep: char, rest: string)
    requires sep !in piece
    ensures Split(piece + [sep] + rest, sep) == [piece] + Split(rest, sep)
  {
    var s := piece + [sep] + rest;
    if |piece| == 0 {
      assert s[1..] == rest;
    } else {
      assert s[1..] == piece[1..] + [sep] + rest;
      SplitFirstPiece(piece[1..], sep, rest);
      assert piece == [piece[0]] + piece[1..];
    }
  }

  /** Splitting a join of separator-free pieces gives the pieces back. */
  lemma {:induction false} SplitJoin(parts: seq<string>, sep: char)
    requires |parts| >= 1
    requires forall k :: 0 <= k < |parts| ==> sep !in parts[k]
    ensures Split(Join(parts, [sep]), sep) == parts
  {
    if |parts| == 1 {
      SplitNoSeparator(parts[0], sep);
    } else {
      SplitJoin(parts[1..], sep);
      SplitFirstPiece(parts[0], sep, Join(parts[1..], [sep]));
      assert parts == [parts[0]] + parts[1..];
    }
  }

  /** A character in neither the pieces nor the separator is not in their join. */
  lemma {:induction false} JoinKeepsAbsent(parts: seq<string>, sep: string, c: char)
    requires c !in sep && forall k :: 0 <= k < |parts| ==> c !in parts[k]
    ensures c !in Join(parts, sep)
  {
    if |parts| > 1 {
      JoinKeepsAbsent(parts[1..], sep, c);
    }
  }

  /** Concatenation of a sequence of strings. */
  function Concat(parts: seq<string>): string {
    if |parts| == 0 then "" else parts[0] + Concat(parts[1..])
  }

  lemma {:induction false} ConcatAppend(parts: seq<string>, last: string)
    ensures Concat(parts + [last]) == Concat(parts) + last
  {
    if |parts| == 0 {
      assert parts + [last] == [last];
    } else {
      assert (parts + [last])[1..] == parts[1..] + [last];
      ConcatAppend(parts[1..], last);
    }
  }

  /**
    `s.Replace(pattern, replacement)`: every occurrence of a non-empty pattern, found left to right
    without overlap, is replaced.
  */
  function ReplaceAll(s: string, pattern: string, replacement: string): string
    requires |pattern| > 0
    decreases |s|
  {
    if |s| < |pattern| then s
    else if s[..|pattern|] == pattern then replacement + ReplaceAll(s[|pattern|..], pattern, replacement)
    else [s[0]] + ReplaceAll(s[1..], pattern, replacement)
  }

  /** A string in which the pattern's first character never occurs is left as it is. */
  lemma {:induction false} ReplaceAbsent(s: string, pattern: string, replacement: string)
    requires |pattern| > 0 && pattern[0] !in s
    ensures ReplaceAll(s, pattern, replacement) == s
    decreases |s|
  {
    if |s| >= |pattern| {
      assert s[..|pattern|][0] == s[0];
      ReplaceAbsent(s[1..], pattern, replacement);
      assert s == [s[0]] + s[1..];
    }
  }

  /** An occurrence preceded by text free of the pattern's first character is the first one replaced. */
  lemma {:induction false} ReplaceAcross(a: string, pattern: string, replacement: string, b: string)
    requires |pattern| > 0 && pattern[0] !in a
    ensures ReplaceAll(a + pattern + b, pattern, replacement) == a + replacement + ReplaceAll(b, pattern, replacement)
    decreases |a|
  {
    var s := a + pattern + b;
    var tail := ReplaceAll(b, pattern, replacement);
    if |a| == 0 {
      assert s[..|pattern|] == pattern && s[|pattern|..] == b;
    } else {
      ReplaceSkipsFirst(s, pattern, replacement);
      assert s[1..] == a[1..] + pattern + b;
      ReplaceAcross(a[1..], pattern, replacement, b);
      calc {
        ReplaceAll(s, pattern, replacement);
        [a[0]] + ReplaceAll(a[1..] + pattern + b, pattern, replacement);
        [a[0]] + (a[1..] + replacement + tail);
        { assert a == [a[0]] + a[1..]; }
        a + replacement + tail;
      }
    }
  }

  lemma ReplaceSkipsFirst(s: string, pattern: string, replacement: string)
    requires |pattern| > 0 && |s| > 0 && s[0] != pattern[0]
    ensures ReplaceAll(s, pattern, replacement) == [s[0]] + ReplaceAll(s[1..], pattern, replacement)
  {
    if |s| >= |pattern| {
      assert s[..|pattern|][0] == s[0];
    }
  }

  /** Replacing a single character with another leaves no occurrence of it, and changes nothing else. */
  lemma {:induction false} ReplaceCharRemovesIt(s: string, c: char, d: char)
    requires c != d
    ensures var r := ReplaceAll(s, [c], [d]);
      |r| == |s| && c !in r && forall k :: 0 <= k < |s| ==> r[k] == (if s[k] == c then d else s[k])
  {
    if |s| > 0 {
      ReplaceCharRemovesIt(s[1..], c, d);
    }
  }

  /** The characters of `s` other than `c`, in order. */
  function Without(s: string, c: char): (r: string)
    ensures c !in r && |r| <= |s|
  {
    if |s| == 0 then "" else (if s[0] == c then "" else [s[0]]) + Without(s[1..], c)
  }

  /** Replacing a one-character pattern with nothing deletes every occurrence of that character. */
  lemma {:induction false} RemoveCharIsWithout(s: string, c: char)
    ensures ReplaceAll(s, [c], "") == Without(s, c)
  {
    if |s| > 0 {
      RemoveCharIsWithout(s[1..], c);
    }
  }

  /** Deleting a character commutes with concatenation. */
  lemma {:induction false} WithoutAppend(a: string, b: string, c: char)
    ensures Without(a + b, c) == Without(a, c) + Without(b, c)
  {
    if |a| > 0 {
      assert (a + b)[1..] == a[1..] + b;
      WithoutAppend(a[1..], b, c);
    } else {
      assert a + b == b;
    }
  }

  /** Deleting a character that does not occur changes nothing. */
  lemma {:induction false} WithoutAbsent(s: string, c: char)
    requires c !in s
    ensures Without(s, c) == s
  {
    if |s| > 0 {
      WithoutAbsent(s[1..], c);
    }
  }

  /** `s.Contains(p)`; every string contains the empty string. */
  predicate Contains(s: string, p: string)
    decreases |s|
  {
    |p| <= |s| && (s[..|p|] == p || Contains(s[1..], p))
  }

  lemma {:induction false} ContainsChar(s: string, c: char)
    ensures Contains(s, [c]) <==> c in s
  {
    if |s| > 0 {
      ContainsChar(s[1..], c);
      assert s == [s[0]] + s[1..];
    }
  }

  /** A character absent from a string is absent from each piece of its split. */
  lemma {:induction false} SplitKeepsAbsent(s: string, sep: char, c: char)
    requires c !in s
    ensures forall k :: 0 <= k < |Split(s, sep)| ==> c !in Split(s, sep)[k]
  {
    if |s| > 0 {
      SplitKeepsAbsent(s[1..], sep, c);
    }
  }

  /** A character absent from a string is absent from its trimmed form. */
  lemma TrimKeepsAbsent(s: string, c: char)
    requires c !in s
    ensures c !in Trim(s)
  {
    TrimBothEnds(s);
    var t := TrimStart(s);
    assert t == s[|s| - |t|..];
    assert TrimEnd(t) == t[..|TrimEnd(t)|];
  }

  /** A character absent from a concatenation is absent from each part. */
  lemma {:induction false} NotInConcat(parts: seq<string>, c: char)
    requires c !in Concat(parts)
    ensures forall k :: 0 <= k < |parts| ==> c !in parts[k]
  {
    if |parts| > 0 {
      NotInConcat(parts[1..], c);
      forall k | 0 <= k < |parts| ensures c !in parts[k] {
        if k > 0 { assert parts[k] == parts[1..][k - 1]; }
      }
    }
  }

  function DigitChar(d: nat): char
    requires d < 10
  {
    ['0', '1', '2', '3', '4', '5', '6', '7', '8', '9'][d]
  }

  /** Decimal formatting of a count, as string concatenation of an `int` does. */
  function NatToString(n: nat): (r: string)
    ensures |r| >= 1 && forall k :: 0 <= k < |r| ==> '0' <= r[k] <= '9'
  {
    if n < 10 then [DigitChar(n)] else NatToString(n / 10) + [DigitChar(n % 10)]
  }
}
