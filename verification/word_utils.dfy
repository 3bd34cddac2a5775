/**
  Finding the word under a character of a laid-out text: the separator test, the search for the
  nearest separator on either side, and the word between them.

  The zero-width-space alternative of the separator test is a string literal whose exact
  characters depend on how the file was decoded, so it is a parameter here (`zeroWidth`). An
  absent custom separator array (`null`) is `None`.
*/
module WordUtils {
  import opened Wrappers
  import opened Text
  import opened Hits

  /**
    `IsEndOfWordOrSpace`: the character, as a one-character string, is one of the listed
    strings, or it is one of the custom separators.
  */
  predicate IsEndOfWordOrSpace(c: char, zeroWidth: string, customSeparators: Option<seq<char>>) {
    var s := [c];
    s == zeroWidth || s == "\t" || s == " " || s == "\n" || s == "\r" || s == "\r\n"
    || (customSeparators.Some? && c in customSeparators.value)
  }

  /**
    The separators are exactly tab, space, line feed, carriage return, the custom separators, and
    the zero-width literal when it is one character long: the two-character `"\r\n"` never
    matches, and neither does a literal of any other length.
  */
  lemma SeparatorCharacters(c: char, zeroWidth: string, customSeparators: Option<seq<char>>)
    ensures IsEndOfWordOrSpace(c, zeroWidth, customSeparators) <==>
      || c == '\t' || c == ' ' || c == '\n' || c == '\r'
      || (|zeroWidth| == 1 && c == zeroWidth[0])
      || (customSeparators.Some? && c in customSeparators.value)
  {
    assert [c] != "\r\n" by { assert |[c]| != |"\r\n"|; }
    if |zeroWidth| == 1 && c == zeroWidth[0] {
      assert [c] == zeroWidth;
    }
  }

  /**
    `FindNearestSeparator`: steps from `startIndex` in `direction` and returns the index just
    before the first separator met, or the first or last index when the text ends first.
  */
  function FindNearestSeparator(message: seq<char>, startIndex: int, direction: int,
                                zeroWidth: string, customSeparators: Option<seq<char>>): (r: int)
    requires 0 <= startIndex < |message| && (direction == 1 || direction == -1)
    ensures 0 <= r < |message|
    ensures direction == -1 ==>
      && r <= startIndex
      && (forall k :: r <= k < startIndex ==> !IsEndOfWordOrSpace(message[k], zeroWidth, customSeparators))
      && (r == 0 || IsEndOfWordOrSpace(message[r - 1], zeroWidth, customSeparators))
    ensures direction == 1 ==>
      && startIndex <= r
      && (forall k :: startIndex < k <= r ==> !IsEndOfWordOrSpace(message[k], zeroWidth, customSeparators))
      && (r == |message| - 1 || IsEndOfWordOrSpace(message[r + 1], zeroWidth, customSeparators))
    decreases if direction == 1 then |message| - startIndex else startIndex
  {
    var index := startIndex + direction;
    if index < 0 then 0
    else if index >= |message| then |message| - 1
    else if IsEndOfWordOrSpace(message[index], zeroWidth, customSeparators) then index - direction
    else FindNearestSeparator(message, index, direction, zeroWidth, customSeparators)
  }

  /** `GetWord`: the characters from `startIndex` to `endIndex` inclusive, trimmed. */
  method GetWord(characters: seq<char>, startIndex: int, endIndex: int) returns (r: string)
    requires startIndex <= endIndex ==> 0 <= startIndex && endIndex < |characters|
    ensures startIndex <= endIndex ==> r == Trim(characters[startIndex..endIndex + 1])
    ensures endIndex < startIndex ==> r == ""
  {
    var result: string := [];
    var i := startIndex;
    while i <= endIndex
      invariant startIndex <= endIndex ==> startIndex <= i <= endIndex + 1 && result == characters[startIndex..i]
      invariant endIndex < startIndex ==> result == [] && i == startIndex
      decreases endIndex + 1 - i
    {
      result := result + [characters[i]];
      i := i + 1;
    }
    r := Trim(result);
  }

  /**
    `start..end` is the maximal run of non-separators holding `index`: every character in it is
    a non-separator, and on each side the run meets a separator or the end of the text.
  */
  predicate IsWordRun(characters: seq<char>, index: int, start: int, end: int,
                      zeroWidth: string, customSeparators: Option<seq<char>>) {
    && 0 <= start <= index <= end < |characters|
    && (forall k :: start <= k <= end ==> !IsEndOfWordOrSpace(characters[k], zeroWidth, customSeparators))
    && (start == 0 || IsEndOfWordOrSpace(characters[start - 1], zeroWidth, customSeparators))
    && (end == |characters| - 1 || IsEndOfWordOrSpace(characters[end + 1], zeroWidth, customSeparators))
  }

  /** From a non-separator, the nearest separators on either side bound its maximal run. */
  lemma NearestSeparatorsBoundRun(characters: seq<char>, index: int,
                                  zeroWidth: string, customSeparators: Option<seq<char>>)
    requires 0 <= index < |characters| && !IsEndOfWordOrSpace(characters[index], zeroWidth, customSeparators)
    ensures IsWordRun(characters, index,
                      FindNearestSeparator(characters, index, -1, zeroWidth, customSeparators),
                      FindNearestSeparator(characters, index, 1, zeroWidth, customSeparators),
                      zeroWidth, customSeparators)
  {
    var start := FindNearestSeparator(characters, index, -1, zeroWidth, customSeparators);
    var end := FindNearestSeparator(characters, index, 1, zeroWidth, customSeparators);
    forall k | start <= k <= end
      ensures !IsEndOfWordOrSpace(characters[k], zeroWidth, customSeparators)
    {
    }
  }

  /**
    The index part of `GetWordFromCharacterInfoIndex`: no hit on a separator; otherwise a hit on
    the maximal run of non-separators around the index, carrying that run trimmed.
  */
  method GetWordFromCharacterInfoIndex(targetText: TextMesh, characterInfoIndex: int,
                                       zeroWidth: string, customSeparators: Option<seq<char>>)
    returns (hit: Option<WordHit>)
    requires 0 <= characterInfoIndex < |targetText.characters|
    ensures var characters := targetText.characters;
      hit.None? <==> IsEndOfWordOrSpace(characters[characterInfoIndex], zeroWidth, customSeparators)
    ensures hit.Some? ==>
      var characters := targetText.characters;
      var h := hit.value;
      && fresh(h) && h.text == targetText && h.fontSize == targetText.fontSize
      && h.nearestCharacter == characters[characterInfoIndex]
      && IsWordRun(characters, characterInfoIndex, h.startIndex, h.endIndex, zeroWidth, customSeparators)
      && h.word == Trim(characters[h.startIndex..h.endIndex + 1])
  {
    var characters := targetText.characters;
    var nearestCharacter := characters[characterInfoIndex];
    if IsEndOfWordOrSpace(nearestCharacter, zeroWidth, customSeparators) {
      return None;
    }
    var startIndex := FindNearestSeparator(characters, characterInfoIndex, -1, zeroWidth, customSeparators);
    var endIndex := FindNearestSeparator(characters, characterInfoIndex, 1, zeroWidth, customSeparators);
    NearestSeparatorsBoundRun(characters, characterInfoIndex, zeroWidth, customSeparators);
    if startIndex < 0 || endIndex >= |characters| {
      return None;
    }
    var word := GetWord(characters, startIndex, endIndex);
    var h := new WordHit(targetText, word, nearestCharacter, endIndex, startIndex);
    hit := Some(h);
  }
}
