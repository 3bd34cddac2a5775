/**
  A hit on a word of a text component: the word, the character nearest to the hit point, the
  indices of its first and last character, and the font size of the text at the time.

  The text component is an object whose identity matters (two hits are the same only on the same
  text); of it the model keeps the laid-out characters and the font size. Screen positions are
  not part of this model.
*/
module Hits {

  /** The part of a TextMesh Pro text component the word utilities read. */
  class TextMesh {
    /** `textInfo.characterInfo[k].character` for every laid-out character `k`. */
    var characters: seq<char>
    var fontSize: real

    constructor (characters: seq<char>, fontSize: real)
      ensures this.characters == characters && this.fontSize == fontSize
    {
      this.characters := characters;
      this.fontSize := fontSize;
    }
  }

  class WordHit {
    const text: TextMesh
    const word: string
    const nearestCharacter: char
    const fontSize: real
    const startIndex: int
    const endIndex: int

    /** Stores every argument as given and copies the font size from the text. */
    constructor (text: TextMesh, word: string, nearestCharacter: char, endIndex: int, startIndex: int)
      ensures this.text == text && this.word == word && this.nearestCharacter == nearestCharacter
      ensures this.startIndex == startIndex && this.endIndex == endIndex
      ensures this.fontSize == text.fontSize
    {
      this.nearestCharacter := nearestCharacter;
      this.word := word;
      this.text := text;
      this.fontSize := text.fontSize;
      this.startIndex := startIndex;
      this.endIndex := endIndex;
    }

    /** The same word at the same place of the same text. */
    predicate IsSameAs(other: WordHit) {
      text == other.text && startIndex == other.startIndex && endIndex == other.endIndex && word == other.word
    }
  }

  /** `IsSameAs` is an equivalence: reflexive, symmetric and transitive. */
  lemma SameAsIsEquivalence(a: WordHit, b: WordHit, c: WordHit)
    ensures a.IsSameAs(a)
    ensures a.IsSameAs(b) ==> b.IsSameAs(a)
    ensures a.IsSameAs(b) && b.IsSameAs(c) ==> a.IsSameAs(c)
  {
  }

  /**
    Two hits built on the same text for the same word and indices are the same, whatever their
    nearest characters, and whatever the text's font size was at either construction.
  */
  method SameAsIgnoresNearestAndSize(text: TextMesh, word: string, first: char, second: char,
                                     endIndex: int, startIndex: int, laterSize: real)
    returns (a: WordHit, b: WordHit)
    modifies text
    ensures a.nearestCharacter == first && b.nearestCharacter == second
    ensures b.fontSize == laterSize
    ensures a.IsSameAs(b) && b.IsSameAs(a)
  {
    a := new WordHit(text, word, first, endIndex, startIndex);
    text.fontSize := laterSize;
    b := new WordHit(text, word, second, endIndex, startIndex);
  }
}
