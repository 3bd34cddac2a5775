/**
  The Thai glyph sets the font doctor offers as presets, the Thai name of each preset, and the
  way a single glyph is shown in the editor (with a dash where its base consonant would stand).
*/
module ThaiGlyphHelper {
  import opened Text

  datatype ThaiGlyphPreset =
    | AllConsonants
    | AscenderConsonants
    | DescenderConsonants
    | AllUpperGlyphs
    | UpperVowels
    | ToneMarks
    | ThanThaKhaat
    | LeadingVowels
    | AllFollowingVowels
    | SaraAum
    | LowerVowels
    | Custom

  const lowerVowels: seq<char> := ['ุ', 'ู']
  const allFollowingVowels: seq<char> := ['ะ', 'ำ', 'า', 'ๅ']
  const leadingVowels: seq<char> := ['เ', 'แ', 'โ', 'ไ', 'ใ']
  const upperVowels: seq<char> := ['ิ', 'ี', 'ึ', 'ื', '็', 'ั']
  const allUpperGlyphs: seq<char> := ['ิ', 'ี', 'ึ', 'ื', '็', 'ั', '์', '่', '้', '๊', '๋']
  const toneMarks: seq<char> := ['่', '้', '๊', '๋']
  const thanThaKhaat: char := '์'
  const saraAum: char := 'ำ'

  const allConsonants: seq<char> := [
    'ก', 'ข', 'ฃ', 'ค', 'ฅ', 'ฆ', 'ง', 'จ', 'ฉ', 'ช',
    'ซ', 'ฌ', 'ญ', 'ฎ', 'ฏ', 'ฐ', 'ฑ', 'ฒ', 'ณ', 'ด',
    'ต', 'ถ', 'ท', 'ธ', 'น', 'บ', 'ป', 'ผ', 'ฝ', 'พ',
    'ฟ', 'ภ', 'ม', 'ย', 'ร', 'ล', 'ว', 'ศ', 'ษ', 'ส',
    'ห', 'ฬ', 'อ', 'ฮ'
  ]

  const descenderConsonants: seq<char> := ['ฎ', 'ฏ']
  const ascenderConsonants: seq<char> := ['ป', 'ฝ', 'ฟ', 'ฬ']

  /** The glyphs written after their consonant: following vowels (listed twice), lower vowels and upper glyphs. */
  const behindDashGlyphs: seq<char> := allFollowingVowels + lowerVowels + allFollowingVowels + allUpperGlyphs

  /**
    `GetDisplayedString`: trimmed; blank gives ""; several characters are shown as they are; a
    single glyph written after its consonant gets a dash before it, a leading vowel a dash after
    it, and any other single character is shown as it is.
  */
  function GetDisplayedString(characters: string): (r: string)
    ensures r == [] <==> AllWhiteSpace(characters)
    ensures var t := Trim(characters);
      || r == t
      || (|t| == 1 && t[0] in behindDashGlyphs && r == ['-'] + t)
      || (|t| == 1 && t[0] in leadingVowels && r == t + ['-'])
  {
    TrimEmptyIff(characters);
    var t := Trim(characters);
    if |t| == 0 then ""
    else if |t| > 1 then t
    else if t[0] in behindDashGlyphs then ['-'] + t
    else if t[0] in leadingVowels then t + ['-']
    else t
  }

  /** No glyph gets both a dash before it and a dash after it. */
  lemma DashSidesDisjoint(c: char)
    ensures c in behindDashGlyphs ==> c !in leadingVowels
  {
    if c in behindDashGlyphs {
      assert c in allFollowingVowels || c in lowerVowels || c in allUpperGlyphs;
    }
  }

  /** The displayed string of a single glyph puts a dash on at most one side of it. */
  lemma DisplayedGlyph(c: char)
    requires !IsWhiteSpace(c)
    ensures c in behindDashGlyphs ==> GetDisplayedString([c]) == ['-', c]
    ensures c in leadingVowels ==> GetDisplayedString([c]) == [c, '-']
    ensures c !in behindDashGlyphs && c !in leadingVowels ==> GetDisplayedString([c]) == [c]
  {
    assert TrimEnd([c]) == [c];
    assert Trim([c]) == [c];
    DashSidesDisjoint(c);
  }

  /** Showing a displayed string again changes nothing. */
  lemma DisplayedStringIdempotent(characters: string)
    ensures GetDisplayedString(GetDisplayedString(characters)) == GetDisplayedString(characters)
  {
    var t := Trim(characters);
    var r := GetDisplayedString(characters);
    TrimIdempotent(characters);
    if |t| == 1 && r != t {
      assert TrimEnd(r) == r;
      assert Trim(r) == r;
    }
  }

  /** `GetThaiGlyphGroupName`: the Thai name of every preset; the enum has no other value. */
  function GetThaiGlyphGroupName(preset: ThaiGlyphPreset): (r: string)
  {
    match preset
    case LowerVowels => "สระล่าง"
    case AllUpperGlyphs => "อักขระด้านบน"
    case AllFollowingVowels => "สระหลัง"
    case LeadingVowels => "สระหน้า"
    case UpperVowels => "สระบน"
    case ToneMarks => "วรรณยุกต์"
    case ThanThaKhaat => "ทัณฑฆาต"
    case SaraAum => "สระอำ"
    case AllConsonants => "ก - ฮ"
    case DescenderConsonants => "พยัญชนะหางล่าง"
    case AscenderConsonants => "พยัญชนะหางบน"
    case Custom => "กำหนดเอง"
  }

  /** Every preset has a name, and no two presets share one. */
  lemma GroupNamesDistinct(p: ThaiGlyphPreset, q: ThaiGlyphPreset)
    ensures |GetThaiGlyphGroupName(p)| > 0
    ensures p != q ==> GetThaiGlyphGroupName(p) != GetThaiGlyphGroupName(q)
  {
    var a := GetThaiGlyphGroupName(p);
    var b := GetThaiGlyphGroupName(q);
    if p != q {
      if |a| == |b| {
        assert a[0] != b[0] || a[1] != b[1] || a[2] != b[2] || a[3] != b[3] || a[4] != b[4];
      }
    }
  }

  /** `GetGlyphsOf`: the glyph set of a preset; a custom preset has none. */
  function GetGlyphsOf(preset: ThaiGlyphPreset): (r: seq<char>)
    ensures |r| == 0 <==> preset == Custom
    ensures preset == ThanThaKhaat ==> r == [thanThaKhaat]
    ensures preset == SaraAum ==> r == [saraAum]
  {
    match preset
    case AllConsonants => allConsonants
    case AscenderConsonants => ascenderConsonants
    case DescenderConsonants => descenderConsonants
    case AllUpperGlyphs => allUpperGlyphs
    case UpperVowels => upperVowels
    case ToneMarks => toneMarks
    case ThanThaKhaat => [thanThaKhaat]
    case LeadingVowels => leadingVowels
    case AllFollowingVowels => allFollowingVowels
    case SaraAum => [saraAum]
    case LowerVowels => lowerVowels
    case Custom => []
  }

  /** The upper glyphs include the upper vowels, the tone marks and the thanthakhat. */
  lemma UpperGlyphsCover(c: char)
    ensures c in upperVowels || c in toneMarks || c == thanThaKhaat ==> c in allUpperGlyphs
  {
  }

  /** The ascender and descender consonants are consonants. */
  lemma TailedConsonantsAreConsonants(c: char)
    ensures c in ascenderConsonants || c in descenderConsonants ==> c in allConsonants
  {
  }
}
