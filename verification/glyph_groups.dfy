/**
  The font doctor's editable settings: a glyph group (a preset or custom glyph string with the
  placement to give its glyphs) and a glyph combination (two groups whose glyph pairs get
  adjusted, and an enabled flag).

  A `null` glyph string is `None`; a display name the source cannot compute because it would
  dereference `null` is `None` as well.
*/
module GlyphGroups {
  import opened Wrappers
  import opened Text
  import opened ThaiGlyphHelper

  /** Each glyph of the string shown on its own. */
  function DisplayedEach(glyphs: string): (r: seq<string>)
    ensures |r| == |glyphs|
    ensures forall k :: 0 <= k < |r| ==> r[k] == GetDisplayedString([glyphs[k]])
  {
    if |glyphs| == 0 then [] else [GetDisplayedString([glyphs[0]])] + DisplayedEach(glyphs[1..])
  }

  /**
    `GlyphGroup.DisplayName` of a group with this preset and glyph string: a preset's Thai name;
    for a custom group the single glyph's displayed string, or all of them bracketed.
  */
  function GroupDisplayName(preset: ThaiGlyphPreset, glyphs: Option<string>): Option<string> {
    if preset != Custom then Some(GetThaiGlyphGroupName(preset))
    else if glyphs.None? then None
    else
      var shown := DisplayedEach(glyphs.value);
      if |shown| == 1 then Some(shown[0]) else Some("[ " + Join(shown, ", ") + " ]")
  }

  /**
    A preset group is named after its preset whatever its glyphs; a custom group of one glyph is
    that glyph as displayed, dash included; an empty custom group shows empty brackets.
  */
  lemma DisplayNameCases(preset: ThaiGlyphPreset, glyphs: Option<string>)
    ensures preset != Custom ==> GroupDisplayName(preset, glyphs) == Some(GetThaiGlyphGroupName(preset))
    ensures preset == Custom && glyphs == Some("") ==> GroupDisplayName(preset, glyphs) == Some("[  ]")
    ensures preset == Custom && glyphs.Some? && |glyphs.value| == 1 ==>
      GroupDisplayName(preset, glyphs) == Some(GetDisplayedString(glyphs.value))
  {
    if preset == Custom && glyphs.Some? && |glyphs.value| == 1 {
      assert [glyphs.value[0]] == glyphs.value;
    }
    if preset == Custom && glyphs == Some("") {
      assert DisplayedEach("") == [];
      assert "[ " + Join([], ", ") + " ]" == "[  ]";
    }
  }

  /**
    A custom group of any number of glyphs other than one is shown in brackets, so it never
    shows the name of a preset.
  */
  lemma CustomListNeverLooksLikePreset(glyphs: string, preset: ThaiGlyphPreset)
    requires |glyphs| != 1
    ensures GroupDisplayName(Custom, Some(glyphs)) != Some(GetThaiGlyphGroupName(preset))
  {
    var shown := GroupDisplayName(Custom, Some(glyphs)).value;
    assert shown[0] == '[';
    GroupNamesDistinct(preset, preset);
    assert GetThaiGlyphGroupName(preset)[0] != '[';
  }

  class GlyphGroup {
    var preset: ThaiGlyphPreset
    var glyphs: Option<string>
    var xPlacement: real
    var yPlacement: real

    /** `GlyphCount`: the length of the glyph string, 0 when there is none. */
    function GlyphCount(): (r: nat)
      reads this
      ensures glyphs.None? ==> r == 0
      ensures glyphs.Some? ==> r == |glyphs.value|
    {
      if glyphs.Some? then |glyphs.value| else 0
    }

    function DisplayName(): Option<string>
      reads this
    {
      GroupDisplayName(preset, glyphs)
    }

    /** An empty custom group with no placement. */
    constructor ()
      ensures preset == Custom && glyphs == Some("")
      ensures xPlacement == 0.0 && yPlacement == 0.0
    {
      glyphs := Some("");
      preset := Custom;
      xPlacement := 0.0;
      yPlacement := 0.0;
    }

    /** A group with the preset, glyphs and placement of `group`. */
    constructor Copy(group: GlyphGroup)
      ensures preset == group.preset && glyphs == group.glyphs
      ensures xPlacement == group.xPlacement && yPlacement == group.yPlacement
    {
      glyphs := group.glyphs;
      preset := group.preset;
      xPlacement := group.xPlacement;
      yPlacement := group.yPlacement;
    }

    /**
      `AssignGroup`: takes the preset, and its glyphs when it has any; a custom preset keeps the
      glyphs the group had. Either way the group is then named after its preset or its glyphs.
    */
    method AssignGroup(value: ThaiGlyphPreset)
      modifies this
      ensures preset == value
      ensures value != Custom ==> glyphs == Some(GetGlyphsOf(value))
      ensures value == Custom ==> glyphs == old(glyphs)
      ensures xPlacement == old(xPlacement) && yPlacement == old(yPlacement)
      ensures value != Custom ==> GlyphCount() == |GetGlyphsOf(value)| > 0
    {
      preset := value;
      var presetGlyphs := GetGlyphsOf(preset);
      if |presetGlyphs| > 0 {
        glyphs := Some(presetGlyphs);
      }
    }
  }

  class GlyphCombination {
    var isEnabled: bool
    var first: GlyphGroup?
    var second: GlyphGroup?

    /** An enabled combination of two new, distinct, empty custom groups. */
    constructor ()
      ensures isEnabled
      ensures first != null && second != null && fresh(first) && fresh(second) && first != second
      ensures first.preset == Custom && first.glyphs == Some("")
      ensures second.preset == Custom && second.glyphs == Some("")
    {
      isEnabled := true;
      first := new GlyphGroup();
      second := new GlyphGroup();
    }

    /**
      A copy made of new groups equal in content to those of `combo`; the enabled flag is not
      copied, so every copy starts enabled.
    */
    constructor Copy(combo: GlyphCombination)
      requires combo.first != null && combo.second != null
      ensures isEnabled
      ensures first != null && second != null && fresh(first) && fresh(second)
      ensures first.preset == combo.first.preset && first.glyphs == combo.first.glyphs
      ensures first.xPlacement == combo.first.xPlacement && first.yPlacement == combo.first.yPlacement
      ensures second.preset == combo.second.preset && second.glyphs == combo.second.glyphs
      ensures second.xPlacement == combo.second.xPlacement && second.yPlacement == combo.second.yPlacement
    {
      isEnabled := true;
      first := new GlyphGroup.Copy(combo.first);
      second := new GlyphGroup.Copy(combo.second);
    }

    /** `DisplayName`: the two groups' names joined by " + "; `None` where a group or name is missing. */
    function DisplayName(): (r: Option<string>)
      reads this, first, second
      ensures r.Some? <==> first != null && second != null && first.DisplayName().Some? && second.DisplayName().Some?
      ensures r.Some? ==> r.value == first.DisplayName().value + " + " + second.DisplayName().value
    {
      if first == null || second == null then None
      else match (first.DisplayName(), second.DisplayName())
        case (Some(a), Some(b)) => Some(a + " + " + b)
        case _ => None
    }

    /** `VariantCount`: the number of glyph pairs the combination spans, 0 without both groups. */
    function VariantCount(): (r: nat)
      reads this, first, second
      ensures first == null || second == null ==> r == 0
      ensures first != null && second != null ==> r == first.GlyphCount() * second.GlyphCount()
    {
      if first == null || second == null then 0 else first.GlyphCount() * second.GlyphCount()
    }
  }
}
