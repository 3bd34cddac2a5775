/**
  The font doctor: it writes the placements of its enabled glyph combinations into the glyph-pair
  adjustment table of a font asset, remembers the records it wrote, and removes those again
  before the next application.

  A pair record is a value: the glyph index and value record of each of its two glyphs. The
  doctor reads its combinations only for their enabled flag, glyph strings and placements, so it
  holds them as values (`CombinationSettings`); `Snapshot` takes those values from a
  `GlyphCombination` object.
*/
module FontDoctor {
  import opened Wrappers
  import opened Text
  import opened Lists
  import opened GlyphGroups

  /** `GlyphValueRecord`: how one glyph of a pair is placed and advanced. */
  datatype ValueRecord = ValueRecord(xPlacement: real, yPlacement: real, xAdvance: real, yAdvance: real)

  const zeroValue := ValueRecord(0.0, 0.0, 0.0, 0.0)

  /** `GlyphAdjustmentRecord`. */
  datatype AdjustmentRecord = AdjustmentRecord(glyphIndex: nat, glyphValueRecord: ValueRecord)

  /** `GlyphPairAdjustmentRecord`. */
  datatype PairRecord = PairRecord(first: AdjustmentRecord, second: AdjustmentRecord)

  /** An entry of a font's character table: a character and the glyph drawing it. */
  datatype CharacterEntry = CharacterEntry(unicode: char, glyphIndex: nat)

  /** The glyph string and placement of a glyph group. */
  datatype GroupSettings = GroupSettings(glyphs: string, xPlacement: real, yPlacement: real)

  /** The enabled flag and the two groups of a glyph combination. */
  datatype CombinationSettings = CombinationSettings(isEnabled: bool, first: GroupSettings, second: GroupSettings)

  /** The three results of `TryGetGlyphIndex`. */
  datatype GlyphLookup = GlyphLookup(found: bool, glyphIndex: nat, characterIndex: int)

  /** The pair of glyph indices a pair record adjusts. */
  type Key = (nat, nat)

  function KeyOf(record: PairRecord): Key {
    (record.first.glyphIndex, record.second.glyphIndex)
  }

  /** The font's pair records and the doctor's cached pair list. */
  datatype Table = Table(records: seq<PairRecord>, cache: seq<PairRecord>)

  /** The settings of a combination object; `None` where the doctor would dereference `null`. */
  function Snapshot(combination: GlyphCombination): (r: Option<CombinationSettings>)
    reads combination, combination.first, combination.second
    ensures r.Some? <==> combination.first != null && combination.second != null
                         && combination.first.glyphs.Some? && combination.second.glyphs.Some?
    ensures r.Some? ==> r.value.isEnabled == combination.isEnabled
                        && r.value.first.glyphs == combination.first.glyphs.value
                        && r.value.second.glyphs == combination.second.glyphs.value
  {
    if combination.first == null || combination.second == null then None
    else if combination.first.glyphs.None? || combination.second.glyphs.None? then None
    else
      var first := combination.first;
      var second := combination.second;
      Some(CombinationSettings(combination.isEnabled,
                               GroupSettings(first.glyphs.value, first.xPlacement, first.yPlacement),
                               GroupSettings(second.glyphs.value, second.xPlacement, second.yPlacement)))
  }

  // ---------------------------------------------------------------------------------------------
  // Character lookup

  /**
    `TryGetGlyphIndex`: the glyph index and position of the first table entry for the character;
    without one, not found, with glyph index 0 and position -1.
  */
  function TryGetGlyphIndex(characterTable: seq<CharacterEntry>, character: char): (r: GlyphLookup)
    ensures r.found <==> exists k :: 0 <= k < |characterTable| && characterTable[k].unicode == character
    ensures r.found ==>
      && 0 <= r.characterIndex < |characterTable|
      && characterTable[r.characterIndex].unicode == character
      && r.glyphIndex == characterTable[r.characterIndex].glyphIndex
      && (forall k :: 0 <= k < r.characterIndex ==> characterTable[k].unicode != character)
    ensures !r.found ==> r.glyphIndex == 0 && r.characterIndex == -1
  {
    if |characterTable| == 0 then GlyphLookup(false, 0, -1)
    else if characterTable[0].unicode == character then GlyphLookup(true, characterTable[0].glyphIndex, 0)
    else
      var rest := TryGetGlyphIndex(characterTable[1..], character);
      assert forall k :: 1 <= k < |characterTable| ==> characterTable[k] == characterTable[1..][k - 1];
      if rest.found then rest.(characterIndex := rest.characterIndex + 1) else rest
  }

  // ---------------------------------------------------------------------------------------------
  // The pairs a combination adjusts

  /** The pairs of one target glyph with each pair character the font has, in order. */
  function PairRow(characterTable: seq<CharacterEntry>, target: nat, partners: string): (r: seq<Key>)
    ensures |r| <= |partners|
  {
    if |partners| == 0 then []
    else
      var last := TryGetGlyphIndex(characterTable, partners[|partners| - 1]);
      PairRow(characterTable, target, partners[..|partners| - 1])
        + (if last.found then [(target, last.glyphIndex)] else [])
  }

  /**
    The glyph-index pairs `InjectCombination` visits, in order: every target character the font
    has, with every pair character the font has.
  */
  function InjectedPairs(characterTable: seq<CharacterEntry>, targets: string, partners: string): seq<Key> {
    if |targets| == 0 then []
    else
      var last := TryGetGlyphIndex(characterTable, targets[|targets| - 1]);
      InjectedPairs(characterTable, targets[..|targets| - 1], partners)
        + (if last.found then PairRow(characterTable, last.glyphIndex, partners) else [])
  }

  /** Some character of `chars` is drawn by glyph `g` of the font. */
  predicate DrawnBy(characterTable: seq<CharacterEntry>, chars: string, g: nat) {
    exists i :: 0 <= i < |chars| && TryGetGlyphIndex(characterTable, chars[i]).found
                && TryGetGlyphIndex(characterTable, chars[i]).glyphIndex == g
  }

  lemma {:induction false} PairRowMembers(characterTable: seq<CharacterEntry>, target: nat, partners: string, q: Key)
    ensures q in PairRow(characterTable, target, partners) <==> q.0 == target && DrawnBy(characterTable, partners, q.1)
  {
    if |partners| > 0 {
      var init := partners[..|partners| - 1];
      PairRowMembers(characterTable, target, init, q);
      if DrawnBy(characterTable, partners, q.1) {
        var i :| 0 <= i < |partners| && TryGetGlyphIndex(characterTable, partners[i]).found
                 && TryGetGlyphIndex(characterTable, partners[i]).glyphIndex == q.1;
        if i < |init| {
          assert init[i] == partners[i];
        }
      }
      if DrawnBy(characterTable, init, q.1) {
        var i :| 0 <= i < |init| && TryGetGlyphIndex(characterTable, init[i]).found
                 && TryGetGlyphIndex(characterTable, init[i]).glyphIndex == q.1;
        assert partners[i] == init[i];
      }
    }
  }

  /**
    The pairs `InjectCombination` visits are the Cartesian product of the glyphs drawing the
    target characters and the glyphs drawing the pair characters.
  */
  lemma {:induction false} InjectedPairsAreProduct(characterTable: seq<CharacterEntry>, targets: string,
                                                   partners: string, q: Key)
    ensures q in InjectedPairs(characterTable, targets, partners) <==>
      DrawnBy(characterTable, targets, q.0) && DrawnBy(characterTable, partners, q.1)
  {
    if |targets| > 0 {
      var init := targets[..|targets| - 1];
      var last := TryGetGlyphIndex(characterTable, targets[|targets| - 1]);
      InjectedPairsAreProduct(characterTable, init, partners, q);
      if last.found {
        PairRowMembers(characterTable, last.glyphIndex, partners, q);
      }
      if DrawnBy(characterTable, targets, q.0) {
        var i :| 0 <= i < |targets| && TryGetGlyphIndex(characterTable, targets[i]).found
                 && TryGetGlyphIndex(characterTable, targets[i]).glyphIndex == q.0;
        if i < |init| {
          assert init[i] == targets[i];
        }
      }
      if DrawnBy(characterTable, init, q.0) {
        var i :| 0 <= i < |init| && TryGetGlyphIndex(characterTable, init[i]).found
                 && TryGetGlyphIndex(characterTable, init[i]).glyphIndex == q.0;
        assert targets[i] == init[i];
      }
    }
  }

  /** At most one pair per target character and pair character. */
  lemma {:induction false} InjectedPairsBound(characterTable: seq<CharacterEntry>, targets: string, partners: string)
    ensures |InjectedPairs(characterTable, targets, partners)| <= |targets| * |partners|
  {
    if |targets| > 0 {
      var init := targets[..|targets| - 1];
      InjectedPairsBound(characterTable, init, partners);
      assert |InjectedPairs(characterTable, targets, partners)|
          <= |InjectedPairs(characterTable, init, partners)| + |partners|;
      MultiplySuccessor(|init|, |partners|);
    }
  }

  /** The pairs a combination adjusts: its trimmed glyph strings, crossed. */
  function CombinationPairs(characterTable: seq<CharacterEntry>, c: CombinationSettings): seq<Key> {
    InjectedPairs(characterTable, Trim(c.first.glyphs), Trim(c.second.glyphs))
  }

  /** A combination adjusts no more pairs than its variant count. */
  lemma VariantCountBoundsPairs(characterTable: seq<CharacterEntry>, combination: GlyphCombination)
    requires Snapshot(combination).Some?
    ensures |CombinationPairs(characterTable, Snapshot(combination).value)| <= combination.VariantCount()
  {
    var c := Snapshot(combination).value;
    var a := Trim(c.first.glyphs);
    var b := Trim(c.second.glyphs);
    InjectedPairsBound(characterTable, a, b);
    ProductMonotone(|a|, |c.first.glyphs|, |b|, |c.second.glyphs|);
  }

  /** Arithmetic step kept apart so that the solver sees one product at a time. */
  lemma MultiplySuccessor(n: nat, p: nat)
    ensures n * p + p == (n + 1) * p
  {
  }

  /** Arithmetic step kept apart so that the solver sees one product at a time. */
  lemma ProductMonotone(a: nat, a': nat, b: nat, b': nat)
    requires a <= a' && b <= b'
    ensures a * b <= a' * b'
  {
    assert a * b <= a' * b;
    assert a' * b <= a' * b';
  }

  // ---------------------------------------------------------------------------------------------
  // The table updates

  /** The records adjusting the pair `q`, in table order. */
  function Keyed(records: seq<PairRecord>, q: Key): (r: seq<PairRecord>)
    ensures |r| <= |records|
    ensures (forall k :: 0 <= k < |records| ==> KeyOf(records[k]) != q) ==> r == []
  {
    if |records| == 0 then []
    else
      var last := records[|records| - 1];
      Keyed(records[..|records| - 1], q) + (if KeyOf(last) == q then [last] else [])
  }

  /** The first record adjusting the pair, if any. */
  function FindPair(records: seq<PairRecord>, key: Key): (r: Option<nat>)
    ensures r.Some? ==> r.value < |records| && KeyOf(records[r.value]) == key
                        && forall k :: 0 <= k < r.value ==> KeyOf(records[k]) != key
    ensures r.None? ==> forall k :: 0 <= k < |records| ==> KeyOf(records[k]) != key
  {
    if |records| == 0 then None
    else if KeyOf(records[0]) == key then Some(0)
    else
      match FindPair(records[1..], key)
      case None => None
      case Some(i) => Some(i + 1)
  }

  /** A record for the pair with zero value records. */
  function ZeroPair(key: Key): PairRecord {
    PairRecord(AdjustmentRecord(key.0, zeroValue), AdjustmentRecord(key.1, zeroValue))
  }

  /**
    `GetPairAdjustmentRecord` on a table: the table afterwards and the record returned, the first
    record for the pair, or a zero record for it appended to the table.
  */
  function GetPair(records: seq<PairRecord>, key: Key): (seq<PairRecord>, PairRecord) {
    match FindPair(records, key)
    case Some(i) => (records, records[i])
    case None => (records + [ZeroPair(key)], ZeroPair(key))
  }

  /** `ApplyPlacement`: the record's values with the group's placement. */
  function ApplyPlacement(group: GroupSettings, record: AdjustmentRecord): (r: ValueRecord)
    ensures r.xPlacement == group.xPlacement && r.yPlacement == group.yPlacement
    ensures r.xAdvance == record.glyphValueRecord.xAdvance && r.yAdvance == record.glyphValueRecord.yAdvance
  {
    record.glyphValueRecord.(xPlacement := group.xPlacement, yPlacement := group.yPlacement)
  }

  /** The pair record with the combination's placements: same glyphs, same advances. */
  function Modified(pair: PairRecord, c: CombinationSettings): (r: PairRecord)
    ensures KeyOf(r) == KeyOf(pair)
    ensures Carries(r, c)
  {
    PairRecord(pair.first.(glyphValueRecord := ApplyPlacement(c.first, pair.first)),
               pair.second.(glyphValueRecord := ApplyPlacement(c.second, pair.second)))
  }

  /** The record places its two glyphs as the combination's two groups say. */
  predicate Carries(r: PairRecord, c: CombinationSettings) {
    && r.first.glyphValueRecord.xPlacement == c.first.xPlacement
    && r.first.glyphValueRecord.yPlacement == c.first.yPlacement
    && r.second.glyphValueRecord.xPlacement == c.second.xPlacement
    && r.second.glyphValueRecord.yPlacement == c.second.yPlacement
  }

  /** A later placement overrides an earlier one and keeps the advances. */
  lemma ModifiedOverrides(pair: PairRecord, earlier: CombinationSettings, later: CombinationSettings)
    ensures Modified(Modified(pair, earlier), later) == Modified(pair, later)
  {
  }

  /** `ModifyPair`: the record's modified copy replaces it at the end of the table, and is cached. */
  function ModifyPairStep(st: Table, pair: PairRecord, c: CombinationSettings): Table {
    var modified := Modified(pair, c);
    Table(RemoveFirst(st.records, pair) + [modified], st.cache + [modified])
  }

  /** One pair of `InjectCombination`: the record found or added, then modified. */
  function InjectPair(st: Table, key: Key, c: CombinationSettings): Table {
    var (records, pair) := GetPair(st.records, key);
    ModifyPairStep(Table(records, st.cache), pair, c)
  }

  /** The pairs injected one after the other. */
  function InjectAll(st: Table, keys: seq<Key>, c: CombinationSettings): Table {
    if |keys| == 0 then st
    else InjectPair(InjectAll(st, keys[..|keys| - 1], c), keys[|keys| - 1], c)
  }

  /** `InjectCombination`: every pair the combination adjusts, injected in order. */
  function InjectCombinationStep(st: Table, characterTable: seq<CharacterEntry>, c: CombinationSettings): Table {
    InjectAll(st, CombinationPairs(characterTable, c), c)
  }

  /** The combinations injected one after the other. */
  function ApplyCombinations(st: Table, characterTable: seq<CharacterEntry>, combos: seq<CombinationSettings>): Table {
    if |combos| == 0 then st
    else InjectCombinationStep(ApplyCombinations(st, characterTable, combos[..|combos| - 1]), characterTable,
                               combos[|combos| - 1])
  }

  /** The enabled combinations, in order. */
  function Enabled(combos: seq<CombinationSettings>): (r: seq<CombinationSettings>)
    ensures |r| <= |combos|
    ensures forall k :: 0 <= k < |r| ==> r[k].isEnabled && r[k] in combos
    ensures forall c :: c in combos && c.isEnabled ==> c in r
  {
    if |combos| == 0 then []
    else (if combos[0].isEnabled then [combos[0]] else []) + Enabled(combos[1..])
  }

  /** `RemoveAll` of the records for one pair. */
  function RemoveKey(records: seq<PairRecord>, key: Key): seq<PairRecord> {
    if |records| == 0 then []
    else
      var last := records[|records| - 1];
      RemoveKey(records[..|records| - 1], key) + (if KeyOf(last) == key then [] else [last])
  }

  /** `DisposeCachedPairs` on a table: the records for every cached pair removed. */
  function RemoveCachedKeys(records: seq<PairRecord>, cache: seq<PairRecord>): seq<PairRecord> {
    if |cache| == 0 then records
    else RemoveKey(RemoveCachedKeys(records, cache[..|cache| - 1]), KeyOf(cache[|cache| - 1]))
  }

  // ---------------------------------------------------------------------------------------------
  // What the updates do to the records of one pair

  lemma {:induction false} KeyedAppend(a: seq<PairRecord>, b: seq<PairRecord>, q: Key)
    ensures Keyed(a + b, q) == Keyed(a, q) + Keyed(b, q)
    decreases |b|
  {
    if |b| == 0 {
      assert a + b == a;
    } else {
      var init := b[..|b| - 1];
      assert (a + b)[..|a + b| - 1] == a + init;
      KeyedAppend(a, init, q);
    }
  }

  lemma KeyedOne(x: PairRecord, q: Key)
    ensures Keyed([x], q) == if KeyOf(x) == q then [x] else []
  {
    assert [x][..0] == [];
  }

  /** Removing a record leaves the records of the other pairs. */
  lemma KeyedRemoveOther(records: seq<PairRecord>, x: PairRecord, q: Key)
    requires x in records && KeyOf(x) != q
    ensures Keyed(RemoveFirst(records, x), q) == Keyed(records, q)
  {
    var a, b := RemoveFirstSplit(records, x);
    KeyedAppend(a + [x], b, q);
    KeyedAppend(a, [x], q);
    KeyedAppend(a, b, q);
    KeyedOne(x, q);
    assert Keyed(a, q) + [] == Keyed(a, q);
  }

  lemma RemoveFirstAppended(records: seq<PairRecord>, z: PairRecord)
    requires z !in records
    ensures RemoveFirst(records + [z], z) == records
  {
    var s := records + [z];
    assert forall k :: 0 <= k < |records| ==> s[k] == records[k];
    var i := FirstIndex(s, z);
    assert i == |records|;
    assert s[..i] == records;
  }

  lemma KeyedSnoc(records: seq<PairRecord>, m: PairRecord, q: Key)
    ensures Keyed(records + [m], q) == Keyed(records, q) + (if KeyOf(m) == q then [m] else [])
  {
    assert (records + [m])[..|records|] == records;
  }

  /** The record the next injection of a pair starts from: its present record, or a zero record. */
  function BaseFor(records: seq<PairRecord>, q: Key): PairRecord {
    if |Keyed(records, q)| == 0 then ZeroPair(q) else Keyed(records, q)[0]
  }

  /** Injecting one pair leaves the records of every other pair as they were. */
  lemma InjectPairOther(st: Table, key: Key, c: CombinationSettings, q: Key)
    requires q != key
    ensures Keyed(InjectPair(st, key, c).records, q) == Keyed(st.records, q)
    ensures Keyed(InjectPair(st, key, c).cache, q) == Keyed(st.cache, q)
  {
    var (records, pair) := GetPair(st.records, key);
    var modified := Modified(pair, c);
    KeyedSnoc(RemoveFirst(records, pair), modified, q);
    KeyedSnoc(st.cache, modified, q);
    match FindPair(st.records, key)
    case Some(i) =>
      KeyedRemoveOther(st.records, pair, q);
    case None =>
      RemoveFirstAppended(st.records, pair);
  }

  /**
    Removing the first record of a pair, with none of its pair before it, leaves the later
    records of the pair.
  */
  lemma KeyedSplitFirst(a: seq<PairRecord>, x: PairRecord, b: seq<PairRecord>)
    requires Keyed(a, KeyOf(x)) == []
    ensures Keyed(a + [x] + b, KeyOf(x)) == [x] + Keyed(a + b, KeyOf(x))
  {
    var q := KeyOf(x);
    KeyedAppend(a + [x], b, q);
    KeyedAppend(a, [x], q);
    KeyedAppend(a, b, q);
    KeyedOne(x, q);
    assert Keyed(a + [x], q) == [x] by {
      assert [] + [x] == [x];
    }
    assert Keyed(a + b, q) == Keyed(b, q) by {
      assert [] + Keyed(b, q) == Keyed(b, q);
    }
  }

  /**
    When no earlier record has the same pair, the record at `i` is the first equal to it, and
    the records before it hold none of its pair.
  */
  lemma RemoveFirstAt(records: seq<PairRecord>, i: nat) returns (a: seq<PairRecord>, b: seq<PairRecord>)
    requires i < |records| && forall k :: 0 <= k < i ==> KeyOf(records[k]) != KeyOf(records[i])
    ensures records == a + [records[i]] + b && RemoveFirst(records, records[i]) == a + b
    ensures Keyed(a, KeyOf(records[i])) == []
  {
    var x := records[i];
    a, b := records[..i], records[i + 1..];
    var f := FirstIndex(records, x);
    assert KeyOf(records[f]) == KeyOf(x);
    assert f == i;
    assert records == a + [x] + b;
    assert forall k :: 0 <= k < |a| ==> a[k] == records[k];
  }

  /**
    Injecting a pair replaces its first record (or a zero record when it has none) by a copy
    with the combination's placement at the end of the table, keeping any later duplicates;
    and caches that copy.
  */
  lemma InjectPairSame(st: Table, key: Key, c: CombinationSettings)
    ensures var before := Keyed(st.records, key);
      Keyed(InjectPair(st, key, c).records, key) == (if before == [] then [] else before[1..]) + [Modified(BaseFor(st.records, key), c)]
    ensures Keyed(InjectPair(st, key, c).cache, key) == Keyed(st.cache, key) + [Modified(BaseFor(st.records, key), c)]
  {
    var (records, pair) := GetPair(st.records, key);
    var modified := Modified(pair, c);
    KeyedSnoc(RemoveFirst(records, pair), modified, key);
    KeyedSnoc(st.cache, modified, key);
    match FindPair(st.records, key)
    case Some(i) =>
      var a, b := RemoveFirstAt(st.records, i);
      KeyedSplitFirst(a, pair, b);
    case None =>
      RemoveFirstAppended(st.records, pair);
  }

  /** With at most one record for the pair, injecting it leaves exactly one. */
  lemma InjectPairOnly(st: Table, key: Key, c: CombinationSettings)
    requires |Keyed(st.records, key)| <= 1
    ensures Keyed(InjectPair(st, key, c).records, key) == [Modified(BaseFor(st.records, key), c)]
  {
    InjectPairSame(st, key, c);
    var before := Keyed(st.records, key);
    assert (if before == [] then [] else before[1..]) == [];
  }

  /**
    After injecting a sequence of pairs, a pair among them has exactly one record, the one it
    started from with the combination's placement; any other pair keeps its records. A pair is
    cached afterwards exactly when it was cached before or was injected.
  */
  lemma {:induction false} InjectAllEffect(st: Table, keys: seq<Key>, c: CombinationSettings, q: Key)
    requires |Keyed(st.records, q)| <= 1
    ensures q in keys ==> Keyed(InjectAll(st, keys, c).records, q) == [Modified(BaseFor(st.records, q), c)]
    ensures q !in keys ==> Keyed(InjectAll(st, keys, c).records, q) == Keyed(st.records, q)
    ensures Keyed(InjectAll(st, keys, c).cache, q) != [] <==> Keyed(st.cache, q) != [] || q in keys
  {
    if |keys| > 0 {
      var init := keys[..|keys| - 1];
      var key := keys[|keys| - 1];
      var mid := InjectAll(st, init, c);
      InjectAllEffect(st, init, c, q);
      assert q in keys <==> q in init || q == key;
      if key == q {
        InjectPairSame(mid, key, c);
        InjectPairOnly(mid, key, c);
        if q in init {
          ModifiedOverrides(BaseFor(st.records, q), c, c);
        }
      } else {
        InjectPairOther(mid, key, c, q);
      }
    }
  }

  /** The last of the combinations that adjusts pair `q`, if any. */
  function LastCovering(characterTable: seq<CharacterEntry>, combos: seq<CombinationSettings>, q: Key): (r: Option<nat>)
    ensures r.Some? ==>
      && r.value < |combos|
      && q in CombinationPairs(characterTable, combos[r.value])
      && forall k :: r.value < k < |combos| ==> q !in CombinationPairs(characterTable, combos[k])
    ensures r.None? ==> forall k :: 0 <= k < |combos| ==> q !in CombinationPairs(characterTable, combos[k])
  {
    if |combos| == 0 then None
    else if q in CombinationPairs(characterTable, combos[|combos| - 1]) then Some(|combos| - 1)
    else
      var r := LastCovering(characterTable, combos[..|combos| - 1], q);
      assert forall k :: 0 <= k < |combos| - 1 ==> combos[k] == combos[..|combos| - 1][k];
      r
  }

  /**
    After the combinations are applied in order, a pair some combination adjusts has exactly one
    record: the one it started from, placed as the last combination adjusting it says; any other
    pair keeps its records. A pair is cached afterwards exactly when it was before or was adjusted.
  */
  lemma {:induction false} ApplyCombinationsEffect(st: Table, characterTable: seq<CharacterEntry>,
                                                   combos: seq<CombinationSettings>, q: Key)
    requires |Keyed(st.records, q)| <= 1
    ensures var after := ApplyCombinations(st, characterTable, combos);
      match LastCovering(characterTable, combos, q)
      case Some(j) => Keyed(after.records, q) == [Modified(BaseFor(st.records, q), combos[j])]
      case None => Keyed(after.records, q) == Keyed(st.records, q)
    ensures Keyed(ApplyCombinations(st, characterTable, combos).cache, q) != [] <==>
      Keyed(st.cache, q) != [] || LastCovering(characterTable, combos, q).Some?
  {
    if |combos| > 0 {
      var init := combos[..|combos| - 1];
      var c := combos[|combos| - 1];
      var mid := ApplyCombinations(st, characterTable, init);
      ApplyCombinationsEffect(st, characterTable, init, q);
      assert |Keyed(mid.records, q)| <= 1;
      InjectAllEffect(mid, CombinationPairs(characterTable, c), c, q);
      var before := LastCovering(characterTable, init, q);
      if q in CombinationPairs(characterTable, c) {
        if before.Some? {
          ModifiedOverrides(BaseFor(st.records, q), init[before.value], c);
        }
      } else {
        assert LastCovering(characterTable, combos, q) == before;
        if before.Some? {
          assert combos[before.value] == init[before.value];
        }
      }
    }
  }

  lemma {:induction false} RemoveKeyKeyed(records: seq<PairRecord>, key: Key, q: Key)
    ensures Keyed(RemoveKey(records, key), q) == if q == key then [] else Keyed(records, q)
  {
    if |records| > 0 {
      var init := records[..|records| - 1];
      var last := records[|records| - 1];
      RemoveKeyKeyed(init, key, q);
      KeyedAppend(RemoveKey(init, key), if KeyOf(last) == key then [] else [last], q);
      if KeyOf(last) != key {
        KeyedOne(last, q);
      }
    }
  }

  /** Disposing of the cached pairs removes every record of a cached pair and no other record. */
  lemma {:induction false} RemoveCachedKeyed(records: seq<PairRecord>, cache: seq<PairRecord>, q: Key)
    ensures Keyed(RemoveCachedKeys(records, cache), q) == if Keyed(cache, q) != [] then [] else Keyed(records, q)
  {
    if |cache| > 0 {
      var init := cache[..|cache| - 1];
      RemoveCachedKeyed(records, init, q);
      RemoveKeyKeyed(RemoveCachedKeys(records, init), KeyOf(cache[|cache| - 1]), q);
    }
  }

  lemma {:induction false} RemoveCachedFromEmpty(cache: seq<PairRecord>)
    ensures RemoveCachedKeys([], cache) == []
  {
    if |cache| > 0 {
      RemoveCachedFromEmpty(cache[..|cache| - 1]);
    }
  }

  /** The table `ApplyModifications` leaves, from the records and cache it starts with. */
  function Applied(records: seq<PairRecord>, cache: seq<PairRecord>, characterTable: seq<CharacterEntry>,
                   combos: seq<CombinationSettings>): Table {
    ApplyCombinations(Table(RemoveCachedKeys(records, cache), []), characterTable, Enabled(combos))
  }

  /**
    After `ApplyModifications`, a pair an enabled combination adjusts has exactly one record, with
    the placement of the last enabled combination adjusting it; it starts from the pair's record
    unless that was cached, and then from a zero record. Any other pair keeps its records unless
    they were cached, and then it has none. The cache then holds exactly the adjusted pairs.
  */
  lemma ApplyModificationsEffect(records: seq<PairRecord>, cache: seq<PairRecord>,
                                 characterTable: seq<CharacterEntry>, combos: seq<CombinationSettings>, q: Key)
    requires |Keyed(records, q)| <= 1
    ensures var after := Applied(records, cache, characterTable, combos);
      var base := if Keyed(cache, q) != [] then ZeroPair(q) else BaseFor(records, q);
      match LastCovering(characterTable, Enabled(combos), q)
      case Some(j) => Keyed(after.records, q) == [Modified(base, Enabled(combos)[j])]
      case None => Keyed(after.records, q) == if Keyed(cache, q) != [] then [] else Keyed(records, q)
    ensures Keyed(Applied(records, cache, characterTable, combos).cache, q) != [] <==>
      LastCovering(characterTable, Enabled(combos), q).Some?
  {
    var start := Table(RemoveCachedKeys(records, cache), []);
    RemoveCachedKeyed(records, cache, q);
    ApplyCombinationsEffect(start, characterTable, Enabled(combos), q);
  }

  /**
    Applying the modifications a second time rebuilds every adjusted pair from a zero record,
    so the advances a pair had in the font before the first application are gone; pairs no
    enabled combination adjusts stay as the first application left them.
  */
  lemma ReapplyStartsFromZero(records: seq<PairRecord>, cache: seq<PairRecord>,
                              characterTable: seq<CharacterEntry>, combos: seq<CombinationSettings>, q: Key)
    requires |Keyed(records, q)| <= 1
    ensures var once := Applied(records, cache, characterTable, combos);
      var twice := Applied(once.records, once.cache, characterTable, combos);
      match LastCovering(characterTable, Enabled(combos), q)
      case Some(j) => Keyed(twice.records, q) == [Modified(ZeroPair(q), Enabled(combos)[j])]
      case None => Keyed(twice.records, q) == Keyed(once.records, q)
  {
    var once := Applied(records, cache, characterTable, combos);
    ApplyModificationsEffect(records, cache, characterTable, combos, q);
    ApplyModificationsEffect(once.records, once.cache, characterTable, combos, q);
  }

  /**
    After `CleanAndRebuild`, a pair an enabled combination adjusts has exactly one record, a zero
    record placed as the last enabled combination adjusting it says; no other pair has a record.
  */
  lemma RebuildEffect(characterTable: seq<CharacterEntry>, combos: seq<CombinationSettings>, q: Key)
    ensures var after := ApplyCombinations(Table([], []), characterTable, Enabled(combos));
      match LastCovering(characterTable, Enabled(combos), q)
      case Some(j) => Keyed(after.records, q) == [Modified(ZeroPair(q), Enabled(combos)[j])]
      case None => Keyed(after.records, q) == []
  {
    ApplyCombinationsEffect(Table([], []), characterTable, Enabled(combos), q);
  }

  // ---------------------------------------------------------------------------------------------
  // The font asset and the doctor

  /** The part of a TMP font asset the doctor uses. */
  class FontAsset {
    const characterTable: seq<CharacterEntry>
    /** `fontFeatureTable.glyphPairAdjustmentRecords`. */
    var pairRecords: seq<PairRecord>

    constructor (characterTable: seq<CharacterEntry>, pairRecords: seq<PairRecord>)
      ensures this.characterTable == characterTable && this.pairRecords == pairRecords
    {
      this.characterTable := characterTable;
      this.pairRecords := pairRecords;
    }
  }

  class ThaiFontDoctor {
    const fontAsset: FontAsset?
    const glyphCombinationList: seq<CombinationSettings>
    var cachedPairList: seq<PairRecord>

    constructor (fontAsset: FontAsset?, glyphCombinationList: seq<CombinationSettings>)
      ensures this.fontAsset == fontAsset && this.glyphCombinationList == glyphCombinationList
      ensures cachedPairList == []
    {
      this.fontAsset := fontAsset;
      this.glyphCombinationList := glyphCombinationList;
      cachedPairList := [];
    }

    function State(): Table
      reads this, fontAsset
      requires fontAsset != null
    {
      Table(fontAsset.pairRecords, cachedPairList)
    }

    /**
      `ApplyModifications`: nothing without a font asset; otherwise the cached pairs are
      disposed of and the enabled combinations injected in list order.
    */
    method ApplyModifications()
      modifies this, fontAsset
      ensures fontAsset == null ==> cachedPairList == old(cachedPairList)
      ensures fontAsset != null ==>
        State() == Applied(old(fontAsset.pairRecords), old(cachedPairList), fontAsset.characterTable,
                           glyphCombinationList)
    {
      if fontAsset == null {
        return;
      }
      DisposeCachedPairs();
      var enabledCombinations := Enabled(glyphCombinationList);
      ghost var start := State();
      for k := 0 to |enabledCombinations|
        invariant State() == ApplyCombinations(start, fontAsset.characterTable, enabledCombinations[..k])
      {
        ApplyCombinationsStep(start, fontAsset.characterTable, enabledCombinations, k);
        InjectCombination(enabledCombinations[k]);
      }
      assert enabledCombinations[..|enabledCombinations|] == enabledCombinations;
    }

    /** `DisposeCachedPairs`: every record of a cached pair removed; the cache emptied. */
    method DisposeCachedPairs()
      requires fontAsset != null
      modifies this, fontAsset
      ensures fontAsset.pairRecords == RemoveCachedKeys(old(fontAsset.pairRecords), old(cachedPairList))
      ensures cachedPairList == []
    {
      var i := 0;
      while i < |cachedPairList|
        invariant 0 <= i <= |cachedPairList| && cachedPairList == old(cachedPairList)
        invariant fontAsset.pairRecords == RemoveCachedKeys(old(fontAsset.pairRecords), cachedPairList[..i])
      {
        assert cachedPairList[..i + 1][..i] == cachedPairList[..i];
        var pairRecord := cachedPairList[i];
        fontAsset.pairRecords := RemoveKey(fontAsset.pairRecords, KeyOf(pairRecord));
        i := i + 1;
      }
      assert cachedPairList[..i] == cachedPairList;
      cachedPairList := [];
    }

    /**
      `InjectCombination`: for every trimmed target character the font has, and every trimmed
      pair character the font has, the pair's record is found or added, then modified.
    */
    method InjectCombination(combination: CombinationSettings)
      requires fontAsset != null
      modifies this, fontAsset
      ensures State() == InjectCombinationStep(old(State()), fontAsset.characterTable, combination)
    {
      var characterTable := fontAsset.characterTable;
      var targetCharacters := Trim(combination.first.glyphs);
      var pairCharacters := Trim(combination.second.glyphs);
      ghost var start := State();
      ghost var visited: seq<Key> := [];
      var i := 0;
      while i < |targetCharacters|
        invariant 0 <= i <= |targetCharacters|
        invariant visited == InjectedPairs(characterTable, targetCharacters[..i], pairCharacters)
        invariant State() == InjectAll(start, visited, combination)
      {
        var target := TryGetGlyphIndex(characterTable, targetCharacters[i]);
        if target.found {
          visited := InjectRow(start, visited, target.glyphIndex, pairCharacters, combination);
        }
        PairsStep(characterTable, targetCharacters, pairCharacters, i);
        i := i + 1;
      }
      assert targetCharacters[..i] == targetCharacters;
    }

    /**
      The inner loop of `InjectCombination`: the target glyph paired with every pair character
      the font has, each pair found or added, then modified.
    */
    method InjectRow(ghost start: Table, ghost done: seq<Key>, targetGlyphIndex: nat, pairCharacters: string,
                     combination: CombinationSettings)
      returns (ghost visited: seq<Key>)
      requires fontAsset != null && State() == InjectAll(start, done, combination)
      modifies this, fontAsset
      ensures visited == done + PairRow(fontAsset.characterTable, targetGlyphIndex, pairCharacters)
      ensures State() == InjectAll(start, visited, combination)
    {
      var characterTable := fontAsset.characterTable;
      visited := done;
      ghost var row: seq<Key> := [];
      var j := 0;
      while j < |pairCharacters|
        invariant 0 <= j <= |pairCharacters|
        invariant row == PairRow(characterTable, targetGlyphIndex, pairCharacters[..j])
        invariant visited == done + row
        invariant State() == InjectAll(start, visited, combination)
      {
        var pair := TryGetGlyphIndex(characterTable, pairCharacters[j]);
        RowStep(characterTable, targetGlyphIndex, pairCharacters, j);
        if pair.found {
          var targetPair := GetPairAdjustmentRecord(targetGlyphIndex, pair.glyphIndex);
          ModifyPair(targetPair, combination);
          InjectAllSnoc(start, visited, (targetGlyphIndex, pair.glyphIndex), combination);
          AppendAssociates(done, row, (targetGlyphIndex, pair.glyphIndex));
          visited := visited + [(targetGlyphIndex, pair.glyphIndex)];
          row := row + [(targetGlyphIndex, pair.glyphIndex)];
        }
        j := j + 1;
      }
      assert pairCharacters[..j] == pairCharacters;
    }

    /**
      `GetPairAdjustmentRecord`: the first record for the pair; without one, a zero record for
      the pair, appended to the table.
    */
    method GetPairAdjustmentRecord(firstGlyphIndex: nat, secondGlyphIndex: nat) returns (record: PairRecord)
      requires fontAsset != null
      modifies fontAsset
      ensures (fontAsset.pairRecords, record) == GetPair(old(fontAsset.pairRecords), (firstGlyphIndex, secondGlyphIndex))
    {
      var adjustmentRecords := fontAsset.pairRecords;
      var i := 0;
      while i < |adjustmentRecords|
        invariant 0 <= i <= |adjustmentRecords|
        invariant forall k :: 0 <= k < i ==> KeyOf(adjustmentRecords[k]) != (firstGlyphIndex, secondGlyphIndex)
      {
        var candidate := adjustmentRecords[i];
        if candidate.first.glyphIndex == firstGlyphIndex && candidate.second.glyphIndex == secondGlyphIndex {
          return candidate;
        }
        i := i + 1;
      }
      var firstAdjustment := AdjustmentRecord(firstGlyphIndex, zeroValue);
      var secondAdjustment := AdjustmentRecord(secondGlyphIndex, zeroValue);
      var newPairRecord := PairRecord(firstAdjustment, secondAdjustment);
      fontAsset.pairRecords := fontAsset.pairRecords + [newPairRecord];
      return newPairRecord;
    }

    /**
      `ModifyPair`: the record is removed from the table and its copy with the combination's
      placements appended to the table and to the cache.
    */
    method ModifyPair(pairRecord: PairRecord, glyphCombination: CombinationSettings)
      requires fontAsset != null
      modifies this, fontAsset
      ensures State() == ModifyPairStep(old(State()), pairRecord, glyphCombination)
    {
      var firstRecord := pairRecord.first;
      firstRecord := firstRecord.(glyphValueRecord := ApplyPlacement(glyphCombination.first, firstRecord));
      var secondRecord := pairRecord.second;
      secondRecord := secondRecord.(glyphValueRecord := ApplyPlacement(glyphCombination.second, secondRecord));
      var modifiedPair := PairRecord(firstRecord, secondRecord);
      fontAsset.pairRecords := RemoveFirst(fontAsset.pairRecords, pairRecord);
      fontAsset.pairRecords := fontAsset.pairRecords + [modifiedPair];
      cachedPairList := cachedPairList + [modifiedPair];
    }

    /**
      `CleanAndRebuild`: the whole pair table emptied, then the modifications applied. Without a
      font asset the source throws before changing anything (`thrown`).
    */
    method CleanAndRebuild() returns (thrown: bool)
      modifies this, fontAsset
      ensures thrown <==> fontAsset == null
      ensures thrown ==> cachedPairList == old(cachedPairList)
      ensures !thrown ==> State() == ApplyCombinations(Table([], []), fontAsset.characterTable, Enabled(glyphCombinationList))
    {
      if fontAsset == null {
        return true;
      }
      fontAsset.pairRecords := [];
      RemoveCachedFromEmpty(cachedPairList);
      ApplyModifications();
      thrown := false;
    }
  }

  lemma RowStep(characterTable: seq<CharacterEntry>, target: nat, partners: string, j: nat)
    requires j < |partners|
    ensures var l := TryGetGlyphIndex(characterTable, partners[j]);
      PairRow(characterTable, target, partners[..j + 1])
        == PairRow(characterTable, target, partners[..j]) + (if l.found then [(target, l.glyphIndex)] else [])
  {
    assert partners[..j + 1][..j] == partners[..j];
  }

  lemma PairsStep(characterTable: seq<CharacterEntry>, targets: string, partners: string, i: nat)
    requires i < |targets|
    ensures var l := TryGetGlyphIndex(characterTable, targets[i]);
      InjectedPairs(characterTable, targets[..i + 1], partners)
        == InjectedPairs(characterTable, targets[..i], partners)
           + (if l.found then PairRow(characterTable, l.glyphIndex, partners) else [])
  {
    assert targets[..i + 1][..i] == targets[..i];
  }

  lemma ApplyCombinationsStep(st: Table, characterTable: seq<CharacterEntry>, combos: seq<CombinationSettings>, k: nat)
    requires k < |combos|
    ensures ApplyCombinations(st, characterTable, combos[..k + 1])
         == InjectCombinationStep(ApplyCombinations(st, characterTable, combos[..k]), characterTable, combos[k])
  {
    assert combos[..k + 1][..k] == combos[..k];
  }

  /** Sequence step kept apart so that the loop's proof does not reason about concatenation. */
  lemma AppendAssociates(done: seq<Key>, row: seq<Key>, key: Key)
    ensures done + (row + [key]) == (done + row) + [key]
  {
  }

  lemma InjectAllSnoc(st: Table, keys: seq<Key>, key: Key, c: CombinationSettings)
    ensures InjectAll(st, keys + [key], c) == InjectPair(InjectAll(st, keys, c), key, c)
  {
    assert (keys + [key])[..|keys|] == keys;
  }
}
