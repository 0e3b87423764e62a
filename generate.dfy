/**
 * The plugin body (index.js:120-202): filter the configured font sizes and line heights,
 * add the alias of the default line height, and write one rule per combination of font
 * family, font size and line height into the utilities map.
 */
module Generate {
  import opened Wrappers
  import opened Rhythm
  import opened Warnings
  import opened Validate
  import opened Format
  import opened Names

  /** The declarations of one utility class; `fontFamily` is set only for a named family. */
  datatype Decls = Decls(fontSize: string, paddingTop: string, marginBottom: string, lineHeight: string,
                         fontFamily: Option<string>)

  // ---------------------------------------------------------------------------------------
  // setFontWithRhythm

  /** The line height snapped to the grid and the shift that puts the baseline on a grid line. */
  function SetFontWithRhythm(rhythmHeight: real, fontSizeRem: real, desiredLineHeight: real,
                             capHeightFraction: real): Decls
    requires rhythmHeight > 0.0
  {
    var lineHeightRem := RhythmLineHeight(rhythmHeight, capHeightFraction, fontSizeRem, desiredLineHeight);
    var shiftRem := RhythmShift(capHeightFraction, lineHeightRem, fontSizeRem);
    Decls(FormatRem(fontSizeRem), FormatRem(shiftRem), FormatRem(-shiftRem), FormatRem(lineHeightRem), None)
  }

  /** The rule's numbers, as exact rem values rounded to thousandths. */
  lemma SetFontWithRhythmValues(rhythmHeight: real, fontSizeRem: real, desiredLineHeight: real,
                                capHeightFraction: real)
    requires rhythmHeight > 0.0
    ensures var lh := RhythmLineHeight(rhythmHeight, capHeightFraction, fontSizeRem, desiredLineHeight);
      var shift := RhythmShift(capHeightFraction, lh, fontSizeRem);
      var d := SetFontWithRhythm(rhythmHeight, fontSizeRem, desiredLineHeight, capHeightFraction);
      && lh == fontSizeRem * capHeightFraction + 2.0 * shift
      && shift >= 0.0
      && d.fontSize == FormatThousandths(Thousandths(fontSizeRem))
      && d.paddingTop == FormatThousandths(Thousandths(shift))
      && d.marginBottom == FormatThousandths(Thousandths(-shift))
      && d.lineHeight == FormatThousandths(Thousandths(lh))
      && d.fontFamily.None?
  {
    ShiftOfRhythmLineHeight(rhythmHeight, capHeightFraction, fontSizeRem, desiredLineHeight);
  }

  /** The padding is never negative and parses back to the shift; the margin is never positive. */
  lemma PaddingAndMargin(rhythmHeight: real, fontSizeRem: real, desiredLineHeight: real,
                         capHeightFraction: real) returns (d: Decls, shift: real)
    requires rhythmHeight > 0.0
    ensures d == SetFontWithRhythm(rhythmHeight, fontSizeRem, desiredLineHeight, capHeightFraction)
    ensures shift == RhythmShift(capHeightFraction,
                                 RhythmLineHeight(rhythmHeight, capHeightFraction, fontSizeRem, desiredLineHeight),
                                 fontSizeRem)
    ensures d.paddingTop[0] != '-'
    ensures ParseRem(d.paddingTop) == Some(Thousandths(shift) as real / 1000.0)
    ensures Thousandths(-shift) <= 0
  {
    d := SetFontWithRhythm(rhythmHeight, fontSizeRem, desiredLineHeight, capHeightFraction);
    shift := RhythmShift(capHeightFraction,
                         RhythmLineHeight(rhythmHeight, capHeightFraction, fontSizeRem, desiredLineHeight),
                         fontSizeRem);
    ShiftOfRhythmLineHeight(rhythmHeight, capHeightFraction, fontSizeRem, desiredLineHeight);
    PaddingOf(d, shift);
  }

  /** Declarations shifted by an amount that is not negative: the padding has no sign and parses back. */
  lemma PaddingOf(d: Decls, shift: real)
    requires shift >= 0.0 && d.paddingTop == FormatRem(shift)
    ensures d.paddingTop[0] != '-'
    ensures ParseRem(d.paddingTop) == Some(Thousandths(shift) as real / 1000.0)
    ensures Thousandths(-shift) <= 0
  {
    FormatSign(Thousandths(shift));
    FormatRemRoundTrip(shift);
  }

  /** The plugin's `setFontWithRhythm` closure: the rhythm declarations for the configured row height. */
  function SetFontOf(rhythmHeight: PositiveReal): (real, real, real) -> Decls
  {
    (fontSizeRem, lineHeightFraction, capHeightFraction) =>
      SetFontWithRhythm(rhythmHeight, fontSizeRem, lineHeightFraction, capHeightFraction)
  }

  /** The rule of one combination: the declarations of `setFont`, and the raw family name for a named family. */
  function RuleOf(setFont: (real, real, real) -> Decls, family: (string, real), selector: string,
                  fontSize: (string, real), lineHeight: (string, real)): (rule: Decls)
    ensures selector != "" ==> rule.fontFamily == Some(family.0)
    ensures selector == "" ==> rule.fontFamily == setFont(fontSize.1, lineHeight.1, family.1).fontFamily
    ensures rule.(fontFamily := None) == setFont(fontSize.1, lineHeight.1, family.1).(fontFamily := None)
  {
    var rule := setFont(fontSize.1, lineHeight.1, family.1);
    if selector != "" then rule.(fontFamily := Some(family.0)) else rule
  }

  /** With the rhythm declarations, `fontFamily` is present exactly for a named family. */
  lemma RhythmRule(rhythmHeight: PositiveReal, family: (string, real), selector: string, fontSize: (string, real),
                   lineHeight: (string, real))
    ensures var rule := RuleOf(SetFontOf(rhythmHeight), family, selector, fontSize, lineHeight);
      && (rule.fontFamily.Some? <==> selector != "")
      && (rule.fontFamily.Some? ==> rule.fontFamily.value == family.0)
      && rule.(fontFamily := None) == SetFontWithRhythm(rhythmHeight, fontSize.1, lineHeight.1, family.1)
  {
    var d := SetFontWithRhythm(rhythmHeight, fontSize.1, lineHeight.1, family.1);
    assert SetFontOf(rhythmHeight)(fontSize.1, lineHeight.1, family.1) == d;
    assert d.fontFamily.None?;
  }

  // ---------------------------------------------------------------------------------------
  // The alias of the default line height

  /** `lineHeights.find(([k]) => k === key)`: the value of the first entry with that key. */
  function Find(entries: seq<(string, real)>, key: string): (r: Option<real>)
    ensures r.None? <==> forall i :: 0 <= i < |entries| ==> entries[i].0 != key
    ensures r.Some? ==> exists i :: 0 <= i < |entries| && entries[i] == (key, r.value) &&
                                   (forall j :: 0 <= j < i ==> entries[j].0 != key)
  {
    if entries == [] then None
    else if entries[0].0 == key then Some(entries[0].1)
    else
      Find(entries[1..], key)
  }

  /** A truthy `defaultLineHeight`: configured, and not the empty string. */
  predicate Truthy(defaultLineHeight: Option<string>)
  {
    defaultLineHeight.Some? && defaultLineHeight.value != ""
  }

  /** The line heights after the alias: an entry keyed `''` appended when the default names one. */
  function WithDefaultAlias(lineHeights: seq<(string, real)>, defaultLineHeight: Option<string>): seq<(string, real)>
  {
    if Truthy(defaultLineHeight) then
      match Find(lineHeights, defaultLineHeight.value)
      case Some(v) => lineHeights + [("", v)]
      case None => lineHeights
    else lineHeights
  }

  /**
   * The alias is appended at the end exactly when the default is truthy and names an entry;
   * it carries the first such entry's value and every other entry is left as it was.
   */
  lemma DefaultAlias(lineHeights: seq<(string, real)>, defaultLineHeight: Option<string>)
    ensures var r := WithDefaultAlias(lineHeights, defaultLineHeight);
      && r[..|lineHeights|] == lineHeights
      && (|r| == |lineHeights| + 1 <==>
            Truthy(defaultLineHeight) && exists i :: 0 <= i < |lineHeights| && lineHeights[i].0 == defaultLineHeight.value)
      && (|r| == |lineHeights| || |r| == |lineHeights| + 1)
    ensures var r := WithDefaultAlias(lineHeights, defaultLineHeight);
      |r| == |lineHeights| + 1 ==>
        r[|lineHeights|].0 == "" &&
        exists i :: 0 <= i < |lineHeights| && lineHeights[i] == (defaultLineHeight.value, r[|lineHeights|].1) &&
                    (forall j :: 0 <= j < i ==> lineHeights[j].0 != defaultLineHeight.value)
  {
    var r := WithDefaultAlias(lineHeights, defaultLineHeight);
    if Truthy(defaultLineHeight) && Find(lineHeights, defaultLineHeight.value).Some? {
      assert r == lineHeights + [("", Find(lineHeights, defaultLineHeight.value).value)];
      assert r[..|lineHeights|] == lineHeights;
    }
  }

  // ---------------------------------------------------------------------------------------
  // The combinations, in loop order

  /** The results of `cell` for one family and one font size with each line height, in order. */
  function LineRow<F, S, L, T>(cell: (F, S, L) -> T, family: F, fontSize: S, lineHeights: seq<L>): (row: seq<T>)
    ensures |row| == |lineHeights|
    ensures forall c :: 0 <= c < |lineHeights| ==> row[c] == cell(family, fontSize, lineHeights[c])
  {
    if lineHeights == [] then []
    else
      var n := |lineHeights| - 1;
      LineRow(cell, family, fontSize, lineHeights[..n]) + [cell(family, fontSize, lineHeights[n])]
  }

  /** The rows of one family, font size by font size. */
  function SizeBlock<F, S, L, T>(cell: (F, S, L) -> T, family: F, fontSizes: seq<S>, lineHeights: seq<L>): seq<T>
  {
    if fontSizes == [] then []
    else
      var n := |fontSizes| - 1;
      SizeBlock(cell, family, fontSizes[..n], lineHeights) + LineRow(cell, family, fontSizes[n], lineHeights)
  }

  /** The results of `cell` in the order of the three nested loops: family, then font size, then line height. */
  function Combos<F, S, L, T>(cell: (F, S, L) -> T, families: seq<F>, fontSizes: seq<S>, lineHeights: seq<L>): seq<T>
  {
    if families == [] then []
    else
      var n := |families| - 1;
      Combos(cell, families[..n], fontSizes, lineHeights) + SizeBlock(cell, families[n], fontSizes, lineHeights)
  }

  /** There is one combination for each family, font size and line height. */
  lemma {:induction false} CombosLength<F, S, L, T>(cell: (F, S, L) -> T, families: seq<F>, fontSizes: seq<S>,
                                                    lineHeights: seq<L>)
    ensures |Combos(cell, families, fontSizes, lineHeights)| == |families| * (|fontSizes| * |lineHeights|)
    decreases |families|
  {
    if families != [] {
      var n := |families| - 1;
      CombosLength(cell, families[..n], fontSizes, lineHeights);
      SizeBlockLength(cell, families[n], fontSizes, lineHeights);
      MulSucc(n, |fontSizes| * |lineHeights|);
    }
  }

  lemma {:induction false} SizeBlockLength<F, S, L, T>(cell: (F, S, L) -> T, family: F, fontSizes: seq<S>,
                                                       lineHeights: seq<L>)
    ensures |SizeBlock(cell, family, fontSizes, lineHeights)| == |fontSizes| * |lineHeights|
    decreases |fontSizes|
  {
    if fontSizes != [] {
      var n := |fontSizes| - 1;
      SizeBlockLength(cell, family, fontSizes[..n], lineHeights);
      MulSucc(n, |lineHeights|);
    }
  }

  lemma MulSucc(n: nat, p: nat)
    ensures (n + 1) * p == n * p + p
  {
  }

  /** A family's block holds the result of every font size with every line height. */
  lemma {:induction false} SizeBlockHas<F, S, L, T>(cell: (F, S, L) -> T, family: F, fontSizes: seq<S>,
                                                    lineHeights: seq<L>, b: nat, c: nat)
    requires b < |fontSizes| && c < |lineHeights|
    ensures cell(family, fontSizes[b], lineHeights[c]) in SizeBlock(cell, family, fontSizes, lineHeights)
    decreases |fontSizes|
  {
    var n := |fontSizes| - 1;
    if b < n {
      assert fontSizes[..n][b] == fontSizes[b];
      SizeBlockHas(cell, family, fontSizes[..n], lineHeights, b, c);
    } else {
      assert LineRow(cell, family, fontSizes[n], lineHeights)[c] == cell(family, fontSizes[b], lineHeights[c]);
    }
  }

  /** Everything in a family's block is the result of one of its font sizes with one of the line heights. */
  lemma {:induction false} SizeBlockFrom<F, S, L, T>(cell: (F, S, L) -> T, family: F, fontSizes: seq<S>,
                                                     lineHeights: seq<L>, t: T) returns (b: nat, c: nat)
    requires t in SizeBlock(cell, family, fontSizes, lineHeights)
    ensures b < |fontSizes| && c < |lineHeights| && t == cell(family, fontSizes[b], lineHeights[c])
    decreases |fontSizes|
  {
    var n := |fontSizes| - 1;
    var row := LineRow(cell, family, fontSizes[n], lineHeights);
    if t in row {
      b := n;
      c :| 0 <= c < |row| && row[c] == t;
    } else {
      b, c := SizeBlockFrom(cell, family, fontSizes[..n], lineHeights, t);
      assert fontSizes[..n][b] == fontSizes[b];
    }
  }

  /** Every combination of a family, a font size and a line height is produced. */
  lemma {:induction false} CombosHas<F, S, L, T>(cell: (F, S, L) -> T, families: seq<F>, fontSizes: seq<S>,
                                                 lineHeights: seq<L>, a: nat, b: nat, c: nat)
    requires a < |families| && b < |fontSizes| && c < |lineHeights|
    ensures cell(families[a], fontSizes[b], lineHeights[c]) in Combos(cell, families, fontSizes, lineHeights)
    decreases |families|
  {
    var n := |families| - 1;
    var rest := Combos(cell, families[..n], fontSizes, lineHeights);
    var block := SizeBlock(cell, families[n], fontSizes, lineHeights);
    assert Combos(cell, families, fontSizes, lineHeights) == rest + block;
    if a < n {
      assert families[..n][a] == families[a];
      CombosHas(cell, families[..n], fontSizes, lineHeights, a, b, c);
    } else {
      SizeBlockHas(cell, families[n], fontSizes, lineHeights, b, c);
    }
  }

  /** Nothing else is produced: each result is that of some family, font size and line height. */
  lemma {:induction false} CombosFrom<F, S, L, T>(cell: (F, S, L) -> T, families: seq<F>, fontSizes: seq<S>,
                                                  lineHeights: seq<L>, t: T) returns (a: nat, b: nat, c: nat)
    requires t in Combos(cell, families, fontSizes, lineHeights)
    ensures a < |families| && b < |fontSizes| && c < |lineHeights| && t == cell(families[a], fontSizes[b], lineHeights[c])
    decreases |families|
  {
    var n := |families| - 1;
    if t in SizeBlock(cell, families[n], fontSizes, lineHeights) {
      a := n;
      b, c := SizeBlockFrom(cell, families[n], fontSizes, lineHeights, t);
    } else {
      a, b, c := CombosFrom(cell, families[..n], fontSizes, lineHeights, t);
      assert families[..n][a] == families[a];
    }
  }

  // ---------------------------------------------------------------------------------------
  // `utilities[className] = rule`

  /** `m` after `utilities[name] = rule` for every pair in turn: a later rule of the same name replaces an earlier one. */
  function Store(m: map<string, Decls>, cells: seq<(string, Decls)>): map<string, Decls>
  {
    if cells == [] then m
    else
      var last := cells[|cells| - 1];
      Store(m, cells[..|cells| - 1])[last.0 := last.1]
  }

  lemma {:induction false} StoreAppend(m: map<string, Decls>, a: seq<(string, Decls)>, b: seq<(string, Decls)>)
    ensures Store(m, a + b) == Store(Store(m, a), b)
    decreases |b|
  {
    if b == [] {
      assert a + b == a;
    } else {
      var b' := b[..|b| - 1];
      assert (a + b)[..|a + b| - 1] == a + b';
      assert (a + b)[|a + b| - 1] == b[|b| - 1];
      StoreAppend(m, a, b');
    }
  }

  /** The names in the map are exactly the names already there and the names of the pairs. */
  lemma {:induction false} StoreKeys(m: map<string, Decls>, cells: seq<(string, Decls)>, name: string)
    ensures name in Store(m, cells) <==> name in m || exists i :: 0 <= i < |cells| && cells[i].0 == name
    decreases |cells|
  {
    if cells != [] {
      var init := cells[..|cells| - 1];
      StoreKeys(m, init, name);
      if exists i :: 0 <= i < |init| && init[i].0 == name {
        var i :| 0 <= i < |init| && init[i].0 == name;
        assert cells[i].0 == name;
      }
      if exists i :: 0 <= i < |cells| && cells[i].0 == name {
        var i :| 0 <= i < |cells| && cells[i].0 == name;
        if i < |init| {
          assert init[i].0 == name;
        }
      }
    }
  }

  /** The rule stored under a name is the one of the last pair with that name. */
  lemma {:induction false} StoreLastWins(m: map<string, Decls>, cells: seq<(string, Decls)>, i: nat)
    requires i < |cells|
    requires forall j :: i < j < |cells| ==> cells[j].0 != cells[i].0
    ensures cells[i].0 in Store(m, cells) && Store(m, cells)[cells[i].0] == cells[i].1
    decreases |cells|
  {
    var init := cells[..|cells| - 1];
    if i < |init| {
      assert forall j :: i < j < |init| ==> init[j] == cells[j];
      StoreLastWins(m, init, i);
    }
  }

  /** A map built from the empty one has at most one name per pair, and exactly one per pair when the names differ. */
  lemma {:induction false} StoreSize(cells: seq<(string, Decls)>)
    ensures |Store(map[], cells)| <= |cells|
    ensures (forall i, j :: 0 <= i < j < |cells| ==> cells[i].0 != cells[j].0) ==> |Store(map[], cells)| == |cells|
    decreases |cells|
  {
    if cells != [] {
      var init := cells[..|cells| - 1];
      var last := cells[|cells| - 1];
      StoreSize(init);
      var m := Store(map[], init);
      if forall i, j :: 0 <= i < j < |cells| ==> cells[i].0 != cells[j].0 {
        assert forall i, j :: 0 <= i < j < |init| ==> init[i].0 != init[j].0 by {
          forall i, j | 0 <= i < j < |init| ensures init[i].0 != init[j].0 {
            assert init[i] == cells[i] && init[j] == cells[j];
          }
        }
        assert last.0 !in m by {
          StoreKeys(map[], init, last.0);
          forall i | 0 <= i < |init| ensures init[i].0 != last.0 {
            assert init[i] == cells[i];
          }
        }
      }
      MapUpdateSize(m, last.0, last.1);
    }
  }

  lemma MapUpdateSize(m: map<string, Decls>, k: string, v: Decls)
    ensures |m[k := v]| == if k in m then |m| else |m| + 1
  {
    if k in m {
      assert m[k := v].Keys == m.Keys;
    } else {
      assert m[k := v].Keys == m.Keys + {k};
    }
  }

  /** The last index of a pair with the given name, at or after a known one. */
  lemma LastWithName(cells: seq<(string, Decls)>, name: string, i: nat) returns (last: nat)
    requires i < |cells| && cells[i].0 == name
    ensures i <= last < |cells| && cells[last].0 == name
    ensures forall j :: last < j < |cells| ==> cells[j].0 != name
    decreases |cells| - i
  {
    if exists j :: i < j < |cells| && cells[j].0 == name {
      var j :| i < j < |cells| && cells[j].0 == name;
      last := LastWithName(cells, name, j);
    } else {
      last := i;
    }
  }

  // ---------------------------------------------------------------------------------------
  // The utilities

  /** A rhythm height the rules can be computed for. */
  type PositiveReal = r: real | r > 0.0 witness 1.0

  /** One combination: its class name and its rule. */
  function Cell(setFont: (real, real, real) -> Decls, escape: string -> string, family: (string, real),
                fontSize: (string, real), lineHeight: (string, real)): (string, Decls)
  {
    var selector := FamilySelector(family.0, escape);
    (ClassName(selector, lineHeight.0, fontSize.0), RuleOf(setFont, family, selector, fontSize, lineHeight))
  }

  function CellOf(setFont: (real, real, real) -> Decls, escape: string -> string)
    : ((string, real), (string, real), (string, real)) -> (string, Decls)
  {
    (family, fontSize, lineHeight) => Cell(setFont, escape, family, fontSize, lineHeight)
  }

  /** The utilities the plugin generates. */
  function Utilities(setFont: (real, real, real) -> Decls, escape: string -> string, families: seq<(string, real)>,
                     fontSizes: seq<(string, real)>, lineHeights: seq<(string, real)>): map<string, Decls>
  {
    Store(map[], Combos(CellOf(setFont, escape), families, fontSizes, lineHeights))
  }

  /** Each utility is the rule of some combination whose class name it is. */
  lemma UtilityOfSomeCombination(setFont: (real, real, real) -> Decls, escape: string -> string, families: seq<(string, real)>,
                                 fontSizes: seq<(string, real)>, lineHeights: seq<(string, real)>, name: string)
    returns (a: nat, b: nat, c: nat)
    requires name in Utilities(setFont, escape, families, fontSizes, lineHeights)
    ensures a < |families| && b < |fontSizes| && c < |lineHeights|
    ensures (name, Utilities(setFont, escape, families, fontSizes, lineHeights)[name]) ==
      Cell(setFont, escape, families[a], fontSizes[b], lineHeights[c])
  {
    var cells := Combos(CellOf(setFont, escape), families, fontSizes, lineHeights);
    StoreKeys(map[], cells, name);
    var i :| 0 <= i < |cells| && cells[i].0 == name;
    var last := LastWithName(cells, name, i);
    StoreLastWins(map[], cells, last);
    a, b, c := CombosFrom(CellOf(setFont, escape), families, fontSizes, lineHeights, cells[last]);
  }

  /** Every combination's class name is a key of the utilities. */
  lemma CombinationHasUtility(setFont: (real, real, real) -> Decls, escape: string -> string, families: seq<(string, real)>,
                              fontSizes: seq<(string, real)>, lineHeights: seq<(string, real)>,
                              a: nat, b: nat, c: nat)
    requires a < |families| && b < |fontSizes| && c < |lineHeights|
    ensures Cell(setFont, escape, families[a], fontSizes[b], lineHeights[c]).0 in
      Utilities(setFont, escape, families, fontSizes, lineHeights)
  {
    var cells := Combos(CellOf(setFont, escape), families, fontSizes, lineHeights);
    var cell := Cell(setFont, escape, families[a], fontSizes[b], lineHeights[c]);
    CombosHas(CellOf(setFont, escape), families, fontSizes, lineHeights, a, b, c);
    var i :| 0 <= i < |cells| && cells[i] == cell;
    StoreKeys(map[], cells, cell.0);
  }

  /** There are at most as many utilities as combinations, and as many when the class names differ. */
  lemma UtilitiesCount(setFont: (real, real, real) -> Decls, escape: string -> string, families: seq<(string, real)>,
                       fontSizes: seq<(string, real)>, lineHeights: seq<(string, real)>)
    ensures var cells := Combos(CellOf(setFont, escape), families, fontSizes, lineHeights);
      && |Utilities(setFont, escape, families, fontSizes, lineHeights)| <= |families| * (|fontSizes| * |lineHeights|)
      && ((forall i, j :: 0 <= i < j < |cells| ==> cells[i].0 != cells[j].0) ==>
            |Utilities(setFont, escape, families, fontSizes, lineHeights)| == |families| * (|fontSizes| * |lineHeights|))
  {
    CombosLength(CellOf(setFont, escape), families, fontSizes, lineHeights);
    StoreSize(Combos(CellOf(setFont, escape), families, fontSizes, lineHeights));
  }

  // ---------------------------------------------------------------------------------------
  // The loops

  /** The three nested loops of the plugin, writing `utilities[className]` for each combination. */
  method BuildUtilities(setFont: (real, real, real) -> Decls, escape: string -> string, families: seq<(string, real)>,
                        fontSizes: seq<(string, real)>, lineHeights: seq<(string, real)>)
    returns (utilities: map<string, Decls>)
    ensures utilities == Utilities(setFont, escape, families, fontSizes, lineHeights)
  {
    ghost var cell := CellOf(setFont, escape);
    utilities := map[];
    var a := 0;
    while a < |families|
      invariant 0 <= a <= |families|
      invariant utilities == Store(map[], Combos(cell, families[..a], fontSizes, lineHeights))
    {
      var selector := FamilySelector(families[a].0, escape);
      utilities := BuildBlock(setFont, escape, families[a], selector, fontSizes, lineHeights, utilities);
      CombosStep(cell, families, fontSizes, lineHeights, a);
      a := a + 1;
    }
    assert families[..a] == families;
  }

  /** The loops over font sizes and line heights for one family whose selector is already computed. */
  method BuildBlock(setFont: (real, real, real) -> Decls, escape: string -> string, family: (string, real), selector: string,
                    fontSizes: seq<(string, real)>, lineHeights: seq<(string, real)>, utilities0: map<string, Decls>)
    returns (utilities: map<string, Decls>)
    requires selector == FamilySelector(family.0, escape)
    ensures utilities == Store(utilities0, SizeBlock(CellOf(setFont, escape), family, fontSizes, lineHeights))
  {
    ghost var cell := CellOf(setFont, escape);
    utilities := utilities0;
    var b := 0;
    while b < |fontSizes|
      invariant 0 <= b <= |fontSizes|
      invariant utilities == Store(utilities0, SizeBlock(cell, family, fontSizes[..b], lineHeights))
    {
      utilities := BuildRow(setFont, escape, family, selector, fontSizes[b], lineHeights, utilities);
      SizeBlockStep(cell, family, fontSizes, lineHeights, b, utilities0);
      b := b + 1;
    }
    assert fontSizes[..b] == fontSizes;
  }

  /** The innermost loop: one rule per line height for one family and one font size. */
  method BuildRow(setFont: (real, real, real) -> Decls, escape: string -> string, family: (string, real), selector: string,
                  fontSize: (string, real), lineHeights: seq<(string, real)>, utilities0: map<string, Decls>)
    returns (utilities: map<string, Decls>)
    requires selector == FamilySelector(family.0, escape)
    ensures utilities == Store(utilities0, LineRow(CellOf(setFont, escape), family, fontSize, lineHeights))
  {
    ghost var cell := CellOf(setFont, escape);
    utilities := utilities0;
    var c := 0;
    while c < |lineHeights|
      invariant 0 <= c <= |lineHeights|
      invariant utilities == Store(utilities0, LineRow(cell, family, fontSize, lineHeights[..c]))
    {
      var className, rule := ClassAndRule(setFont, escape, family, selector, fontSize, lineHeights[c]);
      LineRowStep(cell, family, fontSize, lineHeights, c, utilities0, className, rule);
      utilities := utilities[className := rule];
      c := c + 1;
    }
    assert lineHeights[..c] == lineHeights;
  }

  /** The body of the innermost loop: the class name and the rule it writes are those of the combination. */
  method ClassAndRule(setFont: (real, real, real) -> Decls, escape: string -> string, family: (string, real), selector: string,
                      fontSize: (string, real), lineHeight: (string, real))
    returns (className: string, rule: Decls)
    requires selector == FamilySelector(family.0, escape)
    ensures (className, rule) == CellOf(setFont, escape)(family, fontSize, lineHeight)
  {
    className := ClassName(selector, lineHeight.0, fontSize.0);
    rule := setFont(fontSize.1, lineHeight.1, family.1);
    if selector != "" {
      rule := rule.(fontFamily := Some(family.0));
    }
  }

  lemma LineRowStep<F, S, L>(cell: (F, S, L) -> (string, Decls), family: F, fontSize: S, lineHeights: seq<L>, c: nat,
                             m: map<string, Decls>, className: string, rule: Decls)
    requires c < |lineHeights| && (className, rule) == cell(family, fontSize, lineHeights[c])
    ensures Store(m, LineRow(cell, family, fontSize, lineHeights[..c + 1])) ==
      Store(m, LineRow(cell, family, fontSize, lineHeights[..c]))[className := rule]
  {
    var prefix := lineHeights[..c + 1];
    assert prefix[..c] == lineHeights[..c];
  }

  lemma SizeBlockStep<F, S, L>(cell: (F, S, L) -> (string, Decls), family: F, fontSizes: seq<S>, lineHeights: seq<L>,
                               b: nat, m: map<string, Decls>)
    requires b < |fontSizes|
    ensures Store(m, SizeBlock(cell, family, fontSizes[..b + 1], lineHeights)) ==
      Store(Store(m, SizeBlock(cell, family, fontSizes[..b], lineHeights)), LineRow(cell, family, fontSizes[b], lineHeights))
  {
    var prefix := fontSizes[..b + 1];
    assert prefix[..b] == fontSizes[..b];
    StoreAppend(m, SizeBlock(cell, family, fontSizes[..b], lineHeights), LineRow(cell, family, fontSizes[b], lineHeights));
  }

  lemma CombosStep<F, S, L>(cell: (F, S, L) -> (string, Decls), families: seq<F>, fontSizes: seq<S>, lineHeights: seq<L>,
                            a: nat)
    requires a < |families|
    ensures Store(map[], Combos(cell, families[..a + 1], fontSizes, lineHeights)) ==
      Store(Store(map[], Combos(cell, families[..a], fontSizes, lineHeights)), SizeBlock(cell, families[a], fontSizes, lineHeights))
  {
    var prefix := families[..a + 1];
    assert prefix[..a] == families[..a];
    StoreAppend(map[], Combos(cell, families[..a], fontSizes, lineHeights), SizeBlock(cell, families[a], fontSizes, lineHeights));
  }

  // ---------------------------------------------------------------------------------------
  // The plugin

  /**
   * The plugin body: the configured font sizes in rem and line heights without unit are kept
   * (the others warned about), the default line height is aliased, and the utilities built.
   * `families` are the entries of `verticalRhythm.fontCapHeight`; `escape` is the host's `e`.
   */
  method Plugin(w: Warner, rhythmHeight: PositiveReal, families: seq<(string, real)>,
                fontSizeEntries: seq<(string, RawValue)>, lineHeightEntries: seq<(string, RawValue)>,
                defaultLineHeight: Option<string>, escape: string -> string)
    returns (utilities: map<string, Decls>)
    requires w.Valid()
    modifies w
    ensures w.Valid()
    ensures utilities == Utilities(SetFontOf(rhythmHeight), escape, families,
      Kept(fontSizeEntries, Checker(IsRem)),
      WithDefaultAlias(Kept(lineHeightEntries, Checker(IsUnitless)), defaultLineHeight))
    ensures var sizeWarnings := Complaints(fontSizeEntries, "fontSize", Checker(IsRem), Complainer(IsRem));
      var lineWarnings := Complaints(lineHeightEntries, "lineHeight", Checker(IsUnitless), Complainer(IsUnitless));
      && w.warned == old(w.warned) + Elements(sizeWarnings) + Elements(lineWarnings)
      && w.log == old(w.log) + Fresh(old(w.warned), sizeWarnings)
                             + Fresh(old(w.warned) + Elements(sizeWarnings), lineWarnings)
  {
    var fontSizes := FilterValidValues(w, fontSizeEntries, "fontSize", IsRem);
    var lineHeights := FilterValidValues(w, lineHeightEntries, "lineHeight", IsUnitless);
    if defaultLineHeight.Some? && defaultLineHeight.value != "" {
      var entry := Find(lineHeights, defaultLineHeight.value);
      if entry.Some? {
        lineHeights := lineHeights + [("", entry.value)];
      }
    }
    utilities := BuildUtilities(SetFontOf(rhythmHeight), escape, families, fontSizes, lineHeights);
  }
}
