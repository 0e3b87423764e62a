/**
 * One configuration followed from the theme entries to the utilities: a row height of 0.5rem,
 * the family `default` with cap height 0.705, the font size `base: '1rem'` and the line height
 * `normal: '1.5'`, and no default line height.
 */
module Scenario {
  import opened Wrappers
  import opened Rhythm
  import opened Validate
  import opened Format
  import opened Names
  import opened Generate

  /** The configuration yields the single class `.vr-normal-base`, with these declarations. */
  lemma EndToEnd(escape: string -> string)
    ensures Utilities(SetFontOf(0.5), escape, [("default", 0.705)],
                      Kept([("base", Str("1rem"))], Checker(IsRem)),
                      WithDefaultAlias(Kept([("normal", Str("1.5"))], Checker(IsUnitless)), None))
      == map[".vr-normal-base" := Decls("1rem", ".398rem", "-.397rem", "1.5rem", None)]
  {
    KeptSizes();
    KeptLineHeights();
    assert WithDefaultAlias([("normal", 1.5)], None) == [("normal", 1.5)];
    UtilitiesSingle(SetFontOf(0.5), escape, ("default", 0.705), ("base", 1.0), ("normal", 1.5));
    ExampleCell(escape);
  }

  /** One family, one font size and one line height give exactly the one utility of their combination. */
  lemma UtilitiesSingle(setFont: (real, real, real) -> Decls, escape: string -> string, family: (string, real),
                        fontSize: (string, real), lineHeight: (string, real))
    ensures var c := Cell(setFont, escape, family, fontSize, lineHeight);
      Utilities(setFont, escape, [family], [fontSize], [lineHeight]) == map[c.0 := c.1]
  {
    var cell := CellOf(setFont, escape);
    CombosSingle(cell, family, fontSize, lineHeight);
    var c := cell(family, fontSize, lineHeight);
    assert [c][..0] == [];
    assert Store(map[], [c]) == Store(map[], [])[c.0 := c.1];
  }

  lemma KeptSizes()
    ensures Kept([("base", Str("1rem"))], Checker(IsRem)) == [("base", 1.0)]
  {
    ScanWhole("1");
    SingleDigitValue('1');
    ScanNumeralRecognises("1");
    ParseRemOfNumeral("1");
    assert "1" + "rem" == "1rem";
    KeptSingle("base", Str("1rem"), Checker(IsRem), 1.0);
  }

  lemma KeptLineHeights()
    ensures Kept([("normal", Str("1.5"))], Checker(IsUnitless)) == [("normal", 1.5)]
  {
    ScanOneAndAHalf();
    ScanNumeralRecognises("1.5");
    ParseUnitlessOfNumeral("1.5");
    KeptSingle("normal", Str("1.5"), Checker(IsUnitless), 1.5);
  }

  lemma KeptSingle(key: string, value: RawValue, check: RawValue -> Option<real>, v: real)
    requires check(value) == Some(v)
    ensures Kept([(key, value)], check) == [(key, v)]
  {
    var mapped := Mapped([(key, value)], check);
    assert mapped == [(key, Some(v))];
    assert mapped[..0] == [];
    assert Defined(mapped[..0]) == [];
    assert Defined(mapped) == [] + [(key, v)];
  }

  lemma CombosSingle<F, S, L, T>(cell: (F, S, L) -> T, family: F, fontSize: S, lineHeight: L)
    ensures Combos(cell, [family], [fontSize], [lineHeight]) == [cell(family, fontSize, lineHeight)]
  {
    var row := LineRow(cell, family, fontSize, [lineHeight]);
    assert row == [cell(family, fontSize, lineHeight)];
    assert [fontSize][..0] == [];
    assert SizeBlock(cell, family, [], [lineHeight]) == [];
    assert SizeBlock(cell, family, [fontSize], [lineHeight]) == [] + row;
    assert [family][..0] == [];
    assert Combos(cell, [], [fontSize], [lineHeight]) == [];
    assert Combos(cell, [family], [fontSize], [lineHeight]) == [] + SizeBlock(cell, family, [fontSize], [lineHeight]);
  }

  /** The one combination: its class name and its rule. */
  lemma ExampleCell(escape: string -> string)
    ensures Cell(SetFontOf(0.5), escape, ("default", 0.705), ("base", 1.0), ("normal", 1.5))
      == (".vr-normal-base", Decls("1rem", ".398rem", "-.397rem", "1.5rem", None))
  {
    DefaultSelector(escape);
    ClassNameShape("", "normal", "base");
    assert ".vr" + Suffix("") + Suffix("normal") + Suffix("base") == ".vr-normal-base";
    ExampleRule();
    assert SetFontOf(0.5)(1.0, 1.5, 0.705) == SetFontWithRhythm(0.5, 1.0, 1.5, 0.705);
  }

  /** The declarations for 1rem text, line height 1.5 and cap height 0.705 on a 0.5rem grid. */
  lemma ExampleRule()
    ensures SetFontWithRhythm(0.5, 1.0, 1.5, 0.705) == Decls("1rem", ".398rem", "-.397rem", "1.5rem", None)
  {
    ExampleLineHeight();
    assert Thousandths(1.0) == 1000;
    assert Thousandths(1.5) == 1500;
    assert Thousandths(0.3975) == 398;
    assert Thousandths(-0.3975) == -397;
    FormatOne();
    FormatOneAndAHalf();
    Format398();
    FormatMinus397();
  }
}
