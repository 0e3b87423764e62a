/**
 * The config extractor (index.js:74-117): the two value validators, each a regular
 * expression followed by parseFloat, and filterValidValues, which keeps the theme entries
 * a validator accepts and warns about the others.
 */
module Validate {
  import opened Wrappers
  import opened Chars
  import opened Warnings

  /** A raw theme value: a string, or an array of strings (as in `fontSize: ['1rem', ...]`). */
  datatype RawValue = Str(text: string) | Arr(items: seq<string>)

  /** Which validator filterValidValues is given. */
  datatype Validator = IsUnitless | IsRem

  // ---------------------------------------------------------------------------------------
  // The numeral `(?:\d*\.)?\d+`

  /**
   * The strings the group `(?:\d*\.)?\d+` matches in full: not empty, made of digits and
   * at most one dot, and ending in a digit.
   */
  predicate IsNumeral(t: string)
  {
    && |t| > 0
    && IsDigit(t[|t| - 1])
    && (forall i :: 0 <= i < |t| ==> IsDigit(t[i]) || t[i] == '.')
    && (forall i, j :: 0 <= i < j < |t| && t[i] == '.' ==> t[j] != '.')
  }

  /** The length of the run of digits `t` starts with. */
  function LeadingDigits(t: string): (n: nat)
    ensures n <= |t| && AllDigits(t[..n]) && (n < |t| ==> !IsDigit(t[n]))
  {
    if t == [] || !IsDigit(t[0]) then 0
    else
      var n := 1 + LeadingDigits(t[1..]);
      assert t[..n] == [t[0]] + t[1..][..n - 1];
      n
  }

  /** The exact value of the decimal `whole.frac`. */
  function DecimalValue(whole: string, frac: string): real
    requires AllDigits(whole) && AllDigits(frac)
  {
    DigitsValue(whole) as real + DigitsValue(frac) as real / Pow10(|frac|) as real
  }

  /** The value parseFloat gives a string the numeral matches in full; None when it does not match. */
  function ScanNumeral(t: string): Option<real>
  {
    var n := LeadingDigits(t);
    if n == |t| then
      if n > 0 then Some(DigitsValue(t) as real) else None
    else if t[n] == '.' && n + 1 < |t| && AllDigits(t[n + 1..]) then
      Some(DecimalValue(t[..n], t[n + 1..]))
    else
      None
  }

  /** The scanner recognises exactly the language of the numeral. */
  lemma ScanNumeralRecognises(t: string)
    ensures ScanNumeral(t).Some? <==> IsNumeral(t)
  {
    var n := LeadingDigits(t);
    if ScanNumeral(t).Some? {
      if n < |t| {
        var frac := t[n + 1..];
        assert forall i :: n < i < |t| ==> t[i] == frac[i - n - 1];
        assert forall i :: 0 <= i < n ==> t[i] == t[..n][i];
      } else {
        assert t[..n] == t;
      }
    }
  }

  /** A string of digits reads as the whole number it denotes. */
  lemma ScanWhole(d: string)
    requires |d| > 0 && AllDigits(d)
    ensures ScanNumeral(d) == Some(DigitsValue(d) as real)
  {
    LeadingDigitsOfDigits(d, "");
    assert d + "" == d;
  }

  /** `whole.frac` reads as the exact decimal value, with or without the whole part. */
  lemma ScanDecimal(whole: string, frac: string)
    requires AllDigits(whole) && AllDigits(frac) && |frac| > 0
    ensures ScanNumeral(whole + "." + frac) == Some(DecimalValue(whole, frac))
  {
    var t := whole + "." + frac;
    LeadingDigitsOfDigits(whole, "." + frac);
    assert t == whole + ("." + frac);
    assert t[..|whole|] == whole;
    assert t[|whole| + 1..] == frac;
  }

  lemma {:induction false} LeadingDigitsOfDigits(d: string, rest: string)
    requires AllDigits(d) && (rest == [] || !IsDigit(rest[0]))
    ensures LeadingDigits(d + rest) == |d|
  {
    if d != [] {
      assert (d + rest)[1..] == d[1..] + rest;
      LeadingDigitsOfDigits(d[1..], rest);
    } else {
      assert d + rest == rest;
    }
  }

  // ---------------------------------------------------------------------------------------
  // The whitespace around the numeral

  /** The length of the run of whitespace `s` starts with. */
  function LeadingSpaces(s: string): (n: nat)
    ensures n <= |s| && AllSpace(s[..n]) && (n < |s| ==> !IsSpace(s[n]))
  {
    if s == [] || !IsSpace(s[0]) then 0
    else
      var n := 1 + LeadingSpaces(s[1..]);
      assert s[..n] == [s[0]] + s[1..][..n - 1];
      n
  }

  /** The length of the run of whitespace `s` ends with. */
  function TrailingSpaces(s: string): (n: nat)
    ensures n <= |s| && AllSpace(s[|s| - n..]) && (n < |s| ==> !IsSpace(s[|s| - 1 - n]))
  {
    if s == [] || !IsSpace(s[|s| - 1]) then 0
    else
      var init := s[..|s| - 1];
      var n := 1 + TrailingSpaces(init);
      assert s[|s| - n..] == init[|init| - (n - 1)..] + [s[|s| - 1]];
      n
  }

  lemma {:induction false} LeadingSpacesOf(ws: string, rest: string)
    requires AllSpace(ws) && (rest == [] || !IsSpace(rest[0]))
    ensures LeadingSpaces(ws + rest) == |ws|
  {
    if ws != [] {
      assert (ws + rest)[1..] == ws[1..] + rest;
      LeadingSpacesOf(ws[1..], rest);
    } else {
      assert ws + rest == rest;
    }
  }

  lemma {:induction false} TrailingSpacesOf(rest: string, ws: string)
    requires AllSpace(ws) && (rest == [] || !IsSpace(rest[|rest| - 1]))
    ensures TrailingSpaces(rest + ws) == |ws|
  {
    if ws != [] {
      var ws' := ws[..|ws| - 1];
      assert (rest + ws)[..|rest + ws| - 1] == rest + ws';
      TrailingSpacesOf(rest, ws');
    } else {
      assert rest + ws == rest;
    }
  }

  // ---------------------------------------------------------------------------------------
  // The two regular expressions

  /** `^\s*((?:\d*\.)?\d+)\s*$` followed by parseFloat of the group; None when there is no match. */
  function ParseUnitless(s: string): Option<real>
  {
    var rest := s[LeadingSpaces(s)..];
    ScanNumeral(rest[..|rest| - TrailingSpaces(rest)])
  }

  /** `^\s*((?:\d*\.)?\d+)\s*rem$` followed by parseFloat of the group; None when there is no match. */
  function ParseRem(s: string): Option<real>
  {
    if |s| >= 3 && s[|s| - 3..] == "rem" then ParseUnitless(s[..|s| - 3]) else None
  }

  /** `s` is whitespace, then the numeral `s[i..j]`, then whitespace. */
  ghost predicate PaddedNumeral(s: string, i: int, j: int)
  {
    0 <= i <= j <= |s| && AllSpace(s[..i]) && IsNumeral(s[i..j]) && AllSpace(s[j..])
  }

  /** A numeral padded with any whitespace parses to the numeral's value. */
  lemma ParseUnitlessPadded(pre: string, t: string, post: string)
    requires AllSpace(pre) && IsNumeral(t) && AllSpace(post)
    ensures ParseUnitless(pre + t + post) == ScanNumeral(t)
  {
    var s := pre + t + post;
    DigitIsNotSpace(t[0]);
    DigitIsNotSpace(t[|t| - 1]);
    assert s == pre + (t + post);
    LeadingSpacesOf(pre, t + post);
    var rest := s[|pre|..];
    assert rest == t + post;
    TrailingSpacesOf(t, post);
    assert rest[..|rest| - |post|] == t;
  }

  /** The unitless validator accepts exactly the padded numerals, and returns the numeral's value. */
  lemma ParseUnitlessExactly(s: string, v: real)
    ensures ParseUnitless(s) == Some(v) <==>
      exists i, j :: PaddedNumeral(s, i, j) && ScanNumeral(s[i..j]) == Some(v)
  {
    if ParseUnitless(s) == Some(v) {
      var i, j := ParseUnitlessFinds(s, v);
    }
    if exists i, j :: PaddedNumeral(s, i, j) && ScanNumeral(s[i..j]) == Some(v) {
      var i, j :| PaddedNumeral(s, i, j) && ScanNumeral(s[i..j]) == Some(v);
      ParsePaddedAt(s, i, j, v);
    }
  }

  /** A numeral of value `v` between whitespace is accepted with that value. */
  lemma ParsePaddedAt(s: string, i: int, j: int, v: real)
    requires PaddedNumeral(s, i, j) && ScanNumeral(s[i..j]) == Some(v)
    ensures ParseUnitless(s) == Some(v)
  {
    assert s == s[..i] + s[i..j] + s[j..];
    ParseUnitlessPadded(s[..i], s[i..j], s[j..]);
  }

  /** What the unitless validator accepts is whitespace around a numeral of that value. */
  lemma ParseUnitlessFinds(s: string, v: real) returns (i: nat, j: nat)
    requires ParseUnitless(s) == Some(v)
    ensures PaddedNumeral(s, i, j) && ScanNumeral(s[i..j]) == Some(v)
  {
    i := LeadingSpaces(s);
    var rest := s[i..];
    var n := TrailingSpaces(rest);
    j := i + |rest| - n;
    var t := s[i..j];
    assert t == rest[..|rest| - n];
    assert ScanNumeral(t) == Some(v);
    ScanNumeralRecognises(t);
    assert s[j..] == rest[|rest| - n..];
  }

  /** The rem validator is the unitless one on what precedes a final `rem`; nothing may follow it. */
  lemma ParseRemExactly(s: string)
    ensures ParseRem(s).Some? ==> |s| >= 3 && s[|s| - 3..] == "rem"
    ensures ParseRem(s + "rem") == ParseUnitless(s)
  {
    var t := s + "rem";
    assert t[|t| - 3..] == "rem";
    assert t[..|t| - 3] == s;
  }

  /** A numeral directly followed by `rem` is accepted with the numeral's value. */
  /** A numeral without padding parses to its value. */
  lemma ParseUnitlessOfNumeral(t: string)
    requires IsNumeral(t)
    ensures ParseUnitless(t) == ScanNumeral(t)
  {
    ParseUnitlessPadded("", t, "");
    assert "" + t + "" == t;
  }

  lemma ParseRemOfNumeral(t: string)
    requires IsNumeral(t)
    ensures ParseRem(t + "rem") == ScanNumeral(t)
  {
    ParseRemExactly(t);
    ParseUnitlessPadded("", t, "");
    assert "" + t + "" == t;
  }

  /** A bare fraction is accepted: the whole part of the numeral may be empty. */
  lemma AcceptsBareFraction()
    ensures ParseUnitless(".5") == Some(0.5)
  {
    ScanDecimal("", "5");
    assert "" + "." + "5" == ".5";
    SingleDigitValue('5');
    assert DecimalValue("", "5") == 0.5;
    ParseUnitlessPadded("", ".5", "");
    assert "" + ".5" + "" == ".5";
  }

  /** Whitespace around the numeral is allowed. */
  lemma AcceptsPaddedDecimal()
    ensures ParseUnitless(" 1.5 ") == Some(1.5)
  {
    ScanOneAndAHalf();
    assert " " + "1.5" + " " == " 1.5 ";
    ScanNumeralRecognises("1.5");
    ParseUnitlessPadded(" ", "1.5", " ");
  }

  lemma ScanOneAndAHalf()
    ensures ScanNumeral("1.5") == Some(1.5)
  {
    ScanDecimal("1", "5");
    assert "1" + "." + "5" == "1.5";
    SingleDigitValue('1');
    SingleDigitValue('5');
  }

  /** Whitespace between the numeral and `rem` is allowed. */
  lemma AcceptsSpaceBeforeRem()
    ensures ParseRem("1 rem") == Some(1.0)
  {
    AcceptsTrailingSpace();
    ParseRemAfter("1 ", "1 rem", 1.0);
  }

  lemma ParseRemAfter(s: string, t: string, v: real)
    requires t == s + "rem" && ParseUnitless(s) == Some(v)
    ensures ParseRem(t) == Some(v)
  {
    ParseRemExactly(s);
  }

  /** Whitespace after the numeral is allowed. */
  lemma AcceptsTrailingSpace()
    ensures ParseUnitless("1 ") == Some(1.0)
  {
    ScanWhole("1");
    SingleDigitValue('1');
    ParseUnitlessPadded("", "1", " ");
    assert "" + "1" + " " == "1 ";
  }

  lemma SingleDigitValue(c: char)
    requires IsDigit(c)
    ensures DigitsValue([c]) == DigitValue(c)
  {
    assert [c][..0] == [];
  }

  /** A trailing dot is not a numeral. */
  lemma RejectsTrailingDot()
    ensures ParseUnitless("5.") == None
  {
    ParseUnitlessRejects("5.");
  }

  /** A unit other than none is rejected by the unitless validator. */
  lemma RejectsPx()
    ensures ParseUnitless("1px") == None
  {
    ParseUnitlessRejects("1px");
  }

  /** The empty string is rejected. */
  lemma RejectsEmpty()
    ensures ParseUnitless("") == None
  {
    ParseUnitlessRejects("");
  }

  /** Two dots are rejected. */
  lemma RejectsTwoDots()
    ensures ParseUnitless("1.2.3") == None
  {
    assert "1.2.3"[1] == '.' && "1.2.3"[3] == '.';
    ParseUnitlessRejects("1.2.3");
  }

  /** Nothing may follow `rem`, not even whitespace. */
  lemma RejectsSpaceAfterRem()
    ensures ParseRem("1rem ") == None
  {
  }

  /** px is not rem. */
  lemma RejectsPxAsRem()
    ensures ParseRem("14px") == None
  {
  }

  /** A string that contains no whitespace is accepted only if it is a numeral. */
  lemma ParseUnitlessRejects(s: string)
    requires forall i :: 0 <= i < |s| ==> !IsSpace(s[i])
    requires !IsNumeral(s)
    ensures ParseUnitless(s) == None
  {
    if s != [] {
      LeadingSpacesOf("", s);
      TrailingSpacesOf(s, "");
      assert "" + s == s && s + "" == s;
    }
    ScanNumeralRecognises(s);
  }

  // ---------------------------------------------------------------------------------------
  // The validators

  /** `${value}` in a template string and the input `RegExp.exec` converts to a string. */
  function Stringify(value: RawValue): string
  {
    match value
    case Str(s) => s
    case Arr(items) => Join(items, ",")
  }

  function Join(items: seq<string>, sep: string): string
  {
    if items == [] then ""
    else if |items| == 1 then items[0]
    else items[0] + sep + Join(items[1..], sep)
  }

  /** The one value validateIsRem looks at: the string, or the first element of an array (`undefined` if empty). */
  function RemSubject(value: RawValue): Option<string>
  {
    match value
    case Str(s) => Some(s)
    case Arr(items) => if items == [] then None else Some(items[0])
  }

  /** JSON.stringify of that value (characters that JSON escapes are not escaped here). */
  function Quoted(subject: Option<string>): string
  {
    match subject
    case Some(s) => "\"" + s + "\""
    case None => "undefined"
  }

  /** The text `RegExp.exec` is given for that value. */
  function RemText(subject: Option<string>): string
  {
    match subject
    case Some(s) => s
    case None => "undefined"
  }

  /** What a validator returns for a value, as a pure function. */
  function Check(validator: Validator, value: RawValue): Option<real>
  {
    match validator
    case IsUnitless => ParseUnitless(Stringify(value))
    case IsRem => ParseRem(RemText(RemSubject(value)))
  }

  /** The text of the warning a rejected value produces. */
  function Complaint(validator: Validator, path: string, value: RawValue): string
  {
    match validator
    case IsUnitless => "Ignoring " + path + ", value '" + Stringify(value) + "' specifies an unit."
    case IsRem => "Ignoring " + path + ", value " + Quoted(RemSubject(value)) + " is not in rem."
  }

  /** A one-element array is read like its element by both validators. */
  lemma SingletonArrayLikeString(validator: Validator, s: string)
    ensures Check(validator, Arr([s])) == Check(validator, Str(s))
  {
  }

  /**
   * The rem validator reads only the first element of an array: what follows it is ignored,
   * and an empty array is read as the text `undefined`, which is rejected.
   */
  lemma RemReadsFirstElement(s: string, rest: seq<string>)
    ensures Check(IsRem, Arr([s] + rest)) == Check(IsRem, Str(s))
    ensures Check(IsRem, Arr([])) == None
  {
    RejectsUndefined();
  }

  lemma RejectsUndefined()
    ensures ParseRem("undefined") == None
  {
    ParseRemExactly("undefined");
  }

  /** validateIsUnitless: a rejected value is warned about by its path and text, once. */
  method ValidateIsUnitless(w: Warner, value: RawValue, path: string) returns (r: Option<real>)
    requires w.Valid()
    modifies w
    ensures w.Valid()
    ensures r == Check(IsUnitless, value)
    ensures var m := Complaint(IsUnitless, path, value);
      && w.warned == old(w.warned) + (if r.None? then {m} else {})
      && w.log == old(w.log) + (if r.None? && m !in old(w.warned) then [m] else [])
  {
    var m := ParseUnitless(Stringify(value));
    if m.None? {
      var message := "Ignoring " + path + ", value '" + Stringify(value) + "' specifies an unit.";
      var _ := w.Warn(message);
      return None;
    }
    return m;
  }

  /** validateIsRem: only the first element of an array is looked at; a rejected value is warned about once. */
  method ValidateIsRem(w: Warner, value: RawValue, path: string) returns (r: Option<real>)
    requires w.Valid()
    modifies w
    ensures w.Valid()
    ensures r == Check(IsRem, value)
    ensures var m := Complaint(IsRem, path, value);
      && w.warned == old(w.warned) + (if r.None? then {m} else {})
      && w.log == old(w.log) + (if r.None? && m !in old(w.warned) then [m] else [])
  {
    var subject := RemSubject(value);
    var m := ParseRem(RemText(subject));
    if m.None? {
      var message := "Ignoring " + path + ", value " + Quoted(subject) + " is not in rem.";
      var _ := w.Warn(message);
      return None;
    }
    return m;
  }

  /** Calls the validator filterValidValues was given. */
  method RunValidator(w: Warner, validator: Validator, value: RawValue, path: string) returns (r: Option<real>)
    requires w.Valid()
    modifies w
    ensures w.Valid()
    ensures r == Checker(validator)(value)
    ensures var m := Complainer(validator)(path, value);
      && w.warned == old(w.warned) + (if r.None? then {m} else {})
      && w.log == old(w.log) + (if r.None? && m !in old(w.warned) then [m] else [])
  {
    match validator {
      case IsUnitless => r := ValidateIsUnitless(w, value, path);
      case IsRem => r := ValidateIsRem(w, value, path);
    }
  }

  // ---------------------------------------------------------------------------------------
  // filterValidValues

  /** The validator filterValidValues is given, as a function from a raw value to its result. */
  function Checker(validator: Validator): RawValue -> Option<real>
  {
    value => Check(validator, value)
  }

  /** The warning text filterValidValues' validator produces for a path and a value. */
  function Complainer(validator: Validator): (string, RawValue) -> string
  {
    (path, value) => Complaint(validator, path, value)
  }

  /** `entries.map(([k, v]) => [k, validator(v, path)])`: every entry paired with its validated value. */
  function Mapped(entries: seq<(string, RawValue)>, check: RawValue -> Option<real>): seq<(string, Option<real>)>
  {
    seq(|entries|, i requires 0 <= i < |entries| => (entries[i].0, check(entries[i].1)))
  }

  /** `mapped.filter(([_, v]) => typeof v !== 'undefined')`, with the values unwrapped. */
  function Defined(mapped: seq<(string, Option<real>)>): seq<(string, real)>
  {
    if mapped == [] then []
    else
      var init := Defined(mapped[..|mapped| - 1]);
      var last := mapped[|mapped| - 1];
      if last.1.Some? then init + [(last.0, last.1.value)] else init
  }

  /** The entries a validator accepts, in their original order, each with its value. */
  function Kept(entries: seq<(string, RawValue)>, check: RawValue -> Option<real>): seq<(string, real)>
  {
    Defined(Mapped(entries, check))
  }

  /** The config path a theme entry is named by in warnings. */
  function EntryPath(key: string, entryKey: string): string
  {
    "theme." + key + "." + entryKey
  }

  /** The warnings the rejected entries of theme category `key` produce, in order. */
  function Complaints(entries: seq<(string, RawValue)>, key: string, check: RawValue -> Option<real>,
                      complain: (string, RawValue) -> string): seq<string>
  {
    if entries == [] then []
    else
      var init := Complaints(entries[..|entries| - 1], key, check, complain);
      var last := entries[|entries| - 1];
      if check(last.1).None? then init + [complain(EntryPath(key, last.0), last.1)] else init
  }

  /** Filtering distributes over concatenation, so the original order is kept. */
  lemma {:induction false} DefinedAppend(a: seq<(string, Option<real>)>, b: seq<(string, Option<real>)>)
    ensures Defined(a + b) == Defined(a) + Defined(b)
    decreases |b|
  {
    if b == [] {
      assert a + b == a;
    } else {
      var b' := b[..|b| - 1];
      assert (a + b)[..|a + b| - 1] == a + b';
      DefinedAppend(a, b');
    }
  }

  /** A pair survives the filter exactly when it was defined in the mapped sequence. */
  lemma {:induction false} DefinedExactly(mapped: seq<(string, Option<real>)>, k: string, x: real)
    ensures (k, x) in Defined(mapped) <==> exists i :: 0 <= i < |mapped| && mapped[i] == (k, Some(x))
    decreases |mapped|
  {
    if mapped != [] {
      var init := mapped[..|mapped| - 1];
      DefinedExactly(init, k, x);
      if exists i :: 0 <= i < |mapped| && mapped[i] == (k, Some(x)) {
        var i :| 0 <= i < |mapped| && mapped[i] == (k, Some(x));
        if i < |init| {
          assert init[i] == mapped[i];
        }
      }
      if (k, x) in Defined(init) {
        var i :| 0 <= i < |init| && init[i] == (k, Some(x));
        assert mapped[i] == init[i];
      }
    }
  }

  /** Keeping distributes over concatenation of the entries: the original order is kept. */
  lemma KeptAppend(a: seq<(string, RawValue)>, b: seq<(string, RawValue)>, check: RawValue -> Option<real>)
    ensures Kept(a + b, check) == Kept(a, check) + Kept(b, check)
  {
    assert Mapped(a + b, check) == Mapped(a, check) + Mapped(b, check);
    DefinedAppend(Mapped(a, check), Mapped(b, check));
  }

  /** An entry is kept, paired with its validated value, exactly when the validator accepts it. */
  lemma KeptExactly(entries: seq<(string, RawValue)>, check: RawValue -> Option<real>, k: string, x: real)
    ensures (k, x) in Kept(entries, check) <==>
      exists i :: 0 <= i < |entries| && entries[i].0 == k && check(entries[i].1) == Some(x)
  {
    var mapped := Mapped(entries, check);
    DefinedExactly(mapped, k, x);
    if exists i :: 0 <= i < |entries| && entries[i].0 == k && check(entries[i].1) == Some(x) {
      var i :| 0 <= i < |entries| && entries[i].0 == k && check(entries[i].1) == Some(x);
      assert mapped[i] == (k, Some(x));
    }
  }

  /** The warnings name exactly the rejected entries. */
  lemma {:induction false} ComplaintsExactly(entries: seq<(string, RawValue)>, key: string,
                                             check: RawValue -> Option<real>,
                                             complain: (string, RawValue) -> string, m: string)
    ensures m in Complaints(entries, key, check, complain) <==>
      exists i :: 0 <= i < |entries| && check(entries[i].1).None? && m == complain(EntryPath(key, entries[i].0), entries[i].1)
    decreases |entries|
  {
    if entries != [] {
      var init := entries[..|entries| - 1];
      ComplaintsExactly(init, key, check, complain, m);
      if m in Complaints(init, key, check, complain) {
        var i :| 0 <= i < |init| && check(init[i].1).None? && m == complain(EntryPath(key, init[i].0), init[i].1);
        assert entries[i] == init[i];
      }
      if exists i :: 0 <= i < |entries| && check(entries[i].1).None? && m == complain(EntryPath(key, entries[i].0), entries[i].1) {
        var i :| 0 <= i < |entries| && check(entries[i].1).None? && m == complain(EntryPath(key, entries[i].0), entries[i].1);
        if i < |init| {
          assert init[i] == entries[i];
        }
      }
    }
  }

  /** filterValidValues: validate every entry of the theme category `key`, keep the accepted ones. */
  method FilterValidValues(w: Warner, entries: seq<(string, RawValue)>, key: string, validator: Validator)
    returns (valid: seq<(string, real)>)
    requires w.Valid()
    modifies w
    ensures w.Valid()
    ensures valid == Kept(entries, Checker(validator))
    ensures var complaints := Complaints(entries, key, Checker(validator), Complainer(validator));
      && w.warned == old(w.warned) + Elements(complaints)
      && w.log == old(w.log) + Fresh(old(w.warned), complaints)
  {
    ghost var check, complain := Checker(validator), Complainer(validator);
    valid := [];
    var i := 0;
    while i < |entries|
      invariant 0 <= i <= |entries|
      invariant w.Valid()
      invariant valid == Kept(entries[..i], check)
      invariant w.warned == old(w.warned) + Elements(Complaints(entries[..i], key, check, complain))
      invariant w.log == old(w.log) + Fresh(old(w.warned), Complaints(entries[..i], key, check, complain))
    {
      valid := FilterStep(w, entries, i, key, validator, valid);
      i := i + 1;
    }
    assert entries[..i] == entries;
  }

  /** One pass of filterValidValues' loop: validate entry `i` and keep it when accepted. */
  method FilterStep(w: Warner, entries: seq<(string, RawValue)>, i: nat, key: string, validator: Validator,
                    valid0: seq<(string, real)>)
    returns (valid: seq<(string, real)>)
    requires i < |entries|
    requires w.Valid()
    requires valid0 == Kept(entries[..i], Checker(validator))
    modifies w
    ensures w.Valid()
    ensures valid == Kept(entries[..i + 1], Checker(validator))
    ensures var before := Complaints(entries[..i], key, Checker(validator), Complainer(validator));
      var after := Complaints(entries[..i + 1], key, Checker(validator), Complainer(validator));
      forall warned: set<string>, log: seq<string> ::
        old(w.warned) == warned + Elements(before) && old(w.log) == log + Fresh(warned, before) ==>
        w.warned == warned + Elements(after) && w.log == log + Fresh(warned, after)
  {
    ghost var check, complain := Checker(validator), Complainer(validator);
    ghost var prefix := entries[..i];
    PrefixExtend(entries, i);
    var (k, v) := entries[i];
    var r := RunValidator(w, validator, v, EntryPath(key, k));
    valid := valid0;
    if r.Some? {
      valid := valid + [(k, r.value)];
    }
    assert valid == Kept(entries[..i + 1], check) by {
      KeptAppend(prefix, [entries[i]], check);
      KeptSingleton(entries[i], check);
    }
    forall warned: set<string>, log: seq<string> |
      old(w.warned) == warned + Elements(Complaints(prefix, key, check, complain)) &&
      old(w.log) == log + Fresh(warned, Complaints(prefix, key, check, complain))
      ensures w.warned == warned + Elements(Complaints(entries[..i + 1], key, check, complain))
      ensures w.log == log + Fresh(warned, Complaints(entries[..i + 1], key, check, complain))
    {
      WarningsStep(prefix, entries[i], key, check, complain, r, warned, log, old(w.warned), old(w.log), w.warned, w.log);
    }
  }

  lemma PrefixExtend<T>(s: seq<T>, i: nat)
    requires i < |s|
    ensures s[..i + 1] == s[..i] + [s[i]]
  {
  }

  /** The warning state after validating one more entry, in terms of the complaints so far. */
  lemma WarningsStep(prefix: seq<(string, RawValue)>, entry: (string, RawValue), key: string,
                     check: RawValue -> Option<real>, complain: (string, RawValue) -> string, r: Option<real>,
                     warned: set<string>, log: seq<string>, warned0: set<string>, log0: seq<string>,
                     warned1: set<string>, log1: seq<string>)
    requires r == check(entry.1)
    requires warned0 == warned + Elements(Complaints(prefix, key, check, complain))
    requires log0 == log + Fresh(warned, Complaints(prefix, key, check, complain))
    requires var m := complain(EntryPath(key, entry.0), entry.1);
      && warned1 == warned0 + (if r.None? then {m} else {})
      && log1 == log0 + (if r.None? && m !in warned0 then [m] else [])
    ensures warned1 == warned + Elements(Complaints(prefix + [entry], key, check, complain))
    ensures log1 == log + Fresh(warned, Complaints(prefix + [entry], key, check, complain))
  {
    var before := Complaints(prefix, key, check, complain);
    var m := complain(EntryPath(key, entry.0), entry.1);
    ComplaintsSnoc(prefix, entry, key, check, complain);
    if r.None? {
      FreshSnoc(warned, before, m);
      ElementsSnoc(before, m);
      assert (m in warned0) == (m in warned || m in before);
    }
  }

  /** One more entry adds its warning to the complaints exactly when the validator rejects it. */
  lemma ComplaintsSnoc(prefix: seq<(string, RawValue)>, entry: (string, RawValue), key: string,
                       check: RawValue -> Option<real>, complain: (string, RawValue) -> string)
    ensures Complaints(prefix + [entry], key, check, complain) ==
      Complaints(prefix, key, check, complain) + if check(entry.1).None? then [complain(EntryPath(key, entry.0), entry.1)] else []
  {
    var s := prefix + [entry];
    assert s[..|s| - 1] == prefix;
  }

  /** A single entry is kept exactly when the validator accepts it. */
  lemma KeptSingleton(entry: (string, RawValue), check: RawValue -> Option<real>)
    ensures Kept([entry], check) == if check(entry.1).Some? then [(entry.0, check(entry.1).value)] else []
  {
    var mapped := Mapped([entry], check);
    assert mapped == [(entry.0, check(entry.1))];
    assert mapped[..0] == [];
    assert Defined(mapped[..0]) == [];
    if check(entry.1).Some? {
      assert Defined(mapped) == [] + [(entry.0, check(entry.1).value)];
    }
  }
}
