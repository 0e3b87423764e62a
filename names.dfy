/**
 * The names the generator gives its utilities (index.js:177-189): the font family selector
 * and the class name joined from the non-empty parts.
 */
module Names {
  import opened Chars
  import opened Validate

  // ---------------------------------------------------------------------------------------
  // `fontFamily.replace(/\s+/, '-')`

  /** The index of the first whitespace character, or |s| when there is none. */
  function FirstSpace(s: string): (i: nat)
    ensures i <= |s|
    ensures i < |s| ==> IsSpace(s[i])
    ensures forall k :: 0 <= k < i ==> !IsSpace(s[k])
  {
    if s == [] then 0
    else if IsSpace(s[0]) then 0
    else 1 + FirstSpace(s[1..])
  }

  /** The first run of whitespace replaced by one `-`; later runs stay (the regex has no `g` flag). */
  function ReplaceFirstSpaceRun(s: string): string
  {
    var i := FirstSpace(s);
    if i == |s| then s
    else s[..i] + "-" + s[i + LeadingSpaces(s[i..])..]
  }

  /** A name without whitespace is left as it is. */
  lemma ReplaceWithoutSpace(s: string)
    requires forall k :: 0 <= k < |s| ==> !IsSpace(s[k])
    ensures ReplaceFirstSpaceRun(s) == s
  {
  }

  /** The whole first run is replaced, and only the first: what follows it is kept as it is. */
  lemma ReplaceFirstRun(pre: string, ws: string, post: string)
    requires forall k :: 0 <= k < |pre| ==> !IsSpace(pre[k])
    requires |ws| > 0 && AllSpace(ws)
    requires post == [] || !IsSpace(post[0])
    ensures ReplaceFirstSpaceRun(pre + ws + post) == pre + "-" + post
  {
    var s := pre + ws + post;
    FirstSpaceOf(pre, ws + post);
    assert s == pre + (ws + post);
    assert s[|pre|..] == ws + post;
    LeadingSpacesOf(ws, post);
    assert s[..|pre|] == pre;
    assert s[|pre| + |ws|..] == post;
  }

  lemma {:induction false} FirstSpaceOf(pre: string, rest: string)
    requires forall k :: 0 <= k < |pre| ==> !IsSpace(pre[k])
    requires |rest| > 0 && IsSpace(rest[0])
    ensures FirstSpace(pre + rest) == |pre|
  {
    if pre != [] {
      assert (pre + rest)[1..] == pre[1..] + rest;
      FirstSpaceOf(pre[1..], rest);
    } else {
      assert pre + rest == rest;
    }
  }

  // ---------------------------------------------------------------------------------------
  // `.toLowerCase()`

  /** The lower-case form of an upper-case ASCII letter; every other character is kept. */
  function LowerChar(c: char): char
  {
    if 'A' <= c <= 'Z' then (c as int + 32) as char else c
  }

  /** `toLowerCase` on ASCII: no upper-case letter is left, each moves 32 code points down, the rest is kept. */
  function ToLower(s: string): (t: string)
    ensures |t| == |s|
    ensures forall i :: 0 <= i < |t| ==> !('A' <= t[i] <= 'Z')
    ensures forall i :: 0 <= i < |s| && 'A' <= s[i] <= 'Z' ==> t[i] as int == s[i] as int + 32
    ensures forall i :: 0 <= i < |s| && !('A' <= s[i] <= 'Z') ==> t[i] == s[i]
  {
    seq(|s|, i requires 0 <= i < |s| => LowerChar(s[i]))
  }

  /** Lowering a lower-cased name changes nothing more. */
  lemma ToLowerIdempotent(s: string)
    ensures ToLower(ToLower(s)) == ToLower(s)
  {
    var t := ToLower(s);
    assert forall i :: 0 <= i < |t| ==> LowerChar(t[i]) == t[i];
  }

  // ---------------------------------------------------------------------------------------
  // The font family selector

  /** `''` for the family `default`, otherwise the escaped, dashed, lower-cased family name. */
  function FamilySelector(family: string, escape: string -> string): string
  {
    if family == "default" then "" else escape(ToLower(ReplaceFirstSpaceRun(family)))
  }

  /** The family `default` has the empty selector, so its class names carry no family part. */
  lemma DefaultSelector(escape: string -> string)
    ensures FamilySelector("default", escape) == ""
    ensures forall lineHeight, fontSize ::
              ClassName(FamilySelector("default", escape), lineHeight, fontSize) == ".vr" + Suffix(lineHeight) + Suffix(fontSize)
  {
    forall lineHeight, fontSize {
      ClassNameShape("", lineHeight, fontSize);
    }
  }

  /** Any other family without whitespace is escaped after lower-casing. */
  lemma PlainSelector(family: string, escape: string -> string)
    requires family != "default"
    requires forall k :: 0 <= k < |family| ==> !IsSpace(family[k])
    ensures FamilySelector(family, escape) == escape(ToLower(family))
  {
    ReplaceWithoutSpace(family);
  }

  /**
   * A family with whitespace is never `default`; its first whitespace run becomes one `-`, later
   * runs are kept, and the result is lower-cased and escaped.
   */
  lemma SpacedSelector(pre: string, ws: string, post: string, escape: string -> string)
    requires forall k :: 0 <= k < |pre| ==> !IsSpace(pre[k])
    requires |ws| > 0 && AllSpace(ws)
    requires post == [] || !IsSpace(post[0])
    ensures FamilySelector(pre + ws + post, escape) == escape(ToLower(pre + "-" + post))
  {
    var family := pre + ws + post;
    assert IsSpace(family[|pre|]);
    DefaultHasNoSpace();
    ReplaceFirstRun(pre, ws, post);
  }

  lemma DefaultHasNoSpace()
    ensures forall k :: 0 <= k < |"default"| ==> !IsSpace("default"[k])
  {
  }

  // ---------------------------------------------------------------------------------------
  // `parts.filter(Boolean).join('-')`

  /** The non-empty strings of `parts`, in order. */
  function NonEmpty(parts: seq<string>): seq<string>
  {
    if parts == [] then []
    else if parts[0] == "" then NonEmpty(parts[1..])
    else [parts[0]] + NonEmpty(parts[1..])
  }

  /** The class name of one combination of family selector, line height key and font size key. */
  function ClassName(selector: string, lineHeight: string, fontSize: string): string
  {
    Join(NonEmpty([".vr", selector, lineHeight, fontSize]), "-")
  }

  /** A `-` and the part, or nothing for an empty part. */
  function Suffix(part: string): string
  {
    if part == "" then "" else "-" + part
  }

  /** Each part after the first, preceded by `-`. */
  function Dashed(parts: seq<string>): string
  {
    if parts == [] then "" else "-" + parts[0] + Dashed(parts[1..])
  }

  lemma {:induction false} JoinDashed(first: string, rest: seq<string>)
    ensures Join([first] + rest, "-") == first + Dashed(rest)
    decreases |rest|
  {
    var items := [first] + rest;
    if rest == [] {
      assert items == [first];
    } else {
      assert items[1..] == [rest[0]] + rest[1..];
      JoinDashed(rest[0], rest[1..]);
    }
  }

  lemma DashedNonEmpty(p: string, rest: seq<string>)
    ensures Dashed(NonEmpty([p] + rest)) == Suffix(p) + Dashed(NonEmpty(rest))
  {
    assert ([p] + rest)[1..] == rest;
    if p != "" {
      assert NonEmpty([p] + rest) == [p] + NonEmpty(rest);
      assert ([p] + NonEmpty(rest))[1..] == NonEmpty(rest);
    }
  }

  /** The class name is `.vr` followed by `-` and each non-empty part, in order. */
  lemma ClassNameShape(selector: string, lineHeight: string, fontSize: string)
    ensures ClassName(selector, lineHeight, fontSize) == ".vr" + Suffix(selector) + Suffix(lineHeight) + Suffix(fontSize)
  {
    ClassNameJoin(selector, lineHeight, fontSize);
    DashedParts(selector, lineHeight, fontSize);
  }

  lemma ClassNameJoin(selector: string, lineHeight: string, fontSize: string)
    ensures ClassName(selector, lineHeight, fontSize) == ".vr" + Dashed(NonEmpty([selector, lineHeight, fontSize]))
  {
    var tail := [selector, lineHeight, fontSize];
    assert [".vr", selector, lineHeight, fontSize] == [".vr"] + tail;
    DashedCons(".vr", tail);
    JoinDashed(".vr", NonEmpty(tail));
  }

  lemma DashedParts(a: string, b: string, c: string)
    ensures Dashed(NonEmpty([a, b, c])) == Suffix(a) + Suffix(b) + Suffix(c)
  {
    assert [a, b, c] == [a] + [b, c];
    DashedNonEmpty(a, [b, c]);
    DashedPair(b, c);
  }

  lemma DashedPair(b: string, c: string)
    ensures Dashed(NonEmpty([b, c])) == Suffix(b) + Suffix(c)
  {
    assert [b, c] == [b] + [c];
    DashedNonEmpty(b, [c]);
    assert [c] == [c] + [];
    DashedNonEmpty(c, []);
  }

  lemma DashedCons(p: string, rest: seq<string>)
    requires p != ""
    ensures NonEmpty([p] + rest) == [p] + NonEmpty(rest)
  {
    assert ([p] + rest)[1..] == rest;
  }

  /** The alias entry (key `''`) contributes nothing: its class is `.vr[-family]-<font size>`. */
  lemma AliasClassName(selector: string, fontSize: string)
    ensures ClassName(selector, "", fontSize) == ".vr" + Suffix(selector) + Suffix(fontSize)
  {
    ClassNameShape(selector, "", fontSize);
  }

  /** Every class name begins with `.vr`. */
  lemma ClassNameStartsWithVr(selector: string, lineHeight: string, fontSize: string)
    ensures var name := ClassName(selector, lineHeight, fontSize); |name| >= 3 && name[..3] == ".vr"
  {
    ClassNameShape(selector, lineHeight, fontSize);
    StartsWithVr(ClassName(selector, lineHeight, fontSize), Suffix(selector) + Suffix(lineHeight) + Suffix(fontSize));
  }

  lemma StartsWithVr(name: string, rest: string)
    requires name == ".vr" + rest
    ensures |name| >= 3 && name[..3] == ".vr"
  {
  }
}
