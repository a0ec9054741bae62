/**
 The string handling the register leans on before a value is stored: white-space
 trimming, digit folding and the collapsing of blanks in a property name. The
 Unicode canonical form itself stays a parameter of the modules that use it.
 */
module Text {

  // Unicode's White_Space property, which the trimming functions test.
  predicate IsSpace(c: char) {
    || '\t' <= c <= '\r' || c == ' ' || c == '\U{0085}' || c == '\U{00A0}' || c == '\U{1680}'
    || '\U{2000}' <= c <= '\U{200A}' || c == '\U{2028}' || c == '\U{2029}' || c == '\U{202F}'
    || c == '\U{205F}' || c == '\U{3000}'
  }

  predicate Trimmed(s: string) {
    s == "" || (!IsSpace(s[0]) && !IsSpace(s[|s| - 1]))
  }

  function TrimLeft(s: string): (r: string)
    ensures r == "" || !IsSpace(r[0])
    ensures s == "" || !IsSpace(s[0]) ==> r == s
    ensures r != "" ==> r[|r| - 1] == s[|s| - 1] && |r| <= |s|
  {
    if s != "" && IsSpace(s[0]) then TrimLeft(s[1..]) else s
  }

  function TrimRight(s: string): (r: string)
    ensures r == "" || !IsSpace(r[|r| - 1])
    ensures s == "" || !IsSpace(s[|s| - 1]) ==> r == s
    ensures r <= s
  {
    if s != "" && IsSpace(s[|s| - 1]) then TrimRight(s[..|s| - 1]) else s
  }

  // White space at either end is dropped, and nothing else changes.
  function Trim(s: string): (r: string)
    ensures Trimmed(r)
    ensures Trimmed(s) ==> r == s
  {
    TrimRight(TrimLeft(s))
  }

  function WesternDigit(c: char): char {
    if '\U{0660}' <= c <= '\U{0669}' then '0' + (c - '\U{0660}') else c
  }

  function WesternDigits(s: string): (r: string)
    ensures |r| == |s|
  {
    if s == "" then "" else [WesternDigit(s[0])] + WesternDigits(s[1..])
  }

  predicate IsBlank(c: char) {
    c == ' ' || c == '\t' || c == '\n' || c == '\r'
  }

  // What one character writes; `inSpace` says that the run of blanks under way has
  // already produced its space.
  function Written(c: char, inSpace: bool): string {
    if !IsBlank(c) then [c] else if inSpace then "" else " "
  }

  // What is left of `s` when every run of blanks becomes one space.
  function Collapse(s: string, inSpace: bool): (r: string)
    ensures s != "" && !IsSpace(s[0]) ==> r != "" && r[0] == s[0]
    ensures s != "" && !IsSpace(s[|s| - 1]) ==> r != "" && r[|r| - 1] == s[|s| - 1]
  {
    if s == "" then ""
    else Written(s[0], inSpace) + Collapse(s[1..], IsBlank(s[0]))
  }

  // The stored form of a property name.
  function NormalisedName(raw: string): (r: string)
    ensures Trimmed(r)
  {
    Collapse(Trim(raw), false)
  }

  predicate SingleSpaced(s: string) {
    && (forall i :: 0 <= i < |s| && IsBlank(s[i]) ==> s[i] == ' ')
    && (forall i :: 0 < i < |s| && IsBlank(s[i - 1]) ==> !IsBlank(s[i]))
  }

  lemma {:induction false} CollapseSingleSpaced(s: string, inSpace: bool)
    ensures SingleSpaced(Collapse(s, inSpace))
    ensures inSpace && Collapse(s, inSpace) != "" ==> !IsBlank(Collapse(s, inSpace)[0])
  {
    if s != "" {
      CollapseSingleSpaced(s[1..], IsBlank(s[0]));
    }
  }

  lemma {:induction false} CollapseFixesSingleSpaced(s: string, inSpace: bool)
    requires SingleSpaced(s)
    requires inSpace && s != "" ==> !IsBlank(s[0])
    ensures Collapse(s, inSpace) == s
  {
    if s != "" {
      assert forall i :: 0 < i < |s| ==> s[1..][i - 1] == s[i];
      CollapseFixesSingleSpaced(s[1..], IsBlank(s[0]));
      assert s == [s[0]] + s[1..];
    }
  }

  // Saving a name that was read back from the register changes nothing, however
  // often it is done.
  lemma NormalisedNameIsStable(raw: string)
    ensures SingleSpaced(NormalisedName(raw))
    ensures NormalisedName(NormalisedName(raw)) == NormalisedName(raw)
  {
    CollapseSingleSpaced(Trim(raw), false);
    CollapseFixesSingleSpaced(NormalisedName(raw), false);
  }

  lemma CollapseStep(b: string, s: string, i: nat, inSpace: bool)
    requires i < |s|
    ensures b + Collapse(s[i..], inSpace) == b + Written(s[i], inSpace) + Collapse(s[i + 1..], IsBlank(s[i]))
  {
    assert s[i..][1..] == s[i + 1..];
  }

  // The builder loop, with its flag for "the last thing written was the space".
  method NormaliseName(raw: string) returns (name: string)
    ensures name == NormalisedName(raw)
  {
    var s := Trim(raw);
    if s == "" {
      return "";
    }
    ghost var whole := Collapse(s, false);
    assert s[0..] == s;
    var b := "";
    var inSpace := false;
    for i := 0 to |s|
      invariant b + Collapse(s[i..], inSpace) == whole
      invariant b == "" ==> i == 0
    {
      CollapseStep(b, s, i, inSpace);
      assert b + Written(s[i], inSpace) + Collapse(s[i + 1..], IsBlank(s[i])) == whole;
      if IsBlank(s[i]) {
        assert |b| > 0;
        assert inSpace ==> b + Written(s[i], inSpace) == b;
        if !inSpace && |b| > 0 {
          b := b + " ";
          inSpace := true;
        }
        assert b + Collapse(s[i + 1..], true) == whole;
      } else {
        b := b + [s[i]];
        inSpace := false;
      }
    }
    name := TrimRight(b);
  }

  // ----- what is dropped and what is kept -----

  // The code points of Unicode's White_Space property.
  lemma SpacesAre(c: char)
    ensures IsSpace(c) <==>
            (c as int) in {
              0x09, 0x0A, 0x0B, 0x0C, 0x0D, 0x20, 0x85, 0xA0, 0x1680, 0x2000, 0x2001, 0x2002, 0x2003, 0x2004, 0x2005,
              0x2006, 0x2007, 0x2008, 0x2009, 0x200A, 0x2028, 0x2029, 0x202F, 0x205F, 0x3000}
    ensures IsBlank(c) <==> (c as int) in {0x09, 0x0A, 0x0D, 0x20}
  {
  }

  ghost predicate AllSpaces(s: string) {
    forall i :: 0 <= i < |s| ==> IsSpace(s[i])
  }

  lemma SpacesJoin(a: string, b: string)
    requires AllSpaces(a) && AllSpaces(b)
    ensures AllSpaces(a + b)
  {
  }

  lemma InThree(s: string, a: string, rest: string, b: string, c: string)
    requires s == a + rest && rest == b + c
    ensures s == a + b + c
  {
  }

  lemma {:induction false} TrimLeftDrops(s: string) returns (before: string)
    ensures s == before + TrimLeft(s) && AllSpaces(before)
  {
    if s != "" && IsSpace(s[0]) {
      var first := [s[0]];
      var rest := TrimLeftDrops(s[1..]);
      before := first + rest;
      InThree(s, first, s[1..], rest, TrimLeft(s));
      SpacesJoin(first, rest);
    } else {
      before := "";
    }
  }

  lemma {:induction false} TrimRightDrops(s: string) returns (after: string)
    ensures s == TrimRight(s) + after && AllSpaces(after)
  {
    if s != "" && IsSpace(s[|s| - 1]) {
      var last := [s[|s| - 1]];
      var rest := TrimRightDrops(s[..|s| - 1]);
      after := rest + last;
      InThree(s, TrimRight(s), rest + last, rest, last);
      SpacesJoin(rest, last);
    } else {
      after := "";
    }
  }

  // Trimming takes white space off the two ends and nothing else.
  lemma TrimIsTheMiddle(s: string) returns (before: string, after: string)
    ensures s == before + Trim(s) + after && AllSpaces(before) && AllSpaces(after)
  {
    before := TrimLeftDrops(s);
    after := TrimRightDrops(TrimLeft(s));
    InThree(s, before, TrimLeft(s), Trim(s), after);
  }

  // The ten Arabic-Indic digits, U+0660 to U+0669, become "0" to "9"; no other character changes.
  lemma DigitsAre(c: char)
    ensures var d := c as int - 0x0660;
            WesternDigit(c) == if 0 <= d < 10 then "0123456789"[d] else c
  {
  }

  lemma {:induction false} DigitsInPlace(s: string, i: nat)
    requires i < |s|
    ensures WesternDigits(s)[i] == WesternDigit(s[i])
  {
    if i > 0 {
      DigitsInPlace(s[1..], i - 1);
    }
  }

  function Flushed(word: string): seq<string> {
    if word == "" then [] else [word]
  }

  // The words of a text, with the one under way in front.
  function Words(word: string, s: string): seq<string>
    decreases |s|
  {
    if s == "" then Flushed(word)
    else if IsBlank(s[0]) then Flushed(word) + Words("", s[1..])
    else Words(word + [s[0]], s[1..])
  }

  lemma {:induction false} CollapseKeepsWords(word: string, s: string, inSpace: bool)
    requires inSpace ==> word == ""
    ensures Words(word, Collapse(s, inSpace)) == Words(word, s)
    decreases |s|
  {
    if s != "" {
      var rest := Collapse(s[1..], IsBlank(s[0]));
      if !IsBlank(s[0]) {
        assert ([s[0]] + rest)[1..] == rest;
        CollapseKeepsWords(word + [s[0]], s[1..], false);
      } else if inSpace {
        assert "" + rest == rest;
        CollapseKeepsWords("", s[1..], true);
      } else {
        assert (" " + rest)[1..] == rest;
        CollapseKeepsWords("", s[1..], true);
      }
    }
  }

  // A stored name has the words of the name typed, one space between any two, none around.
  lemma NormalisedNameKeepsWords(raw: string)
    ensures Words("", NormalisedName(raw)) == Words("", Trim(raw))
    ensures SingleSpaced(NormalisedName(raw)) && Trimmed(NormalisedName(raw))
  {
    CollapseKeepsWords("", Trim(raw), false);
    CollapseSingleSpaced(Trim(raw), false);
  }
}
