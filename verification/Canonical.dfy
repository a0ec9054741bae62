/**
 The canonical form of names, codes and queries: digits, NFKC, marks and tatweel, letter
 variants, case. NFKC, the class of combining marks and the case mapping are given.
 */
module Canonical {
  import opened Text

  datatype Unicode = Unicode(nfkc: string -> string, isMark: char -> bool, lower: string -> string)

  const TATWEEL: char := '\U{0640}'
  const ALEF: char := '\U{0627}'
  const YA: char := '\U{064A}'
  const HA: char := '\U{0647}'

  // ----- the passes -----

  function StripMarks(isMark: char -> bool, s: string): string {
    if s == "" then "" else (if isMark(s[0]) then "" else [s[0]]) + StripMarks(isMark, s[1..])
  }

  function Without(c: char, s: string): string {
    if s == "" then "" else (if s[0] == c then "" else [s[0]]) + Without(c, s[1..])
  }

  // Every character of `from` becomes `to`.
  function Unified(from: set<char>, to: char, s: string): string {
    if s == "" then "" else [if s[0] in from then to else s[0]] + Unified(from, to, s[1..])
  }

  const ALEF_VARIANTS: set<char> := {'\U{0622}', '\U{0623}', '\U{0625}', '\U{0671}'}

  // The passes between NFKC and the case mapping, in the source's order.
  function Letters(isMark: char -> bool, s: string): string {
    var bare := Without(TATWEEL, StripMarks(isMark, s));
    Unified({'\U{0629}'}, HA, Unified({'\U{0649}'}, YA, Unified(ALEF_VARIANTS, ALEF, bare)))
  }

  function CanonicalForm(u: Unicode, raw: string): string {
    u.lower(Letters(u.isMark, u.nfkc(WesternDigits(raw))))
  }

  // ----- the loops -----

  method EasternToWesternDigits(s: string) returns (b: string)
    ensures b == WesternDigits(s)
  {
    b := "";
    assert s[0..] == s;
    for i := 0 to |s|
      invariant b + WesternDigits(s[i..]) == WesternDigits(s)
    {
      assert s[i..][1..] == s[i + 1..];
      var c := s[i];
      if '\U{0660}' <= c <= '\U{0669}' {
        c := '0' + (c - '\U{0660}');
      }
      b := b + [c];
    }
  }

  lemma StripStep(isMark: char -> bool, b: string, s: string, i: nat)
    requires i < |s|
    ensures b + StripMarks(isMark, s[i..]) == (if isMark(s[i]) then b else b + [s[i]]) + StripMarks(isMark, s[i + 1..])
  {
    assert s[i..][1..] == s[i + 1..];
  }

  method StripCombiningMarks(isMark: char -> bool, s: string) returns (b: string)
    ensures b == StripMarks(isMark, s)
  {
    b := "";
    assert s[0..] == s;
    for i := 0 to |s|
      invariant b + StripMarks(isMark, s[i..]) == StripMarks(isMark, s)
    {
      StripStep(isMark, b, s, i);
      if isMark(s[i]) {
        continue;
      }
      b := b + [s[i]];
    }
  }

  // ----- one pass instead of five -----

  // What becomes of a single character.
  function Letter(isMark: char -> bool, c: char): string {
    if isMark(c) || c == TATWEEL then ""
    else if c in ALEF_VARIANTS then [ALEF]
    else if c == '\U{0649}' then [YA]
    else if c == '\U{0629}' then [HA]
    else [c]
  }

  function LetterByLetter(isMark: char -> bool, s: string): string {
    if s == "" then "" else Letter(isMark, s[0]) + LetterByLetter(isMark, s[1..])
  }

  // No pass disturbs another: together they replace each character by itself.
  lemma {:induction false} PassesAreOne(isMark: char -> bool, s: string)
    ensures Letters(isMark, s) == LetterByLetter(isMark, s)
  {
    if s != "" {
      PassesAreOne(isMark, s[1..]);
      var rest := StripMarks(isMark, s[1..]);
      var bare := Without(TATWEEL, rest);
      if isMark(s[0]) {
        assert StripMarks(isMark, s) == rest;
      } else {
        assert StripMarks(isMark, s) == [s[0]] + rest && ([s[0]] + rest)[1..] == rest;
        if s[0] == TATWEEL {
          assert Without(TATWEEL, [s[0]] + rest) == bare;
        } else {
          assert Without(TATWEEL, [s[0]] + rest) == [s[0]] + bare;
          UnifyFirst(s[0], bare);
        }
      }
    }
  }

  lemma UnifyFirst(c: char, rest: string)
    ensures var u1 := Unified(ALEF_VARIANTS, ALEF, rest);
            Unified({'\U{0629}'}, HA, Unified({'\U{0649}'}, YA, Unified(ALEF_VARIANTS, ALEF, [c] + rest))) ==
            [if c in ALEF_VARIANTS then ALEF else if c == '\U{0649}' then YA else if c == '\U{0629}' then HA else c] +
            Unified({'\U{0629}'}, HA, Unified({'\U{0649}'}, YA, u1))
  {
    var a := if c in ALEF_VARIANTS then ALEF else c;
    var b := if a == '\U{0649}' then YA else a;
    var u1 := Unified(ALEF_VARIANTS, ALEF, rest);
    var u2 := Unified({'\U{0649}'}, YA, u1);
    assert ([c] + rest)[1..] == rest && ([a] + u1)[1..] == u1 && ([b] + u2)[1..] == u2;
    assert Unified(ALEF_VARIANTS, ALEF, [c] + rest) == [a] + u1;
    assert Unified({'\U{0649}'}, YA, [a] + u1) == [b] + u2;
  }

  // ----- what the form is blind to -----

  lemma {:induction false} DigitsOnce(s: string)
    ensures WesternDigits(WesternDigits(s)) == WesternDigits(s)
  {
    if s != "" {
      DigitsOnce(s[1..]);
      assert WesternDigits(s)[1..] == WesternDigits(s[1..]);
    }
  }

  // Digits typed in either script are the same name.
  lemma DigitScriptDoesNotMatter(u: Unicode, raw: string)
    ensures CanonicalForm(u, WesternDigits(raw)) == CanonicalForm(u, raw)
  {
    DigitsOnce(raw);
  }

  lemma {:induction false} LetterByLetterSplits(isMark: char -> bool, a: string, b: string)
    ensures LetterByLetter(isMark, a + b) == LetterByLetter(isMark, a) + LetterByLetter(isMark, b)
  {
    if a == "" {
      assert a + b == b;
    } else {
      assert (a + b)[1..] == a[1..] + b;
      LetterByLetterSplits(isMark, a[1..], b);
    }
  }

  lemma OneLetterInside(isMark: char -> bool, x: string, c: char, y: string)
    ensures LetterByLetter(isMark, x + [c] + y) ==
            LetterByLetter(isMark, x) + Letter(isMark, c) + LetterByLetter(isMark, y)
  {
    LetterByLetterSplits(isMark, x + [c], y);
    LetterByLetterSplits(isMark, x, [c]);
    assert [c][1..] == "" && LetterByLetter(isMark, [c]) == Letter(isMark, c);
  }

  // Once in NFKC, a mark or a tatweel put in anywhere does not make another name.
  lemma MarksDoNotMatter(u: Unicode, a: string, b: string, x: string, c: char, y: string)
    requires u.nfkc(WesternDigits(a)) == x + [c] + y && u.nfkc(WesternDigits(b)) == x + y
    requires u.isMark(c) || c == TATWEEL
    ensures CanonicalForm(u, a) == CanonicalForm(u, b)
  {
    PassesAreOne(u.isMark, x + [c] + y);
    PassesAreOne(u.isMark, x + y);
    OneLetterInside(u.isMark, x, c, y);
    LetterByLetterSplits(u.isMark, x, y);
    assert LetterByLetter(u.isMark, x) + "" == LetterByLetter(u.isMark, x);
  }

  // The letters users do not tell apart.
  predicate SameLetter(c: char, d: char) {
    || (c in ALEF_VARIANTS + {ALEF} && d in ALEF_VARIANTS + {ALEF})
    || (c in {'\U{0649}', YA} && d in {'\U{0649}', YA})
    || (c in {'\U{0629}', HA} && d in {'\U{0629}', HA})
  }

  lemma SameLetterSame(isMark: char -> bool, c: char, d: char)
    requires SameLetter(c, d) && !isMark(c) && !isMark(d)
    ensures Letter(isMark, c) == Letter(isMark, d)
  {
  }

  // Nor does one variant of alef, ya or ha put for another.
  lemma VariantsDoNotMatter(u: Unicode, a: string, b: string, x: string, c: char, d: char, y: string)
    requires u.nfkc(WesternDigits(a)) == x + [c] + y && u.nfkc(WesternDigits(b)) == x + [d] + y
    requires SameLetter(c, d) && !u.isMark(c) && !u.isMark(d)
    ensures CanonicalForm(u, a) == CanonicalForm(u, b)
  {
    PassesAreOne(u.isMark, x + [c] + y);
    PassesAreOne(u.isMark, x + [d] + y);
    OneLetterInside(u.isMark, x, c, y);
    OneLetterInside(u.isMark, x, d, y);
    SameLetterSame(u.isMark, c, d);
  }

  // The letters settle at once: doing the passes again changes nothing.
  lemma {:induction false} LettersSettle(isMark: char -> bool, s: string)
    requires !isMark(ALEF) && !isMark(YA) && !isMark(HA)
    ensures Letters(isMark, Letters(isMark, s)) == Letters(isMark, s)
  {
    PassesAreOne(isMark, s);
    PassesAreOne(isMark, Letters(isMark, s));
    LetterByLetterSettles(isMark, s);
  }

  lemma {:induction false} LetterByLetterSettles(isMark: char -> bool, s: string)
    requires !isMark(ALEF) && !isMark(YA) && !isMark(HA)
    ensures LetterByLetter(isMark, LetterByLetter(isMark, s)) == LetterByLetter(isMark, s)
  {
    if s != "" {
      LetterByLetterSettles(isMark, s[1..]);
      var first, rest := Letter(isMark, s[0]), LetterByLetter(isMark, s[1..]);
      if first == "" {
        assert first + rest == rest;
      } else {
        var c := first[0];
        assert first + rest == [c] + rest && ([c] + rest)[1..] == rest && Letter(isMark, c) == [c];
      }
    }
  }

  // Character by character, in code points: marks and the tatweel vanish, four variants of
  // alef become alef, alef maqsura becomes ya, ta marbuta becomes ha, and the rest stay.
  lemma LetterIs(isMark: char -> bool, c: char)
    ensures Letters(isMark, [c]) ==
            if isMark(c) || c as int == 0x0640 then ""
            else if c as int in {0x0622, 0x0623, 0x0625, 0x0671} then [0x0627 as char]
            else if c as int == 0x0649 then [0x064A as char]
            else if c as int == 0x0629 then [0x0647 as char]
            else [c]
  {
    PassesAreOne(isMark, [c]);
    assert LetterByLetter(isMark, [c]) == Letter(isMark, c) + LetterByLetter(isMark, "");
  }

  // The case mapping comes last, so a canonical form has no case left to fold.
  lemma CanonicalIsLowered(u: Unicode, raw: string)
    requires forall s :: u.lower(u.lower(s)) == u.lower(s)
    ensures u.lower(CanonicalForm(u, raw)) == CanonicalForm(u, raw)
  {
  }

  // NFKC comes before the letters: texts it does not tell apart have one canonical form.
  lemma CompatibleFormsDoNotMatter(u: Unicode, a: string, b: string)
    requires u.nfkc(WesternDigits(a)) == u.nfkc(WesternDigits(b))
    ensures CanonicalForm(u, a) == CanonicalForm(u, b)
  {
  }
}
