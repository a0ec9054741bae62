/**
 UTF-8 lengths (section 3 of RFC 3629) and the cap on stored text: the longest prefix of
 whole characters that fits.
 */
module Utf8Cap {

  type octet = b: int | 0 <= b < 0x100

  function Utf8Char(c: char): (r: seq<octet>)
    ensures 1 <= |r| <= 4
  {
    var v := c as int;
    if v < 0x80 then [v]
    else if v < 0x800 then [0xC0 + v / 0x40, 0x80 + v % 0x40]
    else if v < 0x1_0000 then [0xE0 + v / 0x1000, 0x80 + v / 0x40 % 0x40, 0x80 + v % 0x40]
    else [0xF0 + v / 0x4_0000, 0x80 + v / 0x1000 % 0x40, 0x80 + v / 0x40 % 0x40, 0x80 + v % 0x40]
  }

  function Utf8(s: string): seq<octet> {
    if s == "" then [] else Utf8(s[..|s| - 1]) + Utf8Char(s[|s| - 1])
  }

  predicate IsContinuation(b: octet) {
    0x80 <= b < 0xC0
  }

  // A character starts with a byte that continues none, and has no other such byte.
  lemma CharStarts(c: char)
    ensures !IsContinuation(Utf8Char(c)[0])
    ensures forall i :: 0 < i < |Utf8Char(c)| ==> IsContinuation(Utf8Char(c)[i])
  {
  }

  // The code point that one to four bytes spell, by the standard's table.
  function Spelt(b: seq<octet>): int
    requires 1 <= |b| <= 4
  {
    if |b| == 1 then b[0] as int
    else if |b| == 2 then (b[0] as int - 0xC0) * 64 + Six(b[1])
    else if |b| == 3 then (b[0] as int - 0xE0) * 4096 + Six(b[1]) * 64 + Six(b[2])
    else (b[0] as int - 0xF0) * 262144 + Six(b[1]) * 4096 + Six(b[2]) * 64 + Six(b[3])
  }

  function Six(b: octet): int {
    b as int - 0x80
  }

  // By the same table: how many bytes a character takes, and what the first may be.
  lemma Utf8Widths(c: char)
    ensures var v, b := c as int, Utf8Char(c);
            && |b| == (if v <= 0x7F then 1 else if v <= 0x7FF then 2 else if v <= 0xFFFF then 3 else 4)
            && (|b| == 1 ==> b[0] <= 0x7F) && (|b| == 2 ==> 0xC2 <= b[0] <= 0xDF)
            && (|b| == 3 ==> 0xE0 <= b[0] <= 0xEF) && (|b| == 4 ==> 0xF0 <= b[0] <= 0xF4)
  {
  }

  lemma Sixes(v: nat)
    ensures v / 0x1000 == v / 0x40 / 0x40 && v / 0x4_0000 == v / 0x1000 / 0x40
  {
  }

  lemma SixBits(v: nat)
    ensures v == v / 0x40 * 0x40 + v % 0x40
  {
  }

  lemma Utf8Spells(c: char)
    ensures Spelt(Utf8Char(c)) == c as int
  {
    var v: nat := c as int;
    Sixes(v);
    SixBits(v);
    SixBits(v / 0x40);
    SixBits(v / 0x1000);
  }

  lemma Utf8Next(s: string, k: nat)
    requires k < |s|
    ensures Utf8(s[..k + 1]) == Utf8(s[..k]) + Utf8Char(s[k])
  {
    assert s[..k + 1][..k] == s[..k];
  }

  lemma {:induction false} Utf8Prefix(s: string, j: nat, k: nat)
    requires j <= k <= |s|
    ensures Utf8(s[..j]) <= Utf8(s[..k])
    decreases k - j
  {
    if j < k {
      Utf8Prefix(s, j, k - 1);
      Utf8Next(s, k - 1);
    }
  }

  // How many characters of `s` fit in `max` bytes, given that the first `k` do.
  function Fitting(s: string, max: int, k: nat): (n: nat)
    requires k <= |s|
    ensures k <= n <= |s|
    decreases |s| - k
  {
    if k == |s| || |Utf8(s[..k + 1])| > max then k else Fitting(s, max, k + 1)
  }

  function Capped(s: string, max: int): string {
    if max <= 0 || |Utf8(s)| <= max then s else s[..Fitting(s, max, 0)]
  }

  predicate IsCapped(s: string, max: int) {
    max > 0 && |Utf8(s)| > max
  }

  lemma {:induction false} FittingIsLongest(s: string, max: int, k: nat)
    requires k <= |s| && |Utf8(s[..k])| <= max
    ensures var n := Fitting(s, max, k);
            |Utf8(s[..n])| <= max && forall j :: n < j <= |s| ==> |Utf8(s[..j])| > max
    decreases |s| - k
  {
    if k < |s| {
      if |Utf8(s[..k + 1])| > max {
        forall j | k < j <= |s| ensures |Utf8(s[..j])| > max {
          Utf8Prefix(s, k + 1, j);
        }
      } else {
        FittingIsLongest(s, max, k + 1);
      }
    }
  }

  // The cap keeps whole characters only, and as many of them as fit.
  lemma CappedIsLongest(s: string, max: int)
    ensures var r := Capped(s, max);
            && r <= s && (IsCapped(s, max) <==> r != s)
            && (max > 0 ==> |Utf8(r)| <= max && forall j :: |r| < j <= |s| ==> |Utf8(s[..j])| > max)
  {
    assert s[..|s|] == s;
    if IsCapped(s, max) {
      FittingIsLongest(s, max, 0);
    }
  }

  // The byte after the cut begins a character.
  lemma CutIsAtACharacter(s: string, max: int)
    requires IsCapped(s, max)
    ensures var r := Capped(s, max);
            Utf8(r) < Utf8(s) && !IsContinuation(Utf8(s)[|Utf8(r)|])
  {
    CappedIsLongest(s, max);
    var n := |Capped(s, max)|;
    assert s[..|s|] == s;
    Utf8Next(s, n);
    Utf8Prefix(s, n + 1, |s|);
    Utf8Prefix(s, n, |s|);
    CharStarts(s[n]);
  }

  // The loop over characters, with the byte offset each one starts at.
  method CapText(s: string, maxBytes: int) returns (text: seq<octet>, capped: bool)
    ensures text == Utf8(Capped(s, maxBytes)) && capped == IsCapped(s, maxBytes)
  {
    if maxBytes <= 0 || |Utf8(s)| <= maxBytes {
      return Utf8(s), false;
    }
    var cut, i, k := 0, 0, 0;
    assert s[..0] == "" && s[..|s|] == s;
    while k < |s|
      invariant k <= |s| && cut == i == |Utf8(s[..k])|
      invariant Fitting(s, maxBytes, 0) == Fitting(s, maxBytes, k)
    {
      var width := |Utf8Char(s[k])|;
      Utf8Next(s, k);
      if i + width > maxBytes {
        break;
      }
      cut := i + width;
      i, k := i + width, k + 1;
    }
    Utf8Prefix(s, k, |s|);
    text, capped := Utf8(s)[..cut], true;
  }
}
