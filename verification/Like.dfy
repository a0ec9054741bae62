/**
 LIKE as section 9.7.1 of the PostgreSQL manual defines it, the escaping that free text
 goes through, and the promise that ties them: escaped text between two percent signs is
 a literal substring search, whatever wildcards the text holds.
 */
module Like {

  const ESCAPE: char := '\\'

  // A backslash makes the next pattern character literal; one at the very end matches nothing.
  predicate Matches(t: string, p: string)
    decreases |p|, |t|
  {
    if p == "" then t == ""
    else if p[0] == '%' then Matches(t, p[1..]) || (t != "" && Matches(t[1..], p))
    else if p[0] == '_' then t != "" && Matches(t[1..], p[1..])
    else if p[0] == ESCAPE then |p| > 1 && t != "" && t[0] == p[1] && Matches(t[1..], p[2..])
    else t != "" && t[0] == p[0] && Matches(t[1..], p[1..])
  }

  // The server refuses a pattern that ends in an unpaired backslash.
  predicate EndsInEscape(p: string) {
    if p == "" then false
    else if p[0] == ESCAPE then |p| == 1 || EndsInEscape(p[2..])
    else EndsInEscape(p[1..])
  }

  predicate IsWild(c: char) {
    c == ESCAPE || c == '%' || c == '_'
  }

  function EscapeChar(c: char): string {
    if IsWild(c) then [ESCAPE, c] else [c]
  }

  function Escape(q: string): string {
    if q == "" then "" else EscapeChar(q[0]) + Escape(q[1..])
  }

  // The pattern every search box builds.
  function Around(q: string): string {
    "%" + q + "%"
  }

  predicate Contains(t: string, q: string) {
    exists i :: 0 <= i <= |t| && q <= t[i..]
  }

  // Of the two wildcards, an underscore stands for exactly one character.
  lemma UnderscoreTakesOne(t: string, p: string)
    ensures Matches(t, "_" + p) <==> t != "" && Matches(t[1..], p)
  {
    assert ("_" + p)[1..] == p;
  }

  // ----- literal text inside a pattern -----

  // One escaped character takes exactly itself off the front.
  lemma EscapedCharTakesItself(t: string, c: char, p: string)
    ensures Matches(t, EscapeChar(c) + p) <==> t != "" && t[0] == c && Matches(t[1..], p)
  {
    var e := EscapeChar(c) + p;
    if IsWild(c) {
      assert e[0] == ESCAPE && e[1] == c && e[2..] == p;
    } else {
      assert e[0] == c && e[1..] == p;
    }
  }

  // Escaped text followed by anything: the text must begin with it, and the rest is left
  // to the rest of the pattern.
  lemma {:induction false} EscapedTextTakesItself(t: string, q: string, p: string)
    ensures Matches(t, Escape(q) + p) <==> q <= t && Matches(t[|q|..], p)
  {
    if q == "" {
      assert Escape(q) + p == p && t[0..] == t;
    } else {
      assert Escape(q) + p == EscapeChar(q[0]) + (Escape(q[1..]) + p);
      EscapedCharTakesItself(t, q[0], Escape(q[1..]) + p);
      if t != "" && t[0] == q[0] {
        EscapedTextTakesItself(t[1..], q[1..], p);
        assert q[1..] <= t[1..] <==> q <= t by {
          assert q == [q[0]] + q[1..] && t == [t[0]] + t[1..];
        }
        if q <= t {
          assert t[1..][|q| - 1..] == t[|q|..];
        }
      }
    }
  }

  lemma {:induction false} PercentMatchesAll(t: string)
    ensures Matches(t, "%")
  {
    assert "%"[1..] == "";
    if t != "" {
      PercentMatchesAll(t[1..]);
    }
  }

  // A leading percent sign lets the rest of the pattern start anywhere.
  lemma {:induction false} PercentSkips(t: string, p: string)
    ensures Matches(t, "%" + p) <==> exists i :: 0 <= i <= |t| && Matches(t[i..], p)
  {
    assert ("%" + p)[1..] == p;
    assert t[0..] == t;
    if t != "" {
      PercentSkips(t[1..], p);
      if exists i :: 0 <= i <= |t[1..]| && Matches(t[1..][i..], p) {
        var i :| 0 <= i <= |t[1..]| && Matches(t[1..][i..], p);
        assert t[1..][i..] == t[i + 1..];
      }
      if exists i :: 0 <= i <= |t| && Matches(t[i..], p) {
        var i :| 0 <= i <= |t| && Matches(t[i..], p);
        if i > 0 {
          assert t[1..][i - 1..] == t[i..];
        }
      }
    }
  }

  // The promise of the search box, for every text and every query.
  lemma EscapedSearchIsLiteral(t: string, q: string)
    ensures Matches(t, Around(Escape(q))) <==> Contains(t, q)
  {
    assert Around(Escape(q)) == "%" + (Escape(q) + "%");
    PercentSkips(t, Escape(q) + "%");
    forall i | 0 <= i <= |t| ensures Matches(t[i..], Escape(q) + "%") <==> q <= t[i..] {
      EscapedTextTakesItself(t[i..], q, "%");
      if q <= t[i..] {
        PercentMatchesAll(t[i..][|q|..]);
      }
    }
  }

  // Without the escaping the promise fails: a lone percent sign finds every text.
  lemma UnescapedSearchIsNot()
    ensures Matches("a", Around("%")) && !Contains("a", "%")
  {
    PercentMatchesAll("a");
    assert Around("%") == "%" + "%%" && "%%" == "%" + "%";
    PercentSkips("a", "%");
    assert Matches("a"[0..], "%");
    PercentSkips("a", "%%");
    assert Matches("a"[0..], "%%");
    assert forall i :: 0 <= i <= 1 ==> "a"[i..] == (if i == 0 then "a" else "");
  }

  // ----- text put into a pattern as it was typed -----

  predicate NoWild(p: string) {
    forall i :: 0 <= i < |p| ==> !IsWild(p[i])
  }

  // A shortest text that a typed pattern, closed by a percent sign, matches.
  function Sample(p: string): (t: string)
    ensures |t| <= |p|
  {
    if p == "" then ""
    else if p[0] == '%' then Sample(p[1..])
    else if p[0] == '_' then "x" + Sample(p[1..])
    else if p[0] == ESCAPE then (if |p| == 1 then "%" else [p[1]] + Sample(p[2..]))
    else [p[0]] + Sample(p[1..])
  }

  lemma {:induction false} SampleMatches(p: string)
    ensures Matches(Sample(p), p + "%")
    decreases |p|
  {
    var e := p + "%";
    if p == "" {
      PercentMatchesAll("");
      assert e == "%";
    } else if p[0] == '%' {
      assert e[1..] == p[1..] + "%";
      SampleMatches(p[1..]);
    } else if p[0] != ESCAPE {
      assert e[1..] == p[1..] + "%" && Sample(p)[1..] == Sample(p[1..]);
      SampleMatches(p[1..]);
    } else if |p| == 1 {
      assert e[1] == '%' && e[2..] == "" && "%"[1..] == "";
    } else {
      assert e[1] == p[1] && e[2..] == p[2..] + "%" && Sample(p)[1..] == Sample(p[2..]);
      SampleMatches(p[2..]);
    }
  }

  // With a wildcard in it, what is typed is not what is matched.
  lemma {:induction false} SampleDiffers(p: string)
    requires !NoWild(p)
    ensures Sample(p) != p
    decreases |p|
  {
    if p[0] != '%' && p[0] != '_' && p[0] != ESCAPE {
      assert !NoWild(p[1..]) by {
        var i :| 0 <= i < |p| && IsWild(p[i]);
        assert p[1..][i - 1] == p[i];
      }
      SampleDiffers(p[1..]);
      assert Sample(p)[1..] == Sample(p[1..]);
    }
  }

  lemma {:induction false} EscapeOfNoWild(q: string)
    requires NoWild(q)
    ensures Escape(q) == q
  {
    if q != "" {
      assert forall i :: 0 <= i < |q| - 1 ==> q[1..][i] == q[i + 1];
      EscapeOfNoWild(q[1..]);
    }
  }

  lemma ContainedInShorter(t: string, q: string)
    requires |t| <= |q|
    ensures Contains(t, q) <==> t == q
  {
    if t == q {
      assert q <= t[0..];
    }
  }

  // A search for text as it was typed is a literal one, for every text searched, exactly if
  // nothing in it is a wildcard or a backslash.
  lemma TypedSearchIsLiteralExactly(p: string)
    ensures (forall t :: Matches(t, Around(p)) <==> Contains(t, p)) <==> NoWild(p)
  {
    if NoWild(p) {
      EscapeOfNoWild(p);
      forall t ensures Matches(t, Around(p)) <==> Contains(t, p) {
        EscapedSearchIsLiteral(t, p);
      }
    } else {
      var t := Sample(p);
      SampleMatches(p);
      SampleDiffers(p);
      ContainedInShorter(t, p);
      assert Around(p) == "%" + (p + "%");
      PercentSkips(t, p + "%");
      assert t[0..] == t;
      assert Matches(t, Around(p)) && !Contains(t, p);
    }
  }

  // ----- no pattern the server would refuse -----

  // Neither an escaped search nor a raw one between percent signs ends in a lone backslash.
  lemma {:induction false} ClosedByPercent(p: string)
    ensures !EndsInEscape(p + "%")
    decreases |p|
  {
    var e := p + "%";
    if p == "" {
    } else if p[0] != ESCAPE {
      assert e[1..] == p[1..] + "%";
      ClosedByPercent(p[1..]);
    } else if |p| > 1 {
      assert e[2..] == p[2..] + "%";
      ClosedByPercent(p[2..]);
    }
  }
}
