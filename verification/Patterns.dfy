/** T-SQL LIKE: patterns of literal characters, '%', '_' and bracket sets, which nothing in a name escapes. */
module Patterns {
  import opened Common

  /** The characters and ranges between brackets, by code point. */
  predicate Among(c: char, body: string) {
    if body == "" then false
    else if |body| >= 3 && body[1] == '-' then body[0] <= c <= body[2] || Among(c, body[3..])
    else c == body[0] || Among(c, body[1..])
  }

  predicate InSet(c: char, body: string) {
    if body != "" && body[0] == '^' then !Among(c, body[1..]) else Among(c, body)
  }

  /** Where the first closing bracket is. */
  function Close(text: string): (n: Option<nat>)
    ensures n.Some? ==> n.value < |text|
  {
    if text == "" then None
    else if text[0] == ']' then Some(0)
    else
      var n := Close(text[1..]);
      if n.Some? then Some(n.value + 1) else None
  }

  /** How much of the pattern its first element takes, a bracket set up to its end; none if that never comes. */
  function Width(pattern: string): (n: Option<nat>)
    requires pattern != ""
    ensures n.Some? ==> 1 <= n.value <= |pattern|
    ensures pattern[0] == '[' && n.Some? ==> n.value >= 2
  {
    if pattern[0] != '[' then Some(1)
    else
      var n := Close(pattern[1..]);
      if n.Some? then Some(n.value + 2) else None
  }

  /** The first element, other than '%', matches the character. */
  predicate Accepts(pattern: string, c: char)
    requires pattern != "" && Width(pattern).Some?
  {
    if pattern[0] == '[' then InSet(c, pattern[1..Width(pattern).value - 1]) else pattern[0] == '_' || pattern[0] == c
  }

  predicate Like(s: string, pattern: string)
    decreases |s| + |pattern|
  {
    if pattern == "" then s == ""
    else if pattern[0] == '%' then Like(s, pattern[1..]) || (s != "" && Like(s[1..], pattern))
    else s != "" && Width(pattern).Some? && Accepts(pattern, s[0]) && Like(s[1..], pattern[Width(pattern).value..])
  }

  /** Nothing in the text is special to LIKE. */
  predicate Literal(s: string) {
    '%' !in s && '_' !in s && '[' !in s
  }

  // ---------- Literal text ----------

  lemma {:induction false} PercentMatchesAll(s: string)
    ensures Like(s, "%")
  {
    if s != "" { PercentMatchesAll(s[1..]); }
  }

  /** 'text%' is: begins with the text. */
  lemma {:induction false} LikePrefix(s: string, text: string)
    requires Literal(text)
    ensures Like(s, text + "%") <==> text <= s
  {
    if text == "" {
      assert "" + "%" == "%";
      PercentMatchesAll(s);
    } else {
      var pattern := text + "%";
      assert pattern[0] == text[0] && pattern[1..] == text[1..] + "%";
      if s != "" { LikePrefix(s[1..], text[1..]); }
      assert text <= s <==> s != "" && text[0] == s[0] && text[1..] <= s[1..];
    }
  }

  /** '%text%' is: contains the text somewhere. */
  lemma {:induction false} LikeContains(s: string, text: string)
    requires Literal(text)
    ensures Like(s, "%" + (text + "%")) <==> exists i :: 0 <= i <= |s| && text <= s[i..]
  {
    var pattern := "%" + (text + "%");
    assert pattern[1..] == text + "%";
    LikePrefix(s, text);
    assert s[0..] == s;
    if s != "" {
      LikeContains(s[1..], text);
      if Like(s[1..], pattern) {
        var i :| 0 <= i <= |s[1..]| && text <= s[1..][i..];
        assert s[1..][i..] == s[i + 1..];
      }
      if i :| 0 < i <= |s| && text <= s[i..] {
        assert s[1..][i - 1..] == s[i..];
      }
    }
  }

  /** Literal text at the start of a pattern is the start of the match. */
  lemma {:induction false} LiteralThen(s: string, text: string, rest: string)
    requires Literal(text)
    ensures Like(s, text + rest) <==> text <= s && Like(s[|text|..], rest)
  {
    if text == "" {
      assert text + rest == rest && s[0..] == s;
    } else {
      assert (text + rest)[1..] == text[1..] + rest;
      assert text <= s <==> s != "" && text[0] == s[0] && text[1..] <= s[1..];
      if s != "" { LiteralThen(s[1..], text[1..], rest); }
      if text <= s { assert s[1..][|text| - 1..] == s[|text|..]; }
    }
  }

  // ---------- Bracket sets ----------

  lemma CloseAfter(c: char, rest: string)
    requires c != ']'
    ensures Close([c] + ("]" + rest)) == Some(1)
  {
    var text := [c] + ("]" + rest);
    assert text[1..] == "]" + rest;
  }

  /** A set of one character is that character, whatever it means elsewhere. */
  lemma OneCharacterSet(s: string, c: char, rest: string)
    requires c != ']' && c != '^'
    ensures Like(s, "[" + ([c] + ("]" + rest))) <==> s != "" && s[0] == c && Like(s[1..], rest)
  {
    var pattern := "[" + ([c] + ("]" + rest));
    assert pattern[1..] == [c] + ("]" + rest);
    CloseAfter(c, rest);
    assert pattern[1..2] == [c] && pattern[3..] == rest;
    assert pattern[1..Width(pattern).value - 1] == [c];
    forall d: char ensures InSet(d, [c]) <==> d == c {
      assert !Among(d, [c][1..]);
    }
  }

  /** '[^c]' is any other character. */
  lemma OtherCharacterSet(s: string, c: char, rest: string)
    requires c != ']'
    ensures Like(s, "[^" + ([c] + ("]" + rest))) <==> s != "" && s[0] != c && Like(s[1..], rest)
  {
    var pattern := "[^" + ([c] + ("]" + rest));
    var tail := [c] + ("]" + rest);
    assert pattern[1..] == "^" + tail && pattern[1..][1..] == tail;
    CloseAfter(c, rest);
    assert pattern[1..3] == "^" + [c] && pattern[4..] == rest;
    assert pattern[1..Width(pattern).value - 1] == "^" + [c] && ("^" + [c])[1..] == [c];
    forall d: char ensures InSet(d, "^" + [c]) <==> d != c {
      assert !Among(d, [c][1..]);
    }
  }

  /** '[a-z]' is the characters between the two. */
  lemma RangeSet(s: string, low: char, high: char, rest: string)
    requires low != ']' && low != '^' && high != ']'
    ensures Like(s, "[" + ([low, '-', high] + ("]" + rest))) <==> s != "" && low <= s[0] <= high && Like(s[1..], rest)
  {
    var body := [low, '-', high];
    var pattern, tail := "[" + (body + ("]" + rest)), body + ("]" + rest);
    assert pattern[1..] == tail && tail[1..] == ['-', high] + ("]" + rest) && tail[1..][1..] == [high] + ("]" + rest);
    CloseAfter(high, rest);
    assert Close(tail) == Some(3);
    assert pattern[1..4] == body && pattern[5..] == rest;
    assert pattern[1..Width(pattern).value - 1] == body && body[3..] == "";
    forall d: char ensures InSet(d, body) <==> low <= d <= high {
      assert !Among(d, body[3..]);
    }
  }

  /** The wait categories' 'LCK[_]M%' is: begins with LCK_M, the underscore literally. */
  lemma LockWaits(s: string)
    ensures Like(s, "LCK[_]M%") <==> "LCK_M" <= s
  {
    assert "LCK[_]M%" == "LCK" + ("[" + (['_'] + ("]" + ("M" + "%"))));
    LiteralThen(s, "LCK", "[" + (['_'] + ("]" + ("M" + "%"))));
    if "LCK" <= s {
      var t := s[3..];
      OneCharacterSet(t, '_', "M" + "%");
      if t != "" { LikePrefix(t[1..], "M"); }
      assert "LCK_M" <= s <==> t != "" && t[0] == '_' && "M" <= t[1..];
    }
  }

  lemma {:induction false} NoClose(text: string)
    requires ']' !in text
    ensures Close(text).None?
  {
    if text != "" { NoClose(text[1..]); }
  }

  /** A bracket that is never closed matches nothing at all. */
  lemma {:induction false} UnclosedMatchesNothing(s: string, before: string, after: string)
    requires '[' !in before && ']' !in after
    ensures !Like(s, before + ("[" + after))
    decreases |s| + |before|
  {
    var pattern := before + ("[" + after);
    if before == "" {
      assert pattern == "[" + after && pattern[1..] == after;
      NoClose(after);
    } else {
      assert pattern[0] == before[0] && pattern[1..] == before[1..] + ("[" + after);
      UnclosedMatchesNothing(s, before[1..], after);
      if s != "" {
        UnclosedMatchesNothing(s[1..], before, after);
        UnclosedMatchesNothing(s[1..], before[1..], after);
      }
    }
  }

  // ---------- Patterns followed by something ----------

  lemma {:induction false} CloseAppend(text: string, more: string)
    requires ']' !in more
    ensures Close(text + more) == Close(text)
  {
    if text == "" {
      assert text + more == more;
      NoClose(more);
    } else {
      assert (text + more)[1..] == text[1..] + more;
      CloseAppend(text[1..], more);
    }
  }

  /** What follows a pattern does not change its first element. */
  lemma ElementAppend(pattern: string, more: string)
    requires pattern != "" && ']' !in more
    ensures Width(pattern + more) == Width(pattern)
    ensures Width(pattern).Some? ==>
              var n := Width(pattern).value;
              && (pattern + more)[n..] == pattern[n..] + more
              && forall c :: Accepts(pattern + more, c) <==> Accepts(pattern, c)
  {
    var all := pattern + more;
    assert all[0] == pattern[0] && all[1..] == pattern[1..] + more;
    CloseAppend(pattern[1..], more);
    if Width(pattern).Some? {
      var n := Width(pattern).value;
      assert all[n..] == pattern[n..] + more && all[1..n] == pattern[1..n];
      if pattern[0] == '[' { assert all[1..n - 1] == pattern[1..n - 1]; }
    }
  }

  /** Whatever matches a pattern also does with anything appended and a '%' ... */
  lemma {:induction false} LikeJoin(s: string, more: string, pattern: string)
    requires Like(s, pattern)
    ensures Like(s + more, pattern + "%")
    decreases |s| + |pattern|
  {
    var t, p := s + more, pattern + "%";
    if pattern == "" {
      assert t == more && p == "%";
      PercentMatchesAll(more);
    } else if pattern[0] == '%' {
      assert p[1..] == pattern[1..] + "%";
      if Like(s, pattern[1..]) {
        LikeJoin(s, more, pattern[1..]);
      } else {
        LikeJoin(s[1..], more, pattern);
        assert t[1..] == s[1..] + more;
      }
    } else {
      ElementAppend(pattern, "%");
      LikeJoin(s[1..], more, pattern[Width(pattern).value..]);
      assert t[1..] == s[1..] + more;
    }
  }

  /** ... and only so: what matches with a '%' at the end begins with a match. */
  lemma {:induction false} LikeSplit(s: string, pattern: string) returns (n: nat)
    requires Like(s, pattern + "%")
    ensures n <= |s| && Like(s[..n], pattern)
    decreases |s| + |pattern|
  {
    var p := pattern + "%";
    if pattern == "" {
      n := 0;
    } else if pattern[0] == '%' {
      assert p[1..] == pattern[1..] + "%";
      if Like(s, p[1..]) {
        n := LikeSplit(s, pattern[1..]);
      } else {
        var m := LikeSplit(s[1..], pattern);
        n := m + 1;
        assert s[..n][1..] == s[1..][..m];
      }
    } else {
      ElementAppend(pattern, "%");
      var m := LikeSplit(s[1..], pattern[Width(pattern).value..]);
      n := m + 1;
      assert s[..n][1..] == s[1..][..m];
    }
  }

  /** A match of a pattern that ends in a dot ends in a dot. */
  lemma {:induction false} EndsInDot(s: string, pattern: string)
    requires Like(s, pattern + ".")
    ensures s != "" && s[|s| - 1] == '.'
    decreases |s| + |pattern|
  {
    var p := pattern + ".";
    if pattern == "" {
      assert p[1..] == "";
    } else if pattern[0] == '%' {
      assert p[1..] == pattern[1..] + ".";
      if Like(s, p[1..]) { EndsInDot(s, pattern[1..]); } else { EndsInDot(s[1..], pattern); }
    } else {
      ElementAppend(pattern, ".");
      EndsInDot(s[1..], pattern[Width(pattern).value..]);
    }
  }

  /** A '%' outside of sets. */
  predicate HasPercent(pattern: string) {
    pattern != "" &&
    (pattern[0] == '%' || (Width(pattern).Some? && HasPercent(pattern[Width(pattern).value..])))
  }

  /** Where a '%' has matched, one more character fits. */
  lemma {:induction false} RoomForOne(s: string, pattern: string, c: char) returns (i: nat)
    requires Like(s, pattern) && HasPercent(pattern)
    ensures i <= |s| && Like(s[..i] + [c] + s[i..], pattern)
    decreases |s| + |pattern|
  {
    if pattern[0] == '%' {
      i := 0;
      var t := s[..0] + [c] + s[0..];
      assert t[1..] == s;
    } else {
      var j := RoomForOne(s[1..], pattern[Width(pattern).value..], c);
      i := j + 1;
      var t := s[..i] + [c] + s[i..];
      assert t[1..] == s[1..][..j] + [c] + s[1..][j..];
    }
  }

  /** Without one, a match is no longer than the pattern, and shorter if there is a set. */
  lemma {:induction false} MatchIsShort(s: string, pattern: string)
    requires Like(s, pattern) && !HasPercent(pattern)
    ensures |s| <= |pattern| && ('[' in pattern ==> |s| < |pattern|)
    decreases |s|
  {
    if pattern != "" {
      var n := Width(pattern).value;
      MatchIsShort(s[1..], pattern[n..]);
      if pattern[0] != '[' { assert pattern == [pattern[0]] + pattern[1..]; }
    }
  }
}
