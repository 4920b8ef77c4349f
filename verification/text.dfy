/**
 * The two pieces of string behaviour the items service relies on:
 * JavaScript's `String.prototype.trim`, used to validate and normalise
 * item names, and the case-insensitive substring match that SQLite's
 * `name LIKE '%needle%'` performs when listing items.
 */
module Text {

  /**
   * The characters `trim` removes: ECMAScript WhiteSpace (tab, vertical tab,
   * form feed, space, no-break space, the byte order mark and every other
   * Unicode space separator) and LineTerminator (LF, CR, LS, PS).
   */
  predicate IsJsWhitespace(c: char) {
    || c == '\t' || c == '\U{000B}' || c == '\U{000C}' || c == ' '
    || c == '\U{00A0}' || c == '\U{FEFF}'
    || c == '\n' || c == '\r' || c == '\U{2028}' || c == '\U{2029}'
    || c == '\U{1680}' || ('\U{2000}' <= c <= '\U{200A}')
    || c == '\U{202F}' || c == '\U{205F}' || c == '\U{3000}'
  }

  /** Empty, or made of whitespace only. */
  predicate IsBlank(s: string) {
    forall i :: 0 <= i < |s| ==> IsJsWhitespace(s[i])
  }

  /** `s` with its leading whitespace removed. */
  function TrimStart(s: string): string {
    if s != [] && IsJsWhitespace(s[0]) then TrimStart(s[1..]) else s
  }

  /** `s` with its trailing whitespace removed. */
  function TrimEnd(s: string): string {
    if s != [] && IsJsWhitespace(s[|s| - 1]) then TrimEnd(s[..|s| - 1]) else s
  }

  /** `String.prototype.trim`: leading, then trailing whitespace removed. */
  function Trim(s: string): string {
    TrimEnd(TrimStart(s))
  }

  /** `TrimStart` removes a blank prefix and stops at the first character that is not whitespace. */
  lemma {:induction false} TrimStartMeaning(s: string)
    ensures var r := TrimStart(s);
            && |r| <= |s| && r == s[|s| - |r|..]
            && IsBlank(s[..|s| - |r|])
            && (r == [] || !IsJsWhitespace(r[0]))
  {
    if s != [] && IsJsWhitespace(s[0]) {
      TrimStartMeaning(s[1..]);
      var r := TrimStart(s);
      assert s[1..][|s| - 1 - |r|..] == s[|s| - |r|..];
      var blank, rest := s[..|s| - |r|], s[1..][..|s| - 1 - |r|];
      forall i | 0 <= i < |blank|
        ensures IsJsWhitespace(blank[i])
      {
        if i > 0 {
          assert blank[i] == rest[i - 1];
        }
      }
    }
  }

  /** `TrimEnd` removes a blank suffix and stops at the last character that is not whitespace. */
  lemma {:induction false} TrimEndMeaning(s: string)
    ensures var r := TrimEnd(s);
            && |r| <= |s| && r == s[..|r|]
            && IsBlank(s[|r|..])
            && (r == [] || !IsJsWhitespace(r[|r| - 1]))
  {
    if s != [] && IsJsWhitespace(s[|s| - 1]) {
      TrimEndMeaning(s[..|s| - 1]);
      var r := TrimEnd(s);
      assert s[..|s| - 1][..|r|] == s[..|r|];
      var blank, rest := s[|r|..], s[..|s| - 1][|r|..];
      forall i | 0 <= i < |blank|
        ensures IsJsWhitespace(blank[i])
      {
        if i < |rest| {
          assert blank[i] == rest[i];
        }
      }
    }
  }

  /**
   * `Trim(s)` is `s` with a blank prefix and a blank suffix cut off; it
   * neither starts nor ends with whitespace, and it is empty exactly when
   * `s` is blank.
   */
  lemma TrimMeaning(s: string)
    ensures |Trim(s)| <= |s|
    ensures Trim(s) == [] <==> IsBlank(s)
    ensures Trim(s) != [] ==> !IsJsWhitespace(Trim(s)[0]) && !IsJsWhitespace(Trim(s)[|Trim(s)| - 1])
    ensures var i := |s| - |TrimStart(s)|;
            && OccursAt(s, Trim(s), i)
            && IsBlank(s[..i]) && IsBlank(s[i + |Trim(s)|..])
    ensures exists i :: OccursAt(s, Trim(s), i)
  {
    var t := TrimStart(s);
    var r := Trim(s);
    TrimStartMeaning(s);
    TrimEndMeaning(t);
    var i := |s| - |t|;
    assert r == t[..|r|];
    assert t[..|r|] == s[i..i + |r|];
    assert OccursAt(s, r, i);
    assert t[|r|..] == s[i + |r|..];
    if r == [] {
      assert t[|r|..] == t;
      assert s[..|s| - |t|] == s;
    } else {
      assert r[0] == t[0];
    }
  }

  /** A string that neither starts nor ends with whitespace is its own trim. */
  lemma TrimLeavesTrimmedAlone(s: string)
    requires s != [] && !IsJsWhitespace(s[0]) && !IsJsWhitespace(s[|s| - 1])
    ensures Trim(s) == s
  {
    assert TrimStart(s) == s;
    assert TrimEnd(s) == s;
  }

  /** Trimming a trimmed string changes nothing. */
  lemma TrimIsIdempotent(s: string)
    ensures Trim(Trim(s)) == Trim(s)
  {
    TrimMeaning(s);
    if Trim(s) != [] {
      TrimLeavesTrimmedAlone(Trim(s));
    }
  }

  /** `w` occurs in `s` starting at index `i`. */
  predicate OccursAt(s: string, w: string, i: int) {
    0 <= i <= |s| - |w| && s[i..i + |w|] == w
  }

  /** ASCII upper-case letters to lower case; every other character unchanged. */
  function AsciiLower(c: char): char {
    if 'A' <= c <= 'Z' then (c as int + 32) as char else c
  }

  /** `a` and `b` are the same string once ASCII letters are folded to lower case. */
  predicate EqualIgnoringAsciiCase(a: string, b: string) {
    |a| == |b| && forall i :: 0 <= i < |a| ==> AsciiLower(a[i]) == AsciiLower(b[i])
  }

  /** `s` begins with `p`, ignoring ASCII case. */
  predicate StartsWithIgnoringAsciiCase(s: string, p: string) {
    p == [] || (s != [] && AsciiLower(s[0]) == AsciiLower(p[0]) && StartsWithIgnoringAsciiCase(s[1..], p[1..]))
  }

  /**
   * `s LIKE '%p%'` for a pattern `p` without wildcards: `p` occurs somewhere
   * in `s`, ignoring ASCII case.
   */
  predicate ContainsIgnoringAsciiCase(s: string, p: string) {
    StartsWithIgnoringAsciiCase(s, p) || (s != [] && ContainsIgnoringAsciiCase(s[1..], p))
  }

  /** The prefix test, stated without recursion. */
  lemma {:induction false} StartsWithMeaning(s: string, p: string)
    ensures StartsWithIgnoringAsciiCase(s, p) <==> |p| <= |s| && EqualIgnoringAsciiCase(s[..|p|], p)
  {
    if p != [] && s != [] {
      StartsWithMeaning(s[1..], p[1..]);
      if |p| <= |s| {
        assert forall i :: 1 <= i < |p| ==> s[..|p|][i] == s[1..][..|p| - 1][i - 1];
      }
    }
  }

  /** `p` occurs in `s` at index `i`, ignoring ASCII case. */
  predicate MatchesAt(s: string, p: string, i: int) {
    0 <= i <= |s| - |p| && EqualIgnoringAsciiCase(s[i..i + |p|], p)
  }

  /** The substring test, stated as "some window of `s` equals `p`". */
  lemma {:induction false} ContainsMeaning(s: string, p: string)
    ensures ContainsIgnoringAsciiCase(s, p) <==> exists i :: MatchesAt(s, p, i)
  {
    StartsWithMeaning(s, p);
    if StartsWithIgnoringAsciiCase(s, p) {
      assert s[0..|p|] == s[..|p|];
      assert MatchesAt(s, p, 0);
    }
    if s != [] {
      ContainsMeaning(s[1..], p);
      if exists i :: MatchesAt(s, p, i) {
        var i :| MatchesAt(s, p, i);
        if i > 0 {
          assert s[1..][i - 1..i - 1 + |p|] == s[i..i + |p|];
          assert MatchesAt(s[1..], p, i - 1);
        } else {
          assert s[..|p|] == s[i..i + |p|];
        }
      }
      if exists j :: MatchesAt(s[1..], p, j) {
        var j :| MatchesAt(s[1..], p, j);
        assert s[1..][j..j + |p|] == s[j + 1..j + 1 + |p|];
        assert MatchesAt(s, p, j + 1);
      }
    } else if p == [] {
      assert MatchesAt(s, p, 0);
    }
  }
}
