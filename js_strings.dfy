/**
 * The two JavaScript string operations the typing game relies on, over
 * strings of Unicode scalar values: `String.prototype.trim` and
 * `String.prototype.split(' ')`.
 */
module JsStrings {

  /** The code points `trim` removes: ECMAScript's WhiteSpace and LineTerminator. */
  predicate IsWhitespace(c: char) {
    || c == '\t' || c == '\n' || c == '\U{B}' || c == '\U{C}' || c == '\r'
    || c == ' ' || c == '\U{A0}' || c == '\U{1680}'
    || ('\U{2000}' <= c <= '\U{200A}')
    || c == '\U{2028}' || c == '\U{2029}' || c == '\U{202F}' || c == '\U{205F}'
    || c == '\U{3000}' || c == '\U{FEFF}'
  }

  /** Every character of `s` is whitespace. */
  predicate AllWhitespace(s: string) {
    forall k :: 0 <= k < |s| ==> IsWhitespace(s[k])
  }

  /** Drops leading whitespace: the result is the longest suffix of `s` not starting with whitespace. */
  function TrimStart(s: string): (r: string)
    ensures |r| <= |s| && r == s[|s| - |r|..]
    ensures r == [] || !IsWhitespace(r[0])
    ensures AllWhitespace(s[..|s| - |r|])
  {
    if |s| > 0 && IsWhitespace(s[0]) then TrimStart(s[1..]) else s
  }

  /** Drops trailing whitespace: the result is the longest prefix of `s` not ending in whitespace. */
  function TrimEnd(s: string): (r: string)
    ensures |r| <= |s| && r == s[..|r|]
    ensures r == [] || !IsWhitespace(r[|r| - 1])
    ensures AllWhitespace(s[|r|..])
  {
    if |s| > 0 && IsWhitespace(s[|s| - 1]) then TrimEnd(s[..|s| - 1]) else s
  }

  /** `s.trim()`. */
  function Trim(s: string): (r: string)
    ensures |r| <= |s|
    ensures r == [] || (!IsWhitespace(r[0]) && !IsWhitespace(r[|r| - 1]))
  {
    var e := TrimEnd(s);
    var r := TrimStart(e);
    assert r != [] ==> r[|r| - 1] == e[|e| - 1];
    r
  }

  /** Trailing whitespace after a text that ends in a visible character is exactly what `TrimEnd` drops. */
  lemma {:induction false} TrimEndOfPaddedText(p: string, b: string)
    requires AllWhitespace(b)
    requires p == [] || !IsWhitespace(p[|p| - 1])
    ensures TrimEnd(p + b) == p
    decreases |b|
  {
    if b == [] {
      assert p + b == p;
    } else {
      var b' := b[..|b| - 1];
      assert (p + b)[..|p + b| - 1] == p + b';
      TrimEndOfPaddedText(p, b');
    }
  }

  /** Leading whitespace before a text that starts with a visible character is exactly what `TrimStart` drops. */
  lemma {:induction false} TrimStartOfPaddedText(a: string, m: string)
    requires AllWhitespace(a)
    requires m == [] || !IsWhitespace(m[0])
    ensures TrimStart(a + m) == m
    decreases |a|
  {
    if a == [] {
      assert a + m == m;
    } else {
      assert (a + m)[1..] == a[1..] + m;
      TrimStartOfPaddedText(a[1..], m);
    }
  }

  /**
   * `trim` is determined by what it keeps: padding a text that neither starts
   * nor ends in whitespace with whitespace on both sides trims back to the text.
   */
  lemma TrimOfPadded(a: string, m: string, b: string)
    requires AllWhitespace(a) && AllWhitespace(b)
    requires m == [] || (!IsWhitespace(m[0]) && !IsWhitespace(m[|m| - 1]))
    ensures Trim(a + m + b) == m
  {
    if m == [] {
      assert a + m + b == [] + (a + b);
      TrimEndOfPaddedText([], a + b);
    } else {
      assert (a + m)[|a + m| - 1] == m[|m| - 1];
      TrimEndOfPaddedText(a + m, b);
      TrimStartOfPaddedText(a, m);
    }
  }

  /** `TrimStart` removes whitespace only. */
  lemma TrimStartSplitsOff(s: string) returns (a: string)
    ensures AllWhitespace(a) && s == a + TrimStart(s)
  {
    a := s[..|s| - |TrimStart(s)|];
    assert s == a + s[|s| - |TrimStart(s)|..];
  }

  /** `TrimEnd` removes whitespace only. */
  lemma TrimEndSplitsOff(s: string) returns (b: string)
    ensures AllWhitespace(b) && s == TrimEnd(s) + b
  {
    b := s[|TrimEnd(s)|..];
    assert s == s[..|TrimEnd(s)|] + b;
  }

  /** `trim` only removes whitespace, and only from the two ends. */
  lemma TrimSplitsOff(s: string) returns (a: string, b: string)
    ensures AllWhitespace(a) && AllWhitespace(b)
    ensures s == a + Trim(s) + b
  {
    b := TrimEndSplitsOff(s);
    a := TrimStartSplitsOff(TrimEnd(s));
  }

  /** Trimming twice is trimming once. */
  lemma TrimIdempotent(s: string)
    ensures Trim(Trim(s)) == Trim(s)
  {
    var m := Trim(s);
    assert [] + m + [] == m;
    TrimOfPadded([], m, []);
  }

  /** Whitespace typed after the text (a trailing newline, say) does not change its trimmed form. */
  lemma TrimIgnoresTrailingWhitespace(s: string, c: char)
    requires IsWhitespace(c)
    ensures Trim(s + [c]) == Trim(s)
  {
    assert (s + [c])[..|s|] == s;
  }

  /** Appending a character that is not whitespace always changes the trimmed text. */
  lemma TrimKeepsFinalVisibleCharacter(s: string, c: char)
    requires !IsWhitespace(c)
    ensures Trim(s + [c]) != Trim(s)
  {
    var a, b := TrimSplitsOff(s);
    if Trim(s) == [] {
      TrimOfBlankThenVisible(a, b, c);
    } else {
      TrimOfTextThenVisible(a, Trim(s), b, c);
    }
  }

  /** A blank text followed by a visible character trims to that character. */
  lemma TrimOfBlankThenVisible(a: string, b: string, c: char)
    requires AllWhitespace(a) && AllWhitespace(b) && !IsWhitespace(c)
    ensures Trim(a + b + [c]) == [c]
  {
    var pad := a + b;
    assert AllWhitespace(pad) by {
      forall k | 0 <= k < |pad| ensures IsWhitespace(pad[k]) {
        if k < |a| { assert pad[k] == a[k]; } else { assert pad[k] == b[k - |a|]; }
      }
    }
    assert a + b + [c] == pad + [c] + [];
    TrimOfPadded(pad, [c], []);
  }

  /** A visible character after a non-blank text survives trimming, together with everything before it. */
  lemma TrimOfTextThenVisible(a: string, m: string, b: string, c: char)
    requires AllWhitespace(a) && AllWhitespace(b) && !IsWhitespace(c)
    requires m != [] && !IsWhitespace(m[0])
    ensures Trim(a + m + b + [c]) == m + b + [c]
  {
    var kept := m + b + [c];
    assert kept[0] == m[0] && kept[|kept| - 1] == c;
    assert a + m + b + [c] == a + kept + [];
    TrimOfPadded(a, kept, []);
  }

  /** `s.split(' ')`: the pieces between single spaces, empty pieces included. */
  function SplitOnSpace(s: string): (r: seq<string>)
    ensures |r| >= 1
    decreases |s|
  {
    if s == [] then [[]]
    else
      var rest := SplitOnSpace(s[1..]);
      if s[0] == ' ' then [[]] + rest
      else [[s[0]] + rest[0]] + rest[1..]
  }

  /** `pieces.join(' ')`, the inverse of `SplitOnSpace`. */
  function JoinWithSpace(pieces: seq<string>): string
    requires |pieces| >= 1
    decreases |pieces|
  {
    if |pieces| == 1 then pieces[0] else pieces[0] + [' '] + JoinWithSpace(pieces[1..])
  }

  /** The number of space characters in `s`. */
  function CountSpaces(s: string): nat {
    if s == [] then 0 else (if s[0] == ' ' then 1 else 0) + CountSpaces(s[1..])
  }

  /** Splitting loses nothing: joining the pieces with spaces gives the text back. */
  lemma {:induction false} JoinSplit(s: string)
    ensures JoinWithSpace(SplitOnSpace(s)) == s
    decreases |s|
  {
    if s != [] {
      var rest := SplitOnSpace(s[1..]);
      JoinSplit(s[1..]);
      if s[0] == ' ' {
        assert SplitOnSpace(s)[1..] == rest;
        assert JoinWithSpace(SplitOnSpace(s)) == [] + [' '] + s[1..];
      } else if |rest| == 1 {
        assert JoinWithSpace(SplitOnSpace(s)) == [s[0]] + rest[0];
      } else {
        var pieces := SplitOnSpace(s);
        assert pieces[1..] == rest[1..];
        assert JoinWithSpace(rest) == rest[0] + [' '] + JoinWithSpace(rest[1..]);
        assert JoinWithSpace(pieces) == [s[0]] + rest[0] + [' '] + JoinWithSpace(rest[1..]);
      }
    }
  }

  /** No piece contains a space. */
  lemma {:induction false} SplitPiecesHaveNoSpace(s: string)
    ensures forall i, k :: 0 <= i < |SplitOnSpace(s)| && 0 <= k < |SplitOnSpace(s)[i]| ==> SplitOnSpace(s)[i][k] != ' '
    decreases |s|
  {
    if s != [] {
      SplitPiecesHaveNoSpace(s[1..]);
    }
  }

  /** There is one piece more than there are spaces, so consecutive and trailing spaces add pieces. */
  lemma {:induction false} SplitCountIsSpacesPlusOne(s: string)
    ensures |SplitOnSpace(s)| == CountSpaces(s) + 1
    decreases |s|
  {
    if s != [] {
      SplitCountIsSpacesPlusOne(s[1..]);
    }
  }
}
