/**
 * The character-level normalisers of MeowScript's tools: the whitespace strip
 * `remove_unneeded_chars`, the decimal canonicaliser `remove_uness_decs`, and
 * `until_newline`, which rebuilds one logical source line from tokens.
 */
module Normalize {
  import opened Tokens

  // ---------------------------------------------------------------------------
  // remove_unneeded_chars
  // ---------------------------------------------------------------------------

  /** Space, tab, or whatever the lexer's `is_newline` accepts. */
  predicate IsBlank(c: char, isNewline: char -> bool)
  {
    c == ' ' || c == '\t' || isNewline(c)
  }

  /** The text with its leading run of blanks removed. */
  function StripLeading(s: string, isNewline: char -> bool): (r: string)
    ensures |r| <= |s| && r == s[|s| - |r|..]
    ensures forall j :: 0 <= j < |s| - |r| ==> IsBlank(s[j], isNewline)
    ensures r != [] ==> !IsBlank(r[0], isNewline)
  {
    if s != [] && IsBlank(s[0], isNewline) then StripLeading(s[1..], isNewline) else s
  }

  /** The character `std::string` yields at index `i`: the terminator `'\0'` at `i == |s|`. */
  function CharAt(s: string, i: int): char
    requires 0 <= i <= |s|
  {
    if i < |s| then s[i] else '\0'
  }

  /**
   * Where the downward scan of the trailing loop stops when it starts at `i`:
   * the highest index at or below `i` whose character is not blank, or -1.
   */
  function TrailingStop(s: string, i: int, isNewline: char -> bool): (e: int)
    requires -1 <= i <= |s|
    decreases i + 1
    ensures -1 <= e <= i
    ensures e >= 0 ==> !IsBlank(CharAt(s, e), isNewline)
    ensures forall k :: e < k <= i ==> IsBlank(CharAt(s, k), isNewline)
  {
    if i == -1 then -1
    else if !IsBlank(CharAt(s, i), isNewline) then i
    else TrailingStop(s, i - 1, isNewline)
  }

  /**
   * The trailing scan starts at the terminator; it must stop at a real index,
   * which it does unless the terminator and the whole text are blank.
   */
  predicate TrimDefined(s: string, isNewline: char -> bool)
  {
    !IsBlank('\0', isNewline) || exists i :: 0 <= i < |s| && !IsBlank(s[i], isNewline)
  }

  /** The content after both loops: leading blanks removed, then cut where the trailing scan stopped. */
  function TrimmedContent(s: string, isNewline: char -> bool): (r: string)
    requires TrimDefined(s, isNewline)
    ensures |r| <= |s|
  {
    var u := StripLeading(s, isNewline);
    TrailingStopInRange(s, isNewline);
    u[..TrailingStop(u, |u|, isNewline)]
  }

  /** Under `TrimDefined` the trailing scan never runs below index 0. */
  lemma TrailingStopInRange(s: string, isNewline: char -> bool)
    requires TrimDefined(s, isNewline)
    ensures TrailingStop(StripLeading(s, isNewline), |StripLeading(s, isNewline)|, isNewline) >= 0
  {
    var u := StripLeading(s, isNewline);
    if IsBlank('\0', isNewline) {
      var i :| 0 <= i < |s| && !IsBlank(s[i], isNewline);
      assert u != [];
      assert !IsBlank(CharAt(u, 0), isNewline);
    }
  }

  /** A scan that stops at the first non-blank index finds where the leading strip cuts. */
  lemma {:induction false} StripLeadingAt(s: string, i: nat, isNewline: char -> bool)
    requires i <= |s|
    requires forall j :: 0 <= j < i ==> IsBlank(s[j], isNewline)
    requires i < |s| ==> !IsBlank(s[i], isNewline)
    ensures StripLeading(s, isNewline) == s[i..]
  {
    if i > 0 {
      StripLeadingAt(s[1..], i - 1, isNewline);
      assert s[1..][i - 1..] == s[i..];
    }
  }

  /** `remove_unneeded_chars` as a value: quoted tokens are left alone. */
  function Trim(t: Token, isNewline: char -> bool): Token
    requires !t.inQuotes ==> TrimDefined(t.content, isNewline)
  {
    if t.inQuotes then t else t.(content := TrimmedContent(t.content, isNewline))
  }

  /**
   * With a terminator that is not blank, the trailing loop removes nothing: the
   * strip removes exactly the leading blanks and keeps trailing ones.
   */
  lemma TrimOnlyStripsLeading(t: Token, isNewline: char -> bool)
    requires !isNewline('\0')
    ensures !t.inQuotes ==>
      TrimDefined(t.content, isNewline) && Trim(t, isNewline).content == StripLeading(t.content, isNewline)
  {
    if !t.inQuotes {
      var u := StripLeading(t.content, isNewline);
      assert CharAt(u, |u|) == '\0';
      assert u[..|u|] == u;
    }
  }

  /** With a terminator that is not blank, trimming twice is trimming once. */
  lemma TrimIdempotent(t: Token, isNewline: char -> bool)
    requires !isNewline('\0')
    ensures Trim(Trim(t, isNewline), isNewline) == Trim(t, isNewline)
  {
    TrimOnlyStripsLeading(t, isNewline);
    TrimOnlyStripsLeading(Trim(t, isNewline), isNewline);
  }

  /** The forward scan of `remove_unneeded_chars`: the index of the first character that is not blank. */
  method SkipBlanks(s: string, isNewline: char -> bool) returns (i: nat)
    ensures i <= |s| && s[i..] == StripLeading(s, isNewline)
  {
    i := 0;
    while i < |s|
      invariant 0 <= i <= |s|
      invariant forall j :: 0 <= j < i ==> IsBlank(s[j], isNewline)
    {
      if !IsBlank(s[i], isNewline) {
        break;
      }
      i := i + 1;
    }
    StripLeadingAt(s, i, isNewline);
  }

  /** The downward scan of `remove_unneeded_chars`, started at `size()`, where the terminator sits. */
  method ScanBackFromEnd(s: string, isNewline: char -> bool) returns (e: int)
    ensures e == TrailingStop(s, |s|, isNewline)
  {
    e := |s|;
    while e != -1
      invariant -1 <= e <= |s|
      invariant TrailingStop(s, |s|, isNewline) == TrailingStop(s, e, isNewline)
    {
      if !IsBlank(CharAt(s, e), isNewline) {
        break;
      }
      e := e - 1;
    }
  }

  /** `remove_unneeded_chars`: a forward scan past the leading blanks, then the scan down from `size()`. */
  method RemoveUnneededChars(t: Token, isNewline: char -> bool) returns (r: Token)
    requires !t.inQuotes ==> TrimDefined(t.content, isNewline)
    ensures r == Trim(t, isNewline)
  {
    if t.inQuotes {
      return t;
    }
    var i := SkipBlanks(t.content, isNewline);
    var s := t.content[i..];
    TrailingStopInRange(t.content, isNewline);
    var e := ScanBackFromEnd(s, isNewline);
    r := t.(content := s[..e]);
  }

  // ---------------------------------------------------------------------------
  // remove_uness_decs
  // ---------------------------------------------------------------------------

  /** Every character is `'0'` or `'.'`; the empty text counts. */
  predicate AllZero(s: string)
  {
    forall i :: 0 <= i < |s| ==> s[i] == '0' || s[i] == '.'
  }

  /** The text up to, not including, its first `'.'`. */
  function CutAtDot(s: string): (r: string)
    ensures |r| <= |s| && r == s[..|r|] && '.' !in r
    ensures |r| < |s| ==> s[|r|] == '.'
  {
    if s == [] || s[0] == '.' then [] else [s[0]] + CutAtDot(s[1..])
  }

  /** The cut falls at the first dot. */
  lemma {:induction false} CutAtDotAt(s: string, i: nat)
    requires i < |s| && s[i] == '.' && '.' !in s[..i]
    ensures CutAtDot(s) == s[..i]
  {
    if i > 0 {
      assert s[0] == s[..i][0];
      assert '.' !in s[1..][..i - 1] by {
        assert s[1..][..i - 1] == s[..i][1..];
      }
      CutAtDotAt(s[1..], i - 1);
      assert s[..i] == [s[0]] + s[1..][..i - 1];
    }
  }

  /**
   * Trailing `'0'`s removed from the end, then one `'.'` if that is what is
   * reached, stopping at any other character.
   */
  function DropTrailingZeros(s: string): (r: string)
    ensures |r| <= |s| && r == s[..|r|]
    ensures forall j :: |r| < j < |s| ==> s[j] == '0'
    ensures |r| < |s| ==> s[|r|] == '0' || s[|r|] == '.'
    ensures (|r| == |s| || s[|r|] != '.') ==> r == [] || (r[|r| - 1] != '0' && r[|r| - 1] != '.')
  {
    if s == [] then []
    else if s[|s| - 1] == '.' then s[..|s| - 1]
    else if s[|s| - 1] == '0' then DropTrailingZeros(s[..|s| - 1])
    else s
  }

  /** `remove_uness_decs` as a value. */
  function Canonical(t: Token, toInt: bool): Token
  {
    if t.inQuotes then t
    else if AllZero(t.content) then Token("0", false)
    else if '.' !in t.content then t
    else if toInt then t.(content := CutAtDot(t.content))
    else t.(content := DropTrailingZeros(t.content))
  }

  /** Trailing zeros of a fraction go. */
  lemma CanonicalDropsTrailingZeros()
    ensures Canonical(Token("2.500", false), false).content == "2.5"
  {
    assert "2.500"[0] == '2' && "2.500"[1] == '.';
    assert "2.500"[..4] == "2.50" && "2.50"[..3] == "2.5";
    assert DropTrailingZeros("2.50") == DropTrailingZeros("2.5");
  }

  /** A dot left at the end goes too. */
  lemma CanonicalDropsDot()
    ensures Canonical(Token("3.00", false), false).content == "3"
  {
    assert "3.00"[0] == '3' && "3.00"[1] == '.';
    assert "3.00"[..3] == "3.0" && "3.0"[..2] == "3." && "3."[..1] == "3";
    assert DropTrailingZeros("3.0") == DropTrailingZeros("3.");
  }

  /** Text of zeros and dots only, the empty text included, becomes "0". */
  lemma CanonicalAllZeros()
    ensures Canonical(Token("0.000", false), false).content == "0"
    ensures Canonical(Token("", false), false).content == "0"
  {
  }

  /** With `to_int`, everything from the dot on is cut. */
  lemma CanonicalToIntCuts()
    ensures Canonical(Token("3.50", false), true).content == "3"
  {
    assert "3.50"[0] == '3' && "3.50"[1] == '.';
    assert "3.50" == ['3'] + ".50";
  }

  /** At most one `'.'`. */
  predicate AtMostOneDot(s: string)
  {
    forall i, j :: 0 <= i < j < |s| && s[i] == '.' ==> s[j] != '.'
  }

  /** A text that is not all zeros keeps that property when only zeros and dots are cut from its end. */
  lemma NotAllZeroPrefix(s: string, n: nat)
    requires n <= |s| && !AllZero(s)
    requires forall j :: n <= j < |s| ==> s[j] == '0' || s[j] == '.'
    ensures !AllZero(s[..n])
  {
    var p :| 0 <= p < |s| && s[p] != '0' && s[p] != '.';
    assert s[..n][p] == s[p];
  }

  /** On text with at most one `'.'`, canonicalising without `to_int` is idempotent. */
  lemma CanonicalIdempotent(t: Token)
    requires AtMostOneDot(t.content)
    ensures Canonical(Canonical(t, false), false) == Canonical(t, false)
  {
    var s := t.content;
    if !t.inQuotes && !AllZero(s) && '.' in s {
      var r := DropTrailingZeros(s);
      NotAllZeroPrefix(s, |r|);
      if '.' in r {
        var d :| 0 <= d < |r| && r[d] == '.';
        assert s[d] == '.';
        if |r| < |s| {
          assert s[|r|] != '.';
        }
        assert r != [] && r[|r| - 1] != '0' && r[|r| - 1] != '.';
      }
    }
  }

  /** Idempotence fails on text with two dots: "1.0.0" becomes "1.0", then "1". */
  lemma CanonicalTwoDots()
    ensures Canonical(Token("1.0.0", false), false).content == "1.0"
    ensures Canonical(Token("1.0", false), false).content == "1"
  {
    assert "1.0.0"[..4] == "1.0." && "1.0."[..3] == "1.0" && "1.0"[..2] == "1." && "1."[..1] == "1";
    assert DropTrailingZeros("1.0.0") == DropTrailingZeros("1.0.") == "1.0";
    assert DropTrailingZeros("1.0") == DropTrailingZeros("1.") == "1";
    assert "1.0.0"[0] == '1' && "1.0"[0] == '1';
  }

  /** With `to_int`, idempotence fails on leading zeros: "00.5" becomes "00", then "0". */
  lemma CanonicalToIntLeadingZeros()
    ensures Canonical(Token("00.5", false), true).content == "00"
    ensures Canonical(Token("00", false), true).content == "0"
  {
    var s := "00.5";
    assert s[3] == '5' && s[2] == '.' && s[..2] == "00";
    CutAtDotAt(s, 2);
  }

  /** `remove_uness_decs`: one pass for the two flags, then the cut or the trailing scan. */
  method RemoveUnessDecs(t: Token, toInt: bool) returns (r: Token)
    ensures r == Canonical(t, toInt)
  {
    if t.inQuotes {
      return t;
    }
    var s := t.content;
    var hasDot := false;
    var allZero := true;
    var k := 0;
    while k < |s|
      invariant 0 <= k <= |s|
      invariant hasDot <==> '.' in s[..k]
      invariant allZero <==> AllZero(s[..k])
    {
      assert s[..k + 1] == s[..k] + [s[k]];
      allZero := allZero && (s[k] == '0' || s[k] == '.');
      if s[k] == '.' {
        hasDot := true;
      }
      k := k + 1;
    }
    assert s[..k] == s;
    if allZero {
      return Token("0", false);
    }
    if !hasDot {
      return t;
    }
    if toInt {
      var i := 0;
      while i < |s|
        invariant 0 <= i <= |s|
        invariant '.' !in s[..i]
      {
        if s[i] == '.' {
          CutAtDotAt(s, i);
          return t.(content := s[..i]);
        }
        assert s[..i + 1] == s[..i] + [s[i]];
        i := i + 1;
      }
      return t;
    }
    var i: int := |s| - 1;
    while i != -1
      invariant -1 <= i < |s| && i == |s| - 1
      invariant DropTrailingZeros(s) == DropTrailingZeros(t.content)
    {
      if s[i] == '.' {
        assert DropTrailingZeros(s) == s[..i];
        assert s[..i] + s[i + 1..] == s[..i];
        s := s[..i] + s[i + 1..];
        assert s == DropTrailingZeros(t.content);
        break;
      } else if s[i] == '0' {
        assert DropTrailingZeros(s) == DropTrailingZeros(s[..i]);
        assert s[..i] + s[i + 1..] == s[..i];
        s := s[..i] + s[i + 1..];
      } else {
        break;
      }
      i := i - 1;
    }
    r := t.(content := s);
  }

  // ---------------------------------------------------------------------------
  // until_newline
  // ---------------------------------------------------------------------------

  /** Each token's content followed by one space: the text the loop builds when no newline stops it. */
  function Spaced(tks: seq<Token>): (r: string)
    ensures tks != [] ==> |r| > 0 && r[|r| - 1] == ' '
  {
    if tks == [] then [] else Spaced(tks[..|tks| - 1]) + tks[|tks| - 1].content + " "
  }

  /** The position of the first newline character, if any. */
  function FirstNewline(s: string): (r: Option<nat>)
    ensures r.None? <==> '\n' !in s
    ensures r.Some? ==> r.value < |s| && s[r.value] == '\n' && '\n' !in s[..r.value]
  {
    if s == [] then None
    else if s[0] == '\n' then Some(0)
    else match FirstNewline(s[1..])
      case None => None
      case Some(i) => Some(i + 1)
  }

  /**
   * `until_newline` as a value: the spaced text up to its first newline (keeping
   * a separator already written), or, with no newline, without its final space.
   */
  function FirstLine(tks: seq<Token>): (r: string)
    requires tks != []
    ensures '\n' !in r
    ensures |r| < |Spaced(tks)| && r == Spaced(tks)[..|r|]
  {
    var s := Spaced(tks);
    match FirstNewline(s)
    case Some(i) => s[..i]
    case None => s[..|s| - 1]
  }

  /** The tokens' contents with one space between neighbours. */
  function JoinWithSpaces(tks: seq<Token>): string
    requires tks != []
  {
    if |tks| == 1 then tks[0].content else tks[0].content + " " + JoinWithSpaces(tks[1..])
  }

  /** What the loop has built after `n` tokens is a prefix of the whole spaced text. */
  lemma {:induction false} SpacedPrefix(tks: seq<Token>, n: nat)
    requires n <= |tks|
    ensures |Spaced(tks[..n])| <= |Spaced(tks)| && Spaced(tks[..n]) == Spaced(tks)[..|Spaced(tks[..n])|]
  {
    if n < |tks| {
      var init := tks[..|tks| - 1];
      SpacedPrefix(init, n);
      assert init[..n] == tks[..n];
    } else {
      assert tks[..n] == tks;
    }
  }

  lemma {:induction false} SpacedJoin(tks: seq<Token>)
    requires tks != []
    ensures Spaced(tks) == JoinWithSpaces(tks) + " "
  {
    if |tks| > 1 {
      var init := tks[..|tks| - 1];
      SpacedJoin(init);
      JoinWithSpacesSnoc(tks);
    } else {
      assert tks[..0] == [];
    }
  }

  lemma {:induction false} JoinWithSpacesSnoc(tks: seq<Token>)
    requires |tks| > 1
    ensures JoinWithSpaces(tks) == JoinWithSpaces(tks[..|tks| - 1]) + " " + tks[|tks| - 1].content
  {
    var x, last := tks[0].content + " ", tks[|tks| - 1].content;
    if |tks| > 2 {
      var m := tks[1..];
      JoinWithSpacesSnoc(m);
      assert m[..|m| - 1] == tks[..|tks| - 1][1..];
      var j := JoinWithSpaces(tks[..|tks| - 1][1..]);
      assert JoinWithSpaces(tks) == x + (j + " " + last);
      assert JoinWithSpaces(tks[..|tks| - 1]) == x + j;
      assert x + (j + " " + last) == x + j + " " + last;
    } else {
      assert tks[..1][0] == tks[0] && tks[1..][0] == tks[1];
      assert JoinWithSpaces(tks) == x + last;
    }
  }

  lemma {:induction false} SpacedNoNewline(tks: seq<Token>)
    requires forall k :: 0 <= k < |tks| ==> '\n' !in tks[k].content
    ensures '\n' !in Spaced(tks)
  {
    if tks != [] {
      SpacedNoNewline(tks[..|tks| - 1]);
      assert '\n' !in tks[|tks| - 1].content;
    }
  }

  /** Without newlines in the tokens, `until_newline` joins all their contents with single spaces. */
  lemma FirstLineWithoutNewlines(tks: seq<Token>)
    requires tks != []
    requires forall k :: 0 <= k < |tks| ==> '\n' !in tks[k].content
    ensures FirstLine(tks) == JoinWithSpaces(tks)
  {
    SpacedNoNewline(tks);
    SpacedJoin(tks);
  }

  /** A newline at the start of a later token ends the line after the separator space. */
  lemma FirstLineKeepsSeparator()
    ensures FirstLine([Token("a", false), Token("\nb", false)]) == "a "
  {
    var tks := [Token("a", false), Token("\nb", false)];
    assert tks[..1] == [Token("a", false)] && tks[..1][..0] == [];
    assert Spaced(tks) == "a \nb ";
    assert FirstNewline("a \nb ") == Some(2) by {
      assert "a \nb "[1..] == " \nb " && " \nb "[1..] == "\nb ";
    }
  }

  /** The first newline, at character `b` of token `a`, ends the line right there. */
  lemma NewlineEndsLine(tks: seq<Token>, a: nat, b: nat)
    requires a < |tks| && b < |tks[a].content| && tks[a].content[b] == '\n'
    requires '\n' !in Spaced(tks[..a]) + tks[a].content[..b]
    ensures FirstLine(tks) == Spaced(tks[..a]) + tks[a].content[..b]
  {
    var ret := Spaced(tks[..a]) + tks[a].content[..b];
    NewlineInSpaced(tks, a, b);
    FirstNewlineAt(Spaced(tks), |ret|);
  }

  /** Character `b` of token `a` sits in the spaced text right after what precedes it. */
  lemma NewlineInSpaced(tks: seq<Token>, a: nat, b: nat)
    requires a < |tks| && b < |tks[a].content|
    ensures var ret := Spaced(tks[..a]) + tks[a].content[..b];
      |ret| < |Spaced(tks)| && Spaced(tks)[|ret|] == tks[a].content[b] && Spaced(tks)[..|ret|] == ret
  {
    var c := tks[a].content;
    var ret := Spaced(tks[..a]) + c[..b];
    SpacedPrefix(tks, a + 1);
    assert tks[..a + 1][..a] == tks[..a];
    var p := Spaced(tks[..a + 1]);
    assert p == ret + c[b..] + " " by {
      assert c == c[..b] + c[b..];
    }
    var s := Spaced(tks);
    assert s[..|p|] == p;
    assert s[|ret|] == p[|ret|] == c[b];
    assert s[..|ret|] == p[..|ret|] == ret;
  }

  lemma {:induction false} FirstNewlineAt(s: string, i: nat)
    requires i < |s| && s[i] == '\n' && '\n' !in s[..i]
    ensures FirstNewline(s) == Some(i)
  {
    if i > 0 {
      assert s[0] != '\n' by { assert s[..i][0] == s[0]; }
      assert s[1..][..i - 1] == s[..i][1..];
      FirstNewlineAt(s[1..], i - 1);
    }
  }

  /** `until_newline`: copy characters token by token, a space after each, until a newline. */
  method UntilNewline(tks: seq<Token>) returns (r: Token)
    requires tks != []
    ensures r == Token(FirstLine(tks), false)
  {
    var ret := "";
    var a := 0;
    while a < |tks|
      invariant 0 <= a <= |tks|
      invariant ret == Spaced(tks[..a])
      invariant '\n' !in ret
    {
      var c := tks[a].content;
      var b := 0;
      while b < |c|
        invariant 0 <= b <= |c|
        invariant ret == Spaced(tks[..a]) + c[..b]
        invariant '\n' !in ret
      {
        if c[b] == '\n' {
          NewlineEndsLine(tks, a, b);
          return Token(ret, false);
        }
        assert c[..b + 1] == c[..b] + [c[b]];
        ret := ret + [c[b]];
        b := b + 1;
      }
      assert c[..b] == c;
      assert tks[..a + 1][..a] == tks[..a];
      ret := ret + " ";
      a := a + 1;
    }
    assert tks[..a] == tks;
    ret := ret[..|ret| - 1];
    r := Token(ret, false);
  }
}
