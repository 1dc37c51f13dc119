/**
 * `parse_argument_list`: a call's parenthesised argument region becomes the
 * ordered list of its unresolved values. Every malformed region gives the empty
 * list; nothing is reported.
 */
module ArgumentList {
  import opened Tokens

  /**
   * The grammar the scan accepts: values and commas alternate, starting with a
   * value, i.e. `v1 , v2 , ... , vn` with an optional trailing comma.
   */
  predicate Alternating(line: seq<Token>)
  {
    forall i :: 0 <= i < |line| ==> (IsComma(line[i]) <==> i % 2 == 1)
  }

  /** The tokens at even positions, as classified values. */
  function ValueSlots(line: seq<Token>): (r: seq<GeneralToken>)
    ensures |r| == (|line| + 1) / 2
    ensures forall k :: 0 <= k < |r| ==> r[k] == General(line[2 * k])
  {
    if |line| <= 1 then (if line == [] then [] else [General(line[0])])
    else [General(line[0])] + ValueSlots(line[2..])
  }

  /** The arguments a flattened region yields: its values when it alternates, otherwise none. */
  function ArgumentsOf(line: seq<Token>): (r: seq<GeneralToken>)
    ensures GeneralNull !in r
    ensures |line| > 0 && IsComma(line[0]) ==> r == []
    ensures (exists i :: 0 <= i < |line| - 1 && IsComma(line[i]) == IsComma(line[i + 1])) ==> r == []
    ensures Alternating(line) ==> |r| == (|line| + 1) / 2
    ensures Alternating(line) ==> forall k :: 0 <= k < |r| ==> r[k] == General(line[2 * k])
  {
    if Alternating(line) then ValueSlots(line) else []
  }

  /**
   * The state machine of the call-argument parser over the flattened line:
   * `last` holds the pending value (or the null sentinel), `foundSeparator`
   * says a value may come next.
   */
  method ScanArguments(line: seq<Token>) returns (args: seq<GeneralToken>)
    ensures args == ArgumentsOf(line)
  {
    args := [];
    var last := GeneralNull;
    var foundSeparator := true;
    var i := 0;
    while i < |line|
      invariant 0 <= i <= |line|
      invariant Alternating(line[..i])
      invariant foundSeparator <==> i % 2 == 0
      invariant last == if i % 2 == 0 then GeneralNull else General(line[i - 1])
      invariant |args| == i / 2
      invariant forall k :: 0 <= k < |args| ==> args[k] == General(line[2 * k])
    {
      if IsComma(line[i]) {
        if last == GeneralNull {
          assert !Alternating(line) by { assert IsComma(line[i]) && i % 2 == 0; }
          return [];
        }
        args := args + [last];
        last := GeneralNull;
        foundSeparator := true;
      } else if foundSeparator {
        last := General(line[i]);
        foundSeparator := false;
      } else {
        assert !Alternating(line) by { assert !IsComma(line[i]) && i % 2 == 1; }
        return [];
      }
      assert line[..i + 1] == line[..i] + [line[i]];
      i := i + 1;
    }
    assert line[..i] == line;
    if last != GeneralNull {
      if !foundSeparator {
        args := args + [last];
      } else {
        return [];
      }
    }
  }

  /** The region has no content once one pair of parentheses is stripped, or is no parenthesised region. */
  predicate Rejected(context: Token, ext: Externals)
  {
    context.content == "" || context.inQuotes || !ext.braceCheck(context) || |context.content| <= 2
  }

  /**
   * `parse_argument_list(Token)`: strip the parentheses, lex the inside, flatten
   * its lines and scan them.
   */
  method ParseArgumentList(context: Token, ext: Externals) returns (args: seq<GeneralToken>)
    requires context.content != "" && !context.inQuotes && ext.braceCheck(context) ==> |context.content| >= 2
    ensures Rejected(context, ext) ==> args == []
    ensures !Rejected(context, ext) ==> args == ArgumentsOf(Flatten(ext.lex(Inner(context.content))))
    ensures GeneralNull !in args
  {
    if context.content == "" || context.inQuotes || !ext.braceCheck(context) {
      return [];
    }
    var content := context.content[1..];
    content := content[..|content| - 1];
    assert content == Inner(context.content);
    if |content| == 0 {
      return [];
    }
    var line := FlattenLines(ext.lex(content));
    args := ScanArguments(line);
  }

  /** The values as the parser hands them on: each token classified, in order. */
  function Classified(vs: seq<Token>): seq<GeneralToken>
  {
    seq(|vs|, k requires 0 <= k < |vs| => General(vs[k]))
  }

  /** The line `v1 , v2 , ... , vn`. */
  function Separated(vs: seq<Token>): seq<Token>
  {
    if |vs| <= 1 then vs else [vs[0], Comma] + Separated(vs[1..])
  }

  /** Prefixing a value and a comma keeps a line alternating. */
  lemma AlternatingPrefix(v: Token, rest: seq<Token>)
    requires !IsComma(v) && Alternating(rest)
    ensures Alternating([v, Comma] + rest)
  {
    var t := [v, Comma] + rest;
    forall i | 2 <= i < |t|
      ensures IsComma(t[i]) <==> i % 2 == 1
    {
      assert t[i] == rest[i - 2];
      assert (i - 2) % 2 == i % 2;
    }
  }

  lemma {:induction false} SeparatedAlternates(vs: seq<Token>)
    requires forall k :: 0 <= k < |vs| ==> !IsComma(vs[k])
    ensures Alternating(Separated(vs)) && ValueSlots(Separated(vs)) == Classified(vs)
  {
    if |vs| > 1 {
      var rest := vs[1..];
      SeparatedAlternates(rest);
      var s := Separated(vs);
      assert s == [vs[0], Comma] + Separated(rest);
      AlternatingPrefix(vs[0], Separated(rest));
      assert s[2..] == Separated(rest);
      ClassifiedCons(vs);
    }
  }

  lemma ClassifiedCons(vs: seq<Token>)
    requires vs != []
    ensures Classified(vs) == [General(vs[0])] + Classified(vs[1..])
  {
  }

  /** A non-empty separated line has odd length: it ends with a value. */
  lemma {:induction false} SeparatedOddLength(vs: seq<Token>)
    requires vs != []
    ensures |Separated(vs)| % 2 == 1
  {
    if |vs| > 1 {
      SeparatedOddLength(vs[1..]);
      assert |Separated(vs)| == |Separated(vs[1..])| + 2;
    }
  }

  /** A comma after the last value of an alternating line adds no value. */
  lemma TrailingCommaIgnored(line: seq<Token>)
    requires Alternating(line) && |line| % 2 == 1
    ensures Alternating(line + [Comma]) && ValueSlots(line + [Comma]) == ValueSlots(line)
  {
    var t := line + [Comma];
    forall i | 0 <= i < |t|
      ensures IsComma(t[i]) <==> i % 2 == 1
    {
      if i < |line| {
        assert t[i] == line[i];
      }
    }
    var a, b := ValueSlots(t), ValueSlots(line);
    assert |a| == |b|;
    forall k | 0 <= k < |a|
      ensures a[k] == b[k]
    {
      assert t[2 * k] == line[2 * k];
    }
  }

  /**
   * Round trip: comma-free values written as `v1 , ... , vn`, with or without a
   * trailing comma, are parsed back to exactly those values in order.
   */
  lemma ArgumentsOfSeparated(vs: seq<Token>)
    requires forall k :: 0 <= k < |vs| ==> !IsComma(vs[k])
    ensures ArgumentsOf(Separated(vs)) == Classified(vs)
    ensures vs != [] ==> ArgumentsOf(Separated(vs) + [Comma]) == Classified(vs)
  {
    SeparatedAlternates(vs);
    var s := Separated(vs);
    assert ArgumentsOf(s) == ValueSlots(s);
    if vs != [] {
      SeparatedOddLength(vs);
      TrailingCommaIgnored(s);
      assert ArgumentsOf(s + [Comma]) == ValueSlots(s + [Comma]);
    }
  }
}
