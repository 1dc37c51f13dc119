/**
 * Tokens as the parsers of MeowScript's tools see them, the classified-token
 * sentinel, and the collaborators the parsers call but do not define.
 */
module Tokens {

  /** A lexical unit: its text and whether the lexer found it between quotes. */
  datatype Token = Token(content: string, inQuotes: bool)

  /**
   * A classified token (`GeneralTypeToken`). `GeneralNull` is the "no value yet"
   * sentinel `general_null`; every real value is `General` of the token it came from,
   * so the sentinel is unequal to all of them.
   */
  datatype GeneralToken = GeneralNull | General(source: Token)

  datatype Option<T> = None | Some(value: T)

  datatype Result<T, E> = Success(value: T) | Failure(error: E)

  /** The declared type of a parameter: `UNKNOWN`, `Object`, or one of the scalar kinds. */
  datatype VarType = Unknown | Object | Scalar(kind: nat)

  /**
   * The helpers the parsers call and this model does not define:
   * `brace_check(t, '(', ')')`, `lex_text` (one token list per logical line),
   * the name/literal/ruleset/struct/type classifiers and `token2var_t`.
   */
  datatype Externals = Externals(
    braceCheck: Token -> bool,
    lex: string -> seq<seq<Token>>,
    isValidName: Token -> bool,
    isLiteralValue: Token -> bool,
    isRuleset: Token -> bool,
    isStruct: Token -> bool,
    isValidVarType: Token -> bool,
    tokenToVarType: Token -> VarType)

  /** Both parsers compare the content only: a quoted "," is a separator too. */
  predicate IsComma(t: Token) {
    t.content == ","
  }

  /** The separator token the lexer produces for a comma. */
  const Comma := Token(",", false)

  /** The text between the first and the last character: one pair of delimiters removed. */
  function Inner(s: string): string
    requires |s| >= 2
  {
    s[1..|s| - 1]
  }

  /** All lines of a lexed region, one after another. */
  function Flatten(lines: seq<seq<Token>>): seq<Token>
  {
    if lines == [] then [] else Flatten(lines[..|lines| - 1]) + lines[|lines| - 1]
  }

  /**
   * The nested loops that copy every token of every lexed line into one flat line,
   * as both parsers do before scanning.
   */
  method FlattenLines(lines: seq<seq<Token>>) returns (line: seq<Token>)
    ensures line == Flatten(lines)
  {
    line := [];
    var i := 0;
    while i < |lines|
      invariant 0 <= i <= |lines|
      invariant line == Flatten(lines[..i])
    {
      var j := 0;
      while j < |lines[i]|
        invariant 0 <= j <= |lines[i]|
        invariant line == Flatten(lines[..i]) + lines[i][..j]
      {
        line := line + [lines[i][j]];
        j := j + 1;
      }
      assert lines[..i + 1][..i] == lines[..i];
      i := i + 1;
    }
    assert lines[..|lines|] == lines;
  }
}
