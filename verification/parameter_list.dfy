/**
 * `parse_function_params`: a declaration's parenthesised parameter region
 * becomes a list of typed, constrained formal parameters. Unlike the call
 * argument parser, every malformation is an error.
 */
module ParameterList {
  import opened Tokens

  /** The three exceptions the parser throws, without their message text and line number. */
  datatype ParamError =
    | InvalidFormat             // "Invalid parameter format!"
    | UnexpectedToken(t: Token) // "Unexpected token: ..."
    | UnknownType(t: Token)     // "... is not a known VariableType or struct!"

  /**
   * A formal parameter. `ruleset` is `Some(r)` when `construct_ruleset(r)` was
   * attached; `literalValue` is `Some(v)` when `make_variable(v)` was stored;
   * `structName` is the struct type of an Object parameter.
   */
  datatype Parameter = Parameter(
    varType: VarType,
    name: Token,
    ruleset: Option<Token>,
    structName: Option<Token>,
    literalValue: Option<Token>)

  /** The empty name a literal parameter gets. */
  const Nameless := Token("", false)

  // ---------------------------------------------------------------------------
  // Splitting the line into comma groups
  // ---------------------------------------------------------------------------

  /** A comma with no token before it since the start or since the previous comma. */
  predicate HasEmptySlot(line: seq<Token>)
  {
    exists i :: 0 <= i < |line| && IsComma(line[i]) && (i == 0 || IsComma(line[i - 1]))
  }

  function CommaCount(line: seq<Token>): nat
  {
    if line == [] then 0
    else CommaCount(line[..|line| - 1]) + (if IsComma(line[|line| - 1]) then 1 else 0)
  }

  /** The groups between commas, the last one still open. */
  function SplitOn(line: seq<Token>): (gs: seq<seq<Token>>)
    ensures |gs| == CommaCount(line) + 1
    ensures gs[|gs| - 1] == [] <==> line == [] || IsComma(line[|line| - 1])
  {
    if line == [] then [[]]
    else
      var gs0 := SplitOn(line[..|line| - 1]);
      var t := line[|line| - 1];
      if IsComma(t) then gs0 + [[]]
      else gs0[..|gs0| - 1] + [gs0[|gs0| - 1] + [t]]
  }

  /** No group holds a comma. */
  lemma {:induction false} SplitOnCommaFree(line: seq<Token>)
    ensures forall k, j :: 0 <= k < |SplitOn(line)| && 0 <= j < |SplitOn(line)[k]| ==> !IsComma(SplitOn(line)[k][j])
  {
    if line != [] {
      var p := line[..|line| - 1];
      SplitOnCommaFree(p);
      var gs0 := SplitOn(p);
      var gs := SplitOn(line);
      if !IsComma(line[|line| - 1]) {
        assert gs == gs0[..|gs0| - 1] + [gs0[|gs0| - 1] + [line[|line| - 1]]];
        forall k, j | 0 <= k < |gs| && 0 <= j < |gs[k]|
          ensures !IsComma(gs[k][j])
        {
          if k < |gs0| - 1 {
            assert gs[k] == gs0[k];
          } else if j < |gs0[k]| {
            assert gs[k][j] == gs0[k][j];
          }
        }
      } else {
        assert gs == gs0 + [[]];
        forall k, j | 0 <= k < |gs| && 0 <= j < |gs[k]|
          ensures !IsComma(gs[k][j])
        {
          assert gs[k] == gs0[k];
        }
      }
    }
  }

  /** A token that is not a comma joins the open group. */
  lemma SplitOnSnoc(p: seq<Token>, t: Token)
    requires !IsComma(t)
    ensures var gs := SplitOn(p);
      SplitOn(p + [t]) == gs[..|gs| - 1] + [gs[|gs| - 1] + [t]]
  {
    assert (p + [t])[..|p|] == p;
  }

  /** The comma groups of a line: none for an empty line. */
  function Groups(line: seq<Token>): seq<seq<Token>>
  {
    if line == [] then [] else SplitOn(line)
  }

  /** The first loop of `parse_function_params`: build the groups, refusing an empty slot. */
  method SplitGroups(line: seq<Token>) returns (r: Result<seq<seq<Token>>, ParamError>)
    ensures r.Failure? <==> HasEmptySlot(line)
    ensures r.Failure? ==> r.error == InvalidFormat
    ensures r.Success? ==> r.value == Groups(line)
  {
    var arguments: seq<seq<Token>> := [];
    if |line| != 0 {
      arguments := [[]];
    }
    var i := 0;
    while i < |line|
      invariant 0 <= i <= |line|
      invariant !HasEmptySlot(line[..i])
      invariant line != [] ==> arguments == SplitOn(line[..i])
      invariant line == [] ==> arguments == []
    {
      assert line[..i + 1][..i] == line[..i];
      if IsComma(line[i]) {
        if arguments[|arguments| - 1] == [] {
          assert i == 0 || IsComma(line[i - 1]);
          return Failure(InvalidFormat);
        }
        arguments := arguments + [[]];
      } else {
        arguments := arguments[..|arguments| - 1] + [arguments[|arguments| - 1] + [line[i]]];
      }
      NoEmptySlotExtends(line, i);
      i := i + 1;
    }
    assert line[..i] == line;
    return Success(arguments);
  }

  /** A prefix without an empty slot keeps none when the next token is not a comma after a comma. */
  lemma NoEmptySlotExtends(line: seq<Token>, i: nat)
    requires i < |line| && !HasEmptySlot(line[..i])
    requires IsComma(line[i]) ==> i > 0 && !IsComma(line[i - 1])
    ensures !HasEmptySlot(line[..i + 1])
  {
    var done := line[..i + 1];
    forall j | 0 <= j < |done| && IsComma(done[j])
      ensures j != 0 && !IsComma(done[j - 1])
    {
      if j < i {
        assert line[..i][j] == done[j] && (j > 0 ==> line[..i][j - 1] == done[j - 1]);
      }
    }
  }

  /** The line `g1 , g2 , ... , gn`. */
  function Joined(gs: seq<seq<Token>>): seq<Token>
    requires gs != []
  {
    if |gs| == 1 then gs[0] else Joined(gs[..|gs| - 1]) + [Comma] + gs[|gs| - 1]
  }

  /** Groups whose tokens are not commas, none of them empty. */
  predicate ProperGroups(gs: seq<seq<Token>>)
  {
    forall k :: 0 <= k < |gs| ==> gs[k] != [] && forall j :: 0 <= j < |gs[k]| ==> !IsComma(gs[k][j])
  }

  /** Comma-free tokens extend the open group. */
  lemma {:induction false} SplitOnAppend(p: seq<Token>, g: seq<Token>)
    requires forall j :: 0 <= j < |g| ==> !IsComma(g[j])
    ensures var gs := SplitOn(p);
      SplitOn(p + g) == gs[..|gs| - 1] + [gs[|gs| - 1] + g]
  {
    var gs := SplitOn(p);
    var front := gs[..|gs| - 1];
    var last := gs[|gs| - 1];
    if g == [] {
      assert p + g == p && last + g == last;
      assert gs == front + [last];
    } else {
      var g0 := g[..|g| - 1];
      var t := g[|g| - 1];
      SnocParts(p, g);
      SplitOnAppend(p, g0);
      SplitOnSnoc(p + g0, t);
      ExtendLast(front, last, g0, t);
    }
  }

  /** A non-empty sequence is its front and its last element. */
  lemma SnocParts<T>(p: seq<T>, g: seq<T>)
    requires g != []
    ensures g[..|g| - 1] + [g[|g| - 1]] == g
    ensures p + g[..|g| - 1] + [g[|g| - 1]] == p + g
  {
    assert g[..|g| - 1] + [g[|g| - 1]] == g;
  }

  /** Appending to the last of a sequence of groups, one element at a time. */
  lemma ExtendLast<T>(front: seq<seq<T>>, last: seq<T>, g0: seq<T>, t: T)
    ensures var mid := front + [last + g0];
      mid[..|mid| - 1] + [mid[|mid| - 1] + [t]] == front + [last + (g0 + [t])]
  {
    var mid := front + [last + g0];
    assert mid[..|mid| - 1] == front && mid[|mid| - 1] == last + g0;
    assert (last + g0) + [t] == last + (g0 + [t]);
  }

  /** A single comma-free group is its own split. */
  lemma SingleGroup(g: seq<Token>)
    requires g != [] && forall j :: 0 <= j < |g| ==> !IsComma(g[j])
    ensures !IsComma(g[|g| - 1]) && !HasEmptySlot(g)
    ensures Groups(g) == [g]
  {
    SplitOnAppend([], g);
    assert [] + g == g;
    assert SplitOn([]) == [[]];
  }

  /**
   * Round trip: non-empty, comma-free groups joined with commas are split back
   * into exactly those groups, with no empty slot.
   */
  lemma {:induction false} GroupsOfJoined(gs: seq<seq<Token>>)
    requires gs != [] && ProperGroups(gs)
    ensures Joined(gs) != [] && !IsComma(Joined(gs)[|Joined(gs)| - 1])
    ensures !HasEmptySlot(Joined(gs))
    ensures Groups(Joined(gs)) == gs
  {
    var n := |gs|;
    var g := gs[n - 1];
    if n == 1 {
      assert Joined(gs) == g;
      SingleGroup(g);
      assert gs == [g];
    } else {
      var init := gs[..n - 1];
      assert ProperGroups(init) by {
        forall k | 0 <= k < |init| ensures init[k] == gs[k] { }
      }
      GroupsOfJoined(init);
      var a := Joined(init);
      assert Joined(gs) == a + [Comma] + g;
      SplitAfterComma(a, g);
      NoEmptySlotJoin(a, g);
      assert init + [g] == gs;
    }
  }

  /** One more comma and a comma-free group add that group to the split. */
  lemma SplitAfterComma(a: seq<Token>, g: seq<Token>)
    requires a != [] && !IsComma(a[|a| - 1])
    requires g != [] && forall j :: 0 <= j < |g| ==> !IsComma(g[j])
    ensures a + [Comma] + g != [] && !IsComma((a + [Comma] + g)[|a| + |g|])
    ensures Groups(a + [Comma] + g) == Groups(a) + [g]
  {
    var init := SplitOn(a);
    var p := a + [Comma];
    assert p[..|p| - 1] == a;
    assert SplitOn(p) == init + [[]];
    SplitOnAppend(p, g);
    assert (init + [[]])[..|init|] == init && [] + g == g;
    assert (a + [Comma] + g)[|a| + |g|] == g[|g| - 1];
  }

  /** Joining a comma-free group to a line without empty slot by one comma leaves none. */
  lemma NoEmptySlotJoin(a: seq<Token>, g: seq<Token>)
    requires a != [] && !IsComma(a[|a| - 1]) && !HasEmptySlot(a)
    requires g != [] && forall j :: 0 <= j < |g| ==> !IsComma(g[j])
    ensures !HasEmptySlot(a + [Comma] + g)
  {
    var line := a + [Comma] + g;
    forall i | 0 <= i < |line| && IsComma(line[i])
      ensures i != 0 && !IsComma(line[i - 1])
    {
      if i < |a| {
        assert line[i] == a[i];
        if i > 0 { assert line[i - 1] == a[i - 1]; }
      } else if i == |a| {
        assert line[i - 1] == a[|a| - 1];
      }
    }
  }

  // ---------------------------------------------------------------------------
  // One group
  // ---------------------------------------------------------------------------

  /** An unquoted token with no content: formatting left by the lexer. */
  predicate IsFormatting(t: Token)
  {
    t.content == "" && !t.inQuotes
  }

  /** The group without its formatting tokens, order kept. */
  function Significant(g: seq<Token>): (r: seq<Token>)
    ensures |r| <= |g|
    ensures forall t :: t in r <==> t in g && !IsFormatting(t)
  {
    if g == [] then []
    else Significant(g[..|g| - 1]) + (if IsFormatting(g[|g| - 1]) then [] else [g[|g| - 1]])
  }

  /** Erasing a formatting token keeps the processed part equal to the significant prefix. */
  lemma EraseStep(g: seq<Token>, k: nat, h: seq<Token>, j: nat)
    requires k < |g| && j < |h| && h[..j] == Significant(g[..k]) && h[j..] == g[k..]
    requires IsFormatting(h[j])
    ensures var e := h[..j] + h[j + 1..];
      e[..j] == Significant(g[..k + 1]) && e[j..] == g[k + 1..]
  {
    StepFacts(g, k, h, j);
    var e := h[..j] + h[j + 1..];
    assert e[..j] == h[..j];
    assert e[j..] == h[j + 1..];
  }

  /** Keeping a significant token moves it into the processed part. */
  lemma KeepStep(g: seq<Token>, k: nat, h: seq<Token>, j: nat)
    requires k < |g| && j < |h| && h[..j] == Significant(g[..k]) && h[j..] == g[k..]
    requires !IsFormatting(h[j])
    ensures h[..j + 1] == Significant(g[..k + 1]) && h[j + 1..] == g[k + 1..]
  {
    StepFacts(g, k, h, j);
    assert h[..j + 1] == h[..j] + [h[j]];
  }

  lemma StepFacts(g: seq<Token>, k: nat, h: seq<Token>, j: nat)
    requires k < |g| && j < |h| && h[j..] == g[k..]
    ensures h[j] == g[k] && h[j + 1..] == g[k + 1..]
    ensures Significant(g[..k + 1]) == Significant(g[..k]) + (if IsFormatting(g[k]) then [] else [g[k]])
  {
    assert h[j] == h[j..][0] == g[k..][0] == g[k];
    assert g[k + 1..] == g[k..][1..] == h[j..][1..] == h[j + 1..];
    SignificantStep(g, k);
  }

  lemma SignificantStep(g: seq<Token>, k: nat)
    requires k < |g|
    ensures Significant(g[..k + 1]) == Significant(g[..k]) + (if IsFormatting(g[k]) then [] else [g[k]])
  {
    assert g[..k + 1][..k] == g[..k];
  }

  /** The erase loop over one group. */
  method DropFormatting(g: seq<Token>) returns (h: seq<Token>)
    ensures h == Significant(g)
  {
    h := g;
    var j := 0;
    ghost var k := 0;
    while j < |h|
      invariant 0 <= j <= |h| && 0 <= k <= |g|
      invariant h[..j] == Significant(g[..k]) && h[j..] == g[k..]
      decreases |h| - j
    {
      if h[j].content == "" && !h[j].inQuotes {
        EraseStep(g, k, h, j);
        h := h[..j] + h[j + 1..];
      } else {
        KeepStep(g, k, h, j);
        j := j + 1;
      }
      k := k + 1;
    }
    assert g[..k] == g;
  }

  predicate NameOrLiteral(t: Token, ext: Externals)
  {
    ext.isValidName(t) || ext.isLiteralValue(t)
  }

  predicate IsTypeSeparator(t: Token)
  {
    t.content == "::" || t.content == ":"
  }

  predicate KnownType(t: Token, ext: Externals)
  {
    ext.isStruct(t) || ext.isValidVarType(t)
  }

  /**
   * The four productions `V`, `V R`, `V sep T`, `V R sep T`: slot 0 a name or a
   * literal, a ruleset in slot 1 of the even sizes, a separator and a known
   * type in the last two slots of the typed sizes.
   */
  predicate WellFormedGroup(g: seq<Token>, ext: Externals)
  {
    1 <= |g| <= 4 && NameOrLiteral(g[0], ext) &&
    (|g| % 2 == 0 ==> ext.isRuleset(g[1])) &&
    (|g| >= 3 ==> IsTypeSeparator(g[|g| - 2]) && KnownType(g[|g| - 1], ext))
  }

  /**
   * The struct test of the typed productions. Both read index 2: the type token
   * of `V sep T`, but the separator of `V R sep T`.
   */
  predicate StructBranch(g: seq<Token>, ext: Externals)
  {
    |g| >= 3 && ext.isStruct(g[2])
  }

  /** Store a literal default and drop the name when slot 0 is a literal. */
  function WithLiteral(p: Parameter, v: Token, ext: Externals): Parameter
  {
    if ext.isLiteralValue(v) then p.(literalValue := Some(v), name := Nameless) else p
  }

  /** The size dispatch of `parse_function_params` on one group. */
  function ParseGroup(g: seq<Token>, ext: Externals): (r: Result<Parameter, ParamError>)
    ensures r.Success? <==> WellFormedGroup(g, ext)
  {
    if |g| == 1 then
      if !NameOrLiteral(g[0], ext) then Failure(UnexpectedToken(g[0]))
      else Success(WithLiteral(Parameter(Unknown, g[0], None, None, None), g[0], ext))
    else if |g| == 2 then
      if !NameOrLiteral(g[0], ext) then Failure(UnexpectedToken(g[0]))
      else if !ext.isRuleset(g[1]) then Failure(UnexpectedToken(g[1]))
      else Success(WithLiteral(Parameter(Unknown, g[0], Some(g[1]), None, None), g[0], ext))
    else if |g| == 3 then
      if !NameOrLiteral(g[0], ext) then Failure(UnexpectedToken(g[0]))
      else if !IsTypeSeparator(g[1]) then Failure(InvalidFormat)
      else if !KnownType(g[2], ext) then Failure(UnknownType(g[2]))
      else if ext.isStruct(g[2]) then Success(Parameter(Object, g[0], None, Some(g[2]), None))
      else Success(WithLiteral(Parameter(ext.tokenToVarType(g[2]), g[0], None, None, None), g[0], ext))
    else if |g| == 4 then
      if !NameOrLiteral(g[0], ext) then Failure(UnexpectedToken(g[0]))
      else if !ext.isRuleset(g[1]) then Failure(UnexpectedToken(g[1]))
      else if !IsTypeSeparator(g[2]) then Failure(InvalidFormat)
      else if !KnownType(g[3], ext) then Failure(UnknownType(g[3]))
      else if ext.isStruct(g[2]) then Success(Parameter(Object, g[0], Some(g[1]), Some(g[3]), None))
      else Success(WithLiteral(Parameter(ext.tokenToVarType(g[3]), g[0], Some(g[1]), None, None), g[0], ext))
    else
      Failure(InvalidFormat)
  }

  /**
   * The errors of one group: a wrong size is a format error, a bad slot-0 or
   * ruleset token is reported as unexpected, a bad separator is a format error,
   * and an unknown type token is reported as such.
   */
  lemma ParseGroupErrors(g: seq<Token>, ext: Externals)
    ensures !(1 <= |g| <= 4) ==> ParseGroup(g, ext) == Failure(InvalidFormat)
    ensures 1 <= |g| <= 4 && !NameOrLiteral(g[0], ext) ==> ParseGroup(g, ext) == Failure(UnexpectedToken(g[0]))
    ensures 1 <= |g| <= 4 && NameOrLiteral(g[0], ext) && |g| % 2 == 0 && !ext.isRuleset(g[1]) ==>
      ParseGroup(g, ext) == Failure(UnexpectedToken(g[1]))
    ensures 3 <= |g| <= 4 && NameOrLiteral(g[0], ext) && (|g| == 4 ==> ext.isRuleset(g[1])) ==>
      (!IsTypeSeparator(g[|g| - 2]) ==> ParseGroup(g, ext) == Failure(InvalidFormat)) &&
      (IsTypeSeparator(g[|g| - 2]) && !KnownType(g[|g| - 1], ext) ==>
         ParseGroup(g, ext) == Failure(UnknownType(g[|g| - 1])))
  {
  }

  /**
   * The parameter a well-formed group gives: the ruleset of the even sizes, the
   * type (UNKNOWN untyped, Object for a struct, otherwise the type token's), the
   * struct name, and, outside the struct branches, for a literal in slot 0 the
   * stored value with an empty name.
   */
  lemma ParseGroupFields(g: seq<Token>, ext: Externals)
    requires WellFormedGroup(g, ext)
    ensures var p := ParseGroup(g, ext).value;
      && p.ruleset == (if |g| % 2 == 0 then Some(g[1]) else None)
      && p.varType == (if |g| <= 2 then Unknown
                       else if StructBranch(g, ext) then Object
                       else ext.tokenToVarType(g[|g| - 1]))
      && p.structName == (if StructBranch(g, ext) then Some(g[|g| - 1]) else None)
      && p.literalValue == (if ext.isLiteralValue(g[0]) && !StructBranch(g, ext) then Some(g[0]) else None)
      && p.name == (if p.literalValue.Some? then Nameless else g[0])
  {
  }

  /**
   * The declarations `(x)`, `(x:T)` and `(5)`: an untyped parameter named `x`, a
   * parameter of type `T` named `x`, and a nameless parameter with default 5.
   */
  lemma ParseGroupExamples(x: Token, colon: Token, ty: Token, five: Token, ext: Externals)
    requires ext.isValidName(x) && !ext.isLiteralValue(x)
    requires colon.content == ":" && ext.isValidVarType(ty) && !ext.isStruct(ty)
    requires ext.isLiteralValue(five)
    ensures ParseGroup([x], ext) == Success(Parameter(Unknown, x, None, None, None))
    ensures ParseGroup([x, colon, ty], ext) == Success(Parameter(ext.tokenToVarType(ty), x, None, None, None))
    ensures ParseGroup([five], ext) == Success(Parameter(Unknown, Nameless, None, None, Some(five)))
  {
  }

  /**
   * As written, `L sep S` with a literal `L` and a struct type `S` takes the
   * struct branch, which keeps the literal as the parameter's name and stores no
   * default value.
   */
  lemma LiteralBeforeStruct(lit: Token, sep: Token, st: Token, ext: Externals)
    requires ext.isLiteralValue(lit) && sep.content == ":" && ext.isStruct(st)
    ensures ParseGroup([lit, sep, st], ext) == Success(Parameter(Object, lit, None, Some(st), None))
  {
  }

  /**
   * As written, `V R sep T` with a struct type `T` is not given the Object type:
   * the struct test looks at the separator, so the type comes from `token2var_t(T)`
   * and no struct name is kept.
   */
  lemma StructTypeAfterRulesetIsLost(v: Token, rs: Token, sep: Token, ty: Token, ext: Externals)
    requires ext.isValidName(v) && !ext.isLiteralValue(v) && ext.isRuleset(rs)
    requires sep.content == ":" && !ext.isStruct(sep) && ext.isStruct(ty)
    ensures ParseGroup([v, rs, sep, ty], ext) ==
      Success(Parameter(ext.tokenToVarType(ty), v, Some(rs), None, None))
  {
  }

  // ---------------------------------------------------------------------------
  // The whole list
  // ---------------------------------------------------------------------------

  /** Results gathered in order; the first failure is the outcome. */
  function Collect<T, E>(rs: seq<Result<T, E>>): Result<seq<T>, E>
  {
    if rs == [] then Success([])
    else
      match Collect(rs[..|rs| - 1])
      case Failure(e) => Failure(e)
      case Success(vs) =>
        match rs[|rs| - 1]
        case Failure(e) => Failure(e)
        case Success(v) => Success(vs + [v])
  }

  /** Collecting succeeds exactly when every result does, keeping every value in order. */
  lemma {:induction false} CollectSuccess<T, E>(rs: seq<Result<T, E>>)
    ensures Collect(rs).Success? <==> forall k :: 0 <= k < |rs| ==> rs[k].Success?
    ensures Collect(rs).Success? ==>
      |Collect(rs).value| == |rs| && forall k :: 0 <= k < |rs| ==> Collect(rs).value[k] == rs[k].value
  {
    if rs != [] {
      var init := rs[..|rs| - 1];
      CollectSuccess(init);
      assert forall k :: 0 <= k < |init| ==> init[k] == rs[k];
    }
  }

  /** A failed collection reports the error of the first failing result. */
  lemma {:induction false} CollectFailure<T, E>(rs: seq<Result<T, E>>)
    requires Collect(rs).Failure?
    ensures exists k :: 0 <= k < |rs| && rs[k] == Failure(Collect(rs).error) &&
                        forall j :: 0 <= j < k ==> rs[j].Success?
  {
    var init := rs[..|rs| - 1];
    assert forall k :: 0 <= k < |init| ==> init[k] == rs[k];
    if Collect(init).Success? {
      CollectSuccess(init);
      assert rs[|rs| - 1] == Failure(Collect(rs).error);
    } else {
      CollectFailure(init);
    }
  }

  /** Once a prefix fails, the whole collection fails the same way. */
  lemma {:induction false} CollectFailureStays<T, E>(rs: seq<Result<T, E>>, n: nat)
    requires n <= |rs| && Collect(rs[..n]).Failure?
    ensures Collect(rs) == Collect(rs[..n])
  {
    if n < |rs| {
      var init := rs[..|rs| - 1];
      assert init[..n] == rs[..n];
      CollectFailureStays(init, n);
    } else {
      assert rs[..n] == rs;
    }
  }

  /** Every group parsed on its own, formatting dropped. */
  function ParseEach(gs: seq<seq<Token>>, ext: Externals): seq<Result<Parameter, ParamError>>
  {
    seq(|gs|, k requires 0 <= k < |gs| => ParseGroup(Significant(gs[k]), ext))
  }

  /** The parameter list of the groups: parsed in order, the first failing group decides. */
  function ParseGroups(gs: seq<seq<Token>>, ext: Externals): Result<seq<Parameter>, ParamError>
  {
    Collect(ParseEach(gs, ext))
  }

  lemma ParseEachSucceeds(gs: seq<seq<Token>>, ext: Externals)
    requires forall k :: 0 <= k < |gs| ==> WellFormedGroup(Significant(gs[k]), ext)
    ensures forall k :: 0 <= k < |gs| ==> ParseEach(gs, ext)[k].Success?
  {
    forall k | 0 <= k < |gs|
      ensures ParseEach(gs, ext)[k].Success?
    {
      assert ParseEach(gs, ext)[k] == ParseGroup(Significant(gs[k]), ext);
    }
  }

  /** What `parse_function_params` yields for a flattened line. */
  function ParamsOf(line: seq<Token>, ext: Externals): Result<seq<Parameter>, ParamError>
  {
    if HasEmptySlot(line) then Failure(InvalidFormat) else ParseGroups(Groups(line), ext)
  }

  /** An empty line declares no parameters; a leading, doubled or trailing comma is an error. */
  lemma ParamsOfCommas(line: seq<Token>, ext: Externals)
    ensures line == [] ==> ParamsOf(line, ext) == Success([])
    ensures line != [] && IsComma(line[0]) ==> ParamsOf(line, ext) == Failure(InvalidFormat)
    ensures line != [] && IsComma(line[|line| - 1]) ==> ParamsOf(line, ext).Failure?
  {
    if line != [] && IsComma(line[|line| - 1]) && !HasEmptySlot(line) {
      var gs := Groups(line);
      assert Significant(gs[|gs| - 1]) == [];
      CollectSuccess(ParseEach(gs, ext));
      assert ParseEach(gs, ext)[|gs| - 1].Failure?;
    }
  }

  /**
   * Proper groups joined with commas give one parameter per group, in order,
   * when every group is well formed once its formatting tokens are dropped.
   */
  lemma ParamsOfJoined(gs: seq<seq<Token>>, ext: Externals)
    requires gs != [] && ProperGroups(gs)
    requires forall k :: 0 <= k < |gs| ==> WellFormedGroup(Significant(gs[k]), ext)
    ensures ParamsOf(Joined(gs), ext).Success?
    ensures |ParamsOf(Joined(gs), ext).value| == |gs|
    ensures forall k :: 0 <= k < |gs| ==>
      ParamsOf(Joined(gs), ext).value[k] == ParseGroup(Significant(gs[k]), ext).value
  {
    GroupsOfJoined(gs);
    var rs := ParseEach(gs, ext);
    assert |rs| == |gs|;
    assert forall k :: 0 <= k < |gs| ==> rs[k] == ParseGroup(Significant(gs[k]), ext);
    assert ParamsOf(Joined(gs), ext) == Collect(rs);
    ParseEachSucceeds(gs, ext);
    CollectSuccess(rs);
  }

  /** The token line the parser scans: parentheses stripped when `brace_check` accepts them. */
  function ParamLine(context: Token, ext: Externals): seq<Token>
    requires ext.braceCheck(context) ==> |context.content| >= 2
  {
    Flatten(ext.lex(if ext.braceCheck(context) then Inner(context.content) else context.content))
  }

  /** `parse_function_params`. */
  method ParseFunctionParams(context: Token, ext: Externals) returns (r: Result<seq<Parameter>, ParamError>)
    requires ext.braceCheck(context) ==> |context.content| >= 2
    ensures r == ParamsOf(ParamLine(context, ext), ext)
  {
    var content := context.content;
    if ext.braceCheck(context) {
      content := content[1..];
      content := content[..|content| - 1];
      assert content == Inner(context.content);
    }
    var lines := ext.lex(content);
    if lines == [] {
      return Success([]);
    }
    var line := FlattenLines(lines);
    var split := SplitGroups(line);
    if split.Failure? {
      return Failure(split.error);
    }
    r := ParseEachGroup(split.value, ext);
  }

  /** The second loop of `parse_function_params`: each group cleaned and parsed, stopping at the first error. */
  method ParseEachGroup(arguments: seq<seq<Token>>, ext: Externals) returns (r: Result<seq<Parameter>, ParamError>)
    ensures r == ParseGroups(arguments, ext)
  {
    ghost var rs := ParseEach(arguments, ext);
    var ret: seq<Parameter> := [];
    var k := 0;
    while k < |arguments|
      invariant 0 <= k <= |arguments|
      invariant Collect(rs[..k]) == Success(ret)
    {
      assert rs[..k + 1][..k] == rs[..k];
      var g := DropFormatting(arguments[k]);
      var p := ParseGroup(g, ext);
      assert p == rs[k];
      if p.Failure? {
        CollectFailureStays(rs, k + 1);
        return Failure(p.error);
      }
      ret := ret + [p.value];
      k := k + 1;
    }
    assert rs[..k] == rs;
    return Success(ret);
  }
}
