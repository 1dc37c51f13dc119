# MeowScript tools: a verified Dafny model

This project models the token-level support layer of the MeowScript interpreter
(`src/tools.cpp`). It covers:

- **`parse_argument_list`**: turns a call's parenthesised argument region into
  the ordered list of its values. A malformed region yields the empty list.
- **`parse_function_params`**: turns a declaration's parameter region into
  typed, constrained formal parameters. A malformed region raises one of three
  errors.
- **`Dictionary`**: the insertion-ordered association table behind struct and
  dictionary values. It holds two parallel sequences of classified tokens with
  `has`, `pairs` and the inserting subscript `operator[]`.
- **`remove_unneeded_chars`**: the whitespace trimmer.
- **`remove_uness_decs`**: the decimal canonicaliser.
- **`until_newline`**: rebuilds one logical source line from tokens.

Each loop of the C++ code is a Dafny `method` with a `while` loop. It is proved
against a specification function of its inputs, and the properties the code
promises are lemmas about those functions. The `Dictionary` is a class whose
methods update its `keys` and `values` fields. The parameter parser's
exceptions become a `Result` whose error side is `ParamError`.

These collaborators of the C++ code are fields of `Tokens.Externals`:

- `brace_check`
- `lex_text`
- `is_valid_name`, `is_literal_value`, `is_ruleset`, `is_struct` and `is_valid_var_t`
- `token2var_t`

The `is_newline` classifier is a `char -> bool` parameter of the normalisers.
The other functions the code calls, `make_variable`, `construct_ruleset` and
`global::get_line`, are not modelled; "## Left out" says what stands in for
them.

Files:

- `tokens.dfy`: tokens, classified tokens, the collaborators, line flattening.
- `argument_list.dfy`: `parse_argument_list`.
- `dictionary.dfy`: `Dictionary`.
- `normalize.dfy`: `remove_unneeded_chars`, `remove_uness_decs`, `until_newline`.
- `parameter_list.dfy`: `parse_function_params`.

Where the code as written differs from its documented intent, the model follows
the code:

- **Trailing comma in a call.** `a, b,` parses as the two arguments `a` and `b`,
  not as the empty list (`ArgumentList.ArgumentsOfSeparated`). The argument
  state machine only rejects a comma with no pending value.
- **Trailing blanks.** The trailing scan of `remove_unneeded_chars` starts at
  index `size()`, where it reads the string terminator. Unless `is_newline('\0')`
  holds, it stops there at once, so trailing blanks are kept
  (`Normalize.TrimOnlyStripsLeading`). When it does move, the erase starts at the
  last character that is not blank and removes that character too.
- **`until_newline`.** The separator space written before a newline is kept
  (`Normalize.FirstLineKeepsSeparator`); only the path with no newline drops the
  final space.
- **`remove_uness_decs` is not idempotent.**
  - `"1.0.0"` becomes `"1.0"`, then `"1"`.
  - With `to_int`, `"00.5"` becomes `"00"`, then `"0"`.

  Idempotence holds without `to_int` on text with at most one dot
  (`Normalize.CanonicalIdempotent`).
- **Struct type after a ruleset.** In the four-token production `V R sep T`, the
  struct test reads token 2, which is the separator. Unless `is_struct` accepts
  the separator itself, a struct type `T` therefore gives no Object parameter;
  its type comes from `token2var_t(T)`
  (`ParameterList.StructTypeAfterRulesetIsLost`).
- **Literal before a struct type.** In `L : S` with a literal `L` and a struct
  type `S`, the struct branch keeps the literal as the parameter's name and
  stores no default, so the parameter is not nameless
  (`ParameterList.LiteralBeforeStruct`). The four-token struct branch does the
  same.

## Model

| member | source | states |
|---|---|---|
| Tokens.FlattenLines | src/tools.cpp:23-27 | the copy loop produces every token of every lexed line, in order (`Flatten`) |
| ArgumentList.ValueSlots | src/tools.cpp:32-48 | the values a well-formed line yields are its even-position tokens, classified, one per value slot |
| ArgumentList.ArgumentsOf | src/tools.cpp:29-58 | never holds the null sentinel; a leading comma or two neighbouring commas or values give the empty list; an alternating line gives exactly its value tokens in order |
| ArgumentList.ScanArguments | src/tools.cpp:29-58 | the `last`/`found_sl` state machine computes `ArgumentsOf` of the flattened line, including every early `return argument_list()` |
| ArgumentList.ParseArgumentList | src/tools.cpp:12-59 | empty, quoted, non-parenthesised or `()` regions give no arguments; otherwise the arguments of the lexed inside; the null sentinel never appears |
| ArgumentList.AlternatingPrefix | src/tools.cpp:32-48 | prefixing a value and a comma keeps a line acceptable to the state machine |
| ArgumentList.SeparatedAlternates | src/tools.cpp:32-48 | `v1 , ... , vn` is accepted and its value slots are exactly `v1 .. vn` |
| ArgumentList.SeparatedOddLength | src/tools.cpp:49-56 | a non-empty separated line ends on a value, so the final `push_back(last)` runs |
| ArgumentList.TrailingCommaIgnored | src/tools.cpp:33-39 | a comma after the last value only flushes it: the result is unchanged |
| ArgumentList.ArgumentsOfSeparated | src/tools.cpp:12-59 | round trip: comma-free values written with commas, with or without a trailing comma, parse back to exactly those values |
| Table.Dictionary.Has | src/tools.cpp:89-96 | the scan returns true exactly when the key is present |
| Table.Dictionary.Pairs | src/tools.cpp:61-67 | one pair per key, the i-th pair being the i-th key with the i-th value |
| Table.Dictionary.Subscript | src/tools.cpp:98-108 | a present key yields its first slot and nothing changes; an absent key is appended with the null value at the end; both keep equal lengths and distinct keys |
| Normalize.StripLeading | src/tools.cpp:303-308 | removes a prefix made only of blanks and leaves a text that starts with a non-blank |
| Normalize.TrailingStop | src/tools.cpp:309-313 | the downward scan stops at the highest non-blank index at or below its start, or at -1 |
| Normalize.TrimmedContent | src/tools.cpp:298-316 | the trimmed text is never longer than the original |
| Normalize.TrailingStopInRange | src/tools.cpp:309-314 | when the terminator is not blank, or some character is not, the scan stops at a real index |
| Normalize.StripLeadingAt | src/tools.cpp:303-308 | the forward scan's stopping index is exactly where the leading strip cuts |
| Normalize.SkipBlanks | src/tools.cpp:303-308 | the forward loop stops at the first non-blank, and erasing before it gives `StripLeading` |
| Normalize.ScanBackFromEnd | src/tools.cpp:309-313 | the downward loop from `size()` stops at `TrailingStop` |
| Normalize.RemoveUnneededChars | src/tools.cpp:298-316 | quoted tokens are returned as they are; otherwise the result is `Trim` |
| Normalize.TrimOnlyStripsLeading | src/tools.cpp:309-314 | with a terminator that is not blank, trimming removes exactly the leading blanks |
| Normalize.TrimIdempotent | src/tools.cpp:298-316 | with a terminator that is not blank, trimming twice equals trimming once |
| Normalize.CutAtDot | src/tools.cpp:337-345 | the `to_int` cut is the prefix before the first dot, with no dot in it |
| Normalize.CutAtDotAt | src/tools.cpp:338-342 | the cut falls exactly at the first dot the scan meets |
| Normalize.DropTrailingZeros | src/tools.cpp:347-358 | removes only trailing zeros, and at most one dot; what remains ends in neither, unless a dot stopped the scan |
| Normalize.CanonicalDropsTrailingZeros | src/tools.cpp:347-358 | "2.500" becomes "2.5" |
| Normalize.CanonicalDropsDot | src/tools.cpp:347-358 | "3.00" becomes "3" |
| Normalize.CanonicalAllZeros | src/tools.cpp:325-332 | "0.000" and the empty text become "0" |
| Normalize.CanonicalToIntCuts | src/tools.cpp:337-342 | with `to_int`, "3.50" becomes "3" |
| Normalize.NotAllZeroPrefix | src/tools.cpp:347-358 | cutting zeros and dots off the end of a text that is not all zeros leaves one that is not all zeros |
| Normalize.CanonicalIdempotent | src/tools.cpp:319-361 | without `to_int`, on text with at most one dot, canonicalising twice equals once |
| Normalize.CanonicalTwoDots | src/tools.cpp:347-358 | "1.0.0" becomes "1.0", which becomes "1": not idempotent |
| Normalize.CanonicalToIntLeadingZeros | src/tools.cpp:325-342 | with `to_int`, "00.5" becomes "00", which becomes "0": not idempotent |
| Normalize.RemoveUnessDecs | src/tools.cpp:319-361 | the flag loop, the `to_int` cut and the backward erase loop compute `Canonical` |
| Normalize.Spaced | src/tools.cpp:365-371 | what the loop appends for whole tokens ends in a space |
| Normalize.FirstNewline | src/tools.cpp:367-369 | finds the first newline, exactly when there is one |
| Normalize.FirstLine | src/tools.cpp:363-376 | the line holds no newline and is a proper prefix of the spaced text |
| Normalize.SpacedPrefix | src/tools.cpp:365-372 | what is built after n tokens is a prefix of the full spaced text |
| Normalize.SpacedJoin | src/tools.cpp:365-374 | the spaced text is the single-space join plus one final space |
| Normalize.JoinWithSpacesSnoc | src/tools.cpp:365-372 | joining n tokens extends joining the first n-1 by a space and the last content |
| Normalize.SpacedNoNewline | src/tools.cpp:366-370 | tokens without newlines give a spaced text without newlines |
| Normalize.FirstLineWithoutNewlines | src/tools.cpp:363-376 | with no newline anywhere, the result is the contents joined by single spaces |
| Normalize.FirstLineKeepsSeparator | src/tools.cpp:367-368 | a newline at the start of the second token returns the first content followed by its space |
| Normalize.NewlineInSpaced | src/tools.cpp:366-371 | a character of token a sits in the spaced text right after everything written before it |
| Normalize.NewlineEndsLine | src/tools.cpp:367-369 | the first newline ends the line exactly where it occurs |
| Normalize.FirstNewlineAt | src/tools.cpp:367-369 | a newline with none before it is the first one |
| Normalize.UntilNewline | src/tools.cpp:363-376 | the nested loops with the early return and `pop_back` compute `FirstLine` |
| ParameterList.SplitOn | src/tools.cpp:127-140 | one group more than there are commas; the open group is empty exactly after a comma or at the start |
| ParameterList.SplitOnCommaFree | src/tools.cpp:130-138 | no group holds a comma |
| ParameterList.SplitOnSnoc | src/tools.cpp:137-139 | a token that is not a comma joins the open group |
| ParameterList.SplitGroups | src/tools.cpp:127-140 | fails with the format error exactly when some comma has no token before it since the start or the previous comma; otherwise the groups |
| ParameterList.NoEmptySlotExtends | src/tools.cpp:130-136 | a token accepted by the loop keeps the processed prefix free of empty slots |
| ParameterList.SplitOnAppend | src/tools.cpp:137-139 | comma-free tokens extend the open group |
| ParameterList.SingleGroup | src/tools.cpp:127-140 | a comma-free line is one group |
| ParameterList.SplitAfterComma | src/tools.cpp:130-139 | a comma and a comma-free group add exactly that group |
| ParameterList.NoEmptySlotJoin | src/tools.cpp:130-136 | joining with a single comma creates no empty slot |
| ParameterList.GroupsOfJoined | src/tools.cpp:127-140 | round trip: non-empty comma-free groups joined by commas split back into the same groups, with no error |
| ParameterList.Significant | src/tools.cpp:143-148 | keeps exactly the tokens that are not unquoted empty ones, and is never longer |
| ParameterList.SignificantStep | src/tools.cpp:143-148 | one more token adds itself when significant, nothing otherwise |
| ParameterList.EraseStep | src/tools.cpp:144-146 | erasing a formatting token and stepping back keeps the processed part equal to the significant prefix |
| ParameterList.KeepStep | src/tools.cpp:143-144 | moving past a significant token keeps the processed part equal to the significant prefix |
| ParameterList.DropFormatting | src/tools.cpp:143-148 | the erase loop leaves exactly `Significant` of the group |
| ParameterList.ParseGroup | src/tools.cpp:150-236 | a group parses exactly when it is well formed: 1 to 4 tokens, a name or literal first, a ruleset second in the even sizes, and a `:`/`::` separator and known type last in the typed sizes |
| ParameterList.ParseGroupErrors | src/tools.cpp:150-236 | which error each malformation raises: the format error for a bad size or separator, an unexpected token for a bad first or ruleset token, an unknown type for a bad type token |
| ParameterList.ParseGroupFields | src/tools.cpp:150-232 | the parameter's ruleset, type, struct name and literal default; outside the struct branches a literal first token gives an empty name and is kept as the default, inside them it stays the name |
| ParameterList.ParseGroupExamples | src/tools.cpp:150-200 | `(x)`, `(x:T)` and `(5)` give the untyped `x`, `x` of type `T`, and a nameless parameter with default 5 |
| ParameterList.LiteralBeforeStruct | src/tools.cpp:179-191 | in `L : S` with a literal `L` and a struct `S`, the parameter is an Object named `L` with struct name `S` and no default |
| ParameterList.StructTypeAfterRulesetIsLost | src/tools.cpp:218-231 | in `V R : T` with a struct `T`, the struct test on the separator fails, so the parameter gets `token2var_t(T)` and no struct name |
| ParameterList.CollectSuccess | src/tools.cpp:142-238 | the list succeeds exactly when every group does, with one parameter per group in order |
| ParameterList.CollectFailure | src/tools.cpp:142-238 | a failed list reports the error of its first failing group |
| ParameterList.CollectFailureStays | src/tools.cpp:142-238 | once a group fails, later groups cannot change the outcome |
| ParameterList.ParseEachSucceeds | src/tools.cpp:142-238 | well-formed groups all parse |
| ParameterList.ParamsOfCommas | src/tools.cpp:116-136 | an empty line gives no parameters; a leading comma is the format error; a trailing comma is an error |
| ParameterList.ParamsOfJoined | src/tools.cpp:110-239 | well-formed comma-joined groups give one parameter per group, in order |
| ParameterList.ParseEachGroup | src/tools.cpp:142-238 | the second loop computes the parameter list of the groups, stopping at the first error |
| ParameterList.ParseFunctionParams | src/tools.cpp:110-239 | strips parentheses when `brace_check` accepts, returns no parameters for no lines, and otherwise gives `ParamsOf` of the flattened line |

## Left out

- The helpers called by the core are parameters, not modelled:
  - `brace_check`, `lex_text`, `is_valid_name`, `is_literal_value`, `is_ruleset`, `is_struct`, `is_valid_var_t` and `token2var_t` are fields of `Tokens.Externals`.
  - `is_newline` is a parameter of the normalisers.
- `make_variable` and `construct_ruleset` are not modelled. A parameter keeps the token its literal default or ruleset was built from.
- `lex_text` has a `Token` overload, used by `parse_argument_list`, and a `std::string` overload, used by `parse_function_params`. Both are the one `lex` field of `Tokens.Externals`; the `Token` overload is taken to lex the token's content.
- Scalar variable types are abstract (`Scalar(kind)`): the mapping from type names belongs to `token2var_t`.
- Exception messages and the line number from `global::get_line()` are dropped. Only the kind of error is kept.
- The `GeneralTypeToken` overload of `parse_argument_list` (lines 8-10) only forwards its source token, so it is not modelled.
- `check4var`, `check4compound`, `check4expression`, `check4placeholder` and `check4replace` (lines 241-296) are not part of this model.
- `GeneralTypeToken` is reduced to the null sentinel or its source token. Its comparison operator is not part of this model, so equality is structural.
- The `keys()` and `values()` accessors and the duplicate non-const `pairs()` are the fields themselves. Writes made by outside code through the mutable references they return are not modelled, so the table invariant of distinct keys and equal lengths is assumed to hold, not checked.
- Table.Dictionary.Subscript: returns the index of the value's slot rather than a reference into `values`.
- Normalize.RemoveUnneededChars: requires that the trailing scan stops at a real index (`TrimDefined`). When every character and the terminator are blank, the C++ index wraps around and the erase is undefined.
- Normalize.UntilNewline: requires a non-empty token list. With no tokens, the final `pop_back` on an empty string is undefined.
- Normalize.CanonicalIdempotent: holds only without `to_int` and on text with at most one dot, because the code as written is not idempotent otherwise (see `CanonicalTwoDots` and `CanonicalToIntLeadingZeros`).
- ArgumentList.ParseArgumentList: requires that a region `brace_check` accepts has at least two characters. Erasing both ends of a shorter one is undefined.
- ParameterList.ParseFunctionParams: requires that a region `brace_check` accepts has at least two characters. Erasing both ends of a shorter one is undefined.
- Integer widths are not modelled. Lengths and indices are unbounded, apart from the explicit -1 sentinel of the two downward scans.
