# L Lang parser core, modelled in Dafny

L Lang is a toy programming language whose programs are LEGO CAD files
(LDraw `.ldr` files). Each brick placed in the model is a "character" of
the program. `0 STEP` lines end statements. The interpreter prints its
results as a new LDraw model: one brick per printed character, on a fixed
grid.

This project models the core of `src/l_lang/parser.py`:

- **Token definitions** (`tokens.dfy`): the `Token` class and its
  `.dat` normalisation, plus `regex_list` and `__str__`. It also models
  the `load_tokens` loop, which fills the three token families
  (`literals`, `variables`, `tokens`) from an already-parsed configuration
  value.
- **Lexer values** (`lexer.dfy`): the `Tok` kinds, `remove_quotes`, and
  the `int(...)` conversion of NUMBER. It also covers the four patterns
  the lexer takes from the token registry.
- **Pre-parsing** (`preparse.dfy`, `rewrite.dfy`): `_pre_parse_lines`.
  - Lines are stripped and classified. Part identifiers are collected
    into statements, and a `0 STEP` line closes each statement.
  - Literal part identifiers are replaced by their names.
  - Separated letters (`'a' 'b'`) and separated numbers (` 1 2 `) are
    coalesced, each by a regular-expression substitution repeated until
    the length stops changing. Both substitutions are written out as
    scanners with the same left-to-right, non-overlapping, greedy
    behaviour as `re.sub`.
- **The interpreter** (`interp.dfy`): `LDRParser`.
  - The actions are: statement `ID ASSIGN expr`, `expr`, `PRINT
    statement`; expr `NUMBER`, `STRING`, `ID`; plus `error`, `lprint`,
    `lprint_pos`, `print_header` and `wrapup`.
  - Each action has a pure specification over a `State` value. The class
    `Interpreter` holds the same state in fields, and each of its methods
    is proved to follow its specification.
- **The session** (`session.dfy`): the statement loop of `LDRFile.parse`.
  - The lexer is built from the token registry after pre-parsing.
  - The lower-cased command-line arguments are bound to `3626ap01.dat`.
  - Each pre-parsed statement is parsed in turn, and `wrapup` runs at the
    end.
  - `parse` is wrapped by a decorator that swallows every exception, so
    an exception ends the session. Output already printed stays; no
    `0 STEP` line follows.
- **Support modules**: `seqs.dfy` (split and join), `strings.dfy`
  (`strip`, `lower`, `replace`, string order and sorting,
  `list.remove`), `numbers.dfy` (decimal text of integers) and
  `wrappers.dfy` (`Option`).

Standard output is modelled as the sequence of printed lines. An
exception that escapes is modelled as `None` (pre-parsing) or as an
outcome flagged `crashed` (parsing). Reading files, the lexer's matching
and YAML parsing are parameters:

- the file arrives as its list of lines;
- each statement's tokens come from a function `lex`, given the lexer's
  patterns, which the model builds from the token registry;
- the configuration arrives as a value.

Decisions where the code and its description differ, or where the code
is subtle, follow the code:

- **A blank line disables the whole program.** Indexing its first
  character raises, and the decorator on `_pre_parse_lines` turns that
  into `None`. `parse` then fails on `len(None)` before anything is
  printed.
- **An empty program is one statement.** Splitting `""` at newlines gives
  `[""]`, so the parser receives one empty statement and reports a
  syntax error.
- **Consecutive `0 STEP` lines give an empty statement** between them.
- **A token registry the lexer cannot use also disables the program.**
  This happens when one of `print`, `print_position`, `assignment` and
  `ids` is missing, or has no values. Building the lexer then raises
  after pre-parsing and before any statement runs, so nothing is printed,
  not even `0 STEP`.
- **`PRINT` of a non-string raises.** It enumerates an `int` or `None`.
  Nested `PRINT`s pass `None` outward, so `PRINT PRINT "x"` prints `x`
  and then raises.
- **Actions run before a trailing token is reported.** sly runs the
  actions of a complete statement before it looks at a following token.
  So `"a" "b"` evaluates `"a"` and then reports `"b"` as an error.
- **Digit merging consumes the trailing space.** The numeral pattern
  ` (\d+) (\d+) ` eats the space after the second number, so in three
  separated numbers only the first two merge: ` 1 2 3` becomes `'12'3`.

## Model

| member | source | states |
|---|---|---|
| Tokens.Normalise | src/l_lang/parser.py:32-43 | the stored value always contains ".dat"; it is the input unchanged exactly when the input already contained ".dat", and otherwise the input with ".dat" appended |
| Tokens.NormaliseIdempotent | src/l_lang/parser.py:36-38 | normalising a stored value again changes nothing |
| Tokens.Token.constructor | src/l_lang/parser.py:28-30 | a new token has the given name and no values |
| Tokens.Token.Append | src/l_lang/parser.py:32-43 | a list is appended element by element and a scalar as one element, each normalised, in order, after the earlier values; every stored value keeps containing ".dat" |
| Tokens.Token.Remove | src/l_lang/parser.py:45-46 | the first occurrence of the value is removed and nothing else; the list shrinks by one exactly when the value was present; a missing value leaves the list unchanged and is reported |
| Tokens.Token.Sort | src/l_lang/parser.py:48-49 | the values end up in ascending string order and are a permutation of the old values |
| Tokens.Token.RegexList | src/l_lang/parser.py:54-55 | the pattern is the alternation of the stored values, in stored order; what that alternation holds is stated by Tokens.AlternationSplit and Tokens.AlternationEmpty |
| Tokens.AlternationSplit | src/l_lang/parser.py:54-55 | the pattern is parenthesised, and when no value holds "\|" the alternatives between the parentheses are exactly the values |
| Tokens.AlternationEmpty | src/l_lang/parser.py:54-55 | the pattern of normalised values is the empty group "()" exactly when there are no values |
| Tokens.Token.ToString | src/l_lang/parser.py:51-52 | the text starts with the token name followed by ": " |
| Tokens.ToStringPieces | src/l_lang/parser.py:51-52 | after the name and ": ", the text lists the values: splitting it at commas gives back each value, each after the first preceded by the separator's space |
| Tokens.JoinCommaSpace | src/l_lang/parser.py:52 | joining with ", " equals joining with "," after prefixing a space to every value but the first |
| Tokens.FindSome | src/l_lang/parser.py:108 | looking a token up in a family succeeds exactly when some entry has that name, and gives the values of the first such entry |
| Tokens.Put | src/l_lang/parser.py:68 | after the dictionary assignment the name maps to the new token; every other name maps to what it did before; the family grows only for a new name, and earlier keys keep their order |
| Tokens.LoadList | src/l_lang/parser.py:62-65 | the loop over a list family stores, in order, one token per element, holding that element normalised |
| Tokens.LoadMap | src/l_lang/parser.py:62-67 | the loop over a mapping family stores, in order, one token per key, holding that key's value(s) normalised |
| Tokens.LoadTokens | src/l_lang/parser.py:58-71 | the loop over the three families equals the load function: it returns the registry, and whether it ran to completion or stopped at a missing or non-iterable family |
| Tokens.LoadCompletes | src/l_lang/parser.py:60-62 | the load runs to completion exactly when the configuration has all three families and each is a list, a mapping or the empty string (any other scalar raises when iterated or indexed) |
| Tokens.LoadNormalised | src/l_lang/parser.py:58-71 | whatever the configuration, every value in the loaded registry contains ".dat" |
| Tokens.FillListFind | src/l_lang/parser.py:62-68 | after a list family is loaded, each element names a token holding only that element normalised; other names keep their earlier tokens |
| Tokens.FillMapOther | src/l_lang/parser.py:62-68 | loading a mapping family does not change a name that is not among its keys |
| Tokens.FillMapFind | src/l_lang/parser.py:62-68 | after a mapping family with distinct keys is loaded, each key names a token holding its value(s) normalised, in order |
| Tokens.LoadedEntries | src/l_lang/parser.py:58-71 | after a completed load, every family is present and holds, for each configured name, exactly the normalised values the configuration gives it |
| Tokens.DefinesNormalised | src/l_lang/parser.py:32-43 | every value the configuration defines for a token is normalised |
| Tokens.LoadFromMissing | src/l_lang/parser.py:60-62 | a family missing from the configuration is never filled, whether or not the load completes |
| Tokens.LoadedFind | src/l_lang/parser.py:58-71 | after a completed load, looking up a token the configuration defines gives that token's normalised values |
| Lexer.RemoveQuotes | src/l_lang/parser.py:124-125 | the text is unchanged exactly when it does not start with a quote; otherwise its first and last characters are removed, or it becomes empty when it is a lone quote |
| Lexer.RemoveQuotesQuoted | src/l_lang/parser.py:96-99 | the value of a STRING token is its text without the surrounding quotes |
| Lexer.NumberValue | src/l_lang/parser.py:91-94 | the value of a NUMBER token written without leading zeros has that text as its decimal form |
| Lexer.NumberValueLeadingZero | src/l_lang/parser.py:91-94 | a leading zero does not change a NUMBER's value, as int("007") == 7 |
| Lexer.NumberValueOfText | src/l_lang/parser.py:91-94 | the decimal text of a natural number lexes back to that number |
| Lexer.PatternOf | src/l_lang/parser.py:108 | a token's pattern is found exactly when the family and the token exist, and it is the alternation of the token's values; which patterns a loaded registry gives is stated by Lexer.LexerPatternsLoaded, Lexer.LexerPatternsMissing and Lexer.LexerPatternsWithoutTokens |
| Lexer.LexerPatternsLoaded | src/l_lang/parser.py:103-122 | after a completed load that defines print, print_position, assignment and ids, the lexer is built exactly when each of the four has a value, and its four patterns are then the alternations of their normalised values |
| Lexer.LexerPatternsMissing | src/l_lang/parser.py:108 | without a loaded "print" token, building the lexer fails |
| Lexer.LexerPatternsWithoutTokens | src/l_lang/parser.py:58-71 | tokens loaded from a configuration without the `tokens` family cannot build the lexer |
| Numbers.NatToString | src/l_lang/parser.py:156 | the decimal text of a number is a non-empty digit string without leading zeros |
| Numbers.IntToString | src/l_lang/parser.py:156 | the text of an integer in a placement line is non-empty and holds no space |
| Numbers.ParseNatToString | src/l_lang/parser.py:93 | reading back the decimal text of a natural number gives the number |
| Numbers.ParseIntToString | src/l_lang/parser.py:156 | the text of any integer is a sign and digits, and reading it back gives the integer |
| Numbers.ParseNatLeadingZero | src/l_lang/parser.py:93 | a zero in front of a digit string does not change its value |
| Numbers.NatToStringParse | src/l_lang/parser.py:93 | a digit string without leading zeros is the decimal text of its value |
| Strings.StripStart | src/l_lang/parser.py:244 | the result is a suffix of the line, everything removed is whitespace, and it does not start with whitespace |
| Strings.StripEnd | src/l_lang/parser.py:244 | the result is a prefix of the line, everything removed is whitespace, and it does not end with whitespace |
| Strings.StripNoNewline | src/l_lang/parser.py:244 | a line whose only newline is its last character strips to text without a newline |
| Strings.Lower | src/l_lang/parser.py:200 | lower-casing keeps the length and maps each character to its lower-case form |
| Strings.LowerIdempotent | src/l_lang/parser.py:200 | lower-cased arguments hold no capital letter, and lowering them again changes nothing |
| Strings.ReplaceAbsent | src/l_lang/parser.py:269 | replacing a pattern that does not occur leaves the text unchanged |
| Strings.ReplaceKeepsOut | src/l_lang/parser.py:269 | replacing never introduces a character that is in neither the text nor the replacement |
| Strings.ReplaceLines | src/l_lang/parser.py:269 | with a pattern without newlines, replacing in two joined lines is replacing in each line |
| Strings.SortStrings | src/l_lang/parser.py:49 | the result is sorted and is a permutation of the input |
| Strings.StrLeTotal | src/l_lang/parser.py:49 | any two strings are comparable in Python's string order |
| Strings.StrLeAntisymmetric | src/l_lang/parser.py:49 | two strings that are each less than or equal to the other are equal |
| Strings.RemoveFirst | src/l_lang/parser.py:46 | without the value the list is unchanged; otherwise exactly the first occurrence is removed |
| Seqs.SplitLength | src/l_lang/parser.py:283 | splitting at a separator gives one more piece than there are separators |
| Seqs.SplitPieces | src/l_lang/parser.py:283 | no piece of a split contains the separator |
| Seqs.JoinSplit | src/l_lang/parser.py:264 | joining the pieces of a split with the separator gives back the text |
| Seqs.SplitJoin | src/l_lang/parser.py:264 | splitting the join of separator-free pieces gives back the pieces |
| Seqs.SplitHead | src/l_lang/parser.py:257 | the first piece of a split is the text up to the first separator, and the other pieces are those of the text after it |
| Seqs.SplitSecond | src/l_lang/parser.py:267 | with a separator present, the second piece is the text after the first separator up to the next one or the end |
| Seqs.SplitConcat | src/l_lang/parser.py:283 | splitting two parts joined by a separator splits each part |
| Seqs.SplitDoubleSep | src/l_lang/parser.py:283 | two adjacent separators leave an empty piece between them |
| Rewrite.Run | src/l_lang/parser.py:275 | a greedy character-class run ends at the end of the text or at a character outside the class |
| Rewrite.RunInClass | src/l_lang/parser.py:275 | every character of a greedy run is in the class |
| Rewrite.MatchAt | src/l_lang/parser.py:275 | a match is non-empty and fits in the text, and its replacement is shorter than the match by the length of the middle text |
| Rewrite.MatchLayout | src/l_lang/parser.py:275 | a match is laid out as the pattern says: a quote, the whole non-empty run of the class there, the middle text, a second non-empty run and the closing quote, which ends the match |
| Rewrite.GroupsLayout | src/l_lang/parser.py:275 | after a non-empty first group, a match needs the middle text, a non-empty second run and the closing quote |
| Rewrite.RunGroup | src/l_lang/parser.py:275 | a non-empty run is a group of the class |
| Rewrite.GroupsLaidOut | src/l_lang/parser.py:275 | once the first run is taken, a match found by the rest of the pattern has the full layout: the middle text, a second non-empty run and the closing quote that ends the match |
| Rewrite.GroupsFound | src/l_lang/parser.py:275 | after a first group, the middle text, a whole second run and a quote are found as the rest of the match |
| Rewrite.SubShrinks | src/l_lang/parser.py:273-275 | a substitution with no match leaves the text unchanged; one with a match shortens it by at least the middle's length |
| Rewrite.RewriteToFixpoint | src/l_lang/parser.py:272-275 | the loop that repeats the substitution until the length stops changing computes the fixed point |
| Rewrite.FixFixed | src/l_lang/parser.py:272-275 | at the fixed point the pattern no longer matches, and one more substitution changes nothing |
| Rewrite.FixStep | src/l_lang/parser.py:273-275 | the fixed point of a text is the text itself when the substitution keeps its length, and otherwise the fixed point of the substituted text |
| Rewrite.SubLines | src/l_lang/parser.py:275 | both substitutions act on each line independently: substituting in two joined lines is substituting in each line |
| Rewrite.FixLines | src/l_lang/parser.py:272-281 | repeating a substitution to its fixed point acts on each line independently |
| Rewrite.SubNoNewline | src/l_lang/parser.py:275 | a substitution never introduces a newline |
| Rewrite.FixNoNewline | src/l_lang/parser.py:272-281 | the coalescing loops never introduce a newline |
| Rewrite.RulesLineLocal | src/l_lang/parser.py:275-281 | neither the letter pattern nor the digit pattern can match across a newline |
| Rewrite.MatchStopped | src/l_lang/parser.py:275 | a match depends only on the text up to the first character that stops it |
| Rewrite.SubPrefix | src/l_lang/parser.py:275 | text before the first quote character passes through the substitution unchanged |
| Rewrite.SubFree | src/l_lang/parser.py:275-281 | text without the pattern's quote character is unchanged by the substitution and its fixed point |
| Rewrite.MatchLaidOut | src/l_lang/parser.py:275 | a quote, a run, the middle, a run and a quote match as that pair of groups |
| Rewrite.MatchPair | src/l_lang/parser.py:275 | two quoted groups separated by the middle text match at the first quote |
| Rewrite.SubPair | src/l_lang/parser.py:275 | two quoted groups separated by the middle text are replaced by one quoted group holding both, and the scan carries on after them |
| Rewrite.PairUp | src/l_lang/parser.py:275 | one substitution pass merges neighbouring words in pairs: it halves the count, rounding up, and keeps the letters in order |
| Rewrite.QuotedLength | src/l_lang/parser.py:271-275 | the length of separated quoted words is fixed by their count and their letters |
| Rewrite.SubQuoted | src/l_lang/parser.py:275 | one substitution over a row of separated quoted words merges them pairwise, left to right |
| Rewrite.FixQuoted | src/l_lang/parser.py:271-275 | a row of separated quoted letters and words becomes one quoted word holding all the letters in order; the text around it is unchanged |
| Rewrite.FixNumeralPair | src/l_lang/parser.py:277-281 | two separated numbers become one quoted number holding both digit strings, and the space after them is consumed |
| Rewrite.DigitsThreeNumbers | src/l_lang/parser.py:277-281 | in three separated numbers only the first two merge: " 1 2 3" becomes "'12'3" |
| PreParse.Classify | src/l_lang/parser.py:244-257 | a line is a statement end exactly when it strips to "0 STEP", and blank exactly when it strips to nothing; a part line starts with "1", and its last space-separated field holds no space |
| PreParse.ScanLine | src/l_lang/parser.py:243-259 | one line of the loop: "0 STEP" closes the current statement and starts an empty one; a part line adds a space and its last field; any other line changes nothing |
| PreParse.ScanStep | src/l_lang/parser.py:246-259 | a statement end closes the current statement, and any other line extends it by its part, if it has one |
| PreParse.CollectStatements | src/l_lang/parser.py:241-262 | the loop gives the statements closed by "0 STEP" lines, plus the trailing statement when it is non-empty; a blank line gives None |
| PreParse.StatementCount | src/l_lang/parser.py:246-262 | there is one statement per "0 STEP" line, plus one when the text after the last one is non-empty |
| PreParse.ConsecutiveSteps | src/l_lang/parser.py:246-252 | two consecutive "0 STEP" lines give an empty statement between them |
| PreParse.ClosedAt | src/l_lang/parser.py:246-252 | each statement before the last "0 STEP" is the text of the parts between two statement ends |
| PreParse.BlankLine | src/l_lang/parser.py:244-253 | a line is classified blank exactly when it strips to nothing |
| PreParse.PreParseNone | src/l_lang/parser.py:240-253 | pre-parsing fails exactly when some line strips to nothing |
| PreParse.Rep | src/l_lang/parser.py:266-267 | a literal name without "_" is replaced by itself in quotes; the replacement uses only the name's characters and quotes |
| PreParse.RepField | src/l_lang/parser.py:267 | a literal name with "_" is replaced by its second "_"-separated field: the text after the first "_" up to the next one or the end |
| PreParse.ReplaceBlocks | src/l_lang/parser.py:268-269 | the loop replaces each of a literal's identifiers in turn |
| PreParse.ReplaceLiterals | src/l_lang/parser.py:265-269 | the loop applies every literal of the family, in order, to the text |
| PreParse.ApplyLiteralsStep | src/l_lang/parser.py:265-269 | applying literals is applying the first literal's replacements and then the rest |
| PreParse.StatementsOneLine | src/l_lang/parser.py:257-259 | when the input lines carry no inner newline, no statement holds a newline |
| PreParse.ApplyLiteralsLines | src/l_lang/parser.py:265-269 | with identifiers and names without newlines, literal replacement acts on each line independently and adds no newline |
| PreParse.CoalesceLines | src/l_lang/parser.py:271-281 | letter and digit coalescing act on each line independently and add no newline |
| PreParse.PipelineCons | src/l_lang/parser.py:265-281 | the whole substitution pipeline acts on the first line independently of the rest |
| PreParse.JoinPipeline | src/l_lang/parser.py:264-281 | running the pipeline on the newline-joined statements is running it on each statement and joining the results |
| PreParse.PreParseLines | src/l_lang/parser.py:240-283 | the method computes the pre-parse specification: None for a blank line; otherwise the statements, joined, with literals replaced, coalesced, and split at newlines |
| PreParse.PreParseByStatement | src/l_lang/parser.py:240-283 | with single-line inputs and literals, pre-parsing gives exactly one output per statement (one empty output when there is none), each the statement transformed on its own |
| PreParse.EmptyProgram | src/l_lang/parser.py:261-283 | a program with no statement pre-parses to one empty statement |
| Interp.Interpreter.constructor | src/l_lang/parser.py:131-135 | a new parser has no names, no errors, line 0, no header printed and no output |
| Interp.Interpreter.PrintHeader | src/l_lang/parser.py:137-144 | the header is printed and the flag set when it was not yet printed; otherwise nothing changes |
| Interp.Interpreter.Wrapup | src/l_lang/parser.py:146-147 | "0 STEP" is printed and nothing else changes |
| Interp.Interpreter.LPrintPos | src/l_lang/parser.py:154-156 | the header is printed if needed, then one placement line with the given colour, position and part |
| Interp.Interpreter.PlaceChars | src/l_lang/parser.py:150-151 | the loop places one character brick per character of the message, on the current print line |
| Interp.Interpreter.LPrint | src/l_lang/parser.py:149-152 | printing a message places its characters and then advances the print line by one |
| Interp.Interpreter.Error | src/l_lang/parser.py:191-192 | the offending token (None at end of input) is appended to the error list and nothing else changes |
| Interp.Interpreter.Expr | src/l_lang/parser.py:169-184 | an expression evaluates as its specification says |
| Interp.Interpreter.Prints | src/l_lang/parser.py:186-189 | the nested PRINT actions have the effect their specification gives, and report whether one raised |
| Interp.Interpreter.Finish | src/l_lang/parser.py:191-192 | a token after a complete statement is reported as a syntax error, unless the statement raised |
| Interp.Interpreter.Parse | src/l_lang/parser.py:159-192 | parsing one statement changes the parser's state and reports an exception exactly as the statement semantics say |
| Interp.PlaceLineFields | src/l_lang/parser.py:156 | a placement line has 15 space-separated fields: type 1, colour, x y z, the identity matrix and the part |
| Interp.PlaceLineIsPlacement | src/l_lang/parser.py:156 | every line lprint_pos prints is a placement line |
| Interp.PrintChars | src/l_lang/parser.py:150-151 | placing characters changes only the output and the header flag |
| Interp.PrintCharsNext | src/l_lang/parser.py:150-151 | character n of the message is placed at x = 10 + 40n, y = 0, z = 10 - 40 times the line, in colour 15, as the character's part |
| Interp.PrintCharsLayout | src/l_lang/parser.py:149-156 | placing the first n characters appends the header, if needed and n > 0, and then one placement per character |
| Interp.PrintLayout | src/l_lang/parser.py:149-156 | lprint appends the header (once, before the first placement), then one placement per character, in order; it advances the line by one and leaves names and errors unchanged |
| Interp.ConsecutivePrints | src/l_lang/parser.py:149-152 | two prints go on consecutive lines, and the second adds only its own placements |
| Interp.HeaderCount | src/l_lang/parser.py:140-143 | the header holds the title line once and no placement line |
| Interp.FreshHeaderInv | src/l_lang/parser.py:131-135 | a new parser meets the header invariant: title printed once exactly when the flag is set, and before every placement |
| Interp.PlaceHeaderInv | src/l_lang/parser.py:154-156 | a placement keeps the header invariant |
| Interp.PrintHeaderInv | src/l_lang/parser.py:149-152 | lprint keeps the header invariant |
| Interp.PrintCharsHeaderInv | src/l_lang/parser.py:150-151 | placing any number of characters keeps the header invariant |
| Interp.WrapupHeaderInv | src/l_lang/parser.py:146-147 | wrapup keeps the header invariant and the flag |
| Interp.Eval | src/l_lang/parser.py:169-184 | a literal evaluates to itself without effect; a bound name to its value without effect; an unbound name to 0, appending ('undefined', name) to the errors |
| Interp.LeadingPrints | src/l_lang/parser.py:186-189 | counts the PRINT tokens at the head of a statement, up to the first other token |
| Interp.PrintsCases | src/l_lang/parser.py:186-189 | with p nested PRINTs, the innermost prints a string value and the outer ones raise on None; a non-string value raises at once; with none, nothing happens |
| Interp.AssignLiteral | src/l_lang/parser.py:159-162 | assigning a literal binds the name to it, replacing any earlier binding, and changes nothing else |
| Interp.AssignName | src/l_lang/parser.py:159-162 | assigning a name copies its value; assigning an unbound name binds 0 and records the undefined name |
| Interp.LookupName | src/l_lang/parser.py:177-184 | a bare name statement changes nothing when the name is bound, and records it as undefined otherwise |
| Interp.PrintExpr | src/l_lang/parser.py:186-189 | PRINT of an expression prints a string value, and raises on a number |
| Interp.PrintPrint | src/l_lang/parser.py:186-189 | PRINT PRINT of a string prints it once and then raises |
| Interp.PrintAssign | src/l_lang/parser.py:159-162 | PRINT of an assignment performs the assignment and then raises |
| Interp.EmptyStatement | src/l_lang/parser.py:191-192 | an empty statement records a syntax error at end of input and changes nothing else |
| Interp.PrintsGrow | src/l_lang/parser.py:186-189 | nested PRINTs keep names and errors, only extend the output, and advance the print line by at most one |
| Interp.ParseCases | src/l_lang/parser.py:159-192 | a statement either is a syntax error with no effect but the error, or evaluates one expression and then runs its PRINTs and reports any trailing token |
| Interp.ParseErrors | src/l_lang/parser.py:183-192 | a statement only appends to the error list, at most two entries |
| Interp.ParseOutput | src/l_lang/parser.py:149-156 | a statement only extends the output, advances the print line by at most one, and never clears the header flag |
| Interp.NamesNeedAssign | src/l_lang/parser.py:159-162 | a statement without an assignment token leaves the symbol table unchanged |
| Interp.CrashNeedsPrint | src/l_lang/parser.py:149-152 | only a statement starting with PRINT can raise |
| Interp.ParseHeaderInv | src/l_lang/parser.py:137-156 | every statement keeps the header invariant |
| Interp.PrintsHeaderInv | src/l_lang/parser.py:186-189 | nested PRINTs keep the header invariant |
| Interp.PlacementsNoStep | src/l_lang/parser.py:147-156 | no placement line is the "0 STEP" line |
| Interp.PrintNoStep | src/l_lang/parser.py:149-152 | lprint never prints "0 STEP" |
| Interp.PrintsNoStep | src/l_lang/parser.py:186-189 | nested PRINTs never print "0 STEP" |
| Interp.ParseNoStep | src/l_lang/parser.py:159-192 | no statement prints "0 STEP" |
| Session.LexAll | src/l_lang/parser.py:235-236 | statement i is tokenised by the lexer built from the registry's patterns, one token sequence per statement, in order |
| Session.Literals | src/l_lang/parser.py:265 | the literal family the pre-parser reads is normalised |
| Session.ParseFile | src/l_lang/parser.py:216-237 | the method's output is the session specification: nothing when pre-parsing fails or the lexer cannot be built; otherwise the statements' output, in order, up to an exception, then "0 STEP" if none was raised |
| Session.RunStep | src/l_lang/parser.py:235-236 | the loop stops at a statement that raises, and otherwise goes on from the state that statement leaves |
| Session.BlankLineSilent | src/l_lang/parser.py:225-226 | a file with a blank line prints nothing |
| Session.UnbuiltLexerSilent | src/l_lang/parser.py:225-227 | a registry the lexer cannot be built from makes the session print nothing, not even "0 STEP" |
| Session.ConfigWithoutTokensSilent | src/l_lang/parser.py:58-71 | tokens loaded from a configuration without the `tokens` family make every session print nothing |
| Session.RunWrapup | src/l_lang/parser.py:235-237 | "0 STEP" is printed exactly when no statement raised, and then once, as the last line |
| Session.RunHeaderInv | src/l_lang/parser.py:235-237 | the statement loop and wrapup keep the header invariant |
| Session.SessionHeaderOnce | src/l_lang/parser.py:137-144 | a session prints the header title at most once, and exactly when it places at least one brick |
| Session.SessionWrapup | src/l_lang/parser.py:216-237 | a session that pre-parses and builds its lexer prints the output of its statements, ending with "0 STEP" exactly when no statement raised |
| Session.ArgsPrinted | src/l_lang/parser.py:200-233 | printing the arguments' name prints the lower-cased command-line arguments |

## Left out

- sly's parser-table construction is not modelled. The grammar's
  behaviour is stated directly for each token sequence.
- sly's error recovery is left out. After `error`, sly discards tokens
  and may resume parsing. The model drops the rest of the statement once
  `error` has run.
- The `errorcount` that sly keeps is not modelled.
- The lexer's regular-expression matching, `LexError`, line counting and
  the `ignore` set are not modelled. A statement's tokens come from the
  `lex` parameter.
- `LDRFile.lex` is not modelled. It only repeats the pre-parsing and
  lexing that `parse` performs.
- Reading files and YAML parsing are not modelled. The file is its list
  of lines, and the token configuration is a value.
- Logging is not modelled.
- `__main__` is not modelled.
- `_add_meta_tokens` is not modelled. It only logs a warning.
- The Windows-only `asyncio` import is not modelled.
- The global `tokens` dictionary is a registry value that `LoadTokens`
  returns, not a shared mutable object. Aliasing between that dictionary
  and the lexer's class attributes is not modelled.
- Python exceptions are not modelled as such. Each one becomes how the
  logging decorator makes it appear:
  - a `None` result from pre-parsing;
  - an empty output when the lexer cannot be built;
  - a `crashed` outcome from a statement;
  - a partial registry from `load_tokens`.
- The exception's message and its log entry are not modelled.
- `Tokens.Token.Remove`: where Python raises `ValueError` for a missing
  value, the method reports `found == false` and leaves the values
  unchanged.
- `Tokens.Token.ToString` only states the prefix. The list after it is
  stated by `Tokens.ToStringPieces` for values without commas.
- `PreParse.Classify`: `\d`, `[a-zA-Z]` and `str.strip` are modelled on
  ASCII letters and digits and on Python's whitespace set. Other Unicode
  digits and letters are not modelled.
- `Strings.Lower`: `str.lower` is modelled on the ASCII capitals only.
  Python also lowers other Unicode capitals, and for some (such as 'İ')
  the result is longer than the input. Neither is modelled.
- `Lexer.LexerPatterns`: the lexer builder refuses a token pattern that
  matches the empty input. Of such patterns, only the empty group `()`
  (a token without values) is recognised. Configured values are not
  read as regular expressions, so a value that is itself a pattern
  matching the empty input is not recognised.
- `Tokens.Normalise`: `str(v)` of a configured scalar is modelled for
  strings, integers, booleans and null only. Floats and dates are not
  modelled.
- `Tokens.FillFamily`: list elements and mapping keys are modelled as
  strings. YAML also yields integers, booleans and null there (`- 1`,
  `1: x`). These cases are not modelled:
  - such a key in the `variables` or `tokens` family, which is simply
    never looked up;
  - nested lists or mappings as values, which `str()` would flatten.
- `PreParse.Rep`: a non-string key in the `literals` family makes
  `"_" in key` raise, and pre-parsing then prints nothing. Since keys are
  strings here, this failure cannot occur in the model.
- `Tokens.FillMapFind`: duplicate keys cannot occur in a YAML mapping, so
  the statement assumes distinct keys.
