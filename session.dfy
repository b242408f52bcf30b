/**
 * `LDRFile.parse`: pre-parse the file's lines, build the lexer from the
 * token registry, create the parser, bind the lower-cased command-line
 * arguments to the name `3626ap01.dat`, parse each statement in turn and
 * finish with `wrapup`.
 *
 * Reading the file and the lexer's matching are outside the model: the
 * file arrives as its list of lines, and `lex` gives the tokens of one
 * statement under the lexer's patterns.  The method is wrapped by a decorator that swallows any
 * exception, so an exception ends the session with whatever was printed
 * so far, and no `0 STEP` line.
 */
module Session {
  import opened Seqs
  import opened Strings
  import opened Lexer
  import opened Tokens
  import opened PreParse
  import opened Interp

  /** The name the command-line arguments are bound to. */
  const ArgsName: string := "3626ap01.dat"

  /** A fresh parser whose symbol table holds the lower-cased arguments. */
  function Seeded(args: string): State
  {
    Fresh.(names := map[ArgsName := Str(Lower(args))])
  }

  /** The statement loop, then `wrapup`; an exception stops the loop where it is raised. */
  function RunSpec(st: State, stmts: seq<seq<Tok>>): Outcome
    decreases |stmts|
  {
    if stmts == [] then Outcome(WrapupSpec(st), false)
    else
      var o := ParseSpec(st, stmts[0]);
      if o.crashed then o else RunSpec(o.st, stmts[1..])
  }

  /** The tokens of each statement, from the lexer built with `pats`. */
  function LexAll(lex: (Patterns, string) -> seq<Tok>, pats: Patterns, stmts: seq<string>): (r: seq<seq<Tok>>)
    ensures |r| == |stmts| && forall i :: 0 <= i < |stmts| ==> r[i] == lex(pats, stmts[i])
  {
    seq(|stmts|, i requires 0 <= i < |stmts| => lex(pats, stmts[i]))
  }

  /** The `literals` family, whose identifiers the pre-parser replaces. */
  function Literals(reg: Registry): (lits: Family)
    requires Normalised(reg)
    ensures NormalisedFamily(lits)
  {
    FamilyOf(reg, "literals")
  }

  /**
   * Everything `parse()` prints.  When pre-parsing fails (a blank line) or
   * the lexer cannot be built from the registry, the exception is raised
   * before any statement runs, and nothing is printed.
   */
  function SessionSpec(lines: seq<string>, reg: Registry, args: string, lex: (Patterns, string) -> seq<Tok>): seq<string>
    requires Normalised(reg)
  {
    match PreParseSpec(lines, Literals(reg))
    case None => []
    case Some(stmts) =>
      match LexerPatterns(reg)
      case None => []
      case Some(pats) => RunSpec(Seeded(args), LexAll(lex, pats, stmts)).st.out
  }

  /** `LDRFile.parse`, returning the printed lines. */
  method ParseFile(lines: seq<string>, reg: Registry, args: string, lex: (Patterns, string) -> seq<Tok>)
    returns (out: seq<string>)
    requires Normalised(reg)
    ensures out == SessionSpec(lines, reg, args, lex)
  {
    var preParsed := PreParseLines(lines, Literals(reg));
    if preParsed.None? {
      return [];
    }
    var stmts := preParsed.value;
    var built := LexerPatterns(reg);
    if built.None? {
      return [];
    }
    var pats := built.value;
    ghost var all := LexAll(lex, pats, stmts);
    var parser := new Interpreter();
    parser.names := parser.names[ArgsName := Str(Lower(args))];
    assert parser.Snapshot() == Seeded(args);
    assert all[0..] == all;
    var i := 0;
    while i < |stmts|
      invariant i <= |stmts|
      invariant RunSpec(parser.Snapshot(), all[i..]) == RunSpec(Seeded(args), all)
    {
      RunStep(parser.Snapshot(), all, i);
      var crashed := parser.Parse(lex(pats, stmts[i]));
      if crashed {
        return parser.out;
      }
      i := i + 1;
    }
    assert all[i..] == [];
    parser.Wrapup();
    out := parser.out;
  }

  /** One turn of the statement loop. */
  lemma RunStep(st: State, all: seq<seq<Tok>>, i: nat)
    requires i < |all|
    ensures var o := ParseSpec(st, all[i]);
            RunSpec(st, all[i..]) == if o.crashed then o else RunSpec(o.st, all[i + 1..])
  {
    assert all[i..][0] == all[i] && all[i..][1..] == all[i + 1..];
  }

  // ----------------------------------------------------------------------
  // Properties of a session

  /** A session with a blank line prints nothing at all. */
  lemma BlankLineSilent(lines: seq<string>, reg: Registry, args: string, lex: (Patterns, string) -> seq<Tok>)
    requires Normalised(reg)
    requires exists i :: 0 <= i < |lines| && Strip(lines[i]) == []
    ensures SessionSpec(lines, reg, args, lex) == []
  {
    PreParseNone(lines, Literals(reg));
  }

  /** A registry the lexer cannot be built from makes the session print nothing at all. */
  lemma UnbuiltLexerSilent(lines: seq<string>, reg: Registry, args: string, lex: (Patterns, string) -> seq<Tok>)
    requires Normalised(reg) && LexerPatterns(reg).None?
    ensures SessionSpec(lines, reg, args, lex) == []
  {
  }

  /** Tokens loaded from a configuration without the `tokens` family make every session silent. */
  lemma ConfigWithoutTokensSilent(config: Config, lines: seq<string>, args: string, lex: (Patterns, string) -> seq<Tok>)
    requires "tokens" !in config
    ensures Normalised(Load(config).0) && SessionSpec(lines, Load(config).0, args, lex) == []
  {
    LoadNormalised(config);
    LexerPatternsWithoutTokens(config);
    UnbuiltLexerSilent(lines, Load(config).0, args, lex);
  }

  /** The run ends with `0 STEP` exactly when no statement raised, and prints it nowhere else. */
  lemma {:induction false} RunWrapup(st: State, stmts: seq<seq<Tok>>)
    requires WrapupLine !in st.out
    decreases |stmts|
    ensures var r := RunSpec(st, stmts);
            (WrapupLine in r.st.out <==> !r.crashed) &&
            (!r.crashed ==> r.st.out[|r.st.out| - 1] == WrapupLine && WrapupLine !in r.st.out[..|r.st.out| - 1])
  {
    if stmts == [] {
      var out := WrapupSpec(st).out;
      assert out[..|out| - 1] == st.out;
    } else {
      ParseNoStep(st, stmts[0]);
      var o := ParseSpec(st, stmts[0]);
      if !o.crashed {
        RunWrapup(o.st, stmts[1..]);
      }
    }
  }

  /** A run keeps the header invariant. */
  lemma {:induction false} RunHeaderInv(st: State, stmts: seq<seq<Tok>>)
    requires HeaderInv(st)
    decreases |stmts|
    ensures HeaderInv(RunSpec(st, stmts).st)
  {
    if stmts == [] {
      WrapupHeaderInv(st);
    } else {
      ParseHeaderInv(st, stmts[0]);
      var o := ParseSpec(st, stmts[0]);
      if !o.crashed {
        RunHeaderInv(o.st, stmts[1..]);
      }
    }
  }

  /**
   * The header is printed at most once in a session, and it is printed
   * exactly when some brick is placed.
   */
  lemma SessionHeaderOnce(lines: seq<string>, reg: Registry, args: string, lex: (Patterns, string) -> seq<Tok>)
    requires Normalised(reg)
    ensures var out := SessionSpec(lines, reg, args, lex);
            Count(out, Title) <= 1 &&
            (Count(out, Title) == 1 <==> exists i :: 0 <= i < |out| && IsPlacement(out[i]))
  {
    match PreParseSpec(lines, Literals(reg))
    case None =>
    case Some(stmts) =>
      match LexerPatterns(reg)
      case None =>
      case Some(pats) =>
        RunHeaderInv(Seeded(args), LexAll(lex, pats, stmts));
  }

  /**
   * A session that pre-parses and builds its lexer prints the output of
   * its statements, ending with `0 STEP` exactly when no statement raised.
   */
  lemma SessionWrapup(lines: seq<string>, reg: Registry, args: string, lex: (Patterns, string) -> seq<Tok>)
    requires Normalised(reg)
    requires PreParseSpec(lines, Literals(reg)).Some? && LexerPatterns(reg).Some?
    ensures var r := RunSpec(Seeded(args), LexAll(lex, LexerPatterns(reg).value, PreParseSpec(lines, Literals(reg)).value));
            SessionSpec(lines, reg, args, lex) == r.st.out &&
            (WrapupLine in r.st.out <==> !r.crashed)
  {
    RunWrapup(Seeded(args), LexAll(lex, LexerPatterns(reg).value, PreParseSpec(lines, Literals(reg)).value));
  }

  /** Printing the name `3626ap01.dat` prints the lower-cased command-line arguments. */
  lemma ArgsPrinted(args: string, t: string)
    ensures ParseSpec(Seeded(args), [PRINT(t), ID(ArgsName)]) == Outcome(LPrintSpec(Seeded(args), Lower(args)), false)
  {
    PrintExpr(Seeded(args), t, ID(ArgsName));
  }
}
