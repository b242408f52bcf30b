/**
 * `LDRParser`: the interpreter session.  It keeps a symbol table `names`,
 * an error list `errors`, a line cursor `print_line` and a one-shot
 * `header_printed` flag, and prints by emitting LDraw type-1 lines, one
 * brick per character, on a fixed grid.
 *
 * The grammar is
 *   statement : ID ASSIGN expr | expr | PRINT statement
 *   expr      : NUMBER | STRING | ID
 * and a statement reaches the parser as a sequence of `Tok`s.  The pure
 * functions below give the meaning of each action on a `State` value;
 * the class `Interpreter` holds the same state in fields and its methods
 * are proved to follow those functions.
 *
 * Standard output is the sequence `out`, to which printed lines are
 * appended.  A Python exception that escapes an action (enumerating an
 * `int` or `None` in `lprint`) is an outcome flagged `crashed`.
 */
module Interp {
  import opened Wrappers
  import opened Seqs
  import opened Numbers
  import opened Lexer

  /** What an `expr` can evaluate to: an `int` or a `str`. */
  datatype Value = Num(n: int) | Str(s: string)

  /** An entry of `errors`: `('undefined', name)`, or the token `error` received (None at end of input). */
  datatype Diagnostic = Undefined(name: string) | Syntax(tok: Option<Tok>)

  datatype State = State(
    names: map<string, Value>,
    errors: seq<Diagnostic>,
    printLine: int,
    headerPrinted: bool,
    out: seq<string>)

  /** The state after a statement, and whether an exception escaped the parser. */
  datatype Outcome = Outcome(st: State, crashed: bool)

  /** The state `LDRParser.__init__` sets up. */
  const Fresh := State(map[], [], 0, false, [])

  /** A line of LDraw line type 0: a comment or a meta-command. */
  function Meta(text: string): string
  {
    "0 " + text
  }

  const Title: string := Meta("L Lang output")
  const Header: seq<string> := [
    Title,
    Meta("Name: output.ldr"),
    Meta("// This output was generated using the L language, using a"),
    Meta("// LEGO CAD file (ldr file) input to compile into these results.")]
  const WrapupLine: string := Meta("STEP")

  // ----------------------------------------------------------------------
  // Output lines

  /** The fields of a type-1 line: line type, colour, position, the identity matrix, the part. */
  function PlaceFields(color: int, x: int, y: int, z: int, block: string): seq<string>
  {
    ["1", IntToString(color), IntToString(x), IntToString(y), IntToString(z),
     "1", "0", "0", "0", "1", "0", "0", "0", "1", block]
  }

  /** The line `lprint_pos` prints: its fields separated by single spaces. */
  function PlaceLine(color: int, x: int, y: int, z: int, block: string): string
  {
    Join(PlaceFields(color, x, y, z, block), " ")
  }

  /** A placement line reads back as exactly its fields, so it places `block` at (x, y, z) in `color`. */
  lemma PlaceLineFields(color: int, x: int, y: int, z: int, block: string)
    requires ' ' !in block
    ensures Split(PlaceLine(color, x, y, z, block), ' ') == PlaceFields(color, x, y, z, block)
    ensures |Split(PlaceLine(color, x, y, z, block), ' ')| == 15
  {
    var fs := PlaceFields(color, x, y, z, block);
    forall i | 0 <= i < |fs|
      ensures ' ' !in fs[i]
    {
      if i == 1 { assert fs[i] == IntToString(color); }
      else if i == 2 { assert fs[i] == IntToString(x); }
      else if i == 3 { assert fs[i] == IntToString(y); }
      else if i == 4 { assert fs[i] == IntToString(z); }
    }
    SplitJoin(fs, ' ');
  }

  /** A line starting with line type 1. */
  predicate IsPlacement(line: string)
  {
    line != [] && line[0] == '1'
  }

  lemma PlaceLineIsPlacement(color: int, x: int, y: int, z: int, block: string)
    ensures IsPlacement(PlaceLine(color, x, y, z, block))
  {
    var fs := PlaceFields(color, x, y, z, block);
    assert PlaceLine(color, x, y, z, block) == fs[0] + " " + Join(fs[1..], " ");
  }

  /** The part `lprint` uses for character `c`. */
  function Piece(c: char): string
  {
    "3005pt" + [c] + ".dat"
  }

  // ----------------------------------------------------------------------
  // Printing

  /** `print_header`: the four header lines, the first time only. */
  function HeaderSpec(st: State): State
  {
    if st.headerPrinted then st
    else st.(out := st.out + Header, headerPrinted := true)
  }

  /** `wrapup`. */
  function WrapupSpec(st: State): State
  {
    st.(out := st.out + [WrapupLine])
  }

  /** `lprint_pos`: the header if due, then one placement line. */
  function PlaceSpec(st: State, block: string, x: int, y: int, z: int, color: int): State
  {
    var h := HeaderSpec(st);
    h.(out := h.out + [PlaceLine(color, x, y, z, block)])
  }

  /** The first `n` iterations of the loop in `lprint`, on row `line`. */
  function PrintChars(st: State, msg: string, line: int, n: nat): (r: State)
    requires n <= |msg|
    ensures r.names == st.names && r.errors == st.errors && r.printLine == st.printLine
  {
    if n == 0 then st
    else PlaceSpec(PrintChars(st, msg, line, n - 1), Piece(msg[n - 1]), 10 + 40 * (n - 1), 0, 10 - 40 * line, 15)
  }

  lemma PrintCharsNext(st: State, msg: string, line: int, n: nat)
    requires n < |msg|
    ensures PrintChars(st, msg, line, n + 1) ==
              PlaceSpec(PrintChars(st, msg, line, n), Piece(msg[n]), 10 + 40 * n, 0, 10 + -40 * line, 15)
  {
  }

  /** `lprint(msg)` for a string `msg`. */
  function LPrintSpec(st: State, msg: string): State
  {
    PrintChars(st, msg, st.printLine, |msg|).(printLine := st.printLine + 1)
  }

  /** The placement lines of `msg` on row `line`: character i at x = 10 + 40 i, z = 10 - 40 line. */
  function Placements(msg: string, line: int): (r: seq<string>)
    ensures |r| == |msg|
  {
    seq(|msg|, i requires 0 <= i < |msg| => PlaceLine(15, 10 + 40 * i, 0, 10 - 40 * line, Piece(msg[i])))
  }

  lemma PlacementsSnoc(msg: string, line: int, n: nat)
    requires 0 < n <= |msg|
    ensures Placements(msg[..n], line) ==
              Placements(msg[..n - 1], line) + [PlaceLine(15, 10 + 40 * (n - 1), 0, 10 - 40 * line, Piece(msg[n - 1]))]
  {
    var a := Placements(msg[..n], line);
    var b := Placements(msg[..n - 1], line) + [PlaceLine(15, 10 + 40 * (n - 1), 0, 10 - 40 * line, Piece(msg[n - 1]))];
    forall i | 0 <= i < n
      ensures a[i] == b[i]
    {
      assert msg[..n][i] == msg[i];
      if i < n - 1 { assert msg[..n - 1][i] == msg[i]; }
    }
  }

  lemma {:induction false} PrintCharsLayout(st: State, msg: string, line: int, n: nat)
    requires n <= |msg|
    ensures var r := PrintChars(st, msg, line, n);
            var h := if !st.headerPrinted && n > 0 then Header else [];
            r.out == st.out + h + Placements(msg[..n], line) &&
            r.headerPrinted == (st.headerPrinted || n > 0)
  {
    if n > 0 {
      PrintCharsLayout(st, msg, line, n - 1);
      PlacementsSnoc(msg, line, n);
      if n == 1 {
        assert Placements(msg[..0], line) == [];
      }
    } else {
      assert Placements(msg[..0], line) == [];
    }
  }

  /**
   * `lprint(msg)`: the header just before the first placement of the
   * session, then one placement line per character of `msg` on the grid
   * (x = 10 + 40 i, y = 0, z = 10 - 40 print_line, colour 15, part
   * 3005pt<c>.dat), then the cursor moves down one row, even for an empty
   * message.  Nothing else changes.
   */
  lemma PrintLayout(st: State, msg: string)
    ensures var r := LPrintSpec(st, msg);
            var h := if !st.headerPrinted && msg != [] then Header else [];
            r.out == st.out + h + Placements(msg, st.printLine) &&
            r.printLine == st.printLine + 1 &&
            r.headerPrinted == (st.headerPrinted || msg != []) &&
            r.names == st.names && r.errors == st.errors
  {
    PrintCharsLayout(st, msg, st.printLine, |msg|);
    assert msg[..|msg|] == msg;
  }

  /** Two prints in a row: the second message is laid out one row (40 units of z) below the first. */
  lemma ConsecutivePrints(st: State, a: string, b: string)
    requires a != []
    ensures var r1 := LPrintSpec(st, a);
            var r2 := LPrintSpec(r1, b);
            r2.printLine == st.printLine + 2 &&
            r2.out == r1.out + Placements(b, st.printLine + 1)
  {
    PrintLayout(st, a);
    PrintLayout(LPrintSpec(st, a), b);
  }

  // ----------------------------------------------------------------------
  // The header appears once

  /**
   * The header title is in the output once if the header flag is set and
   * not at all otherwise, and the flag is set exactly when the output
   * holds a placement line.
   */
  predicate HeaderInv(st: State)
  {
    HeaderOk(st.out, st.headerPrinted)
  }

  predicate HeaderOk(out: seq<string>, headerPrinted: bool)
  {
    Count(out, Title) == (if headerPrinted then 1 else 0) &&
    (headerPrinted <==> exists i :: 0 <= i < |out| && IsPlacement(out[i]))
  }

  lemma FreshHeaderInv()
    ensures HeaderInv(Fresh)
  {
  }

  lemma HeaderCount()
    ensures Count(Header, Title) == 1
    ensures forall i :: 0 <= i < |Header| ==> !IsPlacement(Header[i])
  {
    var h := Header;
    assert h[3..][1..] == [];
    assert Count(h[3..], Title) == 0 by { assert |h[3]| != |Title|; }
    assert h[2..][1..] == h[3..];
    assert Count(h[2..], Title) == 0 by { assert |h[2]| != |Title|; }
    assert h[1..][1..] == h[2..];
    assert Count(h[1..], Title) == 0 by { assert |h[1]| != |Title|; }
  }

  lemma {:induction false} PlaceHeaderInv(st: State, block: string, x: int, y: int, z: int, color: int)
    requires HeaderInv(st)
    ensures HeaderInv(PlaceSpec(st, block, x, y, z, color))
  {
    var line := PlaceLine(color, x, y, z, block);
    var h := HeaderSpec(st);
    var r := PlaceSpec(st, block, x, y, z, color);
    PlaceLineIsPlacement(color, x, y, z, block);
    assert line != Title by { assert line[0] != Title[0]; }
    CountConcat(h.out, [line], Title);
    assert Count([line], Title) == 0;
    if !st.headerPrinted {
      HeaderCount();
      CountConcat(st.out, Header, Title);
    }
    assert r.out[|r.out| - 1] == line;
  }

  /** `lprint` keeps the header invariant: the header is never printed twice. */
  lemma {:induction false} PrintHeaderInv(st: State, msg: string)
    requires HeaderInv(st)
    ensures HeaderInv(LPrintSpec(st, msg))
  {
    PrintCharsHeaderInv(st, msg, st.printLine, |msg|);
  }

  lemma {:induction false} PrintCharsHeaderInv(st: State, msg: string, line: int, n: nat)
    requires n <= |msg| && HeaderInv(st)
    ensures HeaderInv(PrintChars(st, msg, line, n))
  {
    if n > 0 {
      var prev := PrintChars(st, msg, line, n - 1);
      var block, x, z := Piece(msg[n - 1]), 10 + 40 * (n - 1), 10 - 40 * line;
      assert PrintChars(st, msg, line, n) == PlaceSpec(prev, block, x, 0, z, 15);
      PrintCharsHeaderInv(st, msg, line, n - 1);
      PlaceHeaderInv(prev, block, x, 0, z, 15);
    }
  }

  /** `wrapup` appends `0 STEP` and no header, and keeps the invariant. */
  lemma WrapupHeaderInv(st: State)
    requires HeaderInv(st)
    ensures HeaderInv(WrapupSpec(st))
    ensures WrapupSpec(st).headerPrinted == st.headerPrinted
  {
    var r := WrapupSpec(st);
    CountConcat(st.out, [WrapupLine], Title);
    assert Count([WrapupLine], Title) == 0;
    assert !IsPlacement(WrapupLine);
    if st.headerPrinted {
      var i :| 0 <= i < |st.out| && IsPlacement(st.out[i]);
      assert r.out[i] == st.out[i];
    } else {
      forall i | 0 <= i < |r.out|
        ensures !IsPlacement(r.out[i])
      {
        if i < |st.out| { assert r.out[i] == st.out[i]; }
      }
    }
  }

  // ----------------------------------------------------------------------
  // Expressions and statements

  /** The tokens an `expr` can be. */
  predicate IsExpr(t: Tok)
  {
    t.NUMBER? || t.STRING? || t.ID?
  }

  /**
   * The `expr` actions: a number or a string is its own value; a bound
   * name gives its binding; an unbound name gives 0 and records
   * `('undefined', name)`.
   */
  function Eval(st: State, t: Tok): (r: (Value, State))
    requires IsExpr(t)
    ensures r.1.names == st.names && r.1.printLine == st.printLine && r.1.out == st.out
    ensures r.1.headerPrinted == st.headerPrinted
    ensures t.ID? && t.name in st.names ==> r == (st.names[t.name], st)
    ensures t.ID? && t.name !in st.names ==> r.0 == Num(0) && r.1.errors == st.errors + [Undefined(t.name)]
    ensures !t.ID? ==> r.1 == st
  {
    match t
    case NUMBER(n) => (Num(n), st)
    case STRING(s) => (Str(s), st)
    case ID(x) =>
      if x in st.names then (st.names[x], st)
      else (Num(0), st.(errors := st.errors + [Undefined(x)]))
  }

  /** `error(tok)`: the token is appended to `errors`. */
  function ErrorSpec(st: State, tok: Option<Tok>): State
  {
    st.(errors := st.errors + [Syntax(tok)])
  }

  /** How many PRINT tokens a statement starts with. */
  function LeadingPrints(toks: seq<Tok>): (n: nat)
    ensures n <= |toks|
    ensures forall j :: 0 <= j < n ==> toks[j].PRINT?
    ensures n == |toks| || !toks[n].PRINT?
  {
    if toks != [] && toks[0].PRINT? then 1 + LeadingPrints(toks[1..]) else 0
  }

  /**
   * The `PRINT statement` reductions, innermost first: the first `lprint`
   * receives the inner statement's value, and each PRINT statement is
   * itself worth None.  `lprint` of anything but a string raises.
   */
  function PrintsSpec(st: State, p: nat, v: Option<Value>): Outcome
    decreases p
  {
    if p == 0 then Outcome(st, false)
    else if v.Some? && v.value.Str? then PrintsSpec(LPrintSpec(st, v.value.s), p - 1, None)
    else Outcome(st, true)
  }

  /** What the PRINT chain amounts to: at most one string printed, and a crash unless exactly one PRINT prints a string. */
  lemma {:induction false} PrintsCases(st: State, p: nat, v: Option<Value>)
    ensures p == 0 ==> PrintsSpec(st, p, v) == Outcome(st, false)
    ensures p >= 1 && v.Some? && v.value.Str? ==>
              PrintsSpec(st, p, v) == Outcome(LPrintSpec(st, v.value.s), p >= 2)
    ensures p >= 1 && !(v.Some? && v.value.Str?) ==> PrintsSpec(st, p, v) == Outcome(st, true)
  {
    if p >= 2 && v.Some? && v.value.Str? {
      assert PrintsSpec(LPrintSpec(st, v.value.s), p - 1, None) == Outcome(LPrintSpec(st, v.value.s), true);
    }
  }

  /** A token after a complete statement is reported, once the statement's actions have run. */
  function Trail(o: Outcome, tail: seq<Tok>): Outcome
  {
    if o.crashed || tail == [] then o
    else Outcome(ErrorSpec(o.st, Some(tail[0])), false)
  }

  /**
   * One call of `parser.parse` on the tokens of a statement.  Reductions
   * that need no look-ahead run their actions before a following token is
   * examined, so a complete statement followed by an unexpected token has
   * its effect and then reports that token.  After a reported error the
   * rest of the statement is dropped.
   */
  function ParseSpec(st: State, toks: seq<Tok>): Outcome
  {
    var p := LeadingPrints(toks);
    var rest := toks[p..];
    if rest == [] then Outcome(ErrorSpec(st, None), false)
    else match rest[0]
      case NUMBER(_) =>
        var (v, st1) := Eval(st, rest[0]);
        Trail(PrintsSpec(st1, p, Some(v)), rest[1..])
      case STRING(_) =>
        var (v, st1) := Eval(st, rest[0]);
        Trail(PrintsSpec(st1, p, Some(v)), rest[1..])
      case ID(x) =>
        if |rest| == 1 then
          var (v, st1) := Eval(st, rest[0]);
          PrintsSpec(st1, p, Some(v))
        else if !rest[1].ASSIGN? then Outcome(ErrorSpec(st, Some(rest[1])), false)
        else if |rest| == 2 then Outcome(ErrorSpec(st, None), false)
        else if !IsExpr(rest[2]) then Outcome(ErrorSpec(st, Some(rest[2])), false)
        else
          var (v, st1) := Eval(st, rest[2]);
          Trail(PrintsSpec(st1.(names := st1.names[x := v]), p, None), rest[3..])
      case _ => Outcome(ErrorSpec(st, Some(rest[0])), false)
  }

  // ----------------------------------------------------------------------
  // Properties of statements

  /** `x = e` binds x to the value of e, replacing any earlier binding; nothing else changes. */
  lemma AssignLiteral(st: State, x: string, a: string, e: Tok)
    requires e.NUMBER? || e.STRING?
    ensures var v := if e.NUMBER? then Num(e.number) else Str(e.str);
            ParseSpec(st, [ID(x), ASSIGN(a), e]) == Outcome(st.(names := st.names[x := v]), false)
  {
    assert [ID(x), ASSIGN(a), e][0..] == [ID(x), ASSIGN(a), e];
  }

  /**
   * `x = y` copies y's binding into x, leaving `errors` alone; if y is
   * unbound, x is bound to 0 and exactly one `('undefined', y)` is recorded.
   */
  lemma AssignName(st: State, x: string, a: string, y: string)
    ensures var r := ParseSpec(st, [ID(x), ASSIGN(a), ID(y)]);
            !r.crashed &&
            r.st.printLine == st.printLine && r.st.out == st.out && r.st.headerPrinted == st.headerPrinted &&
            (y in st.names ==> r.st.names == st.names[x := st.names[y]] && r.st.errors == st.errors) &&
            (y !in st.names ==> r.st.names == st.names[x := Num(0)] && r.st.errors == st.errors + [Undefined(y)])
  {
    assert [ID(x), ASSIGN(a), ID(y)][0..] == [ID(x), ASSIGN(a), ID(y)];
  }

  /** A name on its own: a bound one changes nothing; an unbound one records one `('undefined', x)`. */
  lemma LookupName(st: State, x: string)
    ensures x in st.names ==> ParseSpec(st, [ID(x)]) == Outcome(st, false)
    ensures x !in st.names ==> ParseSpec(st, [ID(x)]) == Outcome(st.(errors := st.errors + [Undefined(x)]), false)
  {
    assert [ID(x)][0..] == [ID(x)];
  }

  /** `print e` lays out e's value when it is a string, and raises when it is a number. */
  lemma PrintExpr(st: State, t: string, e: Tok)
    requires IsExpr(e)
    ensures var (v, st1) := Eval(st, e);
            ParseSpec(st, [PRINT(t), e]) ==
              if v.Str? then Outcome(LPrintSpec(st1, v.s), false) else Outcome(st1, true)
  {
    var toks := [PRINT(t), e];
    assert LeadingPrints(toks[1..]) == 0;
    assert toks[1..] == [e];
    PrintsCases(Eval(st, e).1, 1, Some(Eval(st, e).0));
  }

  /** `print print e` prints e's string and then raises on the outer print's None. */
  lemma PrintPrint(st: State, t1: string, t2: string, s: string)
    ensures ParseSpec(st, [PRINT(t1), PRINT(t2), STRING(s)]) == Outcome(LPrintSpec(st, s), true)
  {
    var toks := [PRINT(t1), PRINT(t2), STRING(s)];
    assert toks[1..] == [PRINT(t2), STRING(s)];
    assert toks[1..][1..] == [STRING(s)];
    assert LeadingPrints([STRING(s)]) == 0;
    assert toks[2..] == [STRING(s)];
    PrintsCases(st, 2, Some(Str(s)));
  }

  /** `print x = e` binds x and then raises, since the assignment is worth None. */
  lemma PrintAssign(st: State, t: string, x: string, a: string, e: Tok)
    requires IsExpr(e)
    ensures var (v, st1) := Eval(st, e);
            ParseSpec(st, [PRINT(t), ID(x), ASSIGN(a), e]) == Outcome(st1.(names := st1.names[x := v]), true)
  {
    var toks := [PRINT(t), ID(x), ASSIGN(a), e];
    assert toks[1..] == [ID(x), ASSIGN(a), e];
    assert LeadingPrints(toks[1..]) == 0;
  }

  /** An empty statement (two `0 STEP` lines in a row) reports end of input and changes nothing else. */
  lemma EmptyStatement(st: State)
    ensures ParseSpec(st, []) == Outcome(st.(errors := st.errors + [Syntax(None)]), false)
  {
  }

  lemma {:induction false} PrintsGrow(st: State, p: nat, v: Option<Value>)
    ensures var r := PrintsSpec(st, p, v).st;
            r.names == st.names && r.errors == st.errors &&
            st.out <= r.out && st.printLine <= r.printLine <= st.printLine + 1 &&
            (st.headerPrinted ==> r.headerPrinted)
  {
    PrintsCases(st, p, v);
    if p >= 1 && v.Some? && v.value.Str? {
      PrintLayout(st, v.value.s);
    }
  }

  /**
   * The two shapes of a statement's outcome: a syntax error that changes
   * nothing but `errors`, or an expression's effect followed by the PRINT
   * chain and the check for a trailing token.
   */
  lemma ParseCases(st: State, toks: seq<Tok>) returns (st1: State, p: nat, v: Option<Value>, tail: seq<Tok>, err: Option<Option<Tok>>)
    ensures err.Some? ==> ParseSpec(st, toks) == Outcome(ErrorSpec(st, err.value), false)
    ensures err.None? ==> ParseSpec(st, toks) == Trail(PrintsSpec(st1, p, v), tail)
    ensures st1.out == st.out && st1.printLine == st.printLine && st1.headerPrinted == st.headerPrinted
    ensures st.errors <= st1.errors && |st1.errors| <= |st.errors| + 1
  {
    p := LeadingPrints(toks);
    var rest := toks[p..];
    st1, v, tail, err := st, None, [], None;
    if rest == [] {
      err := Some(None);
    } else if rest[0].NUMBER? || rest[0].STRING? || (rest[0].ID? && |rest| == 1) {
      var e := Eval(st, rest[0]);
      st1, v := e.1, Some(e.0);
      if !rest[0].ID? {
        tail := rest[1..];
      }
    } else if !rest[0].ID? {
      err := Some(Some(rest[0]));
    } else if !rest[1].ASSIGN? {
      err := Some(Some(rest[1]));
    } else if |rest| == 2 {
      err := Some(None);
    } else if !IsExpr(rest[2]) {
      err := Some(Some(rest[2]));
    } else {
      var e := Eval(st, rest[2]);
      st1 := e.1.(names := e.1.names[rest[0].name := e.0]);
      tail := rest[3..];
    }
  }

  /** A statement only appends to `errors`, at most two entries (an undefined name, then a syntax error). */
  lemma ParseErrors(st: State, toks: seq<Tok>)
    ensures var r := ParseSpec(st, toks).st;
            st.errors <= r.errors && |r.errors| <= |st.errors| + 2
  {
    var st1, p, v, tail, err := ParseCases(st, toks);
    if err.None? {
      PrintsGrow(st1, p, v);
    }
  }

  /** A statement only appends to the output, and moves the cursor down at most one row. */
  lemma ParseOutput(st: State, toks: seq<Tok>)
    ensures var r := ParseSpec(st, toks).st;
            st.out <= r.out && st.printLine <= r.printLine <= st.printLine + 1 &&
            (st.headerPrinted ==> r.headerPrinted)
  {
    var st1, p, v, tail, err := ParseCases(st, toks);
    if err.None? {
      PrintsGrow(st1, p, v);
    }
  }

  /** The symbol table changes only through a statement with an ASSIGN token. */
  lemma NamesNeedAssign(st: State, toks: seq<Tok>)
    requires forall j :: 0 <= j < |toks| ==> !toks[j].ASSIGN?
    ensures ParseSpec(st, toks).st.names == st.names
  {
    var p := LeadingPrints(toks);
    var rest := toks[p..];
    if rest != [] {
      if rest[0].NUMBER? || rest[0].STRING? || (rest[0].ID? && |rest| == 1) {
        var (v, st1) := Eval(st, rest[0]);
        PrintsGrow(st1, p, Some(v));
      } else if rest[0].ID? && |rest| > 1 {
        assert toks[p + 1] == rest[1];
      }
    }
  }

  /** Only a statement that starts with PRINT can raise. */
  lemma CrashNeedsPrint(st: State, toks: seq<Tok>)
    requires ParseSpec(st, toks).crashed
    ensures toks != [] && toks[0].PRINT?
  {
    var p := LeadingPrints(toks);
    PrintsCases(st, p, None);
  }

  /** Statements keep the header invariant. */
  lemma ParseHeaderInv(st: State, toks: seq<Tok>)
    requires HeaderInv(st)
    ensures HeaderInv(ParseSpec(st, toks).st)
  {
    var st1, p, v, tail, err := ParseCases(st, toks);
    if err.None? {
      PrintsHeaderInv(st1, p, v);
    }
  }

  lemma {:induction false} PrintsHeaderInv(st: State, p: nat, v: Option<Value>)
    requires HeaderInv(st)
    ensures HeaderInv(PrintsSpec(st, p, v).st)
  {
    PrintsCases(st, p, v);
    if p >= 1 && v.Some? && v.value.Str? {
      PrintHeaderInv(st, v.value.s);
    }
  }

  // ----------------------------------------------------------------------
  // Only `wrapup` prints `0 STEP`

  lemma PlacementsNoStep(msg: string, line: int)
    ensures WrapupLine !in Placements(msg, line)
  {
    var ps := Placements(msg, line);
    forall i | 0 <= i < |ps|
      ensures ps[i] != WrapupLine
    {
      PlaceLineIsPlacement(15, 10 + 40 * i, 0, 10 - 40 * line, Piece(msg[i]));
      assert ps[i][0] != WrapupLine[0];
    }
  }

  /** `lprint` never prints the `0 STEP` line. */
  lemma PrintNoStep(st: State, msg: string)
    requires WrapupLine !in st.out
    ensures WrapupLine !in LPrintSpec(st, msg).out
  {
    PrintLayout(st, msg);
    PlacementsNoStep(msg, st.printLine);
    assert WrapupLine !in Header by {
      assert |Header[0]| != |WrapupLine| && |Header[1]| != |WrapupLine|;
      assert |Header[2]| != |WrapupLine| && |Header[3]| != |WrapupLine|;
    }
  }

  lemma {:induction false} PrintsNoStep(st: State, p: nat, v: Option<Value>)
    requires WrapupLine !in st.out
    ensures WrapupLine !in PrintsSpec(st, p, v).st.out
  {
    PrintsCases(st, p, v);
    if p >= 1 && v.Some? && v.value.Str? {
      PrintNoStep(st, v.value.s);
    }
  }

  /** A statement never prints the `0 STEP` line. */
  lemma ParseNoStep(st: State, toks: seq<Tok>)
    requires WrapupLine !in st.out
    ensures WrapupLine !in ParseSpec(st, toks).st.out
  {
    var st1, p, v, tail, err := ParseCases(st, toks);
    if err.None? {
      PrintsNoStep(st1, p, v);
    }
  }

  // ----------------------------------------------------------------------
  // The session object

  class Interpreter {
    var names: map<string, Value>
    var errors: seq<Diagnostic>
    var printLine: int
    var headerPrinted: bool
    var out: seq<string>

    function Snapshot(): State
      reads this
    {
      State(names, errors, printLine, headerPrinted, out)
    }

    constructor()
      ensures Snapshot() == Fresh
    {
      names := map[];
      errors := [];
      printLine := 0;
      headerPrinted := false;
      out := [];
    }

    method PrintHeader()
      modifies this
      ensures Snapshot() == HeaderSpec(old(Snapshot()))
    {
      if headerPrinted {
        return;
      }
      out := out + Header;
      headerPrinted := true;
    }

    method Wrapup()
      modifies this
      ensures Snapshot() == WrapupSpec(old(Snapshot()))
    {
      out := out + [WrapupLine];
    }

    method LPrintPos(block: string, x: int, y: int, z: int, color: int)
      modifies this
      ensures Snapshot() == PlaceSpec(old(Snapshot()), block, x, y, z, color)
    {
      PrintHeader();
      out := out + [PlaceLine(color, x, y, z, block)];
    }

    method LPrint(msg: string)
      modifies this
      ensures Snapshot() == LPrintSpec(old(Snapshot()), msg)
    {
      PlaceChars(msg);
      printLine := printLine + 1;
    }

    /** The loop of `lprint`: one brick per character, on the current row. */
    method PlaceChars(msg: string)
      modifies this
      ensures Snapshot() == PrintChars(old(Snapshot()), msg, old(printLine), |msg|)
    {
      ghost var st0 := Snapshot();
      var counter := 0;
      while counter < |msg|
        invariant counter <= |msg|
        invariant Snapshot() == PrintChars(st0, msg, st0.printLine, counter)
      {
        PrintCharsNext(st0, msg, st0.printLine, counter);
        LPrintPos(Piece(msg[counter]), 10 + 40 * counter, 0, 10 + -40 * printLine, 15);
        counter := counter + 1;
      }
    }

    method Error(tok: Option<Tok>)
      modifies this
      ensures Snapshot() == ErrorSpec(old(Snapshot()), tok)
    {
      errors := errors + [Syntax(tok)];
    }

    /** The `expr` actions. */
    method Expr(t: Tok) returns (v: Value)
      requires IsExpr(t)
      modifies this
      ensures (v, Snapshot()) == Eval(old(Snapshot()), t)
    {
      match t
      case NUMBER(n) => v := Num(n);
      case STRING(s) => v := Str(s);
      case ID(x) =>
        if x in names {
          v := names[x];
        } else {
          errors := errors + [Undefined(x)];
          v := Num(0);
        }
    }

    /** The `p` nested `PRINT statement` reductions on the inner statement's value `v`. */
    method Prints(p: nat, v: Option<Value>) returns (crashed: bool)
      modifies this
      ensures Outcome(Snapshot(), crashed) == PrintsSpec(old(Snapshot()), p, v)
    {
      var k := 0;
      var value := v;
      crashed := false;
      while k < p
        invariant k <= p
        invariant !crashed
        invariant PrintsSpec(Snapshot(), p - k, value) == PrintsSpec(old(Snapshot()), p, v)
      {
        if !(value.Some? && value.value.Str?) {
          crashed := true;
          return;
        }
        LPrint(value.value.s);
        value := None;
        k := k + 1;
      }
    }

    /** Reports the token after a complete statement, if there is one. */
    method Finish(crashed: bool, tail: seq<Tok>)
      modifies this
      ensures Outcome(Snapshot(), crashed) == Trail(Outcome(old(Snapshot()), crashed), tail)
    {
      if !crashed && tail != [] {
        Error(Some(tail[0]));
      }
    }

    /** `parser.parse` on the tokens of one statement. */
    method Parse(toks: seq<Tok>) returns (crashed: bool)
      modifies this
      ensures Outcome(Snapshot(), crashed) == ParseSpec(old(Snapshot()), toks)
    {
      var p := 0;
      while p < |toks| && toks[p].PRINT?
        invariant p <= |toks|
        invariant forall j :: 0 <= j < p ==> toks[j].PRINT?
      {
        p := p + 1;
      }
      assert p == LeadingPrints(toks);
      var rest := toks[p..];
      crashed := false;
      if rest == [] {
        Error(None);
        return;
      }
      if rest[0].NUMBER? || rest[0].STRING? {
        var v := Expr(rest[0]);
        crashed := Prints(p, Some(v));
        Finish(crashed, rest[1..]);
      } else if rest[0].ID? {
        if |rest| == 1 {
          var v := Expr(rest[0]);
          crashed := Prints(p, Some(v));
        } else if !rest[1].ASSIGN? {
          Error(Some(rest[1]));
        } else if |rest| == 2 {
          Error(None);
        } else if !IsExpr(rest[2]) {
          Error(Some(rest[2]));
        } else {
          var v := Expr(rest[2]);
          names := names[rest[0].name := v];
          crashed := Prints(p, None);
          Finish(crashed, rest[3..]);
        }
      } else {
        Error(Some(rest[0]));
      }
    }
  }
}
