/**
 * `LDRFile._pre_parse_lines`: the lines of an LDraw file become program
 * statements.  Each stripped line is a STEP marker (the end of a
 * statement), a block line (starting with "1"; its last field, the part
 * identifier, is added to the statement after a space) or something to
 * ignore.  The statements are joined by newlines, every literal's block
 * identifiers are replaced by the literal's text, quoted letters next to
 * each other and numbers next to each other are run together, and the
 * text is split back into lines.
 */
module PreParse {
  import opened Wrappers
  import opened Seqs
  import opened Strings
  import opened Rewrite
  import opened Tokens

  /** What the loop makes of one line, once stripped. */
  datatype LineKind = Step | Blank | Ignored | Block(part: string)

  const StepLine: string := "0 STEP"

  /**
   * A blank line is its own kind because the source reads its first
   * character, which raises IndexError.
   */
  function Classify(line: string): (k: LineKind)
    ensures k == Step <==> Strip(line) == StepLine
    ensures k == Blank <==> Strip(line) == []
    ensures k.Block? ==> Strip(line)[0] == '1' && ' ' !in k.part
  {
    var s := Strip(line);
    if s == StepLine then Step
    else if s == [] then Blank
    else if s[0] != '1' then Ignored
    else
      SplitPieces(s, ' ');
      Block(LastField(s))
  }

  /** `line.split(" ")[-1]`: the last space-separated field of a line. */
  function LastField(line: string): string
  {
    var fields := Split(line, ' ');
    fields[|fields| - 1]
  }

  function Kinds(lines: seq<string>): (ks: seq<LineKind>)
    ensures |ks| == |lines|
  {
    if lines == [] then [] else Kinds(lines[..|lines| - 1]) + [Classify(lines[|lines| - 1])]
  }

  lemma KindsAppend(lines: seq<string>, i: nat)
    requires i < |lines|
    ensures Kinds(lines[..i + 1]) == Kinds(lines[..i]) + [Classify(lines[i])]
  {
    assert lines[..i + 1][..i] == lines[..i];
  }

  /** The text a run of lines adds to a statement: a space and the part of each block line. */
  function Text(seg: seq<LineKind>): string
  {
    if seg == [] then []
    else Text(seg[..|seg| - 1]) + (match seg[|seg| - 1] case Block(p) => " " + p case _ => [])
  }

  function Texts(segs: seq<seq<LineKind>>): (r: seq<string>)
    ensures |r| == |segs| && forall i :: 0 <= i < |segs| ==> r[i] == Text(segs[i])
  {
    seq(|segs|, i requires 0 <= i < |segs| => Text(segs[i]))
  }

  /** The text after the last STEP marker. */
  function Trailing(ks: seq<LineKind>): string
  {
    var segs := Split(ks, Step);
    Text(segs[|segs| - 1])
  }

  /** The text before each STEP marker. */
  function Closed(ks: seq<LineKind>): seq<string>
  {
    var segs := Split(ks, Step);
    Texts(segs[..|segs| - 1])
  }

  /**
   * The statements: the text before each STEP marker, and the text after
   * the last one when it is not empty.
   */
  function Statements(ks: seq<LineKind>): seq<string>
  {
    Closed(ks) + (if Trailing(ks) != [] then [Trailing(ks)] else [])
  }

  /**
   * The text a literal's blocks are replaced by: the part of its name after
   * the first "_" (up to the next one), or else the name in single quotes.
   */
  function Rep(name: string): (r: string)
    ensures '_' !in name ==> r == "'" + name + "'"
    ensures forall c :: c in r ==> c in name || c == '\''
  {
    if '_' in name then
      SplitLength(name, '_');
      CountZero(name, '_');
      SplitElems(name, '_');
      Split(name, '_')[1]
    else "'" + name + "'"
  }

  /**
   * A literal name with an underscore is replaced by its second
   * "_"-separated field: the text after the first underscore, up to the
   * next underscore or the end of the name.
   */
  lemma RepField(name: string)
    requires '_' in name
    ensures var r := Rep(name);
            '_' !in r &&
            exists i :: 0 <= i < |name| && name[i] == '_' && '_' !in name[..i] &&
              i + 1 + |r| <= |name| && name[i + 1..i + 1 + |r|] == r &&
              (i + 1 + |r| == |name| || name[i + 1 + |r|] == '_')
  {
    var i := SplitSecond(name, '_');
    var r := Rep(name);
    assert 0 <= i < |name| && name[i] == '_' && '_' !in name[..i] &&
           i + 1 + |r| <= |name| && name[i + 1..i + 1 + |r|] == r &&
           (i + 1 + |r| == |name| || name[i + 1 + |r|] == '_');
  }

  /** A normalised block identifier is never empty. */
  lemma NormalisedNonEmpty(lits: Family)
    requires NormalisedFamily(lits)
    ensures forall j :: 0 <= j < |lits| ==> NonEmptyAll(lits[j].values)
  {
    forall j, i | 0 <= j < |lits| && 0 <= i < |lits[j].values|
      ensures lits[j].values[i] != []
    {
      assert lits[j] in lits && lits[j].values[i] in lits[j].values;
      assert Contains(lits[j].values[i], Dat);
    }
  }

  predicate NonEmptyAll(blocks: seq<string>)
  {
    forall i :: 0 <= i < |blocks| ==> blocks[i] != []
  }

  /** Replacing each of `blocks`, in order, by `rep`. */
  function ReplaceAll(s: string, blocks: seq<string>, rep: string): string
    requires NonEmptyAll(blocks)
    decreases |blocks|
  {
    if blocks == [] then s else ReplaceAll(Replace(s, blocks[0], rep), blocks[1..], rep)
  }

  /** Every literal in turn, in the registry's order. */
  function ApplyLiterals(s: string, lits: Family): string
    requires NormalisedFamily(lits)
    decreases |lits|
  {
    if lits == [] then s
    else
      NormalisedNonEmpty(lits);
      ApplyLiterals(ReplaceAll(s, lits[0].values, Rep(lits[0].name)), lits[1..])
  }

  /** The two coalescing loops: letters first, then numbers. */
  function Coalesce(s: string): string
  {
    Fix(Digits, Fix(Letters, s))
  }

  /** What `_pre_parse_lines` returns; None where it raises. */
  function PreParseSpec(lines: seq<string>, lits: Family): Option<seq<string>>
    requires NormalisedFamily(lits)
  {
    var ks := Kinds(lines);
    if Blank in ks then None
    else Some(Split(Coalesce(ApplyLiterals(Join(Statements(ks), "\n"), lits)), '\n'))
  }

  // ----- The loops of `_pre_parse_lines` -----

  /** One more line's contribution to the statement being built. */
  lemma TextAppend(seg: seq<LineKind>, k: LineKind)
    ensures Text(seg + [k]) == Text(seg) + (match k case Block(p) => " " + p case _ => [])
  {
    assert (seg + [k])[..|seg|] == seg;
  }

  /** The statements so far and the one being built, after one more line that is not blank. */
  lemma ScanStep(ks: seq<LineKind>, k: LineKind)
    requires k != Blank
    ensures k == Step ==> Closed(ks + [k]) == Closed(ks) + [Trailing(ks)] && Trailing(ks + [k]) == []
    ensures k != Step ==>
      Closed(ks + [k]) == Closed(ks) &&
      Trailing(ks + [k]) == Trailing(ks) + (match k case Block(p) => " " + p case _ => [])
  {
    if k == Step {
      ScanMarker(ks);
    } else {
      ScanOther(ks, k);
    }
  }

  /** A STEP marker closes the statement being built and starts an empty one. */
  lemma ScanMarker(ks: seq<LineKind>)
    ensures Closed(ks + [Step]) == Closed(ks) + [Trailing(ks)] && Trailing(ks + [Step]) == []
  {
    var p := Split(ks, Step);
    SplitAppend(ks, Step, Step);
    var q := Split(ks + [Step], Step);
    assert q == p + [[]];
    assert q[..|q| - 1] == p;
    var init, last := p[..|p| - 1], p[|p| - 1];
    assert p == init + [last];
    TextsSnoc(init, last);
  }

  /** Any other line adds its text, if any, to the statement being built. */
  lemma ScanOther(ks: seq<LineKind>, k: LineKind)
    requires k != Step
    ensures Closed(ks + [k]) == Closed(ks)
    ensures Trailing(ks + [k]) == Trailing(ks) + (match k case Block(p) => " " + p case _ => [])
  {
    var p := Split(ks, Step);
    SplitAppend(ks, k, Step);
    var q := Split(ks + [k], Step);
    var init, last := p[..|p| - 1], p[|p| - 1];
    assert q == init + [last + [k]];
    assert q[..|q| - 1] == init;
    assert q[|q| - 1] == last + [k];
    TextAppend(last, k);
  }

  lemma TextsSnoc(segs: seq<seq<LineKind>>, seg: seq<LineKind>)
    ensures Texts(segs + [seg]) == Texts(segs) + [Text(seg)]
  {
  }

  /** The step of the statement loop for one line that is not blank, as the loop body takes it. */
  lemma ScanLine(ks: seq<LineKind>, raw: string)
    requires Strip(raw) != []
    ensures var line := Strip(raw); var ks' := ks + [Classify(raw)];
      if line == StepLine then
        Closed(ks') == Closed(ks) + [Trailing(ks)] && Trailing(ks') == []
      else if line[0] == '1' then
        Closed(ks') == Closed(ks) && Trailing(ks') == Trailing(ks) + " " + LastField(line)
      else
        Closed(ks') == Closed(ks) && Trailing(ks') == Trailing(ks)
  {
    var k := Classify(raw);
    ScanStep(ks, k);
    if k.Block? {
      assert Trailing(ks) + (" " + k.part) == Trailing(ks) + " " + k.part;
    } else if k == Ignored {
      assert Trailing(ks) + [] == Trailing(ks);
    }
  }

  /** The statement loop: None where a blank line raises IndexError. */
  method CollectStatements(lines: seq<string>) returns (r: Option<seq<string>>)
    ensures r == if Blank in Kinds(lines) then None else Some(Statements(Kinds(lines)))
  {
    var newLines: seq<string> := [];
    var newLine: string := "";
    var i := 0;
    while i < |lines|
      invariant 0 <= i <= |lines|
      invariant Blank !in Kinds(lines[..i])
      invariant newLines == Closed(Kinds(lines[..i])) && newLine == Trailing(Kinds(lines[..i]))
    {
      KindsAppend(lines, i);
      var line := Strip(lines[i]);
      if line == [] {
        KindsAt(lines, i);
        return None;
      }
      ScanLine(Kinds(lines[..i]), lines[i]);
      if line == StepLine {
        newLines := newLines + [newLine];
        newLine := "";
      } else if line[0] == '1' {
        newLine := newLine + " " + LastField(line);
      }
      i := i + 1;
    }
    assert lines[..i] == lines;
    if |newLine| > 0 {
      newLines := newLines + [newLine];
    }
    assert newLines == Statements(Kinds(lines));
    r := Some(newLines);
  }

  /** The whole of `_pre_parse_lines`, loop by loop. */
  method PreParseLines(lines: seq<string>, lits: Family) returns (r: Option<seq<string>>)
    requires NormalisedFamily(lits)
    ensures r == PreParseSpec(lines, lits)
  {
    var statements := CollectStatements(lines);
    if statements.None? {
      return None;
    }
    var result := Join(statements.value, "\n");
    result := ReplaceLiterals(result, lits);
    result := RewriteToFixpoint(Letters, result);
    result := RewriteToFixpoint(Digits, result);
    r := Some(Split(result, '\n'));
  }

  /** `for key, value in tokens["literals"].items(): ... result = result.replace(block, rep)` */
  method ReplaceLiterals(s: string, lits: Family) returns (result: string)
    requires NormalisedFamily(lits)
    ensures result == ApplyLiterals(s, lits)
  {
    result := s;
    var j := 0;
    while j < |lits|
      invariant 0 <= j <= |lits|
      invariant NormalisedFamily(lits[j..])
      invariant ApplyLiterals(result, lits[j..]) == ApplyLiterals(s, lits)
    {
      ApplyLiteralsStep(result, lits[j..]);
      assert lits[j..][0] == lits[j] && lits[j..][1..] == lits[j + 1..];
      result := ReplaceBlocks(result, lits[j].values, Rep(lits[j].name));
      j := j + 1;
    }
  }

  /** One literal: each of its block identifiers in turn is replaced by `rep`. */
  method ReplaceBlocks(s: string, blocks: seq<string>, rep: string) returns (result: string)
    requires NonEmptyAll(blocks)
    ensures result == ReplaceAll(s, blocks, rep)
  {
    result := s;
    var k := 0;
    while k < |blocks|
      invariant 0 <= k <= |blocks|
      invariant ReplaceAll(result, blocks[k..], rep) == ReplaceAll(s, blocks, rep)
    {
      assert blocks[k..][1..] == blocks[k + 1..];
      result := Replace(result, blocks[k], rep);
      k := k + 1;
    }
  }

  /** The first literal of a normalised family is applied first, and the rest stays normalised. */
  lemma ApplyLiteralsStep(s: string, lits: Family)
    requires NormalisedFamily(lits) && lits != []
    ensures NonEmptyAll(lits[0].values) && NormalisedFamily(lits[1..])
    ensures ApplyLiterals(s, lits) == ApplyLiterals(ReplaceAll(s, lits[0].values, Rep(lits[0].name)), lits[1..])
  {
    NormalisedNonEmpty(lits);
    assert forall e :: e in lits[1..] ==> e in lits;
  }

  // ----- What the result is made of -----

  /** The kind of the i-th line. */
  lemma {:induction false} KindsAt(lines: seq<string>, i: nat)
    requires i < |lines|
    ensures Kinds(lines)[i] == Classify(lines[i])
    decreases |lines|
  {
    if i < |lines| - 1 {
      assert lines[..|lines| - 1][i] == lines[i];
      KindsAt(lines[..|lines| - 1], i);
    }
  }

  /** Some line is blank exactly when some line strips to nothing. */
  lemma BlankLine(lines: seq<string>)
    ensures Blank in Kinds(lines) <==> exists i :: 0 <= i < |lines| && Strip(lines[i]) == []
  {
    var ks := Kinds(lines);
    if Blank in ks {
      var j :| 0 <= j < |ks| && ks[j] == Blank;
      KindsAt(lines, j);
    }
    if exists i :: 0 <= i < |lines| && Strip(lines[i]) == [] {
      var i :| 0 <= i < |lines| && Strip(lines[i]) == [];
      KindsAt(lines, i);
      assert ks[i] == Blank;
    }
  }

  /** The result is None exactly when some line strips to nothing. */
  lemma PreParseNone(lines: seq<string>, lits: Family)
    requires NormalisedFamily(lits)
    ensures PreParseSpec(lines, lits).None? <==> exists i :: 0 <= i < |lines| && Strip(lines[i]) == []
  {
    BlankLine(lines);
  }

  /**
   * One statement per STEP marker, and one more when text follows the last
   * marker.
   */
  lemma StatementCount(ks: seq<LineKind>)
    ensures |Statements(ks)| == Count(ks, Step) + (if Trailing(ks) != [] then 1 else 0)
  {
    SplitLength(ks, Step);
  }

  /** Two STEP markers in a row close an empty statement. */
  lemma ConsecutiveSteps(a: seq<LineKind>, b: seq<LineKind>)
    ensures var n := Count(a, Step) + 1;
      n < |Statements(a + [Step, Step] + b)| && Statements(a + [Step, Step] + b)[n] == ""
  {
    var ks := a + [Step, Step] + b;
    var segs := Split(ks, Step);
    SplitDoubleSep(a, b, Step);
    SplitLength(a, Step);
    var n := Count(a, Step) + 1;
    assert segs[n] == [] && n < |segs| - 1;
    ClosedAt(ks, n);
  }

  /** The statement closed by the n-th STEP marker (counting from 0) is the text before it. */
  lemma ClosedAt(ks: seq<LineKind>, n: nat)
    requires n < |Split(ks, Step)| - 1
    ensures n < |Statements(ks)| && Statements(ks)[n] == Text(Split(ks, Step)[n])
  {
    var segs := Split(ks, Step);
    assert Closed(ks)[n] == Text(segs[..|segs| - 1][n]);
  }

  /** A line as `readlines` gives it: a newline, if any, only at the end. */
  predicate OneLine(line: string)
  {
    forall k :: 0 <= k < |line| - 1 ==> line[k] != '\n'
  }

  /** No block identifier or literal name holds a newline. */
  predicate LiteralsOneLine(lits: Family)
  {
    forall e :: e in lits ==> '\n' !in e.name && forall b :: b in e.values ==> '\n' !in b
  }

  predicate PartsOneLine(ks: seq<LineKind>)
  {
    forall k :: k in ks && k.Block? ==> '\n' !in k.part
  }

  lemma {:induction false} KindsOneLine(lines: seq<string>)
    requires forall i :: 0 <= i < |lines| ==> OneLine(lines[i])
    ensures PartsOneLine(Kinds(lines))
    decreases |lines|
  {
    if lines != [] {
      var line := lines[|lines| - 1];
      KindsOneLine(lines[..|lines| - 1]);
      var k := Classify(line);
      if k.Block? {
        StripNoNewline(line);
        SplitElems(Strip(line), ' ');
      }
    }
  }

  lemma {:induction false} TextOneLine(seg: seq<LineKind>)
    requires PartsOneLine(seg)
    ensures '\n' !in Text(seg)
    decreases |seg|
  {
    if seg != [] {
      assert PartsOneLine(seg[..|seg| - 1]) by {
        forall k | k in seg[..|seg| - 1] ensures k in seg {
        }
      }
      TextOneLine(seg[..|seg| - 1]);
      assert seg[|seg| - 1] in seg;
    }
  }

  /** No statement holds a newline. */
  lemma StatementsOneLine(ks: seq<LineKind>)
    requires PartsOneLine(ks)
    ensures forall i :: 0 <= i < |Statements(ks)| ==> '\n' !in Statements(ks)[i]
  {
    var segs := Split(ks, Step);
    SplitElems(ks, Step);
    forall j | 0 <= j < |segs|
      ensures '\n' !in Text(segs[j])
    {
      assert PartsOneLine(segs[j]);
      TextOneLine(segs[j]);
    }
  }

  lemma {:induction false} ReplaceAllLines(a: string, b: string, blocks: seq<string>, rep: string)
    requires NonEmptyAll(blocks) && '\n' !in a && '\n' !in rep
    requires forall i :: 0 <= i < |blocks| ==> '\n' !in blocks[i]
    ensures ReplaceAll(a + "\n" + b, blocks, rep) == ReplaceAll(a, blocks, rep) + "\n" + ReplaceAll(b, blocks, rep)
    ensures '\n' !in ReplaceAll(a, blocks, rep)
    decreases |blocks|
  {
    if blocks != [] {
      ReplaceLines(a, b, blocks[0], rep);
      ReplaceKeepsOut(a, blocks[0], rep, '\n');
      ReplaceAllLines(Replace(a, blocks[0], rep), Replace(b, blocks[0], rep), blocks[1..], rep);
    }
  }

  lemma {:induction false} ApplyLiteralsLines(a: string, b: string, lits: Family)
    requires NormalisedFamily(lits) && LiteralsOneLine(lits) && '\n' !in a
    ensures ApplyLiterals(a + "\n" + b, lits) == ApplyLiterals(a, lits) + "\n" + ApplyLiterals(b, lits)
    ensures '\n' !in ApplyLiterals(a, lits)
    decreases |lits|
  {
    if lits != [] {
      NormalisedNonEmpty(lits);
      var e := lits[0];
      assert e in lits;
      assert '\n' !in Rep(e.name);
      forall i | 0 <= i < |e.values| ensures '\n' !in e.values[i] {
        assert e.values[i] in e.values;
      }
      ReplaceAllLines(a, b, e.values, Rep(e.name));
      assert NormalisedFamily(lits[1..]) && LiteralsOneLine(lits[1..]) by {
        forall x | x in lits[1..] ensures x in lits {
        }
      }
      ApplyLiteralsLines(ReplaceAll(a, e.values, Rep(e.name)), ReplaceAll(b, e.values, Rep(e.name)), lits[1..]);
    }
  }

  /** Both coalescing loops work line by line. */
  lemma CoalesceLines(a: string, b: string)
    requires '\n' !in a
    ensures Coalesce(a + "\n" + b) == Coalesce(a) + "\n" + Coalesce(b)
    ensures '\n' !in Coalesce(a)
  {
    RulesLineLocal();
    FixLines(Letters, a, b);
    FixNoNewline(Letters, a);
    FixLines(Digits, Fix(Letters, a), Fix(Letters, b));
    FixNoNewline(Digits, Fix(Letters, a));
  }

  /** What happens to one statement: its literals replaced, then both coalescing loops. */
  function Pipeline(s: string, lits: Family): string
    requires NormalisedFamily(lits)
  {
    Coalesce(ApplyLiterals(s, lits))
  }

  function PipelineAll(xs: seq<string>, lits: Family): (r: seq<string>)
    requires NormalisedFamily(lits)
    ensures |r| == |xs| && forall i :: 0 <= i < |xs| ==> r[i] == Pipeline(xs[i], lits)
  {
    seq(|xs|, i requires 0 <= i < |xs| => Pipeline(xs[i], lits))
  }

  /** One statement goes through the pipeline on its own, and stays on one line. */
  lemma PipelineCons(x: string, rest: string, lits: Family)
    requires NormalisedFamily(lits) && LiteralsOneLine(lits) && '\n' !in x
    ensures Pipeline(x + "\n" + rest, lits) == Pipeline(x, lits) + "\n" + Pipeline(rest, lits)
    ensures '\n' !in Pipeline(x, lits)
  {
    ApplyLiteralsLines(x, rest, lits);
    CoalesceLines(ApplyLiterals(x, lits), ApplyLiterals(rest, lits));
  }

  lemma PipelineAllTail(xs: seq<string>, lits: Family)
    requires NormalisedFamily(lits) && xs != []
    ensures PipelineAll(xs[1..], lits) == PipelineAll(xs, lits)[1..]
  {
  }

  lemma {:induction false} JoinPipeline(xs: seq<string>, lits: Family)
    requires NormalisedFamily(lits) && LiteralsOneLine(lits) && xs != []
    requires forall i :: 0 <= i < |xs| ==> '\n' !in xs[i]
    ensures Pipeline(Join(xs, "\n"), lits) == Join(PipelineAll(xs, lits), "\n")
    ensures forall i :: 0 <= i < |xs| ==> '\n' !in PipelineAll(xs, lits)[i]
    decreases |xs|
  {
    var ys := PipelineAll(xs, lits);
    PipelineCons(xs[0], [], lits);
    if |xs| > 1 {
      PipelineCons(xs[0], Join(xs[1..], "\n"), lits);
      JoinPipeline(xs[1..], lits);
      PipelineAllTail(xs, lits);
      forall i | 1 <= i < |xs| ensures '\n' !in ys[i] {
        assert ys[i] == ys[1..][i - 1];
      }
    }
  }

  /** The statements, or the one empty line `"".split` gives for none, are free of newlines. */
  lemma StatementsLines(lines: seq<string>)
    requires forall i :: 0 <= i < |lines| ==> OneLine(lines[i])
    ensures var stmts := Statements(Kinds(lines));
            var xs := if stmts == [] then [""] else stmts;
            forall i :: 0 <= i < |xs| ==> '\n' !in xs[i]
  {
    KindsOneLine(lines);
    StatementsOneLine(Kinds(lines));
  }

  /**
   * Statement by statement: the i-th line of the result is the i-th
   * statement with its literals replaced and both coalescing loops run on
   * it alone.  No statement is split or merged, so there are as many lines
   * as statements (one empty line when there is none).
   */
  lemma PreParseByStatement(lines: seq<string>, lits: Family)
    requires NormalisedFamily(lits) && LiteralsOneLine(lits)
    requires forall i :: 0 <= i < |lines| ==> OneLine(lines[i]) && Strip(lines[i]) != []
    ensures var stmts := Statements(Kinds(lines));
      PreParseSpec(lines, lits) == Some(PipelineAll(if stmts == [] then [""] else stmts, lits))
  {
    var ks := Kinds(lines);
    var stmts := Statements(ks);
    var xs := if stmts == [] then [""] else stmts;
    BlankLine(lines);
    StatementsLines(lines);
    JoinPipeline(xs, lits);
    SplitJoin(PipelineAll(xs, lits), '\n');
    assert Join(stmts, "\n") == Join(xs, "\n");
  }

  /** A program without statements pre-parses to a single empty line. */
  lemma EmptyProgram(lines: seq<string>, lits: Family)
    requires NormalisedFamily(lits)
    requires Blank !in Kinds(lines) && Statements(Kinds(lines)) == []
    ensures PreParseSpec(lines, lits) == Some([""])
  {
    ApplyLiteralsEmpty(lits);
    RulesLineLocal();
    assert Sub(Letters, []) == [] && Sub(Digits, []) == [];
  }

  lemma {:induction false} ApplyLiteralsEmpty(lits: Family)
    requires NormalisedFamily(lits)
    ensures ApplyLiterals([], lits) == []
    decreases |lits|
  {
    if lits != [] {
      NormalisedNonEmpty(lits);
      ReplaceAllEmpty(lits[0].values, Rep(lits[0].name));
      assert NormalisedFamily(lits[1..]) by {
        forall x | x in lits[1..] ensures x in lits {
        }
      }
      ApplyLiteralsEmpty(lits[1..]);
    }
  }

  lemma {:induction false} ReplaceAllEmpty(blocks: seq<string>, rep: string)
    requires NonEmptyAll(blocks)
    ensures ReplaceAll([], blocks, rep) == []
    decreases |blocks|
  {
    if blocks != [] {
      ReplaceAllEmpty(blocks[1..], rep);
    }
  }
}
