/**
 * The two regular-expression rewrites of the pre-parser, written out as
 * scanners, and the "rewrite until the length stops changing" loop.
 *
 *   Letters:  re.sub(r"'([a-zA-Z]+)' '([a-zA-Z]+)'", r"'\1\2'", s)
 *   Digits:   re.sub(r" (\d+) (\d+) ", r"'\1\2'", s)
 *
 * Both patterns have the shape  Q (C+) M (C+) Q : a quote character Q, a
 * run of the class C, a middle text M, a second run, and Q again.  Each run
 * is greedy and is followed by a character outside C, so it is the longest
 * run there and a match, when one starts at a position, is unique.
 * `re.sub` scans left to right and does not overlap matches.
 */
module Rewrite {
  import opened Wrappers

  /** A pattern of the shape above; the class C is the union of two character ranges. */
  datatype Rule = Rule(quote: char, mid: string, lo: char, hi: char, lo2: char, hi2: char)

  /** `'([a-zA-Z]+)' '([a-zA-Z]+)'` */
  const Letters := Rule('\'', "' '", 'a', 'z', 'A', 'Z')

  /** ` (\d+) (\d+) ` */
  const Digits := Rule(' ', " ", '0', '9', '0', '9')

  predicate InClass(rule: Rule, c: char)
  {
    rule.lo <= c <= rule.hi || rule.lo2 <= c <= rule.hi2
  }

  /** Length of the longest prefix of `s` inside the class (a greedy run). */
  function Run(rule: Rule, s: string): (n: nat)
    ensures n <= |s|
    ensures n == |s| || !InClass(rule, s[n])
  {
    if s != [] && InClass(rule, s[0]) then 1 + Run(rule, s[1..]) else 0
  }

  /** Every character of a run is in the class. */
  lemma {:induction false} RunInClass(rule: Rule, s: string)
    ensures forall k :: 0 <= k < Run(rule, s) ==> InClass(rule, s[k])
    decreases |s|
  {
    if s != [] && InClass(rule, s[0]) {
      RunInClass(rule, s[1..]);
      forall k | 0 < k < Run(rule, s)
        ensures InClass(rule, s[k])
      {
        assert s[k] == s[1..][k - 1];
      }
    }
  }

  /** A match: its length and its two groups. */
  datatype Match = Match(len: nat, first: string, second: string)

  /** `'\1\2'`: both groups, run together, in single quotes. */
  function Replacement(m: Match): string
  {
    "'" + m.first + m.second + "'"
  }

  /** The pattern matched at the very start of `s`, if it matches there. */
  function MatchAt(rule: Rule, s: string): (m: Option<Match>)
    ensures m.Some? ==> 0 < m.value.len <= |s|
    ensures m.Some? ==> |Replacement(m.value)| + |rule.mid| == m.value.len
  {
    if s == [] || s[0] != rule.quote then None else Groups(rule, s, 1 + Run(rule, s[1..]))
  }

  /** The rest of a match whose first group is `s[1..p]`. */
  function Groups(rule: Rule, s: string, p: nat): (m: Option<Match>)
    requires 1 <= p <= |s|
  {
    var q0 := p + |rule.mid|;
    if p == 1 || q0 > |s| || s[p..q0] != rule.mid then None
    else Closing(rule, s, p, q0 + Run(rule, s[q0..]))
  }

  /** The end of a match whose groups are `s[1..p]` and `s[p + |mid|..q]`. */
  function Closing(rule: Rule, s: string, p: nat, q: nat): (m: Option<Match>)
    requires 1 <= p && p + |rule.mid| <= q <= |s|
  {
    var q0 := p + |rule.mid|;
    if q == q0 || q == |s| || s[q] != rule.quote then None
    else Some(Match(q + 1, s[1..p], s[q0..q]))
  }

  /** No match starts anywhere in `s`. */
  predicate NoMatch(rule: Rule, s: string)
    decreases |s|
  {
    s == [] || (MatchAt(rule, s).None? && NoMatch(rule, s[1..]))
  }

  /** One `re.sub` pass: each match, found scanning left to right, is replaced. */
  function Sub(rule: Rule, s: string): (r: string)
    ensures |r| <= |s|
    decreases |s|
  {
    if s == [] then []
    else match MatchAt(rule, s)
      case Some(m) => Replacement(m) + Sub(rule, s[m.len..])
      case None => [s[0]] + Sub(rule, s[1..])
  }

  /**
   * A pass leaves the text as it is exactly when nothing matches in it, and
   * otherwise shrinks it by at least the length of the middle text.
   */
  lemma {:induction false} SubShrinks(rule: Rule, s: string)
    ensures NoMatch(rule, s) ==> Sub(rule, s) == s
    ensures !NoMatch(rule, s) ==> |Sub(rule, s)| + |rule.mid| <= |s|
    decreases |s|
  {
    if s != [] {
      match MatchAt(rule, s)
      case Some(m) =>
        SubSome(rule, s, m);
      case None =>
        SubNone(rule, s);
        SubShrinks(rule, s[1..]);
    }
  }

  /**
   * The `while change != len(result)` loop: rewrite until a pass leaves the
   * length unchanged.
   */
  function Fix(rule: Rule, s: string): (r: string)
    requires rule.mid != []
    ensures |r| <= |s|
    decreases |s|
  {
    var t := Sub(rule, s);
    if |t| == |s| then s else Fix(rule, t)
  }

  /**
   * The loop as the pre-parser runs it: `change` starts at 0 and holds the
   * length before the latest pass.
   */
  method RewriteToFixpoint(rule: Rule, s: string) returns (r: string)
    requires rule.mid != []
    ensures r == Fix(rule, s)
  {
    r := s;
    var change := 0;
    while change != |r|
      invariant change == |r| ==> r == Fix(rule, s)
      invariant change != |r| ==> Fix(rule, r) == Fix(rule, s)
      decreases |r| + (if change != |r| then 1 else 0)
    {
      change := |r|;
      var t := Sub(rule, r);
      if |t| == |r| {
        SubShrinks(rule, r);
      }
      r := t;
    }
  }

  /** The loop stops at a fixed point: nothing matches in its result. */
  lemma {:induction false} FixFixed(rule: Rule, s: string)
    requires rule.mid != []
    ensures NoMatch(rule, Fix(rule, s)) && Sub(rule, Fix(rule, s)) == Fix(rule, s)
    decreases |s|
  {
    var t := Sub(rule, s);
    if |t| == |s| {
      SubShrinks(rule, s);
    } else {
      FixFixed(rule, t);
    }
  }

  lemma SubNone(rule: Rule, s: string)
    requires s != [] && MatchAt(rule, s) == None
    ensures Sub(rule, s) == [s[0]] + Sub(rule, s[1..])
  {
  }

  lemma SubSome(rule: Rule, s: string, m: Match)
    requires MatchAt(rule, s) == Some(m)
    ensures Sub(rule, s) == Replacement(m) + Sub(rule, s[m.len..])
  {
  }

  // ----- Matches do not cross a character outside the pattern -----

  /** A character no part of the pattern can match. */
  predicate Stop(rule: Rule, c: char)
  {
    !InClass(rule, c) && c != rule.quote && c !in rule.mid
  }

  /** `s` continues `a` with a character that stops every match. */
  predicate Stopped(rule: Rule, s: string, a: string)
  {
    |a| < |s| && s[..|a|] == a && Stop(rule, s[|a|])
  }

  lemma {:induction false} RunStopped(rule: Rule, s: string, a: string, i: nat)
    requires Stopped(rule, s, a) && i <= |a|
    ensures Run(rule, s[i..]) == Run(rule, a[i..])
    decreases |a| - i
  {
    assert s[i] == if i < |a| then a[i] else s[|a|];
    if i < |a| && InClass(rule, a[i]) {
      assert s[i..][1..] == s[i + 1..] && a[i..][1..] == a[i + 1..];
      RunStopped(rule, s, a, i + 1);
    }
  }

  lemma ClosingStopped(rule: Rule, s: string, a: string, p: nat, q: nat)
    requires Stopped(rule, s, a) && 1 <= p && p + |rule.mid| <= q <= |a|
    ensures Closing(rule, s, p, q) == Closing(rule, a, p, q)
  {
    assert forall k :: 0 <= k < |a| ==> s[k] == a[k];
    if q < |a| {
      assert s[q] == a[q];
    }
    assert s[1..p] == a[1..p] && s[p + |rule.mid|..q] == a[p + |rule.mid|..q];
  }

  lemma GroupsStopped(rule: Rule, s: string, a: string, p: nat)
    requires Stopped(rule, s, a) && 1 <= p <= |a|
    ensures Groups(rule, s, p) == Groups(rule, a, p)
  {
    var q0 := p + |rule.mid|;
    if p == 1 {
      return;
    }
    if q0 > |a| {
      GroupsPastEnd(rule, s, a, p);
      return;
    }
    MidStopped(rule, s, a, p, q0);
    if a[p..q0] != rule.mid {
      return;
    }
    RunStopped(rule, s, a, q0);
    var q := q0 + Run(rule, a[q0..]);
    GroupsClosing(rule, s, p, q);
    GroupsClosing(rule, a, p, q);
    ClosingStopped(rule, s, a, p, q);
  }

  /** Once the separator is found, the match is decided by where the second run ends. */
  lemma GroupsClosing(rule: Rule, s: string, p: nat, q: nat)
    requires 1 < p && p + |rule.mid| <= |s| && s[p..p + |rule.mid|] == rule.mid
    requires q == p + |rule.mid| + Run(rule, s[p + |rule.mid|..])
    ensures Groups(rule, s, p) == Closing(rule, s, p, q)
  {
  }

  /** A separator cannot reach over the stopping character. */
  lemma GroupsPastEnd(rule: Rule, s: string, a: string, p: nat)
    requires Stopped(rule, s, a) && 1 < p <= |a| && p + |rule.mid| > |a|
    ensures Groups(rule, s, p).None? && Groups(rule, a, p).None?
  {
    var q0 := p + |rule.mid|;
    if q0 <= |s| {
      assert s[p..q0][|a| - p] == s[|a|];
    }
  }

  lemma MidStopped(rule: Rule, s: string, a: string, p: nat, q0: nat)
    requires Stopped(rule, s, a) && p <= q0 <= |a|
    ensures s[p..q0] == a[p..q0]
  {
    assert forall k :: 0 <= k < |a| ==> s[k] == a[k];
  }

  lemma MatchStopped(rule: Rule, s: string, a: string)
    requires Stopped(rule, s, a)
    ensures MatchAt(rule, s) == MatchAt(rule, a)
  {
    if a == [] || a[0] != rule.quote {
      assert s[0] == if a == [] then s[|a|] else a[0];
      return;
    }
    assert s[0] == a[0];
    RunStopped(rule, s, a, 1);
    GroupsStopped(rule, s, a, 1 + Run(rule, a[1..]));
  }

  // ----- Both rewrites work line by line -----

  /** A pattern that cannot match a line break. */
  predicate LineLocal(rule: Rule)
  {
    Stop(rule, '\n')
  }

  lemma DropLine(a: string, b: string, k: nat)
    requires k <= |a|
    ensures (a + "\n" + b)[k..] == a[k..] + "\n" + b
  {
  }

  /** A match never crosses a line break: whether one starts here depends on this line only. */
  lemma MatchNewline(rule: Rule, a: string, b: string)
    requires LineLocal(rule)
    ensures MatchAt(rule, a + "\n" + b) == MatchAt(rule, a)
  {
    var s := a + "\n" + b;
    assert s[..|a|] == a && s[|a|] == '\n';
    MatchStopped(rule, s, a);
  }

  /** Regrouping around a line break, over plain strings. */
  lemma LineJoin(s1: string, r: string, x: string, y: string, z: string, a1: string)
    requires s1 == r + x && x == y + "\n" + z && a1 == r + y
    ensures s1 == a1 + "\n" + z
  {
  }

  lemma SubLinesEmpty(rule: Rule, b: string)
    requires LineLocal(rule)
    ensures Sub(rule, [] + "\n" + b) == Sub(rule, []) + "\n" + Sub(rule, b)
  {
    var s := "\n" + b;
    assert [] + "\n" + b == s && s[1..] == b;
    SubNone(rule, s);
  }

  lemma SubLinesNone(rule: Rule, a: string, b: string)
    requires LineLocal(rule) && a != [] && MatchAt(rule, a) == None
    requires Sub(rule, a[1..] + "\n" + b) == Sub(rule, a[1..]) + "\n" + Sub(rule, b)
    ensures Sub(rule, a + "\n" + b) == Sub(rule, a) + "\n" + Sub(rule, b)
  {
    var s := a + "\n" + b;
    assert Sub(rule, s) == [a[0]] + Sub(rule, a[1..] + "\n" + b) by {
      MatchNewline(rule, a, b);
      SubNone(rule, s);
      DropLine(a, b, 1);
    }
    assert Sub(rule, a) == [a[0]] + Sub(rule, a[1..]) by {
      SubNone(rule, a);
    }
    LineJoin(Sub(rule, s), [a[0]], Sub(rule, a[1..] + "\n" + b), Sub(rule, a[1..]), Sub(rule, b), Sub(rule, a));
  }

  lemma SubLinesSome(rule: Rule, a: string, b: string, m: Match)
    requires LineLocal(rule) && MatchAt(rule, a) == Some(m)
    requires Sub(rule, a[m.len..] + "\n" + b) == Sub(rule, a[m.len..]) + "\n" + Sub(rule, b)
    ensures Sub(rule, a + "\n" + b) == Sub(rule, a) + "\n" + Sub(rule, b)
  {
    var s := a + "\n" + b;
    assert Sub(rule, s) == Replacement(m) + Sub(rule, a[m.len..] + "\n" + b) by {
      MatchNewline(rule, a, b);
      SubSome(rule, s, m);
      DropLine(a, b, m.len);
    }
    assert Sub(rule, a) == Replacement(m) + Sub(rule, a[m.len..]) by {
      SubSome(rule, a, m);
    }
    LineJoin(Sub(rule, s), Replacement(m), Sub(rule, a[m.len..] + "\n" + b), Sub(rule, a[m.len..]), Sub(rule, b), Sub(rule, a));
  }

  /** One pass works line by line. */
  lemma {:induction false} SubLines(rule: Rule, a: string, b: string)
    requires LineLocal(rule) && '\n' !in a
    ensures Sub(rule, a + "\n" + b) == Sub(rule, a) + "\n" + Sub(rule, b)
    decreases |a|
  {
    if a == [] {
      SubLinesEmpty(rule, b);
    } else {
      match MatchAt(rule, a)
      case Some(m) =>
        assert '\n' !in a[m.len..];
        SubLines(rule, a[m.len..], b);
        SubLinesSome(rule, a, b, m);
      case None =>
        assert '\n' !in a[1..];
        SubLines(rule, a[1..], b);
        SubLinesNone(rule, a, b);
    }
  }

  /** The groups of a match are text of the string it matched, so a character absent from it stays absent. */
  lemma ReplacementWithout(rule: Rule, s: string, m: Match, c: char)
    requires MatchAt(rule, s) == Some(m) && c !in s && c != '\''
    ensures c !in Replacement(m)
  {
    MatchGroups(rule, s, m);
    var q0 := 1 + |m.first| + |rule.mid|;
    SliceOut(s, 1, 1 + |m.first|, c);
    SliceOut(s, q0, q0 + |m.second|, c);
  }

  /** Where the two groups of a match sit in the matched text. */
  lemma MatchGroups(rule: Rule, s: string, m: Match)
    requires MatchAt(rule, s) == Some(m)
    ensures 1 + |m.first| + |rule.mid| + |m.second| <= |s|
    ensures m.first == s[1..1 + |m.first|]
    ensures m.second == s[1 + |m.first| + |rule.mid|..1 + |m.first| + |rule.mid| + |m.second|]
  {
    MatchLayout(rule, s, m);
  }

  /** What `Groups` checks when it finds a match after a first group `s[1..p]`. */
  lemma GroupsLayout(rule: Rule, s: string, p: nat, m: Match)
    requires 1 <= p <= |s| && Groups(rule, s, p) == Some(m)
    ensures 1 < p && p + |rule.mid| <= |s| && s[p..p + |rule.mid|] == rule.mid
    ensures m.first == s[1..p]
    ensures |m.second| == Run(rule, s[p + |rule.mid|..]) > 0
    ensures m.len == p + |rule.mid| + |m.second| + 1 <= |s|
    ensures m.second == s[p + |rule.mid|..p + |rule.mid| + |m.second|]
    ensures s[p + |rule.mid| + |m.second|] == rule.quote
  {
    var q0 := p + |rule.mid|;
    var q := q0 + Run(rule, s[q0..]);
    assert Groups(rule, s, p) == Closing(rule, s, p, q);
  }

  /** The characters of a run are all in the class. */
  lemma RunGroup(rule: Rule, s: string, i: nat, n: nat)
    requires i + n <= |s| && n == Run(rule, s[i..]) > 0
    ensures Group(rule, s[i..i + n])
  {
    RunInClass(rule, s[i..]);
    var w := s[i..i + n];
    forall k | 0 <= k < |w|
      ensures InClass(rule, w[k])
    {
      assert w[k] == s[i..][k];
    }
  }

  /**
   * A match is laid out as the pattern says: a quote, a non-empty run of
   * the class (the whole run there), the middle text, a second non-empty
   * run, and the closing quote, which ends the match.
   */
  lemma MatchLayout(rule: Rule, s: string, m: Match)
    requires MatchAt(rule, s) == Some(m)
    ensures 1 + |m.first| == 1 + Run(rule, s[1..])
    ensures m.len == 1 + |m.first| + |rule.mid| + |m.second| + 1 <= |s|
    ensures s[0] == rule.quote && s[1..1 + |m.first|] == m.first && Group(rule, m.first)
    ensures s[1 + |m.first|..1 + |m.first| + |rule.mid|] == rule.mid
    ensures var b := 1 + |m.first| + |rule.mid|;
            s[b..b + |m.second|] == m.second && Group(rule, m.second)
    ensures s[m.len - 1] == rule.quote
  {
    MatchAtSome(rule, s, m);
    GroupsLaidOut(rule, s, Run(rule, s[1..]), m);
  }

  /** The layout of a match, from the first run of length `n` onward. */
  lemma GroupsLaidOut(rule: Rule, s: string, n: nat, m: Match)
    requires s != [] && s[0] == rule.quote && n == Run(rule, s[1..]) && 1 + n <= |s|
    requires Groups(rule, s, 1 + n) == Some(m)
    ensures 1 + |m.first| == 1 + n
    ensures m.len == 1 + |m.first| + |rule.mid| + |m.second| + 1 <= |s|
    ensures s[0] == rule.quote && s[1..1 + |m.first|] == m.first && Group(rule, m.first)
    ensures s[1 + |m.first|..1 + |m.first| + |rule.mid|] == rule.mid
    ensures var b := 1 + |m.first| + |rule.mid|;
            s[b..b + |m.second|] == m.second && Group(rule, m.second)
    ensures s[m.len - 1] == rule.quote
  {
    GroupsLayout(rule, s, 1 + n, m);
    PartsLaidOut(rule, s, n, m);
  }

  /** The layout of a match from what `Groups` checked, the first run being of length `n`. */
  lemma PartsLaidOut(rule: Rule, s: string, n: nat, m: Match)
    requires s != [] && s[0] == rule.quote && n == Run(rule, s[1..])
    requires 1 < 1 + n && 1 + n + |rule.mid| <= |s| && s[1 + n..1 + n + |rule.mid|] == rule.mid
    requires m.first == s[1..1 + n]
    requires |m.second| == Run(rule, s[1 + n + |rule.mid|..]) > 0
    requires m.len == 1 + n + |rule.mid| + |m.second| + 1 <= |s|
    requires m.second == s[1 + n + |rule.mid|..1 + n + |rule.mid| + |m.second|]
    requires s[1 + n + |rule.mid| + |m.second|] == rule.quote
    ensures 1 + |m.first| == 1 + n
    ensures m.len == 1 + |m.first| + |rule.mid| + |m.second| + 1 <= |s|
    ensures s[0] == rule.quote && s[1..1 + |m.first|] == m.first && Group(rule, m.first)
    ensures s[1 + |m.first|..1 + |m.first| + |rule.mid|] == rule.mid
    ensures var b := 1 + |m.first| + |rule.mid|;
            s[b..b + |m.second|] == m.second && Group(rule, m.second)
    ensures s[m.len - 1] == rule.quote
  {
    RunGroup(rule, s, 1, n);
    RunGroup(rule, s, 1 + n + |rule.mid|, |m.second|);
    LayoutOfParts(rule, s, n, m);
  }

  /** The layout of a match, read off the slices `Groups` checked. */
  lemma LayoutOfParts(rule: Rule, s: string, n: nat, m: Match)
    requires s != [] && s[0] == rule.quote
    requires 1 < 1 + n && 1 + n + |rule.mid| <= |s| && s[1 + n..1 + n + |rule.mid|] == rule.mid
    requires m.first == s[1..1 + n] && Group(rule, s[1..1 + n])
    requires m.len == 1 + n + |rule.mid| + |m.second| + 1 <= |s|
    requires m.second == s[1 + n + |rule.mid|..1 + n + |rule.mid| + |m.second|]
    requires Group(rule, s[1 + n + |rule.mid|..1 + n + |rule.mid| + |m.second|])
    requires s[1 + n + |rule.mid| + |m.second|] == rule.quote
    ensures 1 + |m.first| == 1 + n
    ensures m.len == 1 + |m.first| + |rule.mid| + |m.second| + 1 <= |s|
    ensures s[0] == rule.quote && s[1..1 + |m.first|] == m.first && Group(rule, m.first)
    ensures s[1 + |m.first|..1 + |m.first| + |rule.mid|] == rule.mid
    ensures var b := 1 + |m.first| + |rule.mid|;
            s[b..b + |m.second|] == m.second && Group(rule, m.second)
    ensures s[m.len - 1] == rule.quote
  {
  }

  lemma SliceOut(s: string, i: nat, j: nat, c: char)
    requires i <= j <= |s| && c !in s
    ensures c !in s[i..j]
  {
    assert forall k :: 0 <= k < j - i ==> s[i..j][k] == s[i + k];
  }

  /** A pass never creates a line break. */
  lemma {:induction false} SubNoNewline(rule: Rule, s: string)
    requires '\n' !in s
    ensures '\n' !in Sub(rule, s)
    decreases |s|
  {
    if s != [] {
      match MatchAt(rule, s)
      case Some(m) =>
        SubSome(rule, s, m);
        ReplacementWithout(rule, s, m, '\n');
        assert '\n' !in s[m.len..];
        SubNoNewline(rule, s[m.len..]);
      case None =>
        SubNone(rule, s);
        assert '\n' !in s[1..];
        SubNoNewline(rule, s[1..]);
    }
  }

  /** So does rewriting to a fixed point. */
  lemma {:induction false} FixLines(rule: Rule, a: string, b: string)
    requires LineLocal(rule) && rule.mid != [] && '\n' !in a
    ensures Fix(rule, a + "\n" + b) == Fix(rule, a) + "\n" + Fix(rule, b)
    decreases |a| + |b|
  {
    SubLines(rule, a, b);
    var a', b' := Sub(rule, a), Sub(rule, b);
    if |a'| + |b'| < |a| + |b| {
      SubNoNewline(rule, a);
      FixLines(rule, a', b');
      assert Fix(rule, a) == Fix(rule, a') by {
        if |a'| == |a| {
          SubShrinks(rule, a);
        }
      }
      assert Fix(rule, b) == Fix(rule, b') by {
        if |b'| == |b| {
          SubShrinks(rule, b);
        }
      }
    }
  }

  /** Rewriting to a fixed point never creates a line break either. */
  lemma {:induction false} FixNoNewline(rule: Rule, s: string)
    requires rule.mid != [] && '\n' !in s
    ensures '\n' !in Fix(rule, s)
    decreases |s|
  {
    SubNoNewline(rule, s);
    if |Sub(rule, s)| != |s| {
      FixNoNewline(rule, Sub(rule, s));
    }
  }

  /** Neither rewrite can match across a line break. */
  lemma RulesLineLocal()
    ensures LineLocal(Letters) && LineLocal(Digits)
    ensures Letters.mid != [] && Digits.mid != []
  {
  }

  // ----- Text the pattern cannot start in -----

  /** Text without the quote character passes through a pass untouched. */
  lemma {:induction false} SubPrefix(rule: Rule, p: string, x: string)
    requires rule.quote !in p
    ensures Sub(rule, p + x) == p + Sub(rule, x)
    decreases |p|
  {
    if p == [] {
      assert p + x == x;
    } else {
      var s := p + x;
      assert s[0] == p[0] && s[1..] == p[1..] + x;
      SubNone(rule, s);
      SubPrefix(rule, p[1..], x);
      ConsJoin(p, Sub(rule, x));
    }
  }

  lemma ConsJoin(p: string, y: string)
    requires p != []
    ensures [p[0]] + (p[1..] + y) == p + y
  {
  }

  /** Text without the quote character is left as it is by the loop. */
  lemma SubFree(rule: Rule, x: string)
    requires rule.quote !in x && rule.mid != []
    ensures Sub(rule, x) == x && Fix(rule, x) == x
  {
    SubPrefix(rule, x, []);
    assert x + [] == x;
  }

  // ----- Two groups next to each other -----

  /** A non-empty run of the class. */
  predicate Group(rule: Rule, w: string)
  {
    w != [] && forall k :: 0 <= k < |w| ==> InClass(rule, w[k])
  }

  /** A run ends at the character after a group. */
  lemma {:induction false} GroupRun(rule: Rule, w: string, rest: string)
    requires Group(rule, w) && rest != [] && !InClass(rule, rest[0])
    ensures Run(rule, w + rest) == |w|
    decreases |w|
  {
    var s := w + rest;
    assert s[0] == w[0] && s[1..] == w[1..] + rest;
    if |w| > 1 {
      GroupRun(rule, w[1..], rest);
    } else {
      assert s[1..] == rest;
    }
  }

  /** Where the parts of a written-out match sit. */
  lemma PairLayout(q: char, x: string, mid: string, y: string, rest: string)
    ensures var s := [q] + x + mid + y + [q] + rest;
      var p := 1 + |x|;
      var q0 := p + |mid|;
      s[0] == q && s[1..] == x + (mid + y + [q] + rest) && |s| == |x| + |mid| + |y| + |rest| + 2 &&
      s[p..q0] == mid && s[q0..] == y + ([q] + rest) && s[q0 + |y|] == q &&
      s[1..p] == x && s[q0..q0 + |y|] == y && s[q0 + |y| + 1..] == rest &&
      s[1..][..|x|] == x && s[q0..][..|y|] == y
  {
  }

  /** A match opens with the quote and continues with `Groups` after the whole first run. */
  lemma MatchAtSome(rule: Rule, s: string, m: Match)
    requires MatchAt(rule, s) == Some(m)
    ensures s != [] && s[0] == rule.quote && 1 + Run(rule, s[1..]) <= |s|
    ensures Groups(rule, s, 1 + Run(rule, s[1..])) == Some(m)
  {
  }

  /** The three stages of a match, each one step at a time. */
  lemma MatchAtStart(rule: Rule, s: string, n: nat)
    requires s != [] && s[0] == rule.quote && Run(rule, s[1..]) == n
    ensures MatchAt(rule, s) == Groups(rule, s, 1 + n)
  {
  }

  lemma GroupsAt(rule: Rule, s: string, p: nat, n: nat)
    requires 1 < p && p + |rule.mid| <= |s| && s[p..p + |rule.mid|] == rule.mid
    requires Run(rule, s[p + |rule.mid|..]) == n
    ensures Groups(rule, s, p) == Closing(rule, s, p, p + |rule.mid| + n)
  {
    var q0 := p + |rule.mid|;
    assert !(p == 1 || q0 > |s| || s[p..q0] != rule.mid);
  }

  lemma GroupsSome(rule: Rule, s: string, p: nat, n: nat, m: Match)
    requires 1 < p && p + |rule.mid| <= |s| && s[p..p + |rule.mid|] == rule.mid
    requires Run(rule, s[p + |rule.mid|..]) == n
    requires p + |rule.mid| + n <= |s| && Closing(rule, s, p, p + |rule.mid| + n) == Some(m)
    ensures Groups(rule, s, p) == Some(m)
  {
    GroupsAt(rule, s, p, n);
  }

  lemma ClosingAt(rule: Rule, s: string, p: nat, q: nat)
    requires 1 <= p && p + |rule.mid| < q < |s| && s[q] == rule.quote
    ensures Closing(rule, s, p, q) == Some(Match(q + 1, s[1..p], s[p + |rule.mid|..q]))
  {
  }

  /** A run stops right after a group that starts the text. */
  lemma {:induction false} RunOverGroup(rule: Rule, u: string, w: string)
    requires Group(rule, w) && |w| < |u| && u[..|w|] == w && !InClass(rule, u[|w|])
    ensures Run(rule, u) == |w|
    decreases |w|
  {
    if |w| > 1 {
      assert u[1..][..|w| - 1] == w[1..];
      RunOverGroup(rule, u[1..], w[1..]);
    }
  }

  /** A text laid out as the pattern around two whole runs matches with exactly those runs. */
  lemma MatchLaidOut(rule: Rule, s: string, x: string, y: string)
    requires x != [] && y != [] && |x| + |rule.mid| + |y| + 2 <= |s| && s[0] == rule.quote
    requires s[1 + |x|..1 + |x| + |rule.mid|] == rule.mid && s[1 + |x| + |rule.mid| + |y|] == rule.quote
    requires s[1..1 + |x|] == x && s[1 + |x| + |rule.mid|..1 + |x| + |rule.mid| + |y|] == y
    requires Run(rule, s[1..]) == |x| && Run(rule, s[1 + |x| + |rule.mid|..]) == |y|
    ensures MatchAt(rule, s) == Some(Match(|x| + |y| + |rule.mid| + 2, x, y))
  {
    GroupsFound(rule, s, x, y);
    MatchAtStart(rule, s, |x|);
  }

  /** After a first group `x`, the rest of a laid-out text is found by `Groups`. */
  lemma GroupsFound(rule: Rule, s: string, x: string, y: string)
    requires x != [] && y != [] && |x| + |rule.mid| + |y| + 2 <= |s|
    requires s[1 + |x|..1 + |x| + |rule.mid|] == rule.mid && s[1 + |x| + |rule.mid| + |y|] == rule.quote
    requires s[1..1 + |x|] == x && s[1 + |x| + |rule.mid|..1 + |x| + |rule.mid| + |y|] == y
    requires Run(rule, s[1 + |x| + |rule.mid|..]) == |y|
    ensures Groups(rule, s, 1 + |x|) == Some(Match(|x| + |y| + |rule.mid| + 2, x, y))
  {
    var p := 1 + |x|;
    var q0 := p + |rule.mid|;
    var q := q0 + |y|;
    var m := Match(q + 1, x, y);
    ClosingAt(rule, s, p, q);
    assert Closing(rule, s, p, q) == Some(m);
    GroupsSome(rule, s, p, |y|, m);
  }

  /** Both groups of a laid-out match are whole runs. */
  lemma LaidOutRuns(rule: Rule, s: string, x: string, y: string)
    requires Group(rule, x) && Group(rule, y)
    requires rule.mid != [] && !InClass(rule, rule.mid[0]) && !InClass(rule, rule.quote)
    requires |x| + |rule.mid| + |y| + 2 <= |s|
    requires s[1..][..|x|] == x && s[1 + |x|..1 + |x| + |rule.mid|] == rule.mid
    requires s[1 + |x| + |rule.mid|..][..|y|] == y && s[1 + |x| + |rule.mid| + |y|] == rule.quote
    ensures Run(rule, s[1..]) == |x| && Run(rule, s[1 + |x| + |rule.mid|..]) == |y|
  {
    var q0 := 1 + |x| + |rule.mid|;
    assert s[1..][|x|] == rule.mid[0];
    RunOverGroup(rule, s[1..], x);
    assert s[q0..][|y|] == rule.quote;
    RunOverGroup(rule, s[q0..], y);
  }

  /** The pattern, written out around two groups, matches with exactly those groups. */
  lemma MatchPair(rule: Rule, x: string, y: string, rest: string)
    requires Group(rule, x) && Group(rule, y)
    requires rule.mid != [] && !InClass(rule, rule.mid[0]) && !InClass(rule, rule.quote)
    ensures MatchAt(rule, [rule.quote] + x + rule.mid + y + [rule.quote] + rest)
         == Some(Match(|x| + |y| + |rule.mid| + 2, x, y))
  {
    var s := [rule.quote] + x + rule.mid + y + [rule.quote] + rest;
    PairLayout(rule.quote, x, rule.mid, y, rest);
    LaidOutRuns(rule, s, x, y);
    MatchLaidOut(rule, s, x, y);
  }

  /** One pass over the written-out pattern rewrites it and goes on after it. */
  lemma SubPair(rule: Rule, x: string, y: string, rest: string)
    requires Group(rule, x) && Group(rule, y)
    requires rule.mid != [] && !InClass(rule, rule.mid[0]) && !InClass(rule, rule.quote)
    ensures Sub(rule, [rule.quote] + x + rule.mid + y + [rule.quote] + rest)
         == "'" + x + y + "'" + Sub(rule, rest)
  {
    var s := [rule.quote] + x + rule.mid + y + [rule.quote] + rest;
    var m := Match(|x| + |y| + |rule.mid| + 2, x, y);
    MatchPair(rule, x, y, rest);
    PairLayout(rule.quote, x, rule.mid, y, rest);
    SubSome(rule, s, m);
  }

  // ----- The letter rule: quoted words next to each other run together -----

  predicate AllWords(ws: seq<string>)
  {
    forall i :: 0 <= i < |ws| ==> Group(Letters, ws[i])
  }

  /** `'w1' 'w2' ... 'wn'`: quoted words separated by single spaces. */
  function Quoted(ws: seq<string>): string
    requires ws != []
  {
    if |ws| == 1 then "'" + ws[0] + "'" else "'" + ws[0] + "' " + Quoted(ws[1..])
  }

  function Concat(ws: seq<string>): string
  {
    if ws == [] then [] else ws[0] + Concat(ws[1..])
  }

  /** What one pass does to a run of quoted words: neighbours merge pairwise. */
  function PairUp(ws: seq<string>): (r: seq<string>)
    ensures |r| == (|ws| + 1) / 2
    ensures AllWords(ws) ==> AllWords(r)
    ensures Concat(r) == Concat(ws)
  {
    if |ws| < 2 then ws
    else
      var r := [ws[0] + ws[1]] + PairUp(ws[2..]);
      assert r[1..] == PairUp(ws[2..]);
      assert ws[1..][1..] == ws[2..];
      assert Concat(r) == Concat(ws) by {
        calc {
          Concat(r);
          (ws[0] + ws[1]) + Concat(ws[2..]);
          ws[0] + (ws[1] + Concat(ws[1..][1..]));
          ws[0] + Concat(ws[1..]);
        }
      }
      assert AllWords(ws) ==> AllWords(r) by {
        if AllWords(ws) {
          assert AllWords(ws[2..]) by {
            forall j | 0 <= j < |ws[2..]| ensures Group(Letters, ws[2..][j]) {
              assert ws[2..][j] == ws[j + 2];
            }
          }
          forall i | 0 <= i < |r| ensures Group(Letters, r[i]) {
            if i > 0 {
              assert r[i] == PairUp(ws[2..])[i - 1];
            } else {
              assert Group(Letters, ws[0]) && Group(Letters, ws[1]);
            }
          }
        }
      }
      r
  }

  lemma {:induction false} QuotedLength(ws: seq<string>)
    requires ws != []
    ensures |Quoted(ws)| == 3 * |ws| - 1 + |Concat(ws)|
  {
    if |ws| > 1 {
      QuotedLength(ws[1..]);
    }
  }

  lemma QuotedShape(a: string, b: string, c: string, t: string)
    ensures ("'" + a + "' " + ("'" + b + "' " + c)) + t
         == [Letters.quote] + a + Letters.mid + b + [Letters.quote] + (" " + (c + t))
  {
  }

  lemma QuotedShapeLast(a: string, b: string, t: string)
    ensures ("'" + a + "' " + ("'" + b + "'")) + t
         == [Letters.quote] + a + Letters.mid + b + [Letters.quote] + t
  {
  }

  /** Two quoted words, written out as the letter pattern. */
  lemma QuotedPairLast(ws: seq<string>, t: string)
    requires |ws| == 2
    ensures Quoted(ws) + t == [Letters.quote] + ws[0] + Letters.mid + ws[1] + [Letters.quote] + t
  {
    assert Quoted(ws[1..]) == "'" + ws[1] + "'";
    QuotedShapeLast(ws[0], ws[1], t);
  }

  /** The first two words of a longer quoted run, written out as the letter pattern. */
  lemma QuotedPair(ws: seq<string>, t: string)
    requires |ws| > 2
    ensures Quoted(ws) + t
         == [Letters.quote] + ws[0] + Letters.mid + ws[1] + [Letters.quote] + (" " + (Quoted(ws[2..]) + t))
  {
    assert ws[1..][1..] == ws[2..];
    assert Quoted(ws[1..]) == "'" + ws[1] + "' " + Quoted(ws[2..]);
    QuotedShape(ws[0], ws[1], Quoted(ws[2..]), t);
  }

  /** A quote followed by text without quotes starts no letter match. */
  lemma QuoteNoMatch(t: string)
    requires '\'' !in t
    ensures MatchAt(Letters, "'" + t) == None
  {
    var u := "'" + t;
    var n := Run(Letters, t);
    assert u[1..] == t;
    if n > 0 && 1 + n + 3 <= |u| {
      assert u[1 + n..1 + n + 3][0] == t[n];
    }
  }

  /** A lone quoted word followed by text without quotes starts no letter match. */
  lemma LoneWordNoMatch(w: string, t: string)
    requires Group(Letters, w) && '\'' !in t
    ensures MatchAt(Letters, "'" + w + "'" + t) == None
  {
    var s := "'" + w + "'" + t;
    assert s[1..] == w + ("'" + t);
    GroupRun(Letters, w, "'" + t);
    var p := 1 + |w|;
    if p + 3 <= |s| {
      assert s[p..p + 3][2] == t[1];
    }
  }

  lemma SubLoneWordHead(w: string, t: string)
    requires Group(Letters, w) && '\'' !in t
    ensures Sub(Letters, "'" + w + "'" + t) == "'" + Sub(Letters, w + ("'" + t))
  {
    var s := "'" + w + "'" + t;
    var u := w + ("'" + t);
    assert s == "'" + u;
    LoneWordNoMatch(w, t);
    SubNoneHead(Letters, s, '\'', u);
  }

  /** Where nothing matches, the first character is kept and the pass goes on after it. */
  lemma SubNoneHead(rule: Rule, s: string, c: char, u: string)
    requires s == [c] + u && MatchAt(rule, s) == None
    ensures Sub(rule, s) == [c] + Sub(rule, u)
  {
    assert s[1..] == u;
    SubNone(rule, s);
  }

  lemma SubQuoteText(t: string)
    requires '\'' !in t
    ensures Sub(Letters, "'" + t) == "'" + t
  {
    var u := "'" + t;
    QuoteNoMatch(t);
    SubNone(Letters, u);
    assert u[1..] == t;
    SubFree(Letters, t);
  }

  lemma WordJoin(s1: string, x1: string, x2: string, q: string, w: string, t: string)
    requires s1 == q + x1 && x1 == w + x2 && x2 == q + t
    ensures s1 == q + w + q + t
  {
  }

  /** A lone quoted word followed by text without quotes: nothing to merge. */
  lemma SubLastWord(w: string, t: string)
    requires Group(Letters, w) && '\'' !in t
    ensures Sub(Letters, "'" + w + "'" + t) == "'" + w + "'" + t
  {
    SubLoneWordHead(w, t);
    SubPrefix(Letters, w, "'" + t);
    SubQuoteText(t);
    WordJoin(Sub(Letters, "'" + w + "'" + t), Sub(Letters, w + ("'" + t)), Sub(Letters, "'" + t), "'", w, t);
  }

  lemma AllWordsTail(ws: seq<string>)
    requires |ws| >= 2 && AllWords(ws)
    ensures Group(Letters, ws[0]) && Group(Letters, ws[1]) && AllWords(ws[2..])
  {
    forall j | 0 <= j < |ws[2..]| ensures Group(Letters, ws[2..][j]) {
      assert ws[2..][j] == ws[j + 2];
    }
  }

  /** The merged word, written out. */
  lemma QuotedMerged(w: string, v: string, t: string)
    ensures Quoted([w + v]) + t == "'" + w + v + "'" + t
  {
  }

  lemma QuotedMergedCons(w: string, v: string, ws: seq<string>, t: string)
    requires ws != []
    ensures Quoted([w + v] + ws) + t == "'" + w + v + "'" + (" " + (Quoted(ws) + t))
  {
    assert ([w + v] + ws)[1..] == ws;
  }

  /** One letter pass over two quoted words. */
  lemma SubQuotedTwo(ws: seq<string>, t: string)
    requires |ws| == 2 && AllWords(ws) && '\'' !in t
    ensures Sub(Letters, Quoted(ws) + t) == Quoted(PairUp(ws)) + t
  {
    var w, v := ws[0], ws[1];
    assert Group(Letters, w) && Group(Letters, v);
    QuotedPairLast(ws, t);
    SubPair(Letters, w, v, t);
    SubFree(Letters, t);
    assert PairUp(ws) == [w + v];
    QuotedMerged(w, v, t);
  }

  /** One letter pass over three or more quoted words, given the pass over all but the first two. */
  lemma SubQuotedMore(ws: seq<string>, t: string)
    requires |ws| > 2 && AllWords(ws) && '\'' !in t
    requires Sub(Letters, Quoted(ws[2..]) + t) == Quoted(PairUp(ws[2..])) + t
    ensures Sub(Letters, Quoted(ws) + t) == Quoted(PairUp(ws)) + t
  {
    var w, v := ws[0], ws[1];
    AllWordsTail(ws);
    var rest := " " + (Quoted(ws[2..]) + t);
    QuotedPair(ws, t);
    SubPair(Letters, w, v, rest);
    SubPrefix(Letters, " ", Quoted(ws[2..]) + t);
    assert PairUp(ws) == [w + v] + PairUp(ws[2..]);
    QuotedMergedCons(w, v, PairUp(ws[2..]), t);
  }

  /** One letter pass over a run of quoted words merges neighbours pairwise. */
  lemma {:induction false} SubQuoted(ws: seq<string>, t: string)
    requires ws != [] && AllWords(ws) && '\'' !in t
    ensures Sub(Letters, Quoted(ws) + t) == Quoted(PairUp(ws)) + t
    decreases |ws|
  {
    if |ws| == 1 {
      assert Group(Letters, ws[0]);
      SubLastWord(ws[0], t);
    } else if |ws| == 2 {
      SubQuotedTwo(ws, t);
    } else {
      AllWordsTail(ws);
      SubQuoted(ws[2..], t);
      SubQuotedMore(ws, t);
    }
  }

  /**
   * The letter loop run to its fixed point: a run of quoted words separated
   * by single spaces becomes one quoted word, whatever surrounds it.
   */
  lemma {:induction false} FixQuoted(p: string, ws: seq<string>, t: string)
    requires ws != [] && AllWords(ws) && '\'' !in p && '\'' !in t
    ensures Fix(Letters, p + Quoted(ws) + t) == p + "'" + Concat(ws) + "'" + t
    decreases |ws|
  {
    var s := p + Quoted(ws) + t;
    assert Sub(Letters, s) == p + Quoted(PairUp(ws)) + t by {
      SubPrefix(Letters, p, Quoted(ws) + t);
      SubQuoted(ws, t);
      Regroup(p, Quoted(ws), t);
      Regroup(p, Quoted(PairUp(ws)), t);
    }
    FixStep(Letters, s);
    if |ws| == 1 {
      FixQuotedOne(p, ws, t);
    } else {
      QuotedLength(ws);
      QuotedLength(PairUp(ws));
      FixQuoted(p, PairUp(ws), t);
    }
  }

  lemma Regroup(a: string, b: string, c: string)
    ensures a + b + c == a + (b + c)
  {
  }

  lemma FixQuotedOne(p: string, ws: seq<string>, t: string)
    requires |ws| == 1
    ensures p + Quoted(ws) + t == p + "'" + Concat(ws) + "'" + t
  {
    var w := ws[0];
    assert Quoted(ws) == "'" + w + "'";
    assert Concat(ws) == w by {
      assert ws[1..] == [];
      assert w + [] == w;
    }
    QuoteRegroup(p, w, t);
  }

  lemma QuoteRegroup(p: string, w: string, t: string)
    ensures p + ("'" + w + "'") + t == p + "'" + w + "'" + t
  {
  }

  // ----- The digit rule -----

  /** One unfolding of the loop. */
  lemma FixStep(rule: Rule, s: string)
    requires rule.mid != []
    ensures Fix(rule, s) == if |Sub(rule, s)| == |s| then s else Fix(rule, Sub(rule, s))
  {
  }

  lemma NumeralLayout(p: string, d: string, e: string, t: string)
    ensures p + " " + d + " " + e + " " + t
         == p + ([Digits.quote] + d + Digits.mid + e + [Digits.quote] + t)
  {
  }

  lemma NoSpace(p: string, d: string, e: string, t: string)
    requires Group(Digits, d) && Group(Digits, e) && ' ' !in p && ' ' !in t
    ensures ' ' !in p + "'" + d + e + "'" + t
  {
    assert forall k :: 0 <= k < |d| ==> d[k] != ' ';
    assert forall k :: 0 <= k < |e| ==> e[k] != ' ';
  }

  /**
   * Two numbers with a space before, between and after them are merged into
   * one quoted numeral.  The spaces on both sides are consumed, so when no
   * other space is around the digit loop stops after this single merge.
   */
  lemma FixNumeralPair(p: string, d: string, e: string, t: string)
    requires Group(Digits, d) && Group(Digits, e) && ' ' !in p && ' ' !in t
    ensures Fix(Digits, p + " " + d + " " + e + " " + t) == p + "'" + d + e + "'" + t
  {
    var u := [Digits.quote] + d + Digits.mid + e + [Digits.quote] + t;
    var r := p + "'" + d + e + "'" + t;
    SubNumeralPair(p, d, e, t);
    NumeralLayout(p, d, e, t);
    NoSpace(p, d, e, t);
    SubFree(Digits, r);
    FixStep(Digits, p + u);
  }

  lemma SubNumeralPair(p: string, d: string, e: string, t: string)
    requires Group(Digits, d) && Group(Digits, e) && ' ' !in p && ' ' !in t
    ensures Sub(Digits, p + ([Digits.quote] + d + Digits.mid + e + [Digits.quote] + t)) == p + "'" + d + e + "'" + t
  {
    var u := [Digits.quote] + d + Digits.mid + e + [Digits.quote] + t;
    SubNumerals(d, e, t);
    SubPrefix(Digits, p, u);
    PrefixRegroup(p, d, e, t);
  }

  lemma SubNumerals(d: string, e: string, t: string)
    requires Group(Digits, d) && Group(Digits, e) && ' ' !in t
    ensures Sub(Digits, [Digits.quote] + d + Digits.mid + e + [Digits.quote] + t) == "'" + d + e + "'" + t
  {
    SubPair(Digits, d, e, t);
    SubFree(Digits, t);
  }

  lemma PrefixRegroup(p: string, d: string, e: string, t: string)
    ensures p + ("'" + d + e + "'" + t) == p + "'" + d + e + "'" + t
  {
  }

  /** Three numbers in a row: only the first two merge. */
  lemma DigitsThreeNumbers()
    ensures Fix(Digits, " 1 2 3") == "'12'3"
  {
    assert Group(Digits, "1") && Group(Digits, "2");
    FixNumeralPair("", "1", "2", "3");
    ThreeNumbersLayout();
  }

  lemma ThreeNumbersLayout()
    ensures "" + " " + "1" + " " + "2" + " " + "3" == " 1 2 3"
    ensures "" + "'" + "1" + "2" + "'" + "3" == "'12'3"
  {
  }
}
