/**
 * The Python string operations the parser relies on: `in` on strings,
 * `str.replace`, `str.strip()`, `str.lower()`, string comparison for
 * `list.sort()` and `list.remove`.
 */
module Strings {

  predicate StartsWith(s: string, p: string)
  {
    |p| <= |s| && s[..|p|] == p
  }

  /** Python's `p in s`: `p` occurs somewhere in `s`. */
  predicate Contains(s: string, p: string)
    decreases |s|
  {
    StartsWith(s, p) || (s != [] && Contains(s[1..], p))
  }

  /** `p` occurs in `s` starting at index `i`. */
  predicate OccursAt(s: string, p: string, i: int)
  {
    0 <= i <= |s| - |p| && s[i..i + |p|] == p
  }

  /** `Contains` agrees with "some slice of `s` equals `p`". */
  lemma {:induction false} ContainsAt(s: string, p: string)
    ensures Contains(s, p) <==> exists i :: OccursAt(s, p, i)
    decreases |s|
  {
    if s == [] {
      if exists i :: OccursAt(s, p, i) {
        var i :| OccursAt(s, p, i);
        assert StartsWith(s, p);
      }
      if Contains(s, p) {
        assert OccursAt(s, p, 0);
      }
    } else {
      ContainsAt(s[1..], p);
      if exists i :: OccursAt(s, p, i) {
        var i :| OccursAt(s, p, i);
        if i > 0 {
          assert OccursAt(s[1..], p, i - 1);
        } else {
          assert StartsWith(s, p);
        }
      }
      if Contains(s, p) {
        if StartsWith(s, p) {
          assert OccursAt(s, p, 0);
        } else {
          var i :| OccursAt(s[1..], p, i);
          assert s[i + 1..i + 1 + |p|] == s[1..][i..i + |p|];
          assert OccursAt(s, p, i + 1);
        }
      }
    }
  }

  /** A string always contains what it ends with. */
  lemma {:induction false} ContainsSuffix(s: string, p: string)
    ensures Contains(s + p, p)
    decreases |s|
  {
    if s == [] {
      assert (s + p)[..|p|] == p;
    } else {
      assert (s + p)[1..] == s[1..] + p;
      ContainsSuffix(s[1..], p);
    }
  }

  /**
   * Python's `s.replace(p, r)` for a non-empty `p`: every occurrence of `p`,
   * scanning left to right and not overlapping, becomes `r`.
   */
  function Replace(s: string, p: string, r: string): (t: string)
    requires p != []
    decreases |s|
  {
    if |s| < |p| then s
    else if s[..|p|] == p then r + Replace(s[|p|..], p, r)
    else [s[0]] + Replace(s[1..], p, r)
  }

  /** Text without an occurrence of the pattern is left as it is. */
  lemma {:induction false} ReplaceAbsent(s: string, p: string, r: string)
    requires p != [] && !Contains(s, p)
    ensures Replace(s, p, r) == s
    decreases |s|
  {
    if |s| >= |p| {
      assert !StartsWith(s, p);
      ReplaceAbsent(s[1..], p, r);
      assert [s[0]] + s[1..] == s;
    }
  }

  /** A character in neither the text nor the replacement is not in the result. */
  lemma {:induction false} ReplaceKeepsOut(s: string, p: string, r: string, c: char)
    requires p != [] && c !in s && c !in r
    ensures c !in Replace(s, p, r)
    decreases |s|
  {
    if |s| >= |p| {
      if s[..|p|] == p {
        ReplaceKeepsOut(s[|p|..], p, r, c);
      } else {
        ReplaceKeepsOut(s[1..], p, r, c);
      }
    }
  }

  /**
   * A pattern and a replacement without newlines act on each line on its
   * own: replacing in two lines joined by a newline is replacing in each.
   */
  lemma {:induction false} ReplaceLines(a: string, b: string, p: string, r: string)
    requires p != [] && '\n' !in p && '\n' !in a
    ensures Replace(a + "\n" + b, p, r) == Replace(a, p, r) + "\n" + Replace(b, p, r)
    decreases |a|
  {
    var s := a + "\n" + b;
    if a == [] {
      ReplaceAtNewline(b, p, r);
      assert s == "\n" + b;
    } else if |s| < |p| {
      assert Replace(a, p, r) == a;
      assert Replace(b, p, r) == b;
    } else if s[..|p|] == p {
      ReplaceLinesMatch(a, b, p, r);
    } else {
      ReplaceLinesSkip(a, b, p, r);
    }
  }

  lemma {:induction false} ReplaceLinesSkip(a: string, b: string, p: string, r: string)
    requires p != [] && '\n' !in p && '\n' !in a && a != []
    requires |a + "\n" + b| >= |p| && (a + "\n" + b)[..|p|] != p
    ensures Replace(a + "\n" + b, p, r) == Replace(a, p, r) + "\n" + Replace(b, p, r)
    decreases |a|, 0
  {
    var s := a + "\n" + b;
    assert s[0] == a[0] && s[1..] == a[1..] + "\n" + b;
    assert Replace(s, p, r) == [a[0]] + Replace(a[1..] + "\n" + b, p, r);
    ReplaceLines(a[1..], b, p, r);
    if |a| >= |p| {
      assert a[..|p|] == s[..|p|];
    }
    ReplaceSkipHead(a, p, r);
    ConsLines(a[0], Replace(a[1..], p, r), Replace(b, p, r));
  }

  /** Where no match starts, the first character is kept. */
  lemma ReplaceSkipHead(a: string, p: string, r: string)
    requires p != [] && a != [] && !(|a| >= |p| && a[..|p|] == p)
    ensures Replace(a, p, r) == [a[0]] + Replace(a[1..], p, r)
  {
    if |a| < |p| {
      assert [a[0]] + a[1..] == a;
    }
  }

  lemma ConsLines(c: char, x: string, y: string)
    ensures [c] + (x + "\n" + y) == ([c] + x) + "\n" + y
  {
  }

  lemma {:induction false} ReplaceLinesMatch(a: string, b: string, p: string, r: string)
    requires p != [] && '\n' !in p && '\n' !in a && a != []
    requires |a + "\n" + b| >= |p| && (a + "\n" + b)[..|p|] == p
    ensures Replace(a + "\n" + b, p, r) == Replace(a, p, r) + "\n" + Replace(b, p, r)
    decreases |a|, 0
  {
    var s := a + "\n" + b;
    assert s[|a|] == '\n';
    assert |p| <= |a|;
    assert a[..|p|] == p;
    assert s[|p|..] == a[|p|..] + "\n" + b;
    if |p| < |a| {
      ReplaceLines(a[|p|..], b, p, r);
    } else {
      assert a[|p|..] == [];
      ReplaceAtNewline(b, p, r);
    }
  }

  /** A match cannot start at a newline when the pattern has none. */
  lemma ReplaceAtNewline(b: string, p: string, r: string)
    requires p != [] && '\n' !in p
    ensures Replace("\n" + b, p, r) == "\n" + Replace(b, p, r)
  {
    var s := "\n" + b;
    assert s[1..] == b;
    if |s| >= |p| {
      assert s[..|p|] != p by { assert s[0] == '\n' && p[0] != '\n'; }
    } else {
      assert Replace(b, p, r) == b;
    }
  }

  /** The characters `str.strip()` removes (Python's `str.isspace`). */
  predicate IsSpace(c: char)
  {
    ('\t' <= c <= '\r') || ('\U{1C}' <= c <= '\U{1F}') || c == ' ' || c == '\U{85}' ||
    c == '\U{A0}' || c == '\U{1680}' || ('\U{2000}' <= c <= '\U{200A}') ||
    c == '\U{2028}' || c == '\U{2029}' || c == '\U{202F}' || c == '\U{205F}' || c == '\U{3000}'
  }

  function StripStart(s: string): (r: string)
    ensures |r| <= |s| && r == s[|s| - |r|..]
    ensures forall k :: 0 <= k < |s| - |r| ==> IsSpace(s[k])
    ensures r == [] || !IsSpace(r[0])
  {
    if s != [] && IsSpace(s[0]) then StripStart(s[1..]) else s
  }

  function StripEnd(s: string): (r: string)
    ensures |r| <= |s| && r == s[..|r|]
    ensures forall k :: |r| <= k < |s| ==> IsSpace(s[k])
    ensures r == [] || !IsSpace(r[|r| - 1])
  {
    if s != [] && IsSpace(s[|s| - 1]) then StripEnd(s[..|s| - 1]) else s
  }

  /** Python's `s.strip()`: a slice of `s` without whitespace at either end. */
  function Strip(s: string): (r: string)
  {
    StripEnd(StripStart(s))
  }

  /** A line whose only newline, if any, is its last character strips to a line without one. */
  lemma StripNoNewline(s: string)
    requires forall k :: 0 <= k < |s| - 1 ==> s[k] != '\n'
    ensures '\n' !in Strip(s)
  {
    var t := StripStart(s);
    var r := StripEnd(t);
    forall k | 0 <= k < |r|
      ensures r[k] != '\n'
    {
      CharOfStrip(s, t, r, k);
    }
  }

  lemma CharOfStrip(s: string, t: string, r: string, k: nat)
    requires forall k :: 0 <= k < |s| - 1 ==> s[k] != '\n'
    requires |t| <= |s| && t == s[|s| - |t|..]
    requires |r| <= |t| && r == t[..|r|] && k < |r| && !IsSpace(r[|r| - 1])
    ensures r[k] != '\n'
  {
    var i := |s| - |t| + k;
    assert r[k] == t[k] == s[i];
    if i == |s| - 1 {
      assert k == |r| - 1;
    }
  }

  function LowerChar(c: char): char
  {
    if 'A' <= c <= 'Z' then (c as int - 'A' as int + 'a' as int) as char else c
  }

  /** Python's `s.lower()` on ASCII letters. */
  function Lower(s: string): (r: string)
    ensures |r| == |s|
    ensures forall i :: 0 <= i < |s| ==> r[i] == LowerChar(s[i])
  {
    if s == [] then [] else [LowerChar(s[0])] + Lower(s[1..])
  }

  /** Lowering leaves no ASCII capital and lowering twice is lowering once. */
  lemma LowerIdempotent(s: string)
    ensures forall i :: 0 <= i < |Lower(s)| ==> !('A' <= Lower(s)[i] <= 'Z')
    ensures Lower(Lower(s)) == Lower(s)
  {
  }

  /** Python's `<=` on strings: lexicographic by code point, a prefix first. */
  predicate StrLe(a: string, b: string)
  {
    a == [] || (b != [] && (a[0] < b[0] || (a[0] == b[0] && StrLe(a[1..], b[1..]))))
  }

  lemma {:induction false} StrLeTotal(a: string, b: string)
    ensures StrLe(a, b) || StrLe(b, a)
  {
    if a != [] && b != [] && a[0] == b[0] {
      StrLeTotal(a[1..], b[1..]);
    }
  }

  lemma {:induction false} StrLeAntisymmetric(a: string, b: string)
    requires StrLe(a, b) && StrLe(b, a)
    ensures a == b
  {
    if a != [] && b != [] {
      StrLeAntisymmetric(a[1..], b[1..]);
      assert a == [a[0]] + a[1..] && b == [b[0]] + b[1..];
    }
  }

  predicate Sorted(xs: seq<string>)
  {
    forall i :: 0 < i < |xs| ==> StrLe(xs[i - 1], xs[i])
  }

  function Insert(x: string, xs: seq<string>): (r: seq<string>)
    requires Sorted(xs)
    ensures Sorted(r) && multiset(r) == multiset(xs) + multiset{x}
    ensures |r| == |xs| + 1 && (r[0] == x || (xs != [] && r[0] == xs[0]))
  {
    if xs == [] then [x]
    else if StrLe(x, xs[0]) then [x] + xs
    else
      var rest := Insert(x, xs[1..]);
      StrLeTotal(x, xs[0]);
      assert xs == [xs[0]] + xs[1..];
      [xs[0]] + rest
  }

  /** Python's `list.sort()` on strings: the same strings in ascending order. */
  function SortStrings(xs: seq<string>): (r: seq<string>)
    ensures Sorted(r) && multiset(r) == multiset(xs)
  {
    if xs == [] then []
    else
      assert xs == [xs[0]] + xs[1..];
      Insert(xs[0], SortStrings(xs[1..]))
  }

  /** Position of the first occurrence of `v`, or `|xs|` when there is none. */
  function IndexOf(xs: seq<string>, v: string): (i: nat)
    ensures i <= |xs| && v !in xs[..i]
    ensures i < |xs| ==> xs[i] == v
    ensures i == |xs| ==> v !in xs
  {
    if xs == [] then 0
    else if xs[0] == v then 0
    else
      var j := IndexOf(xs[1..], v);
      assert xs[..j + 1] == [xs[0]] + xs[1..][..j];
      assert xs == [xs[0]] + xs[1..];
      j + 1
  }

  /** Python's `list.remove(v)`: drops the first occurrence of `v`. */
  function RemoveFirst(xs: seq<string>, v: string): (r: seq<string>)
    ensures v !in xs ==> r == xs
    ensures v in xs ==> exists i :: 0 <= i < |xs| && xs[i] == v && v !in xs[..i] && r == xs[..i] + xs[i + 1..]
  {
    var i := IndexOf(xs, v);
    if i == |xs| then xs else xs[..i] + xs[i + 1..]
  }
}
