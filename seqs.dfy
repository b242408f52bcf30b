/**
 * Splitting and joining sequences at a one-element separator, as Python's
 * `str.split(sep)` and `sep.join(...)` do.  Used for "|".join in
 * `Token.regex_list`, "\n".join / split("\n") in the pre-parser,
 * `line.split(" ")` and `key.split("_")`, and for cutting the line list at
 * `0 STEP` markers.
 */
module Seqs {

  /** Number of occurrences of `c` in `s`. */
  function Count<T(==)>(s: seq<T>, c: T): nat
  {
    if s == [] then 0 else (if s[0] == c then 1 else 0) + Count(s[1..], c)
  }

  /** The pieces of `s` between occurrences of `c`; never empty, like `"".split(c) == [""]`. */
  function Split<T(==)>(s: seq<T>, c: T): (r: seq<seq<T>>)
    ensures |r| >= 1
  {
    if s == [] then [[]]
    else
      var rest := Split(s[1..], c);
      if s[0] == c then [[]] + rest
      else [[s[0]] + rest[0]] + rest[1..]
  }

  /** The pieces `xs` with `sep` between each two of them. */
  function Join<T>(xs: seq<seq<T>>, sep: seq<T>): seq<T>
  {
    if xs == [] then []
    else if |xs| == 1 then xs[0]
    else xs[0] + sep + Join(xs[1..], sep)
  }

  lemma {:induction false} CountConcat<T>(a: seq<T>, b: seq<T>, c: T)
    ensures Count(a + b, c) == Count(a, c) + Count(b, c)
  {
    if a != [] {
      assert (a + b)[1..] == a[1..] + b;
      CountConcat(a[1..], b, c);
    } else {
      assert a + b == b;
    }
  }

  lemma {:induction false} CountZero<T>(s: seq<T>, c: T)
    ensures Count(s, c) == 0 <==> c !in s
  {
    if s != [] {
      CountZero(s[1..], c);
      assert s == [s[0]] + s[1..];
    }
  }

  /** One piece more than there are separators. */
  lemma {:induction false} SplitLength<T>(s: seq<T>, c: T)
    ensures |Split(s, c)| == Count(s, c) + 1
  {
    if s != [] {
      SplitLength(s[1..], c);
    }
  }

  /** No piece contains the separator. */
  lemma {:induction false} SplitPieces<T>(s: seq<T>, c: T)
    ensures forall i :: 0 <= i < |Split(s, c)| ==> c !in Split(s, c)[i]
  {
    if s != [] {
      SplitPieces(s[1..], c);
    }
  }

  /** Every element of a piece comes from the split sequence. */
  lemma {:induction false} SplitElems<T>(s: seq<T>, c: T)
    ensures forall i, x :: 0 <= i < |Split(s, c)| && x in Split(s, c)[i] ==> x in s
  {
    if s != [] {
      SplitElems(s[1..], c);
      var rest := Split(s[1..], c);
      var r := Split(s, c);
      forall i, x | 0 <= i < |r| && x in r[i]
        ensures x in s
      {
        if s[0] == c {
          assert r[i] == ([[]] + rest)[i];
          assert i >= 1 && r[i] == rest[i - 1];
          assert x in s[1..];
        } else if i == 0 {
          assert r[0] == [s[0]] + rest[0];
          assert x == s[0] || x in rest[0];
          assert x in rest[0] ==> x in s[1..];
        } else {
          assert r[i] == rest[i];
          assert x in s[1..];
        }
      }
    }
  }

  /** A sequence without the separator is a single piece. */
  lemma {:induction false} SplitFree<T>(s: seq<T>, c: T)
    requires c !in s
    ensures Split(s, c) == [s]
  {
    if s != [] {
      SplitFree(s[1..], c);
      assert [s[0]] + s[1..] == s;
    }
  }

  /** Splitting at an occurrence of the separator splits the pieces. */
  /**
   * The first piece is the prefix of `s` up to the first separator; when
   * there is one, the other pieces are those of the text after it.
   */
  lemma {:induction false} SplitHead<T>(s: seq<T>, c: T)
    ensures var h := Split(s, c)[0];
            |h| <= |s| && h == s[..|h|] && c !in h &&
            (|h| < |s| ==> s[|h|] == c && Split(s, c)[1..] == Split(s[|h| + 1..], c))
  {
    if s != [] && s[0] != c {
      var rest := Split(s[1..], c);
      SplitHead(s[1..], c);
      var h' := rest[0];
      var h := [s[0]] + h';
      assert Split(s, c)[0] == h;
      assert h == s[..|h|] by {
        assert s == [s[0]] + s[1..];
      }
      if |h| < |s| {
        assert s[|h| + 1..] == s[1..][|h'| + 1..];
      }
    }
  }

  /**
   * With a separator present, the second piece starts after the first
   * separator, at `i`, and runs to the next separator or the end.
   */
  lemma SplitSecond<T>(s: seq<T>, c: T) returns (i: nat)
    requires c in s
    ensures i < |s| && s[i] == c && c !in s[..i] && |Split(s, c)| >= 2
    ensures var r := Split(s, c)[1];
            c !in r && i + 1 + |r| <= |s| && s[i + 1..i + 1 + |r|] == r &&
            (i + 1 + |r| == |s| || s[i + 1 + |r|] == c)
  {
    SplitHead(s, c);
    i := |Split(s, c)[0]|;
    assert s[..|s|] == s;
    var t := s[i + 1..];
    SplitHead(t, c);
    var r := Split(s, c)[1];
    assert r == Split(t, c)[0] by {
      assert r == Split(s, c)[1..][0];
    }
    assert s[i + 1..i + 1 + |r|] == t[..|r|];
    if i + 1 + |r| < |s| {
      assert s[i + 1 + |r|] == t[|r|];
    }
  }

  /** A separator at the very start closes an empty piece. */
  lemma SplitLeadingSep<T>(b: seq<T>, c: T)
    ensures Split([c] + b, c) == [[]] + Split(b, c)
  {
    assert ([c] + b)[1..] == b;
  }

  /** Two separators in a row close an empty piece between the pieces around them. */
  lemma SplitDoubleSep<T>(a: seq<T>, b: seq<T>, c: T)
    ensures Split(a + [c, c] + b, c) == Split(a, c) + ([[]] + Split(b, c))
  {
    assert a + [c, c] + b == a + [c] + ([c] + b);
    SplitConcat(a, [c] + b, c);
    SplitLeadingSep(b, c);
  }

  lemma {:induction false} SplitConcat<T>(a: seq<T>, b: seq<T>, c: T)
    ensures Split(a + [c] + b, c) == Split(a, c) + Split(b, c)
  {
    var s := a + [c] + b;
    if a == [] {
      assert s[1..] == b;
    } else {
      assert s[1..] == a[1..] + [c] + b;
      SplitConcat(a[1..], b, c);
      if a[0] != c {
        ExtendFirst([a[0]], Split(a[1..], c), Split(b, c));
      }
    }
  }

  lemma ExtendFirst<T>(y: seq<T>, u: seq<seq<T>>, v: seq<seq<T>>)
    requires u != []
    ensures var w := u + v;
            [y + w[0]] + w[1..] == ([y + u[0]] + u[1..]) + v
  {
    var w := u + v;
    assert w[0] == u[0];
    assert w[1..] == u[1..] + v;
  }

  lemma SplitSingle<T>(x: T, c: T)
    requires x != c
    ensures Split([x], c) == [[x]]
  {
    assert [x][1..] == [];
    assert Split([x][1..], c) == [[]];
    assert [x] + [] == [x];
  }

  /** Appending one element either opens a new piece or extends the last one. */
  lemma {:induction false} SplitAppend<T>(s: seq<T>, x: T, c: T)
    ensures var p := Split(s, c);
      Split(s + [x], c) ==
        if x == c then p + [[]] else p[..|p| - 1] + [p[|p| - 1] + [x]]
    decreases |s|, 1
  {
    if x == c {
      SplitConcat(s, [], c);
      assert s + [c] + [] == s + [x];
    } else if s == [] {
      SplitSingle(x, c);
      assert s + [x] == [x];
    } else {
      SplitAppendStep(s, x, c);
    }
  }

  lemma {:induction false} SplitAppendStep<T>(s: seq<T>, x: T, c: T)
    requires s != [] && x != c
    ensures var p := Split(s, c);
      Split(s + [x], c) == p[..|p| - 1] + [p[|p| - 1] + [x]]
    decreases |s|, 0
  {
    var t := s + [x];
    assert t[0] == s[0] && t[1..] == s[1..] + [x];
    SplitAppend(s[1..], x, c);
    if s[0] != c {
      ExtendLastCons([s[0]], Split(s[1..], c), x);
    } else {
      ExtendLastNil(Split(s[1..], c), x);
    }
  }

  /** `q` with `x` added to its last piece. */
  function ExtendLast<T>(q: seq<seq<T>>, x: T): seq<seq<T>>
    requires q != []
  {
    q[..|q| - 1] + [q[|q| - 1] + [x]]
  }

  lemma ExtendLastCons<T>(a: seq<T>, q: seq<seq<T>>, x: T)
    requires q != []
    ensures var r := ExtendLast(q, x);
            [a + r[0]] + r[1..] == ExtendLast([a + q[0]] + q[1..], x)
  {
    var r := ExtendLast(q, x);
    if |q| == 1 {
      assert [a + r[0]] + r[1..] == [a + (q[0] + [x])];
      assert a + (q[0] + [x]) == (a + q[0]) + [x];
      assert ([a + q[0]] + q[1..]) == [a + q[0]];
    } else {
      assert r[0] == q[0];
      assert r[1..] == q[1..|q| - 1] + [q[|q| - 1] + [x]];
    }
  }

  lemma ExtendLastNil<T>(q: seq<seq<T>>, x: T)
    requires q != []
    ensures [[]] + ExtendLast(q, x) == ExtendLast([[]] + q, x)
  {
  }

  /** Joining the pieces back with the separator gives the original sequence. */
  lemma {:induction false} JoinSplit<T>(s: seq<T>, c: T)
    ensures Join(Split(s, c), [c]) == s
  {
    if s != [] {
      JoinSplit(s[1..], c);
      var rest := Split(s[1..], c);
      var x, tail := rest[0], rest[1..];
      assert rest == [x] + tail;
      JoinCons(x, tail, [c]);
      if s[0] == c {
        JoinCons([], rest, [c]);
      } else {
        JoinCons([s[0]] + x, tail, [c]);
      }
      assert s == [s[0]] + s[1..];
    }
  }

  /** Joining a first piece in front of the others. */
  lemma JoinCons<T>(x: seq<T>, xs: seq<seq<T>>, sep: seq<T>)
    ensures Join([x] + xs, sep) == if xs == [] then x else x + sep + Join(xs, sep)
  {
    assert ([x] + xs)[1..] == xs;
  }

  /** Splitting a joined sequence gives back its pieces when none holds the separator. */
  lemma {:induction false} SplitJoin<T>(xs: seq<seq<T>>, c: T)
    requires xs != []
    requires forall i :: 0 <= i < |xs| ==> c !in xs[i]
    ensures Split(Join(xs, [c]), c) == xs
  {
    SplitFree(xs[0], c);
    if |xs| > 1 {
      SplitJoin(xs[1..], c);
      SplitConcat(xs[0], Join(xs[1..], [c]), c);
      assert [xs[0]] + xs[1..] == xs;
    }
  }

  /** Joining one more piece. */
  lemma {:induction false} JoinAppend<T>(xs: seq<seq<T>>, y: seq<T>, sep: seq<T>)
    requires xs != []
    ensures Join(xs + [y], sep) == Join(xs, sep) + sep + y
  {
    if |xs| > 1 {
      assert (xs + [y])[1..] == xs[1..] + [y];
      JoinAppend(xs[1..], y, sep);
    }
  }
}
