/** The parts of Go's `strings` package that the generator relies on:
    `strings.Split` with a one-character separator, `strings.Join`, and the
    byte-wise ordering of strings that `text/template` uses to sort map keys. */
module Strings {

  /** Number of occurrences of `c` in `s`. */
  function Count(s: string, c: char): nat
  {
    if s == [] then 0 else (if s[0] == c then 1 else 0) + Count(s[1..], c)
  }

  lemma {:induction false} CountZero(s: string, c: char)
    ensures Count(s, c) == 0 <==> c !in s
  {
    if s != [] {
      CountZero(s[1..], c);
      assert s == [s[0]] + s[1..];
    }
  }

  lemma {:induction false} CountAppend(a: string, b: string, c: char)
    ensures Count(a + b, c) == Count(a, c) + Count(b, c)
  {
    if a == [] {
      assert a + b == b;
    } else {
      assert (a + b)[1..] == a[1..] + b;
      CountAppend(a[1..], b, c);
    }
  }

  /** `strings.Split(s, string(c))`: the pieces of `s` between occurrences of
      `c`; an input without `c` (the empty string included) is one piece. */
  function Split(s: string, c: char): (r: seq<string>)
    ensures |r| == Count(s, c) + 1
    ensures forall k :: 0 <= k < |r| ==> c !in r[k]
  {
    if s == [] then [[]]
    else if s[0] == c then [[]] + Split(s[1..], c)
    else
      var rest := Split(s[1..], c);
      [[s[0]] + rest[0]] + rest[1..]
  }

  /** `strings.Join(xs, sep)`. */
  function Join(xs: seq<string>, sep: string): string
  {
    if xs == [] then []
    else if |xs| == 1 then xs[0]
    else xs[0] + sep + Join(xs[1..], sep)
  }

  /** The pieces written one after another, with nothing between them. */
  function Concat(ts: seq<string>): string
  {
    if ts == [] then [] else Concat(ts[..|ts| - 1]) + ts[|ts| - 1]
  }

  lemma {:induction false} ConcatAppend(a: seq<string>, b: seq<string>)
    ensures Concat(a + b) == Concat(a) + Concat(b)
  {
    if b == [] {
      assert a + b == a;
    } else {
      var n := |b| - 1;
      ConcatAppend(a, b[..n]);
      assert (a + b)[..|a + b| - 1] == a + b[..n];
    }
  }

  lemma {:induction false} JoinSplit(s: string, c: char)
    ensures Join(Split(s, c), [c]) == s
  {
    if s == [] {
    } else if s[0] == c {
      JoinSplit(s[1..], c);
      var rest := Split(s[1..], c);
      assert Split(s, c) == [[]] + rest;
      assert ([[]] + rest)[1..] == rest;
      assert s == [c] + s[1..];
    } else {
      JoinSplit(s[1..], c);
      var rest := Split(s[1..], c);
      var r := [[s[0]] + rest[0]] + rest[1..];
      assert Split(s, c) == r;
      assert s == [s[0]] + s[1..];
      if |rest| == 1 {
      } else {
        assert r[1..] == rest[1..];
        assert Join(rest, [c]) == rest[0] + [c] + Join(rest[1..], [c]);
      }
    }
  }

  lemma {:induction false} SplitJoin(xs: seq<string>, c: char)
    requires |xs| > 0
    requires forall k :: 0 <= k < |xs| ==> c !in xs[k]
    ensures Split(Join(xs, [c]), c) == xs
  {
    if |xs| == 1 {
      SplitNoSeparator(xs[0], c);
    } else {
      SplitJoin(xs[1..], c);
      SplitCons(xs[0], Join(xs[1..], [c]), c);
      assert xs == [xs[0]] + xs[1..];
    }
  }

  lemma {:induction false} SplitNoSeparator(s: string, c: char)
    requires c !in s
    ensures Split(s, c) == [s]
  {
    if s != [] {
      SplitNoSeparator(s[1..], c);
      assert s == [s[0]] + s[1..];
    }
  }

  /** Splitting `a + [c] + b` where `a` has no `c` peels `a` off as the first piece. */
  lemma {:induction false} SplitCons(a: string, b: string, c: char)
    requires c !in a
    ensures Split(a + [c] + b, c) == [a] + Split(b, c)
  {
    if a == [] {
      assert a + [c] + b == [c] + b;
      assert ([c] + b)[1..] == b;
    } else {
      assert (a + [c] + b)[1..] == a[1..] + [c] + b;
      SplitCons(a[1..], b, c);
      assert a == [a[0]] + a[1..];
    }
  }

  /** Joining a proper prefix and the remaining suffix with one more separator
      gives the join of the whole sequence. */
  lemma {:induction false} JoinSlices(xs: seq<string>, sep: string, i: nat)
    requires 0 < i < |xs|
    ensures Join(xs[..i], sep) + sep + Join(xs[i..], sep) == Join(xs, sep)
  {
    if i == 1 {
      assert xs[..1] == [xs[0]];
      assert xs[1..] == xs[i..];
    } else {
      JoinSlices(xs[1..], sep, i - 1);
      assert xs[1..][..i - 1] == xs[..i][1..];
      assert xs[1..][i - 1..] == xs[i..];
    }
  }

  /** Joining pieces free of `c` with a separator holding `c` once leaves exactly
      one `c` per gap between pieces. */
  lemma {:induction false} JoinCount(xs: seq<string>, sep: string, c: char)
    requires |xs| > 0
    requires Count(sep, c) == 1
    requires forall k :: 0 <= k < |xs| ==> c !in xs[k]
    ensures Count(Join(xs, sep), c) == |xs| - 1
  {
    CountZero(xs[0], c);
    if |xs| > 1 {
      JoinCount(xs[1..], sep, c);
      CountAppend(xs[0] + sep, Join(xs[1..], sep), c);
      CountAppend(xs[0], sep, c);
    }
  }

  /** Go's `<` on strings: byte-wise lexicographic order. On characters this is
      code-point order, which UTF-8 preserves. */
  predicate StrLess(a: string, b: string)
  {
    if a == [] then b != []
    else if b == [] then false
    else if a[0] == b[0] then StrLess(a[1..], b[1..])
    else a[0] < b[0]
  }

  lemma {:induction false} StrLessIrreflexive(a: string)
    ensures !StrLess(a, a)
  {
    if a != [] {
      StrLessIrreflexive(a[1..]);
    }
  }

  lemma {:induction false} StrLessTransitive(a: string, b: string, c: string)
    requires StrLess(a, b) && StrLess(b, c)
    ensures StrLess(a, c)
  {
    if a != [] && b != [] && c != [] && a[0] == b[0] && b[0] == c[0] {
      StrLessTransitive(a[1..], b[1..], c[1..]);
    }
  }

  lemma {:induction false} StrLessTotal(a: string, b: string)
    requires a != b
    ensures StrLess(a, b) || StrLess(b, a)
  {
    if a != [] && b != [] && a[0] == b[0] {
      assert a == [a[0]] + a[1..] && b == [b[0]] + b[1..];
      StrLessTotal(a[1..], b[1..]);
    }
  }

  lemma StrLessAsymmetric(a: string, b: string)
    requires StrLess(a, b)
    ensures !StrLess(b, a)
  {
    if StrLess(b, a) {
      StrLessTransitive(a, b, a);
      StrLessIrreflexive(a);
    }
  }
}
