/** The generator's CamelCase to snake_case transform, used to name output
    files. Characters are modelled at the rune level with ASCII `A`-`Z` as the
    only upper-case letters. */
module CaseConv {

  predicate IsUpper(c: char)
  {
    'A' <= c <= 'Z'
  }

  /** `unicode.ToLower` on the ASCII model: upper-case letters move to their
      lower-case partner, everything else is left alone. */
  function ToLower(c: char): (d: char)
    ensures !IsUpper(d)
    ensures IsUpper(c) ==> 'a' <= d <= 'z' && d as int == c as int + 32
    ensures !IsUpper(c) ==> d == c
  {
    if IsUpper(c) then (c as int + 32) as char else c
  }

  // ---------------------------------------------------------------------
  // Reference definition of the output.

  /** A separator goes in front of the copy of `s[j]` when `s[j]` is upper-case,
      is not the first character, and either starts a run of upper-case letters
      or is the last letter of an acronym that a character other than an
      upper-case letter follows (the `S` of `HTTPServer`, the `P` of `HTTP2`). */
  predicate Boundary(s: string, j: nat)
    requires j < |s|
  {
    0 < j && IsUpper(s[j]) && (!IsUpper(s[j - 1]) || (j + 1 < |s| && !IsUpper(s[j + 1])))
  }

  /** What `s[j]` contributes to the output. */
  function Piece(s: string, j: nat): string
    requires j < |s|
  {
    (if Boundary(s, j) then "_" else "") + [ToLower(s[j])]
  }

  /** The output for the first `n` characters. */
  function SnakePrefix(s: string, n: nat): (r: string)
    requires n <= |s|
    ensures |r| >= n
    ensures n > 0 ==> |r| > 0
  {
    if n == 0 then [] else SnakePrefix(s, n - 1) + Piece(s, n - 1)
  }

  function Snake(s: string): string
  {
    SnakePrefix(s, |s|)
  }

  // ---------------------------------------------------------------------
  // The implementation: Go's `buffer` and the one-pass scanner.

  /** Go's `buffer`: a growing byte slice with `write` and `indent`. */
  class Buffer {
    var r: string

    constructor ()
      ensures r == []
    {
      r := [];
    }

    /** `buffer.write`: appends one character (its UTF-8 bytes in Go). */
    method Write(c: char)
      modifies this
      ensures r == old(r) + [c]
    {
      r := r + [c];
    }

    /** `buffer.indent`: appends `_` unless nothing has been written yet. */
    method Indent()
      modifies this
      ensures r == if |old(r)| > 0 then old(r) + ['_'] else old(r)
    {
      if |r| > 0 {
        r := r + ['_'];
      }
    }
  }

  /** `сamelToSnake`: `m` holds the lower-cased upper-case character that is
      still pending (`'\0'` when none), and `w` records that the pending
      character continues an acronym whose head has already been written. */
  method CamelToSnake(s: string) returns (out: string)
    ensures out == Snake(s)
  {
    var b := new Buffer();
    var m: char := '\0';
    var w := false;
    var i := 0;
    while i < |s|
      invariant 0 <= i <= |s|
      invariant m == '\0' ==> !w && b.r == SnakePrefix(s, i) && (i == 0 || !IsUpper(s[i - 1]))
      invariant m != '\0' ==> 0 < i && IsUpper(s[i - 1]) && m == ToLower(s[i - 1])
                              && b.r == SnakePrefix(s, i - 1)
                              && w == (i >= 2 && IsUpper(s[i - 2]))
    {
      var ch := s[i];
      if IsUpper(ch) {
        if m != '\0' {
          if !w {
            b.Indent();
            w := true;
          }
          b.Write(m);
        }
        m := ToLower(ch);
      } else {
        if m != '\0' {
          b.Indent();
          b.Write(m);
          m := '\0';
          w := false;
        }
        b.Write(ch);
      }
      i := i + 1;
    }
    if m != '\0' {
      if !w {
        b.Indent();
      }
      b.Write(m);
    }
    out := b.r;
  }

  // ---------------------------------------------------------------------
  // What the output is made of.

  /** Where an output character comes from: a separator the transform
      inserted, or the (lower-cased) copy of input character `index`. */
  datatype Origin = Inserted | Copied(index: nat)

  /** The origin of every character of `SnakePrefix(s, n)`. */
  function OriginsPrefix(s: string, n: nat): seq<Origin>
    requires n <= |s|
  {
    if n == 0 then []
    else OriginsPrefix(s, n - 1) + (if Boundary(s, n - 1) then [Inserted] else []) + [Copied(n - 1)]
  }

  function Origins(s: string): seq<Origin>
  {
    OriginsPrefix(s, |s|)
  }

  /** The input with every upper-case letter folded to lower case. */
  function LowerAll(s: string): string
  {
    if s == [] then [] else LowerAll(s[..|s| - 1]) + [ToLower(s[|s| - 1])]
  }

  /** `t` with the characters whose origin is `Inserted` deleted. */
  function DropInserted(t: string, origins: seq<Origin>): string
    requires |t| == |origins|
  {
    if t == [] then []
    else DropInserted(t[..|t| - 1], origins[..|t| - 1])
         + (if origins[|t| - 1].Inserted? then [] else [t[|t| - 1]])
  }

  /** The input positions the copies in `origins` come from, in output order. */
  function Indices(origins: seq<Origin>): seq<nat>
  {
    if origins == [] then []
    else Indices(origins[..|origins| - 1])
         + (if origins[|origins| - 1].Copied? then [origins[|origins| - 1].index] else [])
  }

  lemma {:induction false} IndicesAppend(a: seq<Origin>, b: seq<Origin>)
    ensures Indices(a + b) == Indices(a) + Indices(b)
  {
    if b == [] {
      assert a + b == a;
    } else {
      var n := |b| - 1;
      IndicesAppend(a, b[..n]);
      assert (a + b)[..|a + b| - 1] == a + b[..n];
    }
  }

  /** The copies in the first `n` steps come from input positions 0 to n-1, in
      order, each once. */
  lemma {:induction false} IndicesPrefix(s: string, n: nat)
    requires n <= |s|
    ensures Indices(OriginsPrefix(s, n)) == seq(n, i => i)
  {
    if n > 0 {
      IndicesPrefix(s, n - 1);
      var o := OriginsPrefix(s, n - 1);
      var mid: seq<Origin> := if Boundary(s, n - 1) then [Inserted] else [];
      IndicesAppend(o + mid, [Copied(n - 1)]);
      IndicesAppend(o, mid);
      assert Indices(mid) == [] by {
        if mid != [] {
          assert mid[..0] == [];
        }
      }
      assert Indices([Copied(n - 1)]) == [n - 1] by {
        assert [Copied(n - 1)][..0] == [];
      }
      assert seq(n, i => i) == seq(n - 1, i => i) + [n - 1];
    }
  }

  /** Output position `k` is accounted for: a copy holds its input character
      lower-cased; an inserted separator is `_`, is not the first character,
      and is immediately followed by the copy of an upper-case input letter. */
  predicate Explained(s: string, t: string, origins: seq<Origin>, k: nat)
    requires |t| == |origins| && k < |t|
  {
    match origins[k]
    case Copied(j) => j < |s| && t[k] == ToLower(s[j])
    case Inserted =>
      && t[k] == '_' && 0 < k && k + 1 < |t|
      && origins[k + 1].Copied? && origins[k + 1].index < |s| && IsUpper(s[origins[k + 1].index])
  }

  lemma {:induction false} ExplainedPrefix(s: string, n: nat)
    requires n <= |s|
    ensures |OriginsPrefix(s, n)| == |SnakePrefix(s, n)|
    ensures forall k :: 0 <= k < |SnakePrefix(s, n)| ==>
              Explained(s, SnakePrefix(s, n), OriginsPrefix(s, n), k)
  {
    if n > 0 {
      ExplainedPrefix(s, n - 1);
      var t, o := SnakePrefix(s, n - 1), OriginsPrefix(s, n - 1);
      var t', o' := SnakePrefix(s, n), OriginsPrefix(s, n);
      forall k | 0 <= k < |t'|
        ensures Explained(s, t', o', k)
      {
        if k < |t| {
          assert Explained(s, t, o, k);
          assert t'[k] == t[k] && o'[k] == o[k];
          if o[k].Inserted? {
            assert t'[k + 1] == t[k + 1] && o'[k + 1] == o[k + 1];
          }
        }
      }
    }
  }

  lemma {:induction false} DropInsertedAppend(t: string, o: seq<Origin>, t2: string, o2: seq<Origin>)
    requires |t| == |o| && |t2| == |o2|
    ensures DropInserted(t + t2, o + o2) == DropInserted(t, o) + DropInserted(t2, o2)
  {
    if t2 == [] {
      assert t + t2 == t && o + o2 == o;
    } else {
      var n := |t2| - 1;
      DropInsertedAppend(t, o, t2[..n], o2[..n]);
      assert (t + t2)[..|t| + n] == t + t2[..n];
      assert (o + o2)[..|o| + n] == o + o2[..n];
    }
  }

  lemma DropInsertedCopy(c: char, j: nat)
    ensures DropInserted([c], [Copied(j)]) == [c]
  {
    assert [c][..0] == [] && [Copied(j)][..0] == [];
  }

  lemma DropInsertedSeparator(c: char, j: nat)
    ensures DropInserted(['_', c], [Inserted, Copied(j)]) == [c]
  {
    assert ['_', c][..1] == ['_'] && [Inserted, Copied(j)][..1] == [Inserted];
    assert ['_'][..0] == [] && [Inserted][..0] == [];
  }

  lemma {:induction false} OriginsLength(s: string, n: nat)
    requires n <= |s|
    ensures |OriginsPrefix(s, n)| == |SnakePrefix(s, n)|
  {
    if n > 0 {
      OriginsLength(s, n - 1);
    }
  }

  /** One input character adds its lower-cased copy after separators are dropped. */
  lemma DropInsertedStep(s: string, n: nat)
    requires 0 < n <= |s|
    requires |OriginsPrefix(s, n - 1)| == |SnakePrefix(s, n - 1)|
    requires |OriginsPrefix(s, n)| == |SnakePrefix(s, n)|
    ensures DropInserted(SnakePrefix(s, n), OriginsPrefix(s, n))
            == DropInserted(SnakePrefix(s, n - 1), OriginsPrefix(s, n - 1)) + [ToLower(s[n - 1])]
  {
    var c := ToLower(s[n - 1]);
    var t, o := SnakePrefix(s, n - 1), OriginsPrefix(s, n - 1);
    if Boundary(s, n - 1) {
      assert SnakePrefix(s, n) == t + ['_', c];
      assert OriginsPrefix(s, n) == o + [Inserted, Copied(n - 1)];
      DropInsertedAppend(t, o, ['_', c], [Inserted, Copied(n - 1)]);
      DropInsertedSeparator(c, n - 1);
    } else {
      assert SnakePrefix(s, n) == t + [c];
      assert OriginsPrefix(s, n) == o + [Copied(n - 1)];
      DropInsertedAppend(t, o, [c], [Copied(n - 1)]);
      DropInsertedCopy(c, n - 1);
    }
  }

  lemma {:induction false} DropInsertedPrefix(s: string, n: nat)
    requires n <= |s|
    ensures |OriginsPrefix(s, n)| == |SnakePrefix(s, n)|
    ensures DropInserted(SnakePrefix(s, n), OriginsPrefix(s, n)) == LowerAll(s[..n])
  {
    OriginsLength(s, n);
    if n == 0 {
      assert s[..0] == [];
    } else {
      DropInsertedPrefix(s, n - 1);
      DropInsertedStep(s, n);
      assert s[..n][..n - 1] == s[..n - 1];
    }
  }

  /** Deleting the separators the transform inserted gives back the input
      lower-cased, and every inserted separator is a `_` that is not at the
      start and stands right before the copy of an upper-case input letter. */
  lemma SnakeShape(s: string)
    ensures |Origins(s)| == |Snake(s)|
    ensures DropInserted(Snake(s), Origins(s)) == LowerAll(s)
    ensures forall k :: 0 <= k < |Snake(s)| ==> Explained(s, Snake(s), Origins(s), k)
    ensures Indices(Origins(s)) == seq(|s|, i => i)
  {
    IndicesPrefix(s, |s|);
    ExplainedPrefix(s, |s|);
    DropInsertedPrefix(s, |s|);
    assert s[..|s|] == s;
  }

  /** The output contains no upper-case letter. */
  lemma NoUpperInSnake(s: string)
    ensures forall k :: 0 <= k < |Snake(s)| ==> !IsUpper(Snake(s)[k])
  {
    SnakeShape(s);
    forall k | 0 <= k < |Snake(s)|
      ensures !IsUpper(Snake(s)[k])
    {
      assert Explained(s, Snake(s), Origins(s), k);
    }
  }

  /** The output never starts with an inserted separator: its first character
      is the input's first character, lower-cased. */
  lemma SnakeStart(s: string)
    requires |s| > 0
    ensures |Snake(s)| > 0 && Snake(s)[0] == ToLower(s[0])
  {
    SnakeStartPrefix(s, |s|);
  }

  lemma {:induction false} SnakeStartPrefix(s: string, n: nat)
    requires 0 < n <= |s|
    ensures SnakePrefix(s, n)[0] == ToLower(s[0])
  {
    if n > 1 {
      SnakeStartPrefix(s, n - 1);
    }
  }

  lemma {:induction false} NoUpperPrefixUnchanged(s: string, n: nat)
    requires n <= |s|
    requires forall k :: 0 <= k < |s| ==> !IsUpper(s[k])
    ensures SnakePrefix(s, n) == s[..n]
  {
    if n > 0 {
      NoUpperPrefixUnchanged(s, n - 1);
      assert s[..n] == s[..n - 1] + [s[n - 1]];
    }
  }

  /** A string without upper-case letters comes out unchanged: the pending
      character `m` never gets set, so every character is written verbatim. */
  lemma NoUpperUnchanged(s: string)
    requires forall k :: 0 <= k < |s| ==> !IsUpper(s[k])
    ensures Snake(s) == s
  {
    NoUpperPrefixUnchanged(s, |s|);
    assert s[..|s|] == s;
  }

  /** The transform is idempotent. */
  lemma SnakeIdempotent(s: string)
    ensures Snake(Snake(s)) == Snake(s)
  {
    NoUpperInSnake(s);
    NoUpperUnchanged(Snake(s));
  }

  /** An acronym run is one lower-case block, split from the word that follows it. */
  lemma SnakeAcronymExample()
    ensures Snake("HTTPServer") == "http_server"
  {
    var s := "HTTPServer";
    assert SnakePrefix(s, 1) == "h";
    assert SnakePrefix(s, 2) == "ht";
    assert SnakePrefix(s, 3) == "htt";
    assert SnakePrefix(s, 4) == "http";
    assert SnakePrefix(s, 5) == "http_s";
    assert SnakePrefix(s, 6) == "http_se";
    assert SnakePrefix(s, 7) == "http_ser";
    assert SnakePrefix(s, 8) == "http_serv";
    assert SnakePrefix(s, 9) == "http_serve";
    assert SnakePrefix(s, 10) == "http_server";
  }

  /** Each upper-case letter after the first starts a new word. */
  lemma SnakeWordsExample()
    ensures Snake("DoThing") == "do_thing"
  {
    var s := "DoThing";
    assert SnakePrefix(s, 1) == "d";
    assert SnakePrefix(s, 2) == "do";
    assert SnakePrefix(s, 3) == "do_t";
    assert SnakePrefix(s, 4) == "do_th";
    assert SnakePrefix(s, 5) == "do_thi";
    assert SnakePrefix(s, 6) == "do_thin";
    assert SnakePrefix(s, 7) == "do_thing";
  }

  /** An input made only of an acronym gets no separator. */
  lemma SnakeAllUpperExample()
    ensures Snake("ID") == "id"
  {
    var s := "ID";
    assert SnakePrefix(s, 1) == "i";
    assert SnakePrefix(s, 2) == "id";
  }

  /** Any character that is not upper case ends an acronym, a digit too, so the
      acronym's last letter is split off. */
  lemma SnakeDigitExample()
    ensures Snake("HTTP2") == "htt_p2"
  {
    var s := "HTTP2";
    assert SnakePrefix(s, 1) == "h";
    assert SnakePrefix(s, 2) == "ht";
    assert SnakePrefix(s, 3) == "htt";
    assert SnakePrefix(s, 4) == "htt_p";
    assert SnakePrefix(s, 5) == "htt_p2";
  }

  /** The interface of the generator's own test: its file is `example` plus the suffix. */
  lemma SnakeSingleWordExample()
    ensures Snake("Example") == "example"
  {
    var s := "Example";
    assert SnakePrefix(s, 1) == "e";
    assert SnakePrefix(s, 2) == "ex";
    assert SnakePrefix(s, 3) == "exa";
    assert SnakePrefix(s, 4) == "exam";
    assert SnakePrefix(s, 5) == "examp";
    assert SnakePrefix(s, 6) == "exampl";
    assert SnakePrefix(s, 7) == "example";
  }
}
