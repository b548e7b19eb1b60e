/** The bundled symbol-name lists of the picker (`symbols15` and `symbols16`).

    Each list is the content of a text resource split on newlines. Reading
    the resource is I/O and is not modelled: the file arrives as an
    `Option<string>`, `None` standing for "missing or unreadable". The
    elements of the string stand for Swift `Character`s (see README).
 */
module Catalog {

  datatype Option<+T> = None | Some(value: T)

  /** An identifier naming a glyph; opaque to the picker. */
  type Symbol = string

  const Newline: char := '\n'

  predicate NoNewline(s: string) {
    forall i :: 0 <= i < |s| ==> s[i] != Newline
  }

  predicate AllNewlines(s: string) {
    forall i :: 0 <= i < |s| ==> s[i] == Newline
  }

  /** The shape of every list a split can produce: no empty entry, no entry holding a newline. */
  predicate WellFormed(xs: seq<Symbol>) {
    forall i :: 0 <= i < |xs| ==> xs[i] != [] && NoNewline(xs[i])
  }

  // ---------------------------------------------------------------------------
  // Parsing

  /** Number of characters before the first newline of `s` (all of `s` when it has none). */
  function LineLength(s: string): (k: nat)
    ensures k <= |s|
    ensures forall i :: 0 <= i < k ==> s[i] != Newline
    ensures k == |s| || s[k] == Newline
  {
    if s == [] || s[0] == Newline then 0 else 1 + LineLength(s[1..])
  }

  /** The first newline of `s` is at `j` (or `s` has none and `j == |s|`). */
  lemma {:induction false} LineLengthIs(s: string, j: nat)
    requires j <= |s|
    requires forall i :: 0 <= i < j ==> s[i] != Newline
    requires j == |s| || s[j] == Newline
    ensures LineLength(s) == j
  {
    if j > 0 {
      LineLengthIs(s[1..], j - 1);
    }
  }

  /** `content.split(separator: "\n")`: the maximal newline-free pieces of `content`,
      in order, with the empty pieces omitted (Swift's default). */
  function Split(s: string): (r: seq<Symbol>)
    ensures WellFormed(r)
    decreases |s|
  {
    if s == [] then []
    else if s[0] == Newline then Split(s[1..])
    else
      var k := LineLength(s);
      assert NoNewline(s[..k]);
      [s[..k]] + Split(s[k..])
  }

  /** The initialiser of `symbols15` / `symbols16`: no file gives the empty list,
      a file gives its lines. */
  function LoadCatalog(content: Option<string>): (r: seq<Symbol>)
    ensures content.None? ==> r == []
    ensures WellFormed(r)
    ensures content.Some? ==> Join(r) == Normalize(content.value)
  {
    match content
    case None => []
    case Some(text) =>
      JoinSplit(text);
      Split(text)
  }

  // ---------------------------------------------------------------------------
  // Reference definitions: joining lines, and text with its blank lines removed

  /** The entries written one per line, with no trailing newline. */
  function Join(xs: seq<Symbol>): string {
    if xs == [] then []
    else if |xs| == 1 then xs[0]
    else xs[0] + [Newline] + Join(xs[1..])
  }

  /** `s` with every run of newlines reduced to a single newline. */
  function Squeeze(s: string): string {
    if |s| < 2 then s
    else if s[0] == Newline && s[1] == Newline then Squeeze(s[1..])
    else [s[0]] + Squeeze(s[1..])
  }

  /** `s` without its leading newlines. */
  function TrimStart(s: string): (r: string)
    ensures |r| <= |s|
    ensures r == [] || r[0] != Newline
  {
    if s != [] && s[0] == Newline then TrimStart(s[1..]) else s
  }

  /** `s` without its trailing newlines. */
  function TrimEnd(s: string): string {
    if s != [] && s[|s| - 1] == Newline then TrimEnd(s[..|s| - 1]) else s
  }

  /** The text with blank lines dropped: runs of newlines collapsed to one,
      leading and trailing newlines removed. */
  function Normalize(s: string): string {
    TrimEnd(TrimStart(Squeeze(s)))
  }

  // ---------------------------------------------------------------------------
  // Lemmas about the reference definitions

  lemma {:induction false} SqueezeKeepsFirst(s: string)
    requires s != []
    ensures Squeeze(s) != [] && Squeeze(s)[0] == s[0]
  {
    if |s| >= 2 && s[0] == Newline && s[1] == Newline {
      SqueezeKeepsFirst(s[1..]);
    }
  }

  lemma AllNewlinesCons(c: char, q: string)
    ensures AllNewlines([c] + q) <==> c == Newline && AllNewlines(q)
  {
    if c == Newline && AllNewlines(q) {
      forall i | 0 <= i < |q| + 1 ensures ([c] + q)[i] == Newline {
        if i > 0 { assert ([c] + q)[i] == q[i - 1]; }
      }
    }
    if AllNewlines([c] + q) {
      assert ([c] + q)[0] == c;
      forall i | 0 <= i < |q| ensures q[i] == Newline {
        assert q[i] == ([c] + q)[i + 1];
      }
    }
  }

  lemma {:induction false} SqueezeAllNewlines(s: string)
    ensures AllNewlines(Squeeze(s)) <==> AllNewlines(s)
  {
    if |s| >= 2 {
      SqueezeAllNewlines(s[1..]);
      assert s == [s[0]] + s[1..];
      AllNewlinesCons(s[0], s[1..]);
      if !(s[0] == Newline && s[1] == Newline) {
        AllNewlinesCons(s[0], Squeeze(s[1..]));
      }
    }
  }

  /** Squeezing passes a newline-free prefix through untouched. */
  lemma {:induction false} SqueezeLine(a: string, b: string)
    requires NoNewline(a)
    ensures Squeeze(a + b) == a + Squeeze(b)
  {
    if a != [] {
      SqueezeLine(a[1..], b);
      assert (a + b)[1..] == a[1..] + b;
      if |a + b| >= 2 {
        assert Squeeze(a + b) == [a[0]] + Squeeze(a[1..] + b);
      }
      assert a == [a[0]] + a[1..];
    } else {
      assert a + b == b;
    }
  }

  /** A text that starts with newlines squeezes to one newline and the rest. */
  lemma {:induction false} SqueezeNewlineHead(s: string)
    requires s != [] && s[0] == Newline
    ensures Squeeze(s) == [Newline] + Squeeze(TrimStart(s))
  {
    assert TrimStart(s) == TrimStart(s[1..]);
    if |s| == 1 {
      assert s[1..] == [];
    } else if s[1] == Newline {
      SqueezeNewlineHead(s[1..]);
      assert Squeeze(s) == Squeeze(s[1..]);
    } else {
      assert Squeeze(s) == [s[0]] + Squeeze(s[1..]);
      assert TrimStart(s[1..]) == s[1..];
    }
  }

  /** Only a text made of newlines trims to nothing. */
  lemma {:induction false} TrimStartEmpty(s: string)
    ensures TrimStart(s) == [] <==> AllNewlines(s)
  {
    if s != [] {
      TrimStartEmpty(s[1..]);
      assert s == [s[0]] + s[1..];
      AllNewlinesCons(s[0], s[1..]);
    }
  }

  /** Trailing newlines are dropped by TrimEnd. */
  lemma {:induction false} TrimEndNewlines(a: string, x: string)
    requires AllNewlines(x)
    ensures TrimEnd(a + x) == TrimEnd(a)
    decreases |x|
  {
    if x != [] {
      var x' := x[..|x| - 1];
      assert (a + x)[..|a + x| - 1] == a + x';
      TrimEndNewlines(a, x');
    } else {
      assert a + x == a;
    }
  }

  /** TrimEnd only looks past the last non-newline character. */
  lemma {:induction false} TrimEndKeeps(a: string, x: string)
    requires !AllNewlines(x)
    ensures TrimEnd(a + x) == a + TrimEnd(x)
    decreases |x|
  {
    var x' := x[..|x| - 1];
    if x[|x| - 1] == Newline {
      assert !AllNewlines(x') by {
        var i :| 0 <= i < |x| && x[i] != Newline;
        assert x'[i] == x[i];
      }
      assert (a + x)[..|a + x| - 1] == a + x';
      TrimEndKeeps(a, x');
    }
  }

  /** Dropping a leading newline does not change the normalised text. */
  lemma NormalizeDropNewline(s: string)
    requires s != [] && s[0] == Newline
    ensures Normalize(s) == Normalize(s[1..])
  {
    SqueezeNewlineHead(s);
    if |s| >= 2 && s[1] != Newline {
      SqueezeKeepsFirst(s[1..]);
      assert TrimStart(s[1..]) == s[1..];
    }
    SqueezeNewlineHead2(s);
  }

  /** Helper of NormalizeDropNewline: the squeeze of the tail trims to the same text. */
  lemma {:induction false} SqueezeNewlineHead2(s: string)
    requires s != [] && s[0] == Newline
    ensures TrimStart(Squeeze(s)) == TrimStart(Squeeze(s[1..]))
  {
    SqueezeNewlineHead(s);
    var t := TrimStart(s);
    assert TrimStart(Squeeze(s)) == TrimStart(Squeeze(t));
    if s[1..] != [] && s[1] == Newline {
      SqueezeNewlineHead(s[1..]);
      assert TrimStart(s[1..]) == t;
    } else {
      assert TrimStart(s[1..]) == s[1..];
      assert t == s[1..];
    }
  }

  // ---------------------------------------------------------------------------
  // Properties of Split

  /** The list is empty exactly when the text holds nothing but newlines. */
  lemma {:induction false} SplitEmpty(s: string)
    ensures Split(s) == [] <==> AllNewlines(s)
    decreases |s|
  {
    if s != [] && s[0] == Newline {
      SplitEmpty(s[1..]);
      if AllNewlines(s[1..]) {
        forall i | 0 <= i < |s| ensures s[i] == Newline {
          if i > 0 { assert s[i] == s[1..][i - 1]; }
        }
      }
    }
  }

  /** Joining the entries gives back the text with its blank lines dropped. */
  lemma {:induction false} JoinSplit(s: string)
    ensures Join(Split(s)) == Normalize(s)
    decreases |s|
  {
    if s == [] {
    } else if s[0] == Newline {
      JoinSplit(s[1..]);
      NormalizeDropNewline(s);
    } else {
      var k := LineLength(s);
      var line, rest := s[..k], s[k..];
      assert s == line + rest;
      assert Split(s) == [line] + Split(rest);
      JoinSplit(rest);
      SqueezeLine(line, rest);
      assert TrimStart(Squeeze(s)) == Squeeze(s);
      SqueezeAllNewlines(rest);
      SplitEmpty(rest);
      if AllNewlines(rest) {
        TrimEndNewlines(line, Squeeze(rest));
        assert TrimEnd(line) == line;
      } else {
        TrimEndKeeps(line, Squeeze(rest));
        var t := TrimStart(rest);
        SqueezeNewlineHead(rest);
        TrimStartEmpty(rest);
        SqueezeKeepsFirst(t);
        assert TrimStart(Squeeze(rest)) == Squeeze(t);
        assert !AllNewlines(Squeeze(t));
        TrimEndKeeps([Newline], Squeeze(t));
        assert Join([line] + Split(rest)) == line + [Newline] + Join(Split(rest));
      }
    }
  }

  /** Splitting undoes joining, for every list of well-formed entries. */
  lemma {:induction false} SplitJoin(xs: seq<Symbol>)
    requires WellFormed(xs)
    ensures Split(Join(xs)) == xs
  {
    if xs != [] {
      var x := xs[0];
      var s := Join(xs);
      assert x != [] && NoNewline(x);
      if |xs| == 1 {
        LineLengthIs(x, |x|);
        assert x[..|x|] == x;
        assert x[|x|..] == [];
      } else {
        var tail := Join(xs[1..]);
        assert s == x + ([Newline] + tail);
        assert s[|x|] == Newline;
        LineLengthIs(s, |x|);
        var k := LineLength(s);
        assert s[..k] == x;
        assert s[k..] == [Newline] + tail;
        assert ([Newline] + tail)[1..] == tail;
        SplitJoin(xs[1..]);
      }
    }
  }

  /** A trailing newline at the end of the resource adds no entry. */
  lemma {:induction false} SplitTrailingNewline(s: string)
    ensures Split(s + [Newline]) == Split(s)
    decreases |s|
  {
    var s' := s + [Newline];
    if s == [] {
      assert Split(s') == Split(s'[1..]);
      assert s'[1..] == [];
    } else if s[0] == Newline {
      assert s'[1..] == s[1..] + [Newline];
      SplitTrailingNewline(s[1..]);
    } else {
      var k := LineLength(s);
      assert forall i :: 0 <= i < k ==> s'[i] == s[..k][i];
      LineLengthIs(s', k);
      assert s'[..k] == s[..k];
      assert s'[k..] == s[k..] + [Newline];
      SplitTrailingNewline(s[k..]);
    }
  }

  /** Dropping blank lines from the resource does not change the list. */
  lemma SplitNormalize(s: string)
    ensures Split(Normalize(s)) == Split(s)
  {
    JoinSplit(s);
    SplitJoin(Split(s));
  }
}
