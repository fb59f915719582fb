/**
 * The text side of the server's session loop in easy_cozmo/server.py:
 * splitting accumulated input at '\n', Python's `str.strip()`, and the
 * requests that the non-blank lines make.
 */
module LineFraming {

  /** Python's `str.isspace()` for one character. */
  predicate IsSpace(c: char)
  {
    var n := c as int;
    9 <= n <= 13 || 28 <= n <= 32 || n == 0x85 || n == 0xA0 || n == 0x1680 ||
    0x2000 <= n <= 0x200A || n == 0x2028 || n == 0x2029 || n == 0x202F || n == 0x205F || n == 0x3000
  }

  predicate AllSpace(s: string)
  {
    forall i :: 0 <= i < |s| ==> IsSpace(s[i])
  }

  /** How many whitespace characters open `s`. */
  function LeadingSpaces(s: string): (n: nat)
    ensures n <= |s|
  {
    if |s| == 0 || !IsSpace(s[0]) then 0 else 1 + LeadingSpaces(s[1..])
  }

  /** How many whitespace characters close `s`. */
  function TrailingSpaces(s: string): (n: nat)
    ensures n <= |s|
  {
    if |s| == 0 || !IsSpace(s[|s| - 1]) then 0 else 1 + TrailingSpaces(s[..|s| - 1])
  }

  /** `LeadingSpaces` counts the whole run of whitespace that opens `s`. */
  lemma {:induction false} LeadingSpacesSpec(s: string)
    ensures forall i :: 0 <= i < LeadingSpaces(s) ==> IsSpace(s[i])
    ensures LeadingSpaces(s) < |s| ==> !IsSpace(s[LeadingSpaces(s)])
    decreases |s|
  {
    if |s| > 0 && IsSpace(s[0]) {
      LeadingSpacesSpec(s[1..]);
      forall i | 1 <= i < LeadingSpaces(s)
        ensures IsSpace(s[i])
      {
        assert s[i] == s[1..][i - 1];
      }
    }
  }

  /** `TrailingSpaces` counts the whole run of whitespace that closes `s`. */
  lemma {:induction false} TrailingSpacesSpec(s: string)
    ensures forall i :: |s| - TrailingSpaces(s) <= i < |s| ==> IsSpace(s[i])
    ensures TrailingSpaces(s) < |s| ==> !IsSpace(s[|s| - 1 - TrailingSpaces(s)])
    decreases |s|
  {
    if |s| > 0 && IsSpace(s[|s| - 1]) {
      var u := s[..|s| - 1];
      TrailingSpacesSpec(u);
      forall i | |s| - TrailingSpaces(s) <= i < |s| - 1
        ensures IsSpace(s[i])
      {
        assert s[i] == u[i];
      }
      if TrailingSpaces(s) < |s| {
        assert s[|s| - 1 - TrailingSpaces(s)] == u[|u| - 1 - TrailingSpaces(u)];
      }
    }
  }

  /** Python's `s.strip()`: whitespace removed from both ends, nothing else. */
  function Strip(s: string): (t: string)
    ensures |t| <= |s|
  {
    var a := LeadingSpaces(s);
    if a == |s| then []
    else
      SpacesApart(s);
      s[a..|s| - TrailingSpaces(s)]
  }

  /** Unless `s` is all whitespace, the runs that open and close it do not meet. */
  lemma SpacesApart(s: string)
    requires LeadingSpaces(s) < |s|
    ensures LeadingSpaces(s) + TrailingSpaces(s) < |s|
  {
    LeadingSpacesSpec(s);
    TrailingSpacesSpec(s);
  }

  /** `strip()` leaves nothing exactly when `s` is all whitespace. */
  lemma StripBlank(s: string)
    ensures Strip(s) == [] <==> AllSpace(s)
  {
    LeadingSpacesSpec(s);
    if LeadingSpaces(s) < |s| {
      SpacesApart(s);
    }
  }

  /**
   * What `strip()` keeps: the characters of `s` from its first non-space one
   * to its last, which open and close the result; all it drops, before and
   * after, is whitespace.
   */
  lemma StripSpec(s: string)
    ensures LeadingSpaces(s) + |Strip(s)| <= |s|
    ensures forall k :: 0 <= k < |Strip(s)| ==> Strip(s)[k] == s[LeadingSpaces(s) + k]
    ensures Strip(s) != [] ==> !IsSpace(Strip(s)[0]) && !IsSpace(Strip(s)[|Strip(s)| - 1])
    ensures AllSpace(s[..LeadingSpaces(s)])
    ensures AllSpace(s[LeadingSpaces(s) + |Strip(s)|..])
  {
    var a := LeadingSpaces(s);
    if a < |s| {
      SpacesApart(s);
      var e := |s| - TrailingSpaces(s);
      assert Strip(s) == s[a..e];
      SliceFacts(s, a, e);
      assert !IsSpace(s[a]) by { LeadingSpacesSpec(s); }
      assert !IsSpace(s[e - 1]) by { TrailingSpacesSpec(s); }
    }
    StripDropsSpace(s);
  }

  /** What `strip()` drops, at either end, is whitespace. */
  lemma StripDropsSpace(s: string)
    ensures LeadingSpaces(s) + |Strip(s)| <= |s|
    ensures AllSpace(s[..LeadingSpaces(s)])
    ensures AllSpace(s[LeadingSpaces(s) + |Strip(s)|..])
  {
    var a := LeadingSpaces(s);
    assert AllSpace(s[..a]) by {
      LeadingSpacesSpec(s);
      forall i | 0 <= i < a
        ensures IsSpace(s[..a][i])
      {
        assert s[..a][i] == s[i];
      }
    }
    if a < |s| {
      SpacesApart(s);
      var e := |s| - TrailingSpaces(s);
      assert a + |Strip(s)| == e;
      assert AllSpace(s[e..]) by {
        TrailingSpacesSpec(s);
        forall i | 0 <= i < |s| - e
          ensures IsSpace(s[e..][i])
        {
          assert s[e..][i] == s[e + i];
        }
      }
    }
  }

  lemma SliceFacts(s: string, a: nat, e: nat)
    requires a < e <= |s|
    ensures |s[a..e]| == e - a
    ensures forall k :: 0 <= k < e - a ==> s[a..e][k] == s[a + k]
    ensures s[a..e][0] == s[a] && s[a..e][e - a - 1] == s[e - 1]
  {
  }

  /** Stripping twice is stripping once. */
  lemma StripIdempotent(s: string)
    ensures Strip(Strip(s)) == Strip(s)
  {
    StripSpec(s);
    var t := Strip(s);
    if t != [] {
      assert LeadingSpaces(t) == 0;
      assert TrailingSpaces(t) == 0;
    }
  }

  /** Index of the first '\n' in `s`, or `|s|` when there is none. */
  function NewlineIndex(s: string): (i: nat)
    ensures i <= |s|
  {
    NewlineFrom(s, 0)
  }

  /** Index of the first '\n' in `s` at or after `j`, or `|s|`. */
  function NewlineFrom(s: string, j: nat): (i: nat)
    requires j <= |s|
    ensures j <= i <= |s|
    decreases |s| - j
  {
    if j == |s| || s[j] == '\n' then j else NewlineFrom(s, j + 1)
  }

  /** `NewlineFrom` stops at the first '\n' from `j` on, and only there. */
  lemma {:induction false} NewlineFromSpec(s: string, j: nat)
    requires j <= |s|
    ensures forall k :: j <= k < NewlineFrom(s, j) ==> s[k] != '\n'
    ensures NewlineFrom(s, j) < |s| ==> s[NewlineFrom(s, j)] == '\n'
    decreases |s| - j
  {
    if j < |s| && s[j] != '\n' {
      NewlineFromSpec(s, j + 1);
    }
  }

  /** No '\n' comes before `NewlineIndex(s)`, and one is there unless it is the end. */
  lemma NewlineIndexSpec(s: string)
    ensures forall k :: 0 <= k < NewlineIndex(s) ==> s[k] != '\n'
    ensures NewlineIndex(s) < |s| ==> s[NewlineIndex(s)] == '\n'
  {
    NewlineFromSpec(s, 0);
  }

  /** Complete lines, without their '\n', and the unterminated tail. */
  datatype Framed = Framed(lines: seq<string>, rest: string)

  /** Each line followed by its '\n', concatenated. */
  function Join(lines: seq<string>): string
  {
    if lines == [] then [] else lines[0] + "\n" + Join(lines[1..])
  }

  /**
   * Repeated `line, buffer = buffer.split('\n', 1)` while a '\n' remains:
   * the complete lines, in order, and the unterminated tail.
   */
  function Split(s: string): Framed
    decreases |s|
  {
    var i := NewlineIndex(s);
    if i == |s| then Framed([], s)
    else
      var f := Split(s[i + 1..]);
      Framed([s[..i]] + f.lines, f.rest)
  }

  /**
   * No line and not the tail holds a '\n', and the lines, each given its
   * '\n' back, followed by the tail, are the input exactly.
   */
  lemma {:induction false} SplitJoin(s: string)
    ensures '\n' !in Split(s).rest
    ensures forall k :: 0 <= k < |Split(s).lines| ==> '\n' !in Split(s).lines[k]
    ensures Join(Split(s).lines) + Split(s).rest == s
    decreases |s|
  {
    var i := NewlineIndex(s);
    NewlineIndexSpec(s);
    if i == |s| {
      assert '\n' !in s;
    } else {
      var f := Split(s[i + 1..]);
      SplitJoin(s[i + 1..]);
      assert '\n' !in s[..i];
      FrameLine(s, i, f.lines, f.rest);
    }
  }

  /** Text without a '\n' frames no line: all of it is the tail. */
  lemma SplitNoNewline(s: string)
    requires '\n' !in s
    ensures Split(s) == Framed([], s)
  {
    NewlineIndexSpec(s);
  }

  /** One step of `Split`: a complete first line in front of a framing of the remainder. */
  lemma FrameLine(s: string, i: nat, lines: seq<string>, rest: string)
    requires i < |s| && s[i] == '\n'
    requires '\n' !in s[..i]
    requires forall k :: 0 <= k < |lines| ==> '\n' !in lines[k]
    requires Join(lines) + rest == s[i + 1..]
    ensures forall k :: 0 <= k < |[s[..i]] + lines| ==> '\n' !in ([s[..i]] + lines)[k]
    ensures Join([s[..i]] + lines) + rest == s
  {
    var line := s[..i];
    JoinCons(line, lines);
    calc {
      Join([line] + lines) + rest;
      line + "\n" + Join(lines) + rest;
      line + "\n" + (Join(lines) + rest);
      s[..i] + "\n" + s[i + 1..];
      s;
    }
    assert forall k :: 1 <= k < |[line] + lines| ==> ([line] + lines)[k] == lines[k - 1];
  }

  lemma JoinCons(line: string, lines: seq<string>)
    ensures Join([line] + lines) == line + "\n" + Join(lines)
  {
    assert ([line] + lines)[1..] == lines;
  }

  /** Splitting the text in front of a complete line. */
  lemma SplitCons(line: string, s: string)
    requires '\n' !in line
    ensures Split(line + "\n" + s) == Framed([line] + Split(s).lines, Split(s).rest)
  {
    var t := line + "\n" + s;
    NewlineIndexSpec(t);
    assert t[..|line|] == line;
    assert t[|line|] == '\n';
    assert t[|line| + 1..] == s;
  }

  /**
   * Python's `s.split('\n', 1)` on text that holds a '\n': the text before
   * the first '\n', and the text after it.
   */
  function SplitOnce(s: string): (p: (string, string))
    requires '\n' in s
    ensures s == p.0 + "\n" + p.1
    ensures '\n' !in p.0
  {
    var i := NewlineIndex(s);
    NewlineIndexSpec(s);
    assert s == s[..i] + "\n" + s[i + 1..];
    assert '\n' !in s[..i];
    (s[..i], s[i + 1..])
  }

  /** Framing `s` frames the first line, then what follows it. */
  lemma SplitFirstLine(s: string)
    requires '\n' in s
    ensures var p := SplitOnce(s);
      Split(s) == Framed([p.0] + Split(p.1).lines, Split(p.1).rest)
  {
    var p := SplitOnce(s);
    SplitCons(p.0, p.1);
  }

  /**
   * The framing is the only one possible: any list of '\n'-free lines and a
   * '\n'-free tail that rebuild `s` is what `Split` gives.
   */
  lemma {:induction false} SplitUnique(s: string, lines: seq<string>, rest: string)
    requires forall k :: 0 <= k < |lines| ==> '\n' !in lines[k]
    requires '\n' !in rest
    requires Join(lines) + rest == s
    ensures Split(s) == Framed(lines, rest)
    decreases |lines|
  {
    if lines == [] {
      assert s == rest;
      SplitNoNewline(s);
    } else {
      var tail := Join(lines[1..]) + rest;
      assert s == lines[0] + "\n" + tail;
      SplitUnique(tail, lines[1..], rest);
      SplitCons(lines[0], tail);
      assert [lines[0]] + lines[1..] == lines;
    }
  }

  /**
   * Reading in pieces frames like reading at once: the lines of `a + b`
   * are the lines of `a`, then the lines of `a`'s tail followed by `b`.
   */
  lemma {:induction false} SplitAppend(a: string, b: string)
    ensures Split(a + b).lines == Split(a).lines + Split(Split(a).rest + b).lines
    ensures Split(a + b).rest == Split(Split(a).rest + b).rest
  {
    var fa := Split(a);
    var fb := Split(fa.rest + b);
    SplitJoin(a);
    SplitJoin(fa.rest + b);
    var lines := fa.lines + fb.lines;
    NoNewlineConcat(fa.lines, fb.lines);
    JoinGlue(fa.lines, fa.rest, fb.lines, fb.rest, a, b);
    SplitUnique(a + b, lines, fb.rest);
  }

  /** A framing of `a`, and one of its tail followed by `b`, glue into a framing of `a + b`. */
  lemma JoinGlue(la: seq<string>, ra: string, lb: seq<string>, rb: string, a: string, b: string)
    requires Join(la) + ra == a
    requires Join(lb) + rb == ra + b
    ensures Join(la + lb) + rb == a + b
  {
    JoinAppend(la, lb);
    var ja, jb := Join(la), Join(lb);
    assert ja + jb + rb == ja + (jb + rb);
    assert ja + (ra + b) == (ja + ra) + b;
  }

  lemma NoNewlineConcat(xs: seq<string>, ys: seq<string>)
    requires forall k :: 0 <= k < |xs| ==> '\n' !in xs[k]
    requires forall k :: 0 <= k < |ys| ==> '\n' !in ys[k]
    ensures forall k :: 0 <= k < |xs + ys| ==> '\n' !in (xs + ys)[k]
  {
    forall k | 0 <= k < |xs + ys|
      ensures '\n' !in (xs + ys)[k]
    {
      if k >= |xs| {
        assert (xs + ys)[k] == ys[k - |xs|];
      }
    }
  }

  lemma {:induction false} JoinAppend(xs: seq<string>, ys: seq<string>)
    ensures Join(xs + ys) == Join(xs) + Join(ys)
    decreases |xs|
  {
    if xs == [] {
      assert xs + ys == ys;
    } else {
      assert (xs + ys)[1..] == xs[1..] + ys;
      JoinAppend(xs[1..], ys);
    }
  }

  /** Each non-blank line, stripped, in order; blank lines are skipped. */
  function Requests(lines: seq<string>): (rs: seq<string>)
    ensures |rs| <= |lines|
    ensures forall k :: 0 <= k < |rs| ==> rs[k] != []
  {
    if lines == [] then []
    else
      var r := Strip(lines[|lines| - 1]);
      Requests(lines[..|lines| - 1]) + (if r == [] then [] else [r])
  }

  /** Requests are made line by line: those of a concatenation concatenate. */
  lemma {:induction false} RequestsAppend(xs: seq<string>, ys: seq<string>)
    ensures Requests(xs + ys) == Requests(xs) + Requests(ys)
    decreases |ys|
  {
    if ys == [] {
      assert xs + ys == xs;
    } else {
      var n := |ys| - 1;
      assert (xs + ys)[..|xs + ys| - 1] == xs + ys[..n];
      assert (xs + ys)[|xs + ys| - 1] == ys[n];
      RequestsAppend(xs, ys[..n]);
    }
  }

  /** One line makes one request exactly when it is not whitespace only. */
  lemma RequestsOfLine(line: string)
    ensures Requests([line]) == if AllSpace(line) then [] else [Strip(line)]
  {
    StripBlank(line);
    assert [line][..0] == [];
  }

  /** The requests of a first line, then of the lines after it. */
  lemma RequestsCons(line: string, lines: seq<string>)
    ensures Requests([line] + lines) == (if Strip(line) == [] then [] else [Strip(line)]) + Requests(lines)
  {
    RequestsAppend([line], lines);
    RequestsOfLine(line);
  }
}
