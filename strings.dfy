/**
 * The Python `str` operations the collector relies on, written out on
 * `seq<char>`: lower(), replace(), strip(), split(sep), splitlines(),
 * sep.join(), find() and slicing with a clamped upper bound.
 */
module Strings {

  // ---------------------------------------------------------------------
  // Characters
  // ---------------------------------------------------------------------

  predicate IsUpper(c: char) {
    'A' <= c <= 'Z'
  }

  /** `c.lower()` for ASCII letters; every other character is kept. */
  function LowerChar(c: char): (r: char)
    ensures !IsUpper(r)
    ensures !IsUpper(c) ==> r == c
    ensures IsUpper(c) ==> r as int == c as int + 32
  {
    if IsUpper(c) then (c as int + 32) as char else c
  }

  /** The whitespace `str.strip()` removes: ASCII and Latin-1 whitespace. */
  predicate IsSpace(c: char) {
    var n := c as int;
    n == 32 || 9 <= n <= 13 || 28 <= n <= 31 || n == 0x85 || n == 0xA0
  }

  // ---------------------------------------------------------------------
  // Character-wise maps
  // ---------------------------------------------------------------------

  /** `s.lower()`. */
  function Lower(s: string): (r: string)
    ensures |r| == |s|
    ensures forall i :: 0 <= i < |s| ==> r[i] == LowerChar(s[i])
  {
    seq(|s|, i requires 0 <= i < |s| => LowerChar(s[i]))
  }

  predicate IsLowerCase(s: string) {
    forall i :: 0 <= i < |s| ==> !IsUpper(s[i])
  }

  /** `s.replace(from, to)` for single characters. */
  function ReplaceChar(s: string, from: char, to: char): (r: string)
    ensures |r| == |s|
    ensures forall i :: 0 <= i < |s| ==> r[i] == (if s[i] == from then to else s[i])
  {
    seq(|s|, i requires 0 <= i < |s| => if s[i] == from then to else s[i])
  }

  // ---------------------------------------------------------------------
  // strip()
  // ---------------------------------------------------------------------

  function LeadingSpaces(s: string): (n: nat)
    ensures n <= |s|
    ensures forall i :: 0 <= i < n ==> IsSpace(s[i])
    ensures n < |s| ==> !IsSpace(s[n])
  {
    if s != [] && IsSpace(s[0]) then 1 + LeadingSpaces(s[1..]) else 0
  }

  function TrailingSpaces(s: string): (n: nat)
    ensures n <= |s|
    ensures forall i :: |s| - n <= i < |s| ==> IsSpace(s[i])
    ensures n < |s| ==> !IsSpace(s[|s| - n - 1])
  {
    if s != [] && IsSpace(s[|s| - 1]) then 1 + TrailingSpaces(s[..|s| - 1]) else 0
  }

  /** Neither end of `s` is whitespace. */
  predicate Trimmed(s: string) {
    s == [] || (!IsSpace(s[0]) && !IsSpace(s[|s| - 1]))
  }

  /** `s` holds two adjacent spaces starting at position `i`. */
  predicate DoubleSpaceAt(s: string, i: int) {
    0 <= i < |s| - 1 && s[i] == ' ' && s[i + 1] == ' '
  }

  /** No two adjacent spaces anywhere in `s`. */
  predicate NoDoubleSpace(s: string) {
    forall i :: 0 <= i < |s| ==> !DoubleSpaceAt(s, i)
  }

  /**
   * `s.strip()`: the slice of `s` between its leading and trailing
   * whitespace. Being a slice, it adds no character and no adjacent pair
   * that `s` did not have.
   */
  function Strip(s: string): (r: string)
    ensures Trimmed(r)
    ensures |r| <= |s|
    ensures forall c :: c !in s ==> c !in r
    ensures NoDoubleSpace(s) ==> NoDoubleSpace(r)
    ensures forall i :: 0 <= i < |r| ==> !IsSpace(r[i]) ==> exists j :: 0 <= j < |s| && s[j] == r[i]
    ensures exists a, b ::
              && 0 <= a <= b <= |s| && r == s[a..b]
              && (forall i :: 0 <= i < a ==> IsSpace(s[i]))
              && (forall i :: b <= i < |s| ==> IsSpace(s[i]))
  {
    var a := LeadingSpaces(s);
    var t := s[a..];
    var r := t[..|t| - TrailingSpaces(t)];
    assert r == s[a..a + |r|];
    assert forall i :: a + |r| <= i < |s| ==> IsSpace(s[i]) by {
      forall i | a + |r| <= i < |s| ensures IsSpace(s[i]) {
        assert s[i] == t[i - a];
      }
    }
    assert NoDoubleSpace(s) ==> NoDoubleSpace(r) by {
      if NoDoubleSpace(s) {
        forall i | 0 <= i < |r| ensures !DoubleSpaceAt(r, i) {
          assert !DoubleSpaceAt(s, a + i);
        }
      }
    }
    r
  }

  // ---------------------------------------------------------------------
  // split(sep), splitlines(), sep.join()
  // ---------------------------------------------------------------------

  /**
   * `s.split(sep)`: scanning left to right, every non-overlapping
   * occurrence of `sep` ends the current piece and starts the next one.
   */
  function SplitOn(s: string, sep: string): (r: seq<string>)
    requires sep != []
    ensures |r| >= 1
    decreases |s|
  {
    if |s| < |sep| then [s]
    else if s[..|sep|] == sep then [""] + SplitOn(s[|sep|..], sep)
    else
      var rest := SplitOn(s[1..], sep);
      [[s[0]] + rest[0]] + rest[1..]
  }

  /**
   * `s.splitlines()` for '\n' line breaks: like split("\n") except that a
   * final empty piece (the text ends in a line break, or is empty) is not
   * a line.
   */
  function SplitLines(s: string): (r: seq<string>)
  {
    var pieces := SplitOn(s, "\n");
    if pieces[|pieces| - 1] == "" then pieces[..|pieces| - 1] else pieces
  }

  /** `sep.join(xs)`. */
  function Join(xs: seq<string>, sep: string): (r: string)
  {
    if |xs| == 0 then ""
    else if |xs| == 1 then xs[0]
    else xs[0] + sep + Join(xs[1..], sep)
  }

  /** The text of `xs` written one element per line, each followed by '\n'. */
  function Terminated(xs: seq<string>): (r: string)
  {
    if xs == [] then "" else xs[0] + "\n" + Terminated(xs[1..])
  }

  /** Slicing `s[0:n]`: at most the first `n` characters. */
  function Truncate(s: string, n: nat): (r: string)
    ensures |r| <= n && r <= s
    ensures |s| <= n ==> r == s
    ensures |s| > n ==> |r| == n
  {
    if |s| <= n then s else s[..n]
  }

  /**
   * `os.path.join(dir, name)` on POSIX: an absolute `name` replaces `dir`,
   * otherwise a '/' separates the two unless `dir` is empty or ends in one.
   */
  function PathJoin(dir: string, name: string): (r: string)
  {
    if |name| > 0 && name[0] == '/' then name
    else if dir == "" || dir[|dir| - 1] == '/' then dir + name
    else dir + "/" + name
  }

  /** `s.find(c)`, with `|s|` standing for "not found". */
  function IndexOf(s: string, c: char): (i: nat)
    ensures i <= |s|
    ensures i < |s| ==> s[i] == c
    ensures forall j :: 0 <= j < i ==> s[j] != c
  {
    if s == [] || s[0] == c then 0 else 1 + IndexOf(s[1..], c)
  }

  /** The first position of any character of `cs`, or `|s|`. */
  function IndexOfAny(s: string, cs: set<char>): (i: nat)
    ensures i <= |s|
    ensures i < |s| ==> s[i] in cs
    ensures forall j :: 0 <= j < i ==> s[j] !in cs
  {
    if s == [] || s[0] in cs then 0 else 1 + IndexOfAny(s[1..], cs)
  }

  // ---------------------------------------------------------------------
  // Lemmas
  // ---------------------------------------------------------------------

  /** The first piece of a split is a prefix of the text. */
  lemma {:induction false} SplitOnFirstIsPrefix(s: string, sep: string)
    requires sep != []
    ensures SplitOn(s, sep)[0] <= s
    decreases |s|
  {
    if |s| < |sep| {
    } else if s[..|sep|] == sep {
    } else {
      SplitOnFirstIsPrefix(s[1..], sep);
    }
  }

  /** A character absent from the text is absent from every piece. */
  lemma {:induction false} SplitOnKeepsAbsent(s: string, sep: string, c: char)
    requires sep != [] && c !in s
    ensures forall p :: p in SplitOn(s, sep) ==> c !in p
    decreases |s|
  {
    if |s| < |sep| {
    } else if s[..|sep|] == sep {
      SplitOnKeepsAbsent(s[|sep|..], sep, c);
    } else {
      SplitOnKeepsAbsent(s[1..], sep, c);
    }
  }

  /** No piece of a split on a single character contains that character. */
  lemma {:induction false} SplitOnCharRemovesSep(s: string, c: char)
    ensures forall p :: p in SplitOn(s, [c]) ==> c !in p
    decreases |s|
  {
    if |s| < 1 {
    } else if s[..1] == [c] {
      SplitOnCharRemovesSep(s[1..], c);
    } else {
      SplitOnCharRemovesSep(s[1..], c);
      assert s[0] != c;
    }
  }

  /** No piece of a split on a double space contains a double space. */
  lemma {:induction false} SplitOnDoubleSpace(s: string)
    ensures forall p :: p in SplitOn(s, "  ") ==> NoDoubleSpace(p)
    decreases |s|
  {
    if |s| < 2 {
      assert SplitOn(s, "  ") == [s];
    } else if s[..2] == "  " {
      SplitOnDoubleSpace(s[2..]);
    } else {
      var rest := SplitOn(s[1..], "  ");
      SplitOnDoubleSpace(s[1..]);
      SplitOnFirstIsPrefix(s[1..], "  ");
      var p := [s[0]] + rest[0];
      forall i | 0 <= i < |p| ensures !DoubleSpaceAt(p, i) {
        if i == 0 && |p| >= 2 {
          assert p[..2] == s[..2];
        } else if 0 < i {
          assert rest[0] in rest;
          assert !DoubleSpaceAt(rest[0], i - 1);
        }
      }
      assert SplitOn(s, "  ") == [p] + rest[1..];
    }
  }

  /** A text without the separator is a single piece. */
  lemma {:induction false} SplitOnWithoutSep(p: string, c: char)
    requires c !in p
    ensures SplitOn(p, [c]) == [p]
    decreases |p|
  {
    if |p| >= 1 {
      assert p[..1] != [c] by { assert p[0] != c; }
      SplitOnWithoutSep(p[1..], c);
      assert [p[0]] + p[1..] == p;
    }
  }

  /** Joining the pieces of a split with its separator gives the text back. */
  lemma {:induction false} JoinSplitOn(s: string, sep: string)
    requires sep != []
    ensures Join(SplitOn(s, sep), sep) == s
    decreases |s|
  {
    if |s| < |sep| {
    } else if s[..|sep|] == sep {
      JoinSplitOn(s[|sep|..], sep);
      JoinSplitAtSep(s, sep);
    } else {
      JoinSplitOn(s[1..], sep);
      JoinSplitPastChar(s, sep);
    }
  }

  /** A text starting with the separator: an empty piece, then the pieces of the rest. */
  lemma JoinSplitAtSep(s: string, sep: string)
    requires sep != [] && |s| >= |sep| && s[..|sep|] == sep
    requires Join(SplitOn(s[|sep|..], sep), sep) == s[|sep|..]
    ensures Join(SplitOn(s, sep), sep) == s
  {
    var rest := SplitOn(s[|sep|..], sep);
    assert SplitOn(s, sep) == [""] + rest;
    JoinCons("", rest, sep);
    SliceSplit(s, |sep|);
  }

  /** A text not starting with the separator: its first character joins the first piece of the rest. */
  lemma JoinSplitPastChar(s: string, sep: string)
    requires sep != [] && |s| >= |sep| && s[..|sep|] != sep
    requires Join(SplitOn(s[1..], sep), sep) == s[1..]
    ensures Join(SplitOn(s, sep), sep) == s
  {
    var rest := SplitOn(s[1..], sep);
    var head := [s[0]] + rest[0];
    assert SplitOn(s, sep) == [head] + rest[1..];
    JoinCons(head, rest[1..], sep);
    HeadTail(rest);
    JoinCons(rest[0], rest[1..], sep);
    Assoc4([s[0]], rest[0], sep, Join(rest[1..], sep));
    HeadTail(s);
  }

  lemma SliceSplit<T>(s: seq<T>, k: nat)
    requires k <= |s|
    ensures [] + s[..k] + s[k..] == s
  {
  }

  lemma HeadTail<T>(s: seq<T>)
    requires s != []
    ensures [s[0]] + s[1..] == s
  {
  }

  lemma Assoc4<T>(a: seq<T>, b: seq<T>, c: seq<T>, d: seq<T>)
    ensures (a + b) + c + d == a + (b + c + d)
  {
  }

  lemma ConsAssoc<T>(x: seq<T>, u: seq<T>, v: seq<T>, w: seq<T>)
    requires w == u + v
    ensures x + w == (x + u) + v
  {
  }

  /** A join of a part followed by more parts. */
  lemma JoinCons(x: string, xs: seq<string>, sep: string)
    ensures Join([x] + xs, sep) == if xs == [] then x else x + sep + Join(xs, sep)
  {
    assert ([x] + xs)[1..] == xs;
  }

  /** Splitting `p + c + rest` where `p` has no `c` peels off `p`. */
  lemma {:induction false} SplitOnPeel(p: string, c: char, rest: string)
    requires c !in p
    ensures SplitOn(p + [c] + rest, [c]) == [p] + SplitOn(rest, [c])
    decreases |p|
  {
    var s := p + [c] + rest;
    if p == [] {
      assert s[..1] == [c];
      assert s[1..] == rest;
    } else {
      assert s[..1] != [c] by { assert s[0] == p[0] != c; }
      assert s[1..] == p[1..] + [c] + rest;
      SplitOnPeel(p[1..], c, rest);
      assert [s[0]] + p[1..] == p;
    }
  }

  /** Splitting a join on a character absent from the parts gives the parts back. */
  lemma {:induction false} SplitOnJoin(xs: seq<string>, c: char)
    requires |xs| >= 1
    requires forall x :: x in xs ==> c !in x
    ensures SplitOn(Join(xs, [c]), [c]) == xs
    decreases |xs|
  {
    if |xs| == 1 {
      SplitOnWithoutSep(xs[0], c);
    } else {
      SplitOnJoin(xs[1..], c);
      SplitOnPeel(xs[0], c, Join(xs[1..], [c]));
      assert [xs[0]] + xs[1..] == xs;
    }
  }

  /**
   * Writing non-empty single-line strings joined by '\n' and reading the
   * text back line by line gives the same strings, in the same order.
   */
  lemma LinesOfJoin(xs: seq<string>)
    requires forall x :: x in xs ==> x != "" && '\n' !in x
    ensures SplitLines(Join(xs, "\n")) == xs
  {
    if xs != [] {
      SplitOnJoin(xs, '\n');
      assert xs[|xs| - 1] in xs;
    }
  }

  lemma {:induction false} TerminatedIsJoin(xs: seq<string>)
    ensures Terminated(xs) == Join(xs + [""], "\n")
    decreases |xs|
  {
    if xs != [] {
      TerminatedIsJoin(xs[1..]);
      assert (xs + [""])[1..] == xs[1..] + [""];
    }
  }

  lemma {:induction false} TerminatedAppend(a: seq<string>, b: seq<string>)
    ensures Terminated(a + b) == Terminated(a) + Terminated(b)
    decreases |a|
  {
    if a != [] {
      TerminatedAppend(a[1..], b);
      assert (a + b)[1..] == a[1..] + b;
      assert (a + b)[0] == a[0];
      calc {
        Terminated(a + b);
        a[0] + "\n" + Terminated(a[1..] + b);
        a[0] + "\n" + (Terminated(a[1..]) + Terminated(b));
        (a[0] + "\n" + Terminated(a[1..])) + Terminated(b);
      }
    } else {
      assert a + b == b;
    }
  }

  /**
   * Writing strings without line breaks one per line and reading the text
   * back line by line gives the same strings; empty strings are empty lines.
   */
  lemma LinesOfTerminated(xs: seq<string>)
    requires forall x :: x in xs ==> '\n' !in x
    ensures SplitLines(Terminated(xs)) == xs
    ensures |SplitLines(Terminated(xs))| == |xs|
  {
    TerminatedIsJoin(xs);
    SplitOnJoin(xs + [""], '\n');
    assert (xs + [""])[..|xs|] == xs;
  }

  /** A '\n'-join of parts without double spaces has no double space. */
  lemma {:induction false} JoinLinesNoDoubleSpace(xs: seq<string>)
    requires forall x :: x in xs ==> NoDoubleSpace(x)
    ensures NoDoubleSpace(Join(xs, "\n"))
    decreases |xs|
  {
    if |xs| > 1 {
      JoinLinesNoDoubleSpace(xs[1..]);
      var a, b := xs[0], Join(xs[1..], "\n");
      var s := a + "\n" + b;
      assert NoDoubleSpace(a);
      forall i | 0 <= i < |s| ensures !DoubleSpaceAt(s, i) {
        if 0 <= i && i + 1 < |a| {
          assert !DoubleSpaceAt(a, i);
        } else if i + 1 == |a| || i == |a| {
          assert s[|a|] == '\n';
        } else if i > |a| {
          assert !DoubleSpaceAt(b, i - |a| - 1);
        }
      }
    }
  }

  /** A '\n'-join of parts without `c` has no `c`, unless `c` is the break. */
  lemma {:induction false} JoinKeepsAbsent(xs: seq<string>, c: char)
    requires c != '\n'
    requires forall x :: x in xs ==> c !in x
    ensures c !in Join(xs, "\n")
    decreases |xs|
  {
    if |xs| > 1 {
      JoinKeepsAbsent(xs[1..], c);
    }
  }

  /**
   * A relative name lands inside the directory: the joined path is the
   * directory's own prefix followed by the name, so two different names
   * give two different paths.
   */
  lemma PathJoinSpec(dir: string, a: string, b: string)
    requires a == [] || a[0] != '/'
    requires b == [] || b[0] != '/'
    ensures |PathJoin(dir, a)| >= |a| && PathJoin(dir, a)[|PathJoin(dir, a)| - |a|..] == a
    ensures dir <= PathJoin(dir, a)
    ensures PathJoin(dir, a) == PathJoin(dir, b) <==> a == b
  {
    var p := if dir == "" || dir[|dir| - 1] == '/' then dir else dir + "/";
    assert PathJoin(dir, a) == p + a && PathJoin(dir, b) == p + b;
    if p + a == p + b {
      assert a == (p + a)[|p|..] && b == (p + b)[|p|..];
    }
  }

  /** Appending one part to a join adds the separator and the part. */
  lemma {:induction false} JoinAppend(xs: seq<string>, x: string, sep: string)
    ensures Join(xs + [x], sep) == if xs == [] then x else Join(xs, sep) + sep + x
    decreases |xs|
  {
    if |xs| == 1 {
      assert xs + [x] == [xs[0], x];
      assert [xs[0], x][1..] == [x];
    } else if |xs| > 1 {
      JoinAppend(xs[1..], x, sep);
      assert (xs + [x])[1..] == xs[1..] + [x];
      assert (xs + [x])[0] == xs[0];
    }
  }
}
