/**
 * The parts of Go's `strings` package that the service uses, on strings
 * modelled as sequences of Unicode code points: `Split` and `Join` with a
 * one-character separator, `TrimSpace` and `TrimSuffix` with a
 * one-character suffix. `Lines` splits a framed message at CRLF so that
 * its layout can be stated.
 */
module Strings {

  /** Number of occurrences of `c` in `s`. */
  function Count(s: string, c: char): nat
  {
    if s == [] then 0 else (if s[0] == c then 1 else 0) + Count(s[1..], c)
  }

  /**
   * `strings.Split(s, sep)` for a one-character `sep`: the maximal
   * separator-free pieces of `s`, in order. An empty `s` gives `[""]`.
   */
  function Split(s: string, sep: char): (parts: seq<string>)
    ensures |parts| == Count(s, sep) + 1
    ensures forall i :: 0 <= i < |parts| ==> sep !in parts[i]
  {
    if s == [] then [""]
    else
      var rest := Split(s[1..], sep);
      if s[0] == sep then [""] + rest
      else [[s[0]] + rest[0]] + rest[1..]
  }

  /** `strings.Join(parts, sep)` for a one-character `sep`. */
  function Join(parts: seq<string>, sep: char): string
  {
    if |parts| == 0 then ""
    else if |parts| == 1 then parts[0]
    else parts[0] + [sep] + Join(parts[1..], sep)
  }

  /** Joining the pieces of a split gives back the original string. */
  lemma {:induction false} JoinSplit(s: string, sep: char)
    ensures Join(Split(s, sep), sep) == s
  {
    if s != [] {
      JoinSplit(s[1..], sep);
      if s[0] == sep {
        JoinSplitAtSeparator(s, sep);
      } else {
        JoinSplitAtCharacter(s, sep);
      }
    }
  }

  /** The step of JoinSplit for a string that starts with the separator. */
  lemma {:induction false} JoinSplitAtSeparator(s: string, sep: char)
    requires s != [] && s[0] == sep
    requires Join(Split(s[1..], sep), sep) == s[1..]
    ensures Join(Split(s, sep), sep) == s
  {
    var rest := Split(s[1..], sep);
    assert Split(s, sep) == [""] + rest;
    assert Join([""] + rest, sep) == "" + [sep] + Join(rest, sep);
    assert s == [sep] + s[1..];
  }

  /** The step of JoinSplit for a string that starts with another character. */
  lemma {:induction false} JoinSplitAtCharacter(s: string, sep: char)
    requires s != [] && s[0] != sep
    requires Join(Split(s[1..], sep), sep) == s[1..]
    ensures Join(Split(s, sep), sep) == s
  {
    var rest := Split(s[1..], sep);
    assert Split(s, sep) == [[s[0]] + rest[0]] + rest[1..];
    JoinPrepend(s[0], rest, sep);
    assert s == [s[0]] + s[1..];
  }

  /** Putting a character in front of the first part puts it in front of the join. */
  lemma {:induction false} JoinPrepend(c: char, parts: seq<string>, sep: char)
    requires parts != []
    ensures Join([[c] + parts[0]] + parts[1..], sep) == [c] + Join(parts, sep)
  {
    var longer := [[c] + parts[0]] + parts[1..];
    if |parts| == 1 {
      assert longer == [[c] + parts[0]];
    } else {
      assert longer[0] == [c] + parts[0] && longer[1..] == parts[1..];
      var rest := Join(parts[1..], sep);
      assert [c] + parts[0] + [sep] + rest == [c] + (parts[0] + [sep] + rest);
    }
  }

  /** A string without the separator is a single piece. */
  lemma {:induction false} SplitWithoutSeparator(s: string, sep: char)
    requires sep !in s
    ensures Split(s, sep) == [s]
  {
    if s != [] {
      assert sep !in s[1..] by {
        forall k | 0 <= k < |s| - 1 ensures s[1..][k] != sep { assert s[1..][k] == s[k + 1]; }
      }
      SplitWithoutSeparator(s[1..], sep);
      assert s == [s[0]] + s[1..];
    }
  }

  /** Splitting at the first separator: the text before it is the first piece. */
  lemma {:induction false} SplitAtFirst(a: string, sep: char, b: string)
    requires sep !in a
    ensures Split(a + [sep] + b, sep) == [a] + Split(b, sep)
  {
    if a == [] {
      assert a + [sep] + b == [sep] + b;
      assert ([sep] + b)[1..] == b;
    } else {
      var s := a + [sep] + b;
      assert s[0] == a[0];
      assert s[1..] == a[1..] + [sep] + b;
      assert sep !in a[1..] by {
        forall k | 0 <= k < |a| - 1 ensures a[1..][k] != sep { assert a[1..][k] == a[k + 1]; }
      }
      SplitAtFirst(a[1..], sep, b);
      assert a == [a[0]] + a[1..];
    }
  }

  /**
   * Splitting a join gives back the pieces, provided no piece contains the
   * separator and there is at least one piece.
   */
  lemma {:induction false} SplitJoin(parts: seq<string>, sep: char)
    requires |parts| >= 1
    requires forall i :: 0 <= i < |parts| ==> sep !in parts[i]
    ensures Split(Join(parts, sep), sep) == parts
  {
    if |parts| == 1 {
      SplitWithoutSeparator(parts[0], sep);
    } else {
      SplitJoin(parts[1..], sep);
      SplitAtFirst(parts[0], sep, Join(parts[1..], sep));
      assert parts == [parts[0]] + parts[1..];
    }
  }

  /**
   * The first piece of a split: the text up to the first separator, or the
   * whole string when there is none.
   */
  lemma {:induction false} SplitFirstPiece(s: string, sep: char, j: nat)
    requires j <= |s| && sep !in s[..j]
    requires j == |s| || s[j] == sep
    ensures Split(s, sep)[0] == s[..j]
  {
    if j == |s| {
      assert s[..j] == s;
      SplitWithoutSeparator(s, sep);
    } else {
      assert s == s[..j] + [sep] + s[j + 1..];
      SplitAtFirst(s[..j], sep, s[j + 1..]);
    }
  }

  /**
   * Whitespace as Go's `unicode.IsSpace` defines it: the ASCII spaces
   * '\t', '\n', '\v', '\f', '\r', ' ', then U+0085 and U+00A0, and the
   * other code points with the Unicode White_Space property.
   */
  predicate IsSpace(c: char)
  {
    c == '\t' || c == '\n' || c == '\U{B}' || c == '\U{C}' || c == '\r' || c == ' '
    || c == '\U{85}' || c == '\U{A0}' || c == '\U{1680}'
    || ('\U{2000}' <= c <= '\U{200A}')
    || c == '\U{2028}' || c == '\U{2029}' || c == '\U{202F}' || c == '\U{205F}' || c == '\U{3000}'
  }

  /** Every character of s[lo..hi] is whitespace. */
  predicate SpaceBetween(s: string, lo: int, hi: int)
    requires 0 <= lo && hi <= |s|
  {
    forall k :: lo <= k < hi ==> IsSpace(s[k])
  }

  /** The first character of `s`, if any, is not whitespace. */
  predicate NoSpaceAtStart(s: string)
  {
    s == [] || !IsSpace(s[0])
  }

  /** The last character of `s`, if any, is not whitespace. */
  predicate NoSpaceAtEnd(s: string)
  {
    s == [] || !IsSpace(s[|s| - 1])
  }

  /** Neither the first nor the last character of `s` is whitespace. */
  predicate NoSpaceAtEnds(s: string)
  {
    NoSpaceAtStart(s) && NoSpaceAtEnd(s)
  }

  /** `strings.TrimLeftFunc(s, unicode.IsSpace)`: leading whitespace removed. */
  function TrimLeftSpace(s: string): (r: string)
    ensures |r| <= |s|
  {
    if s != [] && IsSpace(s[0]) then TrimLeftSpace(s[1..]) else s
  }

  /** TrimLeftSpace keeps a suffix of its input. */
  lemma {:induction false} TrimLeftSpaceIsSuffix(s: string)
    ensures TrimLeftSpace(s) == s[|s| - |TrimLeftSpace(s)|..]
  {
    if s != [] && IsSpace(s[0]) {
      var t := s[1..];
      TrimLeftSpaceIsSuffix(t);
      assert t[|t| - |TrimLeftSpace(t)|..] == s[|s| - |TrimLeftSpace(s)|..];
    }
  }

  /** TrimLeftSpace drops all of the leading whitespace. */
  lemma {:induction false} TrimLeftSpaceStops(s: string)
    ensures NoSpaceAtStart(TrimLeftSpace(s))
  {
    if s != [] && IsSpace(s[0]) {
      TrimLeftSpaceStops(s[1..]);
    }
  }

  /** TrimLeftSpace drops only whitespace. */
  lemma {:induction false} TrimLeftSpaceDropsSpace(s: string)
    ensures SpaceBetween(s, 0, |s| - |TrimLeftSpace(s)|)
  {
    if s != [] && IsSpace(s[0]) {
      var t := s[1..];
      TrimLeftSpaceDropsSpace(t);
      assert TrimLeftSpace(s) == TrimLeftSpace(t);
      forall k | 1 <= k < |s| - |TrimLeftSpace(s)| ensures IsSpace(s[k]) {
        assert s[k] == t[k - 1];
      }
    }
  }

  /** `strings.TrimRightFunc(s, unicode.IsSpace)`: trailing whitespace removed. */
  function TrimRightSpace(s: string): (r: string)
    ensures |r| <= |s|
  {
    if s != [] && IsSpace(s[|s| - 1]) then TrimRightSpace(s[..|s| - 1]) else s
  }

  /** TrimRightSpace keeps a prefix of its input. */
  lemma {:induction false} TrimRightSpaceIsPrefix(s: string)
    ensures TrimRightSpace(s) == s[..|TrimRightSpace(s)|]
  {
    if s != [] && IsSpace(s[|s| - 1]) {
      var t := s[..|s| - 1];
      TrimRightSpaceIsPrefix(t);
      assert t[..|TrimRightSpace(t)|] == s[..|TrimRightSpace(s)|];
    }
  }

  /** TrimRightSpace drops all of the trailing whitespace. */
  lemma {:induction false} TrimRightSpaceStops(s: string)
    ensures NoSpaceAtEnd(TrimRightSpace(s))
  {
    if s != [] && IsSpace(s[|s| - 1]) {
      TrimRightSpaceStops(s[..|s| - 1]);
    }
  }

  /** TrimRightSpace drops only whitespace. */
  lemma {:induction false} TrimRightSpaceDropsSpace(s: string)
    ensures SpaceBetween(s, |TrimRightSpace(s)|, |s|)
  {
    if s != [] && IsSpace(s[|s| - 1]) {
      var t := s[..|s| - 1];
      TrimRightSpaceDropsSpace(t);
      assert TrimRightSpace(s) == TrimRightSpace(t);
      forall k | |TrimRightSpace(s)| <= k < |s| - 1 ensures IsSpace(s[k]) {
        assert s[k] == t[k];
      }
    }
  }

  /** `strings.TrimSpace(s)`: leading, then trailing whitespace removed. */
  function TrimSpace(s: string): (r: string)
  {
    TrimRightSpace(TrimLeftSpace(s))
  }

  /**
   * TrimSpace keeps the part s[i..i + |r|] of its input, where i is where
   * TrimLeftSpace starts; what it drops on either side is whitespace, and the
   * result has no whitespace at either end.
   */
  lemma {:induction false} TrimSpaceKeepsInfix(s: string)
    ensures var r, i := TrimSpace(s), |s| - |TrimLeftSpace(s)|;
      i + |r| <= |s| && r == s[i..i + |r|] && SpaceBetween(s, 0, i) && SpaceBetween(s, i + |r|, |s|)
    ensures NoSpaceAtEnds(TrimSpace(s))
  {
    var l := TrimLeftSpace(s);
    var r := TrimRightSpace(l);
    assert r == TrimSpace(s);
    TrimmedOf(s, l, r);
  }

  /** What TrimLeftSpace and then TrimRightSpace keep of `s`, and what they drop. */
  lemma {:induction false} TrimmedOf(s: string, l: string, r: string)
    requires l == TrimLeftSpace(s) && r == TrimRightSpace(l)
    ensures var i := |s| - |l|;
      i + |r| <= |s| && r == s[i..i + |r|] && SpaceBetween(s, 0, i) && SpaceBetween(s, i + |r|, |s|)
    ensures NoSpaceAtEnds(r)
  {
    TrimLeftSpaceIsSuffix(s);
    TrimLeftSpaceDropsSpace(s);
    TrimLeftSpaceStops(s);
    TrimRightSpaceIsPrefix(l);
    TrimRightSpaceDropsSpace(l);
    TrimRightSpaceStops(l);
    TrimmedBothEnds(s, l, r);
  }

  /** Trimming a suffix of `s` at its right end leaves an infix of `s`. */
  lemma {:induction false} TrimmedBothEnds(s: string, l: string, r: string)
    requires |l| <= |s| && l == s[|s| - |l|..] && |r| <= |l| && r == l[..|r|]
    requires SpaceBetween(s, 0, |s| - |l|) && SpaceBetween(l, |r|, |l|)
    requires NoSpaceAtStart(l) && NoSpaceAtEnd(r)
    ensures var i := |s| - |l|;
      i + |r| <= |s| && r == s[i..i + |r|] && SpaceBetween(s, 0, i) && SpaceBetween(s, i + |r|, |s|)
    ensures NoSpaceAtEnds(r)
  {
    var i := |s| - |l|;
    forall k | i + |r| <= k < |s| ensures IsSpace(s[k]) {
      assert s[k] == l[k - i];
    }
    if r != [] {
      assert r[0] == l[0];
    }
  }

  /**
   * Independent characterisation: whenever `s` is whitespace, then a part
   * with no whitespace at its ends, then whitespace, TrimSpace(s) is that
   * middle part.
   */
  lemma {:induction false} TrimSpaceUnique(s: string, i: nat, j: nat)
    requires i <= j <= |s|
    requires SpaceBetween(s, 0, i) && SpaceBetween(s, j, |s|)
    requires i == j || (!IsSpace(s[i]) && !IsSpace(s[j - 1]))
    ensures TrimSpace(s) == s[i..j]
  {
    TrimLeftUnique(s, i, j);
    var l := TrimLeftSpace(s);
    if i == j {
      TrimRightAllSpace(l);
      assert TrimRightSpace(l) == [] == s[i..j];
    } else {
      TrimRightOfSuffix(s, l, i, j);
    }
  }

  /** Trimming the suffix s[i..] on the right stops at the last non-space character s[j - 1]. */
  lemma {:induction false} TrimRightOfSuffix(s: string, l: string, i: nat, j: nat)
    requires i < j <= |s| && l == s[i..]
    requires SpaceBetween(s, j, |s|) && !IsSpace(s[j - 1])
    ensures TrimRightSpace(l) == s[i..j]
  {
    forall k | j - i <= k < |l| ensures IsSpace(l[k]) {
      assert l[k] == s[i + k];
    }
    assert l[j - i - 1] == s[j - 1];
    TrimRightUnique(l, j - i);
    assert l[..j - i] == s[i..j];
  }

  lemma {:induction false} TrimLeftUnique(s: string, i: nat, j: nat)
    requires i <= j <= |s|
    requires SpaceBetween(s, 0, i) && SpaceBetween(s, j, |s|)
    requires i == j || !IsSpace(s[i])
    ensures i < j ==> TrimLeftSpace(s) == s[i..]
    ensures i == j ==> SpaceBetween(TrimLeftSpace(s), 0, |TrimLeftSpace(s)|)
  {
    if s != [] && IsSpace(s[0]) {
      var t := s[1..];
      if i > 0 {
        forall k | 0 <= k < i - 1 ensures IsSpace(t[k]) { assert t[k] == s[k + 1]; }
        forall k | j - 1 <= k < |t| ensures IsSpace(t[k]) { assert t[k] == s[k + 1]; }
        if i < j { assert t[i - 1] == s[i]; }
        TrimLeftUnique(t, i - 1, j - 1);
        assert t[i - 1..] == s[i..];
      } else {
        // i == 0 and s[0] is whitespace, so i == j == 0: all of s is whitespace
        forall k | 0 <= k < |t| ensures IsSpace(t[k]) { assert t[k] == s[k + 1]; }
        TrimLeftUnique(t, 0, 0);
      }
    }
  }

  lemma {:induction false} TrimRightUnique(s: string, j: nat)
    requires 0 < j <= |s|
    requires SpaceBetween(s, j, |s|) && !IsSpace(s[j - 1])
    ensures TrimRightSpace(s) == s[..j]
  {
    if j < |s| {
      var t := s[..|s| - 1];
      assert IsSpace(s[|s| - 1]);
      forall k | j <= k < |t| ensures IsSpace(t[k]) { assert t[k] == s[k]; }
      assert t[j - 1] == s[j - 1];
      TrimRightUnique(t, j);
      assert t[..j] == s[..j];
    } else {
      assert s[..j] == s;
    }
  }

  lemma {:induction false} TrimRightAllSpace(s: string)
    requires SpaceBetween(s, 0, |s|)
    ensures TrimRightSpace(s) == []
  {
    if s != [] {
      var t := s[..|s| - 1];
      forall k | 0 <= k < |t| ensures IsSpace(t[k]) { assert t[k] == s[k]; }
      TrimRightAllSpace(t);
    }
  }

  /** Trimming twice is the same as trimming once. */
  lemma {:induction false} TrimSpaceIdempotent(s: string)
    ensures TrimSpace(TrimSpace(s)) == TrimSpace(s)
  {
    var r := TrimSpace(s);
    TrimSpaceKeepsInfix(s);
    TrimSpaceUnique(r, 0, |r|);
    assert r[0..|r|] == r;
  }

  /** Every character TrimSpace keeps comes from its input. */
  lemma {:induction false} TrimSpaceKeepsCharacters(s: string, c: char)
    requires c !in s
    ensures c !in TrimSpace(s)
  {
    var l := TrimLeftSpace(s);
    var r := TrimRightSpace(l);
    assert r == TrimSpace(s);
    TrimLeftSpaceIsSuffix(s);
    TrimRightSpaceIsPrefix(l);
    forall k | 0 <= k < |r| ensures r[k] != c {
      assert r[k] == l[k] == s[|s| - |l| + k];
    }
  }

  /** `strings.TrimSuffix(s, [c])`: removes one trailing `c`, if present. */
  function TrimSuffix(s: string, c: char): (r: string)
    ensures s == r || s == r + [c]
    ensures |s| > 0 && s[|s| - 1] == c <==> s == r + [c]
  {
    if |s| > 0 && s[|s| - 1] == c then s[..|s| - 1] else s
  }

  /** Carriage return followed by line feed. */
  const CRLF: string := "\r\n"

  /**
   * The lines of `s` when CRLF is the line terminator: the maximal pieces
   * between CRLF pairs, in order.
   */
  function Lines(s: string): (lines: seq<string>)
    ensures |lines| >= 1
  {
    if s == [] then [""]
    else if |s| >= 2 && s[0] == '\r' && s[1] == '\n' then [""] + Lines(s[2..])
    else
      var rest := Lines(s[1..]);
      [[s[0]] + rest[0]] + rest[1..]
  }

  /** A string with no carriage return is a single line. */
  lemma {:induction false} LinesWithoutCR(s: string)
    requires '\r' !in s
    ensures Lines(s) == [s]
  {
    if s != [] {
      assert '\r' !in s[1..] by {
        forall k | 0 <= k < |s| - 1 ensures s[1..][k] != '\r' { assert s[1..][k] == s[k + 1]; }
      }
      LinesWithoutCR(s[1..]);
      assert s == [s[0]] + s[1..];
    }
  }

  /** A line without carriage returns, terminated by CRLF, is the first line. */
  lemma {:induction false} LinesAfterLine(a: string, b: string)
    requires '\r' !in a
    ensures Lines(a + CRLF + b) == [a] + Lines(b)
  {
    var s := a + CRLF + b;
    if a == [] {
      assert s == CRLF + b;
      assert s[2..] == b;
    } else {
      assert s[0] == a[0] && a[0] != '\r';
      assert s[1..] == a[1..] + CRLF + b;
      assert '\r' !in a[1..] by {
        forall k | 0 <= k < |a| - 1 ensures a[1..][k] != '\r' { assert a[1..][k] == a[k + 1]; }
      }
      LinesAfterLine(a[1..], b);
      assert a == [a[0]] + a[1..];
    }
  }

  /** The lines, each terminated by CRLF. */
  function Framed(lines: seq<string>): string
  {
    if lines == [] then "" else lines[0] + CRLF + Framed(lines[1..])
  }

  /**
   * Reading CRLF-terminated lines back from a framed block followed by
   * more text gives the lines, then the lines of that text, provided no
   * line holds a carriage return.
   */
  lemma {:induction false} LinesOfFramed(lines: seq<string>, tail: string)
    requires forall i :: 0 <= i < |lines| ==> '\r' !in lines[i]
    ensures Lines(Framed(lines) + tail) == lines + Lines(tail)
  {
    if lines != [] {
      var rest := lines[1..];
      forall i | 0 <= i < |rest| ensures '\r' !in rest[i] { assert rest[i] == lines[i + 1]; }
      LinesOfFramed(rest, tail);
      LinesOfFramedStep(lines, tail);
    } else {
      assert Framed(lines) + tail == tail;
    }
  }

  /** One more framed line in front of text whose lines are known. */
  lemma {:induction false} LinesOfFramedStep(lines: seq<string>, tail: string)
    requires lines != [] && '\r' !in lines[0]
    requires Lines(Framed(lines[1..]) + tail) == lines[1..] + Lines(tail)
    ensures Lines(Framed(lines) + tail) == lines + Lines(tail)
  {
    var after := Framed(lines[1..]) + tail;
    assert Framed(lines) + tail == lines[0] + CRLF + after;
    LinesAfterLine(lines[0], after);
    ConsAppend(lines, Lines(tail));
  }

  /** A non-empty sequence is its head followed by its tail, also in front of more. */
  lemma {:induction false} ConsAppend<T>(xs: seq<T>, ys: seq<T>)
    requires xs != []
    ensures [xs[0]] + (xs[1..] + ys) == xs + ys
  {
    assert xs == [xs[0]] + xs[1..];
  }

  /** Framing a non-empty list: its first line, CRLF, then the rest framed. */
  lemma {:induction false} FramedFrom(lines: seq<string>, k: nat)
    requires k < |lines|
    ensures Framed(lines[k..]) == lines[k] + CRLF + Framed(lines[k + 1..])
  {
    assert lines[k..][1..] == lines[k + 1..];
  }
}
