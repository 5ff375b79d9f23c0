/** The few `java.lang.String` operations the core relies on, with Java's semantics. */
module Strings {

  predicate StartsWith(s: string, prefix: string) {
    |prefix| <= |s| && s[..|prefix|] == prefix
  }

  predicate EndsWith(s: string, suffix: string) {
    |suffix| <= |s| && s[|s| - |suffix|..] == suffix
  }

  predicate InfixAt(s: string, part: string, i: int) {
    0 <= i && i + |part| <= |s| && s[i..i + |part|] == part
  }

  lemma InfixAtChar(s: string, part: string, i: int, n: nat)
    requires n < |part|
    ensures InfixAt(s, part, i) ==> s[i + n] == part[n]
  {
    if InfixAt(s, part, i) {
      assert s[i + n] == s[i..i + |part|][n];
    }
  }

  lemma StartsWithChar(s: string, prefix: string, n: nat)
    requires n < |prefix|
    ensures StartsWith(s, prefix) ==> s[n] == prefix[n]
  {
    if StartsWith(s, prefix) {
      assert s[n] == s[..|prefix|][n];
    }
  }

  /** `String.contains`. */
  predicate Contains(s: string, part: string) {
    exists i | 0 <= i <= |s| - |part| :: InfixAt(s, part, i)
  }

  /** A character that `String.trim` removes: any code point up to U+0020. */
  predicate TrimmedChar(c: char) {
    c <= ' '
  }

  function TrimStart(s: string): (r: string)
    ensures |r| <= |s| && r == s[|s| - |r|..]
    ensures forall i :: 0 <= i < |s| - |r| ==> TrimmedChar(s[i])
    ensures |r| > 0 ==> !TrimmedChar(r[0])
  {
    if |s| > 0 && TrimmedChar(s[0]) then TrimStart(s[1..]) else s
  }

  function TrimEnd(s: string): (r: string)
    ensures |r| <= |s| && r == s[..|r|]
    ensures forall i :: |r| <= i < |s| ==> TrimmedChar(s[i])
    ensures |r| > 0 ==> !TrimmedChar(r[|r| - 1])
  {
    if |s| > 0 && TrimmedChar(s[|s| - 1]) then TrimEnd(s[..|s| - 1]) else s
  }

  /** `String.trim`: remove every leading and trailing character up to U+0020. */
  function Trim(s: string): (r: string)
    ensures |r| > 0 ==> !TrimmedChar(r[0]) && !TrimmedChar(r[|r| - 1])
  {
    TrimEnd(TrimStart(s))
  }

  /** What trimming leaves is the infix of `s` between a run of trimmed characters at the
      front and one at the back. */
  lemma TrimIsInfix(s: string)
    ensures exists a, b :: 0 <= a <= b <= |s| && Trim(s) == s[a..b] &&
                           (forall i :: 0 <= i < a ==> TrimmedChar(s[i])) &&
                           (forall i :: b <= i < |s| ==> TrimmedChar(s[i]))
  {
    var a, b := TrimCuts(s);
  }

  /** Where trimming cuts `s`: before `a` and from `b` on. */
  lemma TrimCuts(s: string) returns (a: nat, b: nat)
    ensures a <= b <= |s| && Trim(s) == s[a..b]
    ensures forall i :: 0 <= i < a ==> TrimmedChar(s[i])
    ensures forall i :: b <= i < |s| ==> TrimmedChar(s[i])
  {
    a := TrimStartCut(s);
    var n := TrimEndCut(s[a..]);
    b := a + n;
    PrefixOfSuffix(s, a, n);
    TrimmedTail(s, a, n);
  }

  lemma PrefixOfSuffix(s: string, a: nat, n: nat)
    requires a + n <= |s|
    ensures s[a..][..n] == s[a..a + n]
  {
  }

  lemma TrimmedTail(s: string, a: nat, n: nat)
    requires a + n <= |s|
    requires forall i :: n <= i < |s[a..]| ==> TrimmedChar(s[a..][i])
    ensures forall i :: a + n <= i < |s| ==> TrimmedChar(s[i])
  {
    forall i | a + n <= i < |s|
      ensures TrimmedChar(s[i])
    {
      assert s[i] == s[a..][i - a];
    }
  }

  /** `TrimStart` cuts off the first `a` characters, all of them trimmed ones. */
  lemma TrimStartCut(s: string) returns (a: nat)
    ensures a <= |s| && TrimStart(s) == s[a..]
    ensures forall i :: 0 <= i < a ==> TrimmedChar(s[i])
  {
    a := |s| - |TrimStart(s)|;
  }

  /** `TrimEnd` keeps the first `n` characters; the rest are trimmed ones. */
  lemma TrimEndCut(t: string) returns (n: nat)
    ensures n <= |t| && TrimEnd(t) == t[..n]
    ensures forall i :: n <= i < |t| ==> TrimmedChar(t[i])
  {
    n := |TrimEnd(t)|;
  }

  /** Trimming never cuts into a part whose first and last characters are not trimmed. */
  lemma TrimKeepsInfix(s: string, part: string)
    requires |part| > 0 && !TrimmedChar(part[0]) && !TrimmedChar(part[|part| - 1])
    requires Contains(s, part)
    ensures Contains(Trim(s), part)
  {
    var i :| 0 <= i <= |s| - |part| && InfixAt(s, part, i);
    var j := TrimStartKeepsInfix(s, part, i);
    TrimEndKeepsInfix(TrimStart(s), part, j);
  }

  lemma TrimStartKeepsInfix(s: string, part: string, i: int) returns (j: int)
    requires |part| > 0 && !TrimmedChar(part[0])
    requires InfixAt(s, part, i)
    ensures InfixAt(TrimStart(s), part, j)
  {
    var t := TrimStart(s);
    var a := |s| - |t|;
    assert s[i] == part[0];
    j := i - a;
    assert t[j..j + |part|] == s[i..i + |part|];
  }

  lemma TrimEndKeepsInfix(t: string, part: string, j: int)
    requires |part| > 0 && !TrimmedChar(part[|part| - 1])
    requires InfixAt(t, part, j)
    ensures InfixAt(TrimEnd(t), part, j)
  {
    var r := TrimEnd(t);
    assert t[j + |part| - 1] == part[|part| - 1];
    assert r[j..j + |part|] == t[j..j + |part|];
  }

  /** Appending four texts to an empty buffer one after another builds their concatenation. */
  lemma AppendFour(a: string, b: string, c: string, d: string)
    ensures "" + a + b + c + d == a + b + c + d
  {
    assert "" + a == a;
  }

  /** Characters that the regular-expression `.` does not match (java.util.regex, default
      flags): line feed, carriage return, next line, line and paragraph separators. */
  predicate LineTerminator(c: char) {
    c == '\n' || c == '\r' || c == '\U{85}' || c == '\U{2028}' || c == '\U{2029}'
  }

  /** The text a reader has captured: every line followed by "\n", as the StringBuilder
      loops `append(line).append("\n")` build it. */
  function JoinLines(lines: seq<string>): (r: string)
    ensures |lines| == 0 ==> r == ""
    ensures |lines| > 0 ==> |r| > 0 && r[|r| - 1] == '\n'
  {
    if |lines| == 0 then "" else lines[0] + "\n" + JoinLines(lines[1..])
  }

  lemma {:induction false} JoinLinesAppend(lines: seq<string>, line: string)
    ensures JoinLines(lines + [line]) == JoinLines(lines) + line + "\n"
  {
    if |lines| > 0 {
      assert (lines + [line])[1..] == lines[1..] + [line];
      JoinLinesAppend(lines[1..], line);
    }
  }

  /** The pieces of `s` between occurrences of `sep`, empty ones included. */
  function Pieces(s: string, sep: char): (r: seq<string>)
    ensures |r| >= 1
    ensures forall k :: 0 <= k < |r| ==> sep !in r[k]
  {
    if |s| == 0 then [""]
    else
      var rest := Pieces(s[1..], sep);
      if s[0] == sep then [""] + rest else [[s[0]] + rest[0]] + rest[1..]
  }

  /** Text without the separator is a single piece. */
  lemma {:induction false} PiecesOfPlain(s: string, sep: char)
    requires sep !in s
    ensures Pieces(s, sep) == [s]
  {
    if |s| > 0 {
      assert sep !in s[1..] by {
        forall c | c in s[1..] ensures c != sep {
          var k :| 0 <= k < |s[1..]| && s[1..][k] == c;
          assert s[k + 1] == c;
        }
      }
      PiecesOfPlain(s[1..], sep);
      assert [s[0]] + s[1..] == s;
    }
  }

  /** The pieces around one separator are the pieces on either side of it. */
  lemma {:induction false} PiecesAround(a: string, sep: char, b: string)
    ensures Pieces(a + [sep] + b, sep) == Pieces(a, sep) + Pieces(b, sep)
  {
    if |a| == 0 {
      assert a + [sep] + b == [sep] + b;
      PiecesCons(sep, b, sep);
    } else {
      var t := a[1..] + [sep] + b;
      assert a + [sep] + b == [a[0]] + t;
      assert a == [a[0]] + a[1..];
      PiecesAround(a[1..], sep, b);
      ConsPieces(a[0], t, a[1..], sep, Pieces(b, sep));
    }
  }

  /** Putting the same character in front of two texts keeps a common tail of pieces. */
  lemma ConsPieces(c: char, t: string, u: string, sep: char, tail: seq<string>)
    requires Pieces(t, sep) == Pieces(u, sep) + tail
    ensures Pieces([c] + t, sep) == Pieces([c] + u, sep) + tail
  {
    PiecesCons(c, t, sep);
    PiecesCons(c, u, sep);
    var front := Pieces(u, sep);
    if c == sep {
      ConsAppend("", front, tail);
    } else {
      ConsAppend([c] + front[0], front[1..], tail);
    }
  }

  /** One step of `Pieces`: a first character is a separator or joins the first piece. */
  lemma PiecesCons(c: char, t: string, sep: char)
    ensures var rest := Pieces(t, sep);
            Pieces([c] + t, sep) == if c == sep then [""] + rest else [[c] + rest[0]] + rest[1..]
  {
    assert ([c] + t)[1..] == t;
  }

  lemma ConsAppend(x: string, xs: seq<string>, ys: seq<string>)
    ensures [x] + (xs + ys) == ([x] + xs) + ys
  {
  }

  function DropTrailingEmpty(pieces: seq<string>): (r: seq<string>)
    ensures |r| <= |pieces| && r == pieces[..|r|]
    ensures |r| > 0 ==> r[|r| - 1] != ""
    ensures forall k :: |r| <= k < |pieces| ==> pieces[k] == ""
  {
    if |pieces| > 0 && pieces[|pieces| - 1] == "" then DropTrailingEmpty(pieces[..|pieces| - 1])
    else pieces
  }

  /** `s.split("\n")`: the pieces between line feeds without the trailing empty ones; a
      string with no line feed at all splits into itself. */
  function Split(s: string): (r: seq<string>)
    ensures forall k :: 0 <= k < |r| ==> '\n' !in r[k]
    ensures '\n' !in s ==> r == [s]
  {
    if '\n' !in s then [s] else DropTrailingEmpty(Pieces(s, '\n'))
  }

  lemma {:induction false} PiecesOfJoinLines(lines: seq<string>)
    requires forall k :: 0 <= k < |lines| ==> '\n' !in lines[k]
    ensures Pieces(JoinLines(lines), '\n') == lines + [""]
  {
    if |lines| > 0 {
      var rest := JoinLines(lines[1..]);
      assert JoinLines(lines) == lines[0] + "\n" + rest;
      PiecesAround(lines[0], '\n', rest);
      PiecesOfPlain(lines[0], '\n');
      PiecesOfJoinLines(lines[1..]);
      ConsAppend(lines[0], lines[1..], [""]);
      assert [lines[0]] + lines[1..] == lines;
    }
  }

  lemma {:induction false} DropTrailingEmptyLast(pieces: seq<string>)
    ensures DropTrailingEmpty(pieces + [""]) == DropTrailingEmpty(pieces)
  {
    assert (pieces + [""])[..|pieces|] == pieces;
  }

  /** Splitting the captured text gives back the lines a reader captured, except trailing
      blank ones; no lines at all split into one empty line. */
  lemma SplitJoinLines(lines: seq<string>)
    requires forall k :: 0 <= k < |lines| ==> '\n' !in lines[k]
    ensures Split(JoinLines(lines)) == if |lines| == 0 then [""] else DropTrailingEmpty(lines)
  {
    if |lines| > 0 {
      var s := JoinLines(lines);
      assert s[|lines[0]|] == '\n';
      PiecesOfJoinLines(lines);
      DropTrailingEmptyLast(lines);
    }
  }

  function DigitChar(d: nat): (c: char)
    requires d < 10
    ensures '0' <= c <= '9'
  {
    "0123456789"[d]
  }

  function NatToString(n: nat): (r: string)
    ensures |r| >= 1 && forall k :: 0 <= k < |r| ==> '0' <= r[k] <= '9'
  {
    if n < 10 then [DigitChar(n)] else NatToString(n / 10) + [DigitChar(n % 10)]
  }

  /** Decimal rendering of an `int`, as string concatenation of a Java int renders it. */
  function IntToString(i: int): (r: string)
    ensures |r| >= 1
    ensures i < 0 <==> r[0] == '-'
  {
    if i < 0 then "-" + NatToString(-i) else NatToString(i)
  }
}
