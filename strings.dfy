/** String operations of the Java standard library that the analyzer and the
    metadata decoder rely on, stated on `seq<char>`. */
module Strings {

  /** Java's `s.startsWith(p)`. */
  predicate StartsWith(s: string, p: string) {
    |p| <= |s| && s[..|p|] == p
  }

  /** Java's `s.endsWith(p)`. */
  predicate EndsWith(s: string, p: string) {
    |p| <= |s| && s[|s| - |p|..] == p
  }

  /** `s` without its last `|p|` characters, for an `s` ending in `p`. */
  function DropSuffix(s: string, p: string): (r: string)
    requires EndsWith(s, p)
    ensures r + p == s && |r| == |s| - |p|
  {
    s[..|s| - |p|]
  }

  /** The characters Java's regular expressions treat as line terminators;
      `.` matches none of them. */
  predicate IsLineTerminator(c: char) {
    c == '\n' || c == '\r' || c == '\U{85}' || c == '\U{2028}' || c == '\U{2029}'
  }

  /** No character of `s` ends a line. */
  predicate NoLineTerminator(s: string) {
    |s| == 0 || (!IsLineTerminator(s[0]) && NoLineTerminator(s[1..]))
  }

  /** Java's `s.matches(".*[aeIou]")`: the whole string matches, so the last
      character is one of the five vowels and no earlier one ends a line. */
  predicate EndsInVowel(s: string) {
    |s| > 0 && s[|s| - 1] in "aeIou" && NoLineTerminator(s[..|s| - 1])
  }

  predicate OccursAt(s: string, p: string, i: int) {
    0 <= i && i + |p| <= |s| && s[i..i + |p|] == p
  }

  /** Java's `s.indexOf(p)`: the first position where `p` occurs, or -1. */
  function IndexOf(s: string, p: string): (r: int)
    ensures -1 <= r <= |s|
    ensures r == -1 <==> forall i :: 0 <= i <= |s| ==> !OccursAt(s, p, i)
    ensures r != -1 ==> OccursAt(s, p, r) && forall i :: 0 <= i < r ==> !OccursAt(s, p, i)
  {
    IndexOfFrom(s, p, 0)
  }

  function IndexOfFrom(s: string, p: string, k: nat): (r: int)
    requires k <= |s| + 1
    ensures -1 <= r <= |s|
    ensures r == -1 <==> forall i :: k <= i <= |s| ==> !OccursAt(s, p, i)
    ensures r != -1 ==> k <= r && OccursAt(s, p, r) && forall i :: k <= i < r ==> !OccursAt(s, p, i)
    decreases |s| + 1 - k
  {
    if k + |p| > |s| then
      assert forall i :: k <= i <= |s| ==> !OccursAt(s, p, i);
      -1
    else if s[k..k + |p|] == p then
      assert OccursAt(s, p, k);
      k
    else IndexOfFrom(s, p, k + 1)
  }

  /** Java's `s.indexOf(c)` for a single character. */
  function IndexOfChar(s: string, c: char): (r: int)
    ensures -1 <= r < |s|
    ensures r == -1 <==> c !in s
    ensures r != -1 ==> s[r] == c && c !in s[..r]
  {
    if c !in s then -1
    else
      var r := IndexOf(s, [c]);
      assert r != -1 by {
        var j :| 0 <= j < |s| && s[j] == c;
        assert OccursAt(s, [c], j);
      }
      assert s[r..r + 1] == [c];
      assert c !in s[..r] by {
        forall j | 0 <= j < r ensures s[j] != c {
          assert !OccursAt(s, [c], j);
          assert s[j..j + 1] == [s[j]];
        }
      }
      r
  }

  /** Every piece of `s` between separators, empty pieces included. */
  function SplitAll(s: string, sep: char): (r: seq<string>)
    ensures |r| >= 1
    ensures forall k :: 0 <= k < |r| ==> sep !in r[k]
    decreases |s|
  {
    var i := IndexOfChar(s, sep);
    if i == -1 then [s] else [s[..i]] + SplitAll(s[i + 1..], sep)
  }

  /** The pieces joined back with the separator between consecutive ones. */
  function Join(pieces: seq<string>, sep: char): string {
    if |pieces| == 0 then ""
    else if |pieces| == 1 then pieces[0]
    else pieces[0] + [sep] + Join(pieces[1..], sep)
  }

  function DropTrailingEmpty(pieces: seq<string>): (r: seq<string>)
    ensures |r| <= |pieces| && r == pieces[..|r|]
    ensures |r| > 0 ==> r[|r| - 1] != ""
    ensures forall k :: |r| <= k < |pieces| ==> pieces[k] == ""
  {
    if |pieces| > 0 && pieces[|pieces| - 1] == "" then
      DropTrailingEmpty(pieces[..|pieces| - 1])
    else pieces
  }

  /** Java's `s.split(",")` with a one-character separator: a string without
      the separator is returned whole (so `""` gives `[""]`); otherwise the
      pieces, with trailing empty pieces removed. */
  function JavaSplit(s: string, sep: char): seq<string> {
    if sep !in s then [s] else DropTrailingEmpty(SplitAll(s, sep))
  }

  /** Splitting then joining gives the string back. */
  lemma {:induction false} JoinSplitAll(s: string, sep: char)
    ensures Join(SplitAll(s, sep), sep) == s
    decreases |s|
  {
    var i := IndexOfChar(s, sep);
    if i != -1 {
      var rest := s[i + 1..];
      var tail := SplitAll(rest, sep);
      JoinSplitAll(rest, sep);
      assert SplitAll(s, sep) == [s[..i]] + tail;
      assert ([s[..i]] + tail)[1..] == tail;
      assert Join([s[..i]] + tail, sep) == s[..i] + [sep] + Join(tail, sep);
      assert s == s[..i] + [sep] + rest;
    }
  }

  /** Java's decimal `Integer.toString` on a non-negative number. */
  function NatToString(n: nat): (r: string)
    ensures |r| >= 1
    ensures forall k :: 0 <= k < |r| ==> '0' <= r[k] <= '9'
  {
    if n < 10 then [(('0' as int) + n) as char]
    else NatToString(n / 10) + [(('0' as int) + n % 10) as char]
  }

  /** Java's decimal `Integer.toString`, with a leading minus for negatives. */
  function IntToString(i: int): (r: string)
    ensures |r| >= 1
    ensures (r[0] == '-') <==> i < 0
  {
    if i < 0 then "-" + NatToString(-i) else NatToString(i)
  }

  /** The names as a display list: each one preceded by " + ". */
  function Listing(names: seq<string>): string {
    if |names| == 0 then "" else Listing(names[..|names| - 1]) + " + " + names[|names| - 1]
  }

  /** Listing two lists in turn lists their concatenation. */
  lemma {:induction false} ListingAppend(a: seq<string>, b: seq<string>)
    ensures Listing(a + b) == Listing(a) + Listing(b)
    decreases |b|
  {
    if |b| == 0 {
      assert a + b == a;
    } else {
      var c := a + b;
      var b' := b[..|b| - 1];
      assert c[..|c| - 1] == a + b';
      assert c[|c| - 1] == b[|b| - 1];
      ListingAppend(a, b');
    }
  }

  /** Concatenation is associative. */
  lemma Assoc<T>(a: seq<T>, b: seq<T>, c: seq<T>)
    ensures a + (b + c) == (a + b) + c
  {
  }

  lemma EmptyLeft<T>(e: seq<T>, x: seq<T>)
    requires e == []
    ensures e + x == x
  {
  }

  lemma MoveAcross<T>(p: seq<T>, a: seq<T>, b: seq<T>, t: seq<T>)
    ensures (p + a) + (b + t) == (p + (a + b)) + t
  {
  }

  /** A string ending in `z` that is built as `x + y` ends in `z` within `y`
      if `z` is no longer than `y`, and otherwise `z` ends in `y`. */
  lemma EndsWithConcat(x: string, y: string, z: string)
    requires EndsWith(x + y, z)
    ensures |z| <= |y| ==> EndsWith(y, z)
    ensures |z| > |y| ==> EndsWith(z, y)
  {
    var s := x + y;
    if |z| <= |y| {
      assert y[|y| - |z|..] == s[|s| - |z|..];
    } else {
      assert z[|z| - |y|..] == s[|s| - |y|..] == y;
    }
  }

  /** EndsWithConcat as an implication, for use where `x + y` may not end
      in `z`. */
  lemma EndsWithSplit(x: string, y: string, z: string)
    ensures EndsWith(x + y, z) && |z| <= |y| ==> EndsWith(y, z)
    ensures EndsWith(x + y, z) && |z| > |y| ==> EndsWith(z, y)
  {
    if EndsWith(x + y, z) {
      EndsWithConcat(x, y, z);
    }
  }
}
