/**
 * The three JavaScript string operations the credential parse relies on:
 * `split` with a one-character separator, `trim`, and `startsWith`
 * (the last is Dafny's prefix test `p <= s`).
 */
module Strings {

  /** Position of the first `c` in `s`. */
  function IndexOf(s: string, c: char): (i: nat)
    requires c in s
    ensures i < |s| && s[i] == c && c !in s[..i]
  {
    if s[0] == c then 0
    else
      var j := IndexOf(s[1..], c);
      assert s[..j + 1] == [s[0]] + s[1..][..j];
      j + 1
  }

  /**
   * `s.split(sep)`: the maximal `sep`-free pieces of `s`, in order. There is always
   * at least one piece; there is more than one exactly when `sep` occurs in `s`, and
   * the first piece is the text before the first `sep`.
   */
  function Split(s: string, sep: char): (parts: seq<string>)
    ensures |parts| >= 1
    ensures forall k | 0 <= k < |parts| :: sep !in parts[k]
    ensures |parts| > 1 <==> sep in s
    ensures parts[0] <= s && (|parts[0]| == |s| || s[|parts[0]|] == sep)
    decreases |s|
  {
    if sep in s then
      var i := IndexOf(s, sep);
      [s[..i]] + Split(s[i + 1..], sep)
    else
      [s]
  }

  /** `parts.join(sep)`: the inverse of Split. */
  function Join(parts: seq<string>, sep: char): string
    requires |parts| >= 1
  {
    if |parts| == 1 then parts[0] else parts[0] + [sep] + Join(parts[1..], sep)
  }

  /** Splitting loses nothing: joining the pieces gives back the string. */
  lemma {:induction false} JoinSplit(s: string, sep: char)
    ensures Join(Split(s, sep), sep) == s
    decreases |s|
  {
    if sep in s {
      var i := IndexOf(s, sep);
      JoinSplit(s[i + 1..], sep);
      assert Split(s, sep)[1..] == Split(s[i + 1..], sep);
      assert s == s[..i] + [sep] + s[i + 1..];
    }
  }

  /** Every nonempty list of `sep`-free pieces is what Split makes of its join. */
  lemma {:induction false} SplitJoin(parts: seq<string>, sep: char)
    requires |parts| >= 1
    requires forall k | 0 <= k < |parts| :: sep !in parts[k]
    ensures Split(Join(parts, sep), sep) == parts
    decreases |parts|
  {
    var s := Join(parts, sep);
    if |parts| == 1 {
      assert sep !in parts[0];
    } else {
      var n := |parts[0]|;
      var rest := Join(parts[1..], sep);
      SplitJoin(parts[1..], sep);
      assert s == parts[0] + [sep] + rest;
      assert s[n] == sep;
      var i := IndexOf(s, sep);
      assert s[..n] == parts[0];
      assert i == n;
      assert s[i + 1..] == rest;
    }
  }

  /** Two `sep`-free pieces joined by one `sep` split back into those two pieces. */
  lemma SplitPair(a: string, b: string, sep: char)
    requires sep !in a && sep !in b
    ensures Split(a + [sep] + b, sep) == [a, b]
  {
    assert Join([a, b], sep) == a + [sep] + b by {
      assert Join([a, b][1..], sep) == b;
    }
    SplitJoin([a, b], sep);
  }

  /** Whitespace as String.prototype.trim removes it: ECMAScript WhiteSpace and LineTerminator. */
  predicate IsWhitespace(c: char) {
    || c == '\t' || c == '\n' || c == '\U{000B}' || c == '\U{000C}' || c == '\r' || c == ' '
    || c == '\U{00A0}' || c == '\U{1680}' || ('\U{2000}' <= c <= '\U{200A}')
    || c == '\U{2028}' || c == '\U{2029}' || c == '\U{202F}' || c == '\U{205F}'
    || c == '\U{3000}' || c == '\U{FEFF}'
  }

  predicate AllWhitespace(s: string) {
    forall k | 0 <= k < |s| :: IsWhitespace(s[k])
  }

  function TrimStart(s: string): (r: string)
    ensures |r| <= |s| && r == s[|s| - |r|..]
    ensures AllWhitespace(s[..|s| - |r|])
    ensures r == [] || !IsWhitespace(r[0])
  {
    if s != [] && IsWhitespace(s[0]) then
      var r := TrimStart(s[1..]);
      assert s[..|s| - |r|] == [s[0]] + s[1..][..|s| - 1 - |r|];
      r
    else s
  }

  function TrimEnd(s: string): (r: string)
    ensures |r| <= |s| && r == s[..|r|]
    ensures AllWhitespace(s[|r|..])
    ensures r == [] || !IsWhitespace(r[|r| - 1])
  {
    if s != [] && IsWhitespace(s[|s| - 1]) then
      var r := TrimEnd(s[..|s| - 1]);
      assert s[|r|..] == s[..|s| - 1][|r|..] + [s[|s| - 1]];
      r
    else s
  }

  lemma InfixWitness(s: string, i: nat, r: string)
    requires i + |r| <= |s| && s[i..i + |r|] == r && AllWhitespace(s[..i]) && AllWhitespace(s[i + |r|..])
    ensures exists j | 0 <= j <= |s| - |r| ::
      s[j..j + |r|] == r && AllWhitespace(s[..j]) && AllWhitespace(s[j + |r|..])
  {
  }

  lemma TrimWitness(s: string, front: string, r: string)
    requires |front| <= |s| && front == s[|s| - |front|..] && AllWhitespace(s[..|s| - |front|])
    requires |r| <= |front| && r == front[..|r|] && AllWhitespace(front[|r|..])
    ensures exists i | 0 <= i <= |s| - |r| ::
      s[i..i + |r|] == r && AllWhitespace(s[..i]) && AllWhitespace(s[i + |r|..])
  {
    var i := |s| - |front|;
    assert s[i..i + |r|] == r;
    assert s[i + |r|..] == front[|r|..];
    InfixWitness(s, i, r);
  }

  /** What Trim promises, proved about the two halves it composes. */
  lemma TrimProps(s: string)
    ensures var r := TrimEnd(TrimStart(s));
      && (r == [] || (!IsWhitespace(r[0]) && !IsWhitespace(r[|r| - 1])))
      && (s == [] || (!IsWhitespace(s[0]) && !IsWhitespace(s[|s| - 1])) ==> r == s)
  {
    var front := TrimStart(s);
    var r := TrimEnd(front);
    assert r != [] ==> r[0] == front[0];
    assert s != [] && !IsWhitespace(s[0]) && !IsWhitespace(s[|s| - 1]) ==> front == s;
  }

  /**
   * `s.trim()`: the infix of `s` left after removing whitespace at both ends. It
   * neither starts nor ends with whitespace, and a string that already does not is
   * left as it is.
   */
  function Trim(s: string): (r: string)
    ensures r == [] || (!IsWhitespace(r[0]) && !IsWhitespace(r[|r| - 1]))
    ensures s == [] || (!IsWhitespace(s[0]) && !IsWhitespace(s[|s| - 1])) ==> r == s
  {
    TrimProps(s);
    TrimEnd(TrimStart(s))
  }

  /** Trim removes whitespace only, and only at the two ends: its result is an infix of `s`. */
  lemma TrimIsInfix(s: string)
    ensures var r := Trim(s);
      exists i | 0 <= i <= |s| - |r| ::
        s[i..i + |r|] == r && AllWhitespace(s[..i]) && AllWhitespace(s[i + |r|..])
  {
    TrimWitness(s, TrimStart(s), Trim(s));
  }
}
