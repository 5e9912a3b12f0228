/**
 * The few pieces of ECMAScript string behaviour that the report's script relies on:
 * the whitespace class `\s` of its regular expressions (also what `String.prototype.trim`
 * strips), `trim`, `indexOf` and `split` on a single separator character.
 * Strings are sequences of characters; UTF-16 surrogate pairs are not modelled.
 */
module JsText {

  /** A character of the `\s` class: the WhiteSpace code points (TAB, VT, FF, U+FEFF and
      the space separators of Unicode category Zs) and the LineTerminator code points
      (LF, CR, U+2028, U+2029). */
  predicate IsWhitespace(c: char) {
    c == '\t' || c == '\n' || c == '\U{B}' || c == '\U{C}' || c == '\r' || c == ' ' ||
    c == '\U{A0}' || c == '\U{1680}' || ('\U{2000}' <= c <= '\U{200A}') ||
    c == '\U{2028}' || c == '\U{2029}' || c == '\U{202F}' || c == '\U{205F}' ||
    c == '\U{3000}' || c == '\U{FEFF}'
  }

  predicate AllWhitespace(s: string) {
    forall k :: 0 <= k < |s| ==> IsWhitespace(s[k])
  }

  /** `Array.prototype.indexOf` / `String.prototype.indexOf` for one element:
      the first position of `x` in `s`, or -1 when `x` does not occur. */
  function IndexOf<T(==)>(s: seq<T>, x: T): (r: int)
    ensures r == -1 <==> x !in s
    ensures r != -1 ==> 0 <= r < |s| && s[r] == x
    ensures forall k :: 0 <= k < |s| && (r == -1 || k < r) ==> s[k] != x
  {
    if |s| == 0 then -1
    else if s[0] == x then 0
    else
      var r := IndexOf(s[1..], x);
      if r == -1 then -1 else r + 1
  }

  /** Leading whitespace removed. */
  function TrimStart(s: string): (r: string)
    ensures |r| <= |s| && r == s[|s| - |r|..]
    ensures AllWhitespace(s[..|s| - |r|])
    ensures r != [] ==> !IsWhitespace(r[0])
  {
    if |s| > 0 && IsWhitespace(s[0]) then
      var r := TrimStart(s[1..]);
      assert s[..|s| - |r|] == [s[0]] + s[1..][..|s| - 1 - |r|];
      r
    else s
  }

  /** Trailing whitespace removed. */
  function TrimEnd(s: string): (r: string)
    ensures |r| <= |s| && r == s[..|r|]
    ensures AllWhitespace(s[|r|..])
    ensures r != [] ==> !IsWhitespace(r[|r| - 1])
  {
    if |s| > 0 && IsWhitespace(s[|s| - 1]) then
      var r := TrimEnd(s[..|s| - 1]);
      assert s[|r|..] == s[..|s| - 1][|r|..] + [s[|s| - 1]];
      r
    else s
  }

  /** `String.prototype.trim`: whitespace removed from both ends. */
  function Trim(s: string): (r: string)
    ensures |r| <= |s|
    ensures exists i, j :: 0 <= i <= j <= |s| && r == s[i..j] && AllWhitespace(s[..i]) && AllWhitespace(s[j..])
    ensures r != [] ==> !IsWhitespace(r[0]) && !IsWhitespace(r[|r| - 1])
  {
    var t := TrimStart(s);
    var r := TrimEnd(t);
    assert r != [] ==> r[0] == t[0];
    TrimWitness(s, t, r);
    r
  }

  /** The trimmed text is the slice of the input between the dropped whitespace runs. */
  lemma TrimWitness(s: string, t: string, r: string)
    requires |t| <= |s| && t == s[|s| - |t|..] && AllWhitespace(s[..|s| - |t|])
    requires |r| <= |t| && r == t[..|r|] && AllWhitespace(t[|r|..])
    ensures var i := |s| - |t|; r == s[i..i + |r|] && AllWhitespace(s[..i]) && AllWhitespace(s[i + |r|..])
  {
    var i := |s| - |t|;
    assert s[i + |r|..] == t[|r|..];
    assert s[i..i + |r|] == t[..|r|];
  }

  /** `s.trim()` is truthy (non-empty) exactly when `s` holds a non-whitespace character. */
  lemma TrimNonEmptyIff(s: string)
    ensures Trim(s) != [] <==> exists k :: 0 <= k < |s| && !IsWhitespace(s[k])
  {
    var t := TrimStart(s);
    var r := TrimEnd(t);
    if r == [] {
      assert t[|r|..] == t;
      assert t == [];
      forall k | 0 <= k < |s| ensures IsWhitespace(s[k]) {
        assert s[..|s|][k] == s[k];
      }
    } else {
      assert s[|s| - |t|] == r[0];
    }
  }

  /** JavaScript `s.split(c)` for a one-character separator: the pieces between the
      occurrences of `c`, there being always one more piece than occurrences. */
  function Split(s: string, c: char): (parts: seq<string>)
    ensures |parts| >= 1
    ensures forall k :: 0 <= k < |parts| ==> c !in parts[k]
    decreases |s|
  {
    var i := IndexOf(s, c);
    if i == -1 then [s] else [s[..i]] + Split(s[i + 1..], c)
  }

  /** The pieces glued back together with the separator between them. */
  function Join(parts: seq<string>, c: char): string
    requires |parts| >= 1
  {
    if |parts| == 1 then parts[0] else parts[0] + [c] + Join(parts[1..], c)
  }

  /** Splitting loses nothing: joining the pieces with the separator gives back the input. */
  lemma {:induction false} SplitJoin(s: string, c: char)
    ensures Join(Split(s, c), c) == s
    decreases |s|
  {
    var i := IndexOf(s, c);
    if i != -1 {
      var rest := s[i + 1..];
      SplitJoin(rest, c);
      assert Split(s, c)[1..] == Split(rest, c);
      assert s == s[..i] + [c] + rest;
    }
  }

  /** A string contains the separator exactly when it splits into more than one piece. */
  lemma SplitSingleIff(s: string, c: char)
    ensures |Split(s, c)| == 1 <==> c !in s
  {
    var i := IndexOf(s, c);
    if i != -1 {
      var rest := Split(s[i + 1..], c);
      assert Split(s, c) == [s[..i]] + rest;
      assert |Split(s, c)| == 1 + |rest| >= 2;
    }
  }

  /** The first piece of a split is the text up to the first separator, or all of it. */
  lemma SplitFirstPiece(s: string, c: char)
    ensures var j, p := IndexOf(s, c), Split(s, c)[0];
      (j == -1 ==> p == s) && (j != -1 ==> p == s[..j])
  {
  }

  /** `p` occurs in `s` at `start` and is followed by the separator `c` or by the end. */
  predicate PieceAt(s: string, start: int, p: string, c: char) {
    0 <= start && start + |p| <= |s| && s[start..start + |p|] == p &&
    (start + |p| == |s| || s[start + |p|] == c)
  }

  /** The second piece of a split is the text after the first separator, up to the next
      separator or the end. */
  lemma SplitSecondPiece(s: string, c: char)
    requires c in s
    ensures |Split(s, c)| > 1 && c !in Split(s, c)[1]
    ensures PieceAt(s, IndexOf(s, c) + 1, Split(s, c)[1], c)
  {
    var i := IndexOf(s, c);
    var t := s[i + 1..];
    var rest := Split(t, c);
    assert Split(s, c) == [s[..i]] + rest;
    SplitFirstPiece(t, c);
    PieceInText(s, i, t, rest[0], c);
  }

  lemma PieceInText(s: string, i: int, t: string, p: string, c: char)
    requires 0 <= i < |s| && t == s[i + 1..]
    requires var j := IndexOf(t, c); (j == -1 ==> p == t) && (j != -1 ==> p == t[..j])
    ensures PieceAt(s, i + 1, p, c)
  {
    var j := IndexOf(t, c);
    if j != -1 {
      assert s[i + 1 + |p|] == t[j];
    }
  }

  /** The decimal digit character for `d`. */
  function Digit(d: nat): char
    requires d < 10
  {
    "0123456789"[d]
  }

  /** JavaScript's conversion of a non-negative integer to its decimal text. */
  function NatToString(n: nat): (r: string)
    ensures |r| >= 1
    decreases n
  {
    if n < 10 then [Digit(n)] else NatToString(n / 10) + [Digit(n % 10)]
  }
}
