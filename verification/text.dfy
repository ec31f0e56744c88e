/**
 * Character classes and string helpers shared by the whole model.
 *
 * The classes follow the ECMAScript definitions the page relies on:
 * `String.prototype.trim` and the regular-expression class `\s` strip the
 * WhiteSpace and LineTerminator code points, and `.` in a regular
 * expression without the `s` flag matches everything except a
 * LineTerminator. Case conversion is ASCII-only.
 */
module Text {

  /** ECMAScript LineTerminator: LF, CR, LINE SEPARATOR, PARAGRAPH SEPARATOR. */
  predicate IsLineTerminator(c: char) {
    c == '\n' || c == '\r' || c == '\U{2028}' || c == '\U{2029}'
  }

  /** ECMAScript WhiteSpace or LineTerminator: what `trim` removes and `\s` matches. */
  predicate IsWhitespace(c: char) {
    || IsLineTerminator(c)
    || c == '\t' || c == '\U{B}' || c == '\U{C}' || c == ' '
    || c == '\U{A0}' || c == '\U{FEFF}' || c == '\U{1680}'
    || ('\U{2000}' <= c <= '\U{200A}')
    || c == '\U{202F}' || c == '\U{205F}' || c == '\U{3000}'
  }

  predicate IsAsciiUpper(c: char) { 'A' <= c <= 'Z' }

  predicate IsAsciiLower(c: char) { 'a' <= c <= 'z' }

  function LowerChar(c: char): (r: char)
    ensures IsAsciiUpper(c) ==> IsAsciiLower(r) && r as int == c as int + 32
    ensures !IsAsciiUpper(c) ==> r == c
  {
    if IsAsciiUpper(c) then (c as int + 32) as char else c
  }

  function UpperChar(c: char): (r: char)
    ensures IsAsciiLower(c) ==> IsAsciiUpper(r) && r as int == c as int - 32
    ensures !IsAsciiLower(c) ==> r == c
  {
    if IsAsciiLower(c) then (c as int - 32) as char else c
  }

  /** `toLowerCase`, restricted to ASCII letters. */
  function ToLower(s: string): (r: string)
    ensures |r| == |s|
    ensures forall i :: 0 <= i < |s| ==> r[i] == LowerChar(s[i])
  {
    seq(|s|, i requires 0 <= i < |s| => LowerChar(s[i]))
  }

  /** `w` occurs in `s` starting at index `i`. */
  predicate OccursAt(s: string, w: string, i: int) {
    0 <= i && i + |w| <= |s| && s[i..i + |w|] == w
  }

  /** `s.includes(w)`. */
  predicate Contains(s: string, w: string) {
    exists i :: 0 <= i <= |s| - |w| && OccursAt(s, w, i)
  }

  /** Lower-casing is idempotent. */
  lemma ToLowerIdempotent(s: string)
    ensures ToLower(ToLower(s)) == ToLower(s)
  {
  }

  /** A word containing a character absent from `s` does not occur in `s`. */
  lemma AbsentCharNotContained(s: string, w: string, k: int)
    requires 0 <= k < |w| && w[k] !in s
    ensures !Contains(s, w)
  {
  }

  /** Occurrence of a longer word implies occurrence of each of its prefixes. */
  lemma PrefixContained(s: string, w: string, n: nat)
    requires Contains(s, w) && n <= |w|
    ensures Contains(s, w[..n])
  {
    var i :| 0 <= i <= |s| - |w| && OccursAt(s, w, i);
    assert s[i..i + n] == w[..n];
    assert OccursAt(s, w[..n], i);
  }

  // ---------------------------------------------------------------------
  // String.prototype.trim

  /** Strips leading whitespace. */
  function TrimStart(s: string): (r: string)
    ensures |r| <= |s| && r == s[|s| - |r|..]
    ensures forall k :: 0 <= k < |s| - |r| ==> IsWhitespace(s[k])
    ensures r == [] || !IsWhitespace(r[0])
  {
    if s != [] && IsWhitespace(s[0]) then TrimStart(s[1..]) else s
  }

  /** Strips trailing whitespace. */
  function TrimEnd(s: string): (r: string)
    ensures |r| <= |s| && r == s[..|r|]
    ensures forall k :: |r| <= k < |s| ==> IsWhitespace(s[k])
    ensures r == [] || !IsWhitespace(r[|r| - 1])
  {
    if s != [] && IsWhitespace(s[|s| - 1]) then TrimEnd(s[..|s| - 1]) else s
  }

  /** Neither the first nor the last character is whitespace. */
  predicate NoEdgeWhitespace(r: string) {
    r == [] || (!IsWhitespace(r[0]) && !IsWhitespace(r[|r| - 1]))
  }

  /** `s.trim()`. */
  function Trim(s: string): string {
    TrimEnd(TrimStart(s))
  }

  /** Number of leading whitespace characters `trim` removes. */
  function LeadingWhitespace(s: string): (a: nat)
    ensures a <= |s|
  {
    |s| - |TrimStart(s)|
  }

  /**
   * The trimmed string is the slice of `s` left after cutting whitespace
   * from both ends, and it neither starts nor ends with whitespace.
   */
  lemma {:induction false} TrimIsCore(s: string)
    ensures var r, a := Trim(s), LeadingWhitespace(s);
      && a + |r| <= |s| && r == s[a..a + |r|]
      && (forall k :: 0 <= k < a ==> IsWhitespace(s[k]))
      && (forall k :: a + |r| <= k < |s| ==> IsWhitespace(s[k]))
      && NoEdgeWhitespace(r)
  {
    var t := TrimStart(s);
    var a := |s| - |t|;
    TrimTail(t, s, a);
    if Trim(s) != [] {
      assert Trim(s)[0] == t[0];
    }
  }

  /** The whitespace TrimEnd cuts from a suffix `t` of `s` is trailing whitespace of `s`. */
  lemma TrimTail(t: string, s: string, a: nat)
    requires a <= |s| && t == s[a..]
    ensures a + |TrimEnd(t)| <= |s| && TrimEnd(t) == s[a..a + |TrimEnd(t)|]
    ensures forall k :: a + |TrimEnd(t)| <= k < |s| ==> IsWhitespace(s[k])
  {
    var r := TrimEnd(t);
    forall k | a + |r| <= k < |s| ensures IsWhitespace(s[k]) {
      assert s[k] == t[k - a];
    }
  }

  /** Trimming an all-whitespace string leaves nothing, and only then. */
  lemma {:induction false} TrimEmptyIff(s: string)
    ensures Trim(s) == [] <==> forall k :: 0 <= k < |s| ==> IsWhitespace(s[k])
  {
    TrimIsCore(s);
    var t := TrimStart(s);
  }

  /** Trimming is idempotent. */
  lemma TrimIdempotent(s: string)
    ensures Trim(Trim(s)) == Trim(s)
  {
    var r := Trim(s);
    TrimIsCore(s);
    NoEdgeWhitespaceTrimsToSelf(r);
  }

  /** A string with no whitespace at either end is its own trim. */
  lemma NoEdgeWhitespaceTrimsToSelf(r: string)
    requires NoEdgeWhitespace(r)
    ensures Trim(r) == r
  {
    assert TrimStart(r) == r;
  }

  // ---------------------------------------------------------------------
  // String.prototype.length

  /** Number of UTF-16 code units of a character: astral code points take two. */
  function Utf16Units(c: char): nat {
    if c as int >= 0x1_0000 then 2 else 1
  }

  /**
   * `s.length`, which counts UTF-16 code units rather than code points.
   */
  function Utf16Length(s: string): (n: nat)
    ensures |s| <= n <= 2 * |s|
  {
    if s == [] then 0 else Utf16Units(s[0]) + Utf16Length(s[1..])
  }

  /** Without astral code points, the UTF-16 length is the number of characters. */
  lemma {:induction false} Utf16LengthBmp(s: string)
    requires forall k :: 0 <= k < |s| ==> s[k] as int < 0x1_0000
    ensures Utf16Length(s) == |s|
  {
    if s != [] {
      Utf16LengthBmp(s[1..]);
    }
  }

  /** The length of a slice never exceeds the length of the whole. */
  lemma {:induction false} Utf16LengthSlice(s: string, a: nat, b: nat)
    requires a <= b <= |s|
    ensures Utf16Length(s[a..b]) <= Utf16Length(s)
  {
    var x, y, z := s[..a], s[a..b], s[b..];
    assert s == x + (y + z);
    Utf16LengthAppend(x, y + z);
    Utf16LengthAppend(y, z);
  }

  /** A string of astral characters takes two code units per character. */
  lemma {:induction false} Utf16LengthAstral(s: string)
    requires forall k :: 0 <= k < |s| ==> s[k] as int >= 0x1_0000
    ensures Utf16Length(s) == 2 * |s|
  {
    if s != [] {
      Utf16LengthAstral(s[1..]);
    }
  }

  /** Strings whose characters pairwise take the same number of code units have the same UTF-16 length. */
  lemma {:induction false} Utf16LengthPointwise(x: string, y: string)
    requires |x| == |y| && forall k :: 0 <= k < |x| ==> Utf16Units(x[k]) == Utf16Units(y[k])
    ensures Utf16Length(x) == Utf16Length(y)
  {
    if x != [] {
      Utf16LengthPointwise(x[1..], y[1..]);
    }
  }

  /** UTF-16 length is additive over concatenation. */
  lemma {:induction false} Utf16LengthAppend(x: string, y: string)
    ensures Utf16Length(x + y) == Utf16Length(x) + Utf16Length(y)
  {
    if x == [] {
      assert x + y == y;
    } else {
      assert (x + y)[1..] == x[1..] + y;
      Utf16LengthAppend(x[1..], y);
    }
  }

  // ---------------------------------------------------------------------
  // Array.prototype.join

  /** `xs.join(sep)`. */
  function Join(xs: seq<string>, sep: string): string
    decreases |xs|
  {
    if |xs| == 0 then "" else if |xs| == 1 then xs[0] else xs[0] + sep + Join(xs[1..], sep)
  }

  /** A string occurs in any string that has it as an infix. */
  lemma ContainsInfix(a: string, w: string, b: string)
    ensures Contains(a + w + b, w)
  {
    assert (a + w + b)[|a|..|a| + |w|] == w;
    assert OccursAt(a + w + b, w, |a|);
  }

  /** Containment survives adding text in front, behind, or on both sides. */
  lemma ContainsWithin(a: string, s: string, b: string, w: string)
    requires Contains(s, w)
    ensures Contains(a + s + b, w) && Contains(a + s, w) && Contains(s + b, w)
  {
    var i :| 0 <= i <= |s| - |w| && OccursAt(s, w, i);
    assert (a + s + b)[|a| + i..|a| + i + |w|] == s[i..i + |w|];
    assert OccursAt(a + s + b, w, |a| + i);
    assert (a + s)[|a| + i..|a| + i + |w|] == s[i..i + |w|];
    assert OccursAt(a + s, w, |a| + i);
    assert (s + b)[i..i + |w|] == s[i..i + |w|];
    assert OccursAt(s + b, w, i);
  }

  /** Every element of a joined list occurs in the joined string. */
  lemma {:induction false} JoinContainsEach(xs: seq<string>, sep: string, i: int)
    requires 0 <= i < |xs|
    ensures Contains(Join(xs, sep), xs[i])
    decreases |xs|
  {
    if |xs| == 1 {
      ContainsInfix("", xs[0], "");
      assert "" + xs[0] + "" == xs[0];
    } else if i == 0 {
      ContainsInfix("", xs[0], sep + Join(xs[1..], sep));
      assert "" + xs[0] + (sep + Join(xs[1..], sep)) == Join(xs, sep);
    } else {
      JoinContainsEach(xs[1..], sep, i - 1);
      ContainsWithin(xs[0] + sep, Join(xs[1..], sep), "", xs[i]);
      assert xs[0] + sep + Join(xs[1..], sep) + "" == Join(xs, sep);
    }
  }

  /** Containment is transitive. */
  lemma ContainsInfixTransitive(s: string, m: string, w: string)
    requires Contains(s, m) && Contains(m, w)
    ensures Contains(s, w)
  {
    var i :| 0 <= i <= |s| - |m| && OccursAt(s, m, i);
    var j :| 0 <= j <= |m| - |w| && OccursAt(m, w, j);
    forall k | 0 <= k < |w| ensures s[i + j + k] == w[k] {
      assert w[k] == m[j..j + |w|][k] == m[j + k];
      assert m[j + k] == s[i..i + |m|][j + k] == s[i + j + k];
    }
    assert s[i + j..i + j + |w|] == w;
    assert OccursAt(s, w, i + j);
  }

  /** Lower-casing distributes over concatenation. */
  lemma ToLowerAppend(a: string, b: string)
    ensures ToLower(a + b) == ToLower(a) + ToLower(b)
  {
  }

  /** A string occurs at the front of anything it starts. */
  lemma OccursAtFront(a: string, b: string)
    ensures OccursAt(a + b, a, 0)
  {
    assert (a + b)[0..|a|] == a;
  }

  lemma ContainsSelf(w: string)
    ensures Contains(w, w)
  {
    assert OccursAt(w, w, 0);
  }

  // ---------------------------------------------------------------------
  // Words occurring one after another

  /** The words occur in `s` one after another, without overlapping, in this order. */
  predicate InOrder(s: string, ws: seq<string>)
    decreases |ws|
  {
    ws == [] ||
    exists i :: 0 <= i <= |s| - |ws[|ws| - 1]| && OccursAt(s, ws[|ws| - 1], i) && InOrder(s[..i], ws[..|ws| - 1])
  }

  /** Appending the next word of a list extends the words held in order by that word. */
  lemma InOrderAppendWord(a: string, ws: seq<string>, n: nat)
    requires 0 < n <= |ws| && InOrder(a, ws[..n - 1])
    ensures InOrder(a + ws[n - 1], ws[..n])
  {
    var w := ws[n - 1];
    var s := a + w;
    assert s[|a|..|a| + |w|] == w;
    assert s[..|a|] == a;
    assert ws[..n][..n - 1] == ws[..n - 1];
    assert OccursAt(s, ws[..n][n - 1], |a|);
  }

  /** Appending a word to a string holding words in order extends the list by that word. */
  lemma InOrderSnoc(s: string, ws: seq<string>, w: string)
    requires InOrder(s, ws)
    ensures InOrder(s + w, ws + [w])
  {
    var e := ws + [w];
    assert e[..|ws|] == ws;
    InOrderAppendWord(s, e, |ws| + 1);
    assert e[..|ws| + 1] == e;
  }

  /** Text added behind does not disturb the words already in order. */
  lemma InOrderExtend(a: string, b: string, ws: seq<string>)
    requires InOrder(a, ws)
    ensures InOrder(a + b, ws)
  {
    if ws != [] {
      var w := ws[|ws| - 1];
      var i :| 0 <= i <= |a| - |w| && OccursAt(a, w, i) && InOrder(a[..i], ws[..|ws| - 1]);
      assert (a + b)[i..i + |w|] == a[i..i + |w|];
      assert (a + b)[..i] == a[..i];
      assert OccursAt(a + b, w, i);
    }
  }

  /** A string holding words in order holds each of them. */
  lemma {:induction false} InOrderContains(s: string, ws: seq<string>, k: int)
    requires InOrder(s, ws) && 0 <= k < |ws|
    ensures Contains(s, ws[k])
    decreases |ws|
  {
    var w := ws[|ws| - 1];
    var i :| 0 <= i <= |s| - |w| && OccursAt(s, w, i) && InOrder(s[..i], ws[..|ws| - 1]);
    if k == |ws| - 1 {
      assert OccursAt(s, ws[k], i);
    } else {
      InOrderContains(s[..i], ws[..|ws| - 1], k);
      ContainsWithin("", s[..i], s[i..], ws[k]);
      assert s[..i] + s[i..] == s;
    }
  }
}
