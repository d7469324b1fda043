/**
 * The JavaScript string operations the application relies on: `trim`,
 * `split` on a one-character separator, substring search (`includes`, an
 * unanchored regular expression of literals) and per-character case mapping.
 */
module Strings {

  /** The characters `String.prototype.trim` removes: WhiteSpace and LineTerminator. */
  predicate IsJsWhitespace(c: char) {
    || c == '\U{9}' || c == '\U{A}' || c == '\U{B}' || c == '\U{C}' || c == '\U{D}'
    || c == ' ' || c == '\U{A0}' || c == '\U{1680}'
    || ('\U{2000}' <= c <= '\U{200A}')
    || c == '\U{2028}' || c == '\U{2029}' || c == '\U{202F}' || c == '\U{205F}'
    || c == '\U{3000}' || c == '\U{FEFF}'
  }

  predicate AllWhitespace(s: string) {
    forall i :: 0 <= i < |s| ==> IsJsWhitespace(s[i])
  }

  /** The start index of `trim`'s result: the first non-whitespace character. */
  function TrimStartIndex(s: string): (k: nat)
    ensures k <= |s|
    ensures AllWhitespace(s[..k])
    ensures k < |s| ==> !IsJsWhitespace(s[k])
  {
    if s == [] || !IsJsWhitespace(s[0]) then 0
    else
      var k := 1 + TrimStartIndex(s[1..]);
      assert s[..k] == [s[0]] + s[1..][..k - 1];
      k
  }

  /** The end index of `trim`'s result: one past the last non-whitespace character. */
  function TrimEndIndex(s: string): (k: nat)
    ensures k <= |s|
    ensures AllWhitespace(s[k..])
    ensures k > 0 ==> !IsJsWhitespace(s[k - 1])
  {
    if s == [] || !IsJsWhitespace(s[|s| - 1]) then |s|
    else
      var k := TrimEndIndex(s[..|s| - 1]);
      assert s[k..] == s[..|s| - 1][k..] + [s[|s| - 1]];
      k
  }

  /** `s.trim()`. */
  function Trim(s: string): (r: string)
    ensures |r| <= |s|
    ensures r == [] || (!IsJsWhitespace(r[0]) && !IsJsWhitespace(r[|r| - 1]))
    ensures exists a, b :: 0 <= a <= b <= |s| && r == s[a..b] && AllWhitespace(s[..a]) && AllWhitespace(s[b..])
  {
    var a := TrimStartIndex(s);
    var t := s[a..];
    var b := TrimEndIndex(t);
    assert t[b..] == s[a + b..];
    assert s[a..][..b] == s[a..a + b];
    t[..b]
  }

  lemma {:induction false} TrimIdempotent(s: string)
    ensures Trim(Trim(s)) == Trim(s)
  {
    var r := Trim(s);
    if r != [] {
      assert TrimStartIndex(r) == 0;
      assert TrimEndIndex(r[0..]) == |r| by { assert r[0..] == r; }
      assert r[0..][..|r|] == r;
    }
  }

  /** Leading whitespace only shifts where `trim` starts. */
  lemma {:induction false} TrimStartAfterWhitespace(p: string, u: string)
    requires AllWhitespace(p)
    ensures TrimStartIndex(p + u) == |p| + TrimStartIndex(u)
    decreases |p|
  {
    if p != [] {
      assert (p + u)[0] == p[0] && IsJsWhitespace(p[0]);
      assert (p + u)[1..] == p[1..] + u;
      assert AllWhitespace(p[1..]);
      TrimStartAfterWhitespace(p[1..], u);
    } else {
      assert p + u == u;
    }
  }

  /** Trailing whitespace does not move where `trim` ends. */
  lemma {:induction false} TrimEndBeforeWhitespace(u: string, q: string)
    requires AllWhitespace(q)
    ensures TrimEndIndex(u + q) == TrimEndIndex(u)
    decreases |q|
  {
    if q != [] {
      var w := u + q;
      assert w[|w| - 1] == q[|q| - 1] && IsJsWhitespace(q[|q| - 1]);
      assert w[..|w| - 1] == u + q[..|q| - 1];
      assert AllWhitespace(q[..|q| - 1]);
      TrimEndBeforeWhitespace(u, q[..|q| - 1]);
    } else {
      assert u + q == u;
    }
  }

  /** `trim` gives back the core of any whitespace-padded string whose core has no whitespace at its ends. */
  lemma TrimUnique(p: string, r: string, q: string)
    requires AllWhitespace(p) && AllWhitespace(q)
    requires r == [] || (!IsJsWhitespace(r[0]) && !IsJsWhitespace(r[|r| - 1]))
    ensures Trim(p + r + q) == r
  {
    var s := p + r + q;
    assert s == p + (r + q);
    TrimStartAfterWhitespace(p, r + q);
    if r == [] {
      assert r + q == q + [];
      TrimStartAfterWhitespace(q, []);
    } else {
      assert (r + q)[0] == r[0];
      assert s[|p|..] == r + q;
      TrimEndBeforeWhitespace(r, q);
      assert (r + q)[..|r|] == r;
    }
  }

  /** Whitespace around a string does not change what `trim` returns. */
  lemma TrimIgnoresPadding(s: string, pad1: string, pad2: string)
    requires AllWhitespace(pad1) && AllWhitespace(pad2)
    ensures Trim(pad1 + s + pad2) == Trim(s)
  {
    var a, b :| 0 <= a <= b <= |s| && Trim(s) == s[a..b] && AllWhitespace(s[..a]) && AllWhitespace(s[b..]);
    assert s == s[..a] + s[a..b] + s[b..];
    assert pad1 + s + pad2 == (pad1 + s[..a]) + s[a..b] + (s[b..] + pad2);
    AllWhitespaceConcat(pad1, s[..a]);
    AllWhitespaceConcat(s[b..], pad2);
    TrimUnique(pad1 + s[..a], Trim(s), s[b..] + pad2);
  }

  /** Two whitespace runs together are one. */
  lemma {:induction false} AllWhitespaceConcat(x: string, y: string)
    requires AllWhitespace(x) && AllWhitespace(y)
    ensures AllWhitespace(x + y)
  {
    assert forall k :: 0 <= k < |x| ==> (x + y)[k] == x[k];
    assert forall k :: |x| <= k < |x + y| ==> (x + y)[k] == y[k - |x|];
  }

  /** `s.split(sep)` for a one-character separator: the maximal runs between separators. */
  function Split(s: string, sep: char): (parts: seq<string>)
    ensures |parts| >= 1
    ensures forall i, j :: 0 <= i < |parts| && 0 <= j < |parts[i]| ==> parts[i][j] != sep
    decreases |s|
  {
    if s == [] then [[]]
    else
      var rest := Split(s[1..], sep);
      if s[0] == sep then [[]] + rest
      else [[s[0]] + rest[0]] + rest[1..]
  }

  /** `parts.join(sep)`. */
  function Join(parts: seq<string>, sep: char): string
    requires |parts| >= 1
  {
    if |parts| == 1 then parts[0] else parts[0] + [sep] + Join(parts[1..], sep)
  }

  /** Splitting loses nothing: joining the parts back gives the string. */
  lemma {:induction false} JoinSplit(s: string, sep: char)
    ensures Join(Split(s, sep), sep) == s
    decreases |s|
  {
    if s != [] {
      var rest := Split(s[1..], sep);
      JoinSplit(s[1..], sep);
      if s[0] == sep {
        assert Split(s, sep)[1..] == rest;
        assert s == [sep] + s[1..];
      } else if |rest| == 1 {
        assert s == [s[0]] + s[1..];
      } else {
        var p := Split(s, sep);
        assert p[1..] == rest[1..];
        assert Join(rest, sep) == rest[0] + [sep] + Join(rest[1..], sep);
        assert s == [s[0]] + s[1..];
      }
    }
  }

  /** Splitting a string free of the separator gives the string itself as the only part. */
  lemma {:induction false} SplitWithoutSeparator(s: string, sep: char)
    requires forall i :: 0 <= i < |s| ==> s[i] != sep
    ensures Split(s, sep) == [s]
    decreases |s|
  {
    if s != [] {
      SplitWithoutSeparator(s[1..], sep);
      assert [s[0]] + s[1..] == s;
    }
  }

  /** A separator-free field followed by the separator splits off as the first part. */
  lemma {:induction false} SplitFirstField(a: string, rest: string, sep: char)
    requires forall i :: 0 <= i < |a| ==> a[i] != sep
    ensures Split(a + [sep] + rest, sep) == [a] + Split(rest, sep)
    decreases |a|
  {
    var s := a + [sep] + rest;
    if a == [] {
      assert s[0] == sep && s[1..] == rest;
    } else {
      assert s[0] == a[0] && s[1..] == a[1..] + [sep] + rest;
      SplitFirstField(a[1..], rest, sep);
      assert [a[0]] + a[1..] == a;
    }
  }

  /** `p` occurs in `s` starting at index `i`. */
  predicate OccursAt(s: string, p: string, i: int) {
    0 <= i <= |s| - |p| && s[i..i + |p|] == p
  }

  /** `s.includes(p)`, and the unanchored regular expression `/p/` made of literal characters. */
  ghost predicate Contains(s: string, p: string) {
    exists i :: OccursAt(s, p, i)
  }

  /** Substring search, scanning from the start as a regular-expression engine does. */
  function SearchFrom(s: string, p: string, i: nat): (found: bool)
    requires i <= |s|
    ensures found <==> exists j :: i <= j && OccursAt(s, p, j)
    decreases |s| - i
  {
    if i + |p| > |s| then false
    else if s[i..i + |p|] == p then assert OccursAt(s, p, i); true
    else
      var r := SearchFrom(s, p, i + 1);
      assert forall j :: i <= j && OccursAt(s, p, j) ==> i + 1 <= j;
      r
  }

  function Includes(s: string, p: string): (found: bool)
    ensures found <==> Contains(s, p)
  {
    SearchFrom(s, p, 0)
  }

  predicate IsAsciiLower(c: char) { 'a' <= c <= 'z' }
  predicate IsAsciiUpper(c: char) { 'A' <= c <= 'Z' }
  predicate IsAsciiDigit(c: char) { '0' <= c <= '9' }

  /** Latin-1 lower-case letters with a one-character upper-case form (à..þ except ÷). */
  predicate IsLatin1Lower(c: char) { 'à' <= c <= 'þ' && c != '÷' }
  predicate IsLatin1Upper(c: char) { 'À' <= c <= 'Þ' && c != '×' }

  /**
   * `toUpperCase` on one character, for ASCII and Latin-1 letters. The two
   * Latin-1 letters whose upper case lies outside Latin-1 map as JavaScript
   * maps them: 'ÿ' to 'Ÿ' and the micro sign 'µ' to the Greek capital 'Μ'.
   */
  function ToUpperChar(c: char): (u: char)
    ensures IsAsciiLower(c) ==> IsAsciiUpper(u)
    ensures IsLatin1Lower(c) ==> IsLatin1Upper(u)
    ensures !IsAsciiLower(c) && !IsLatin1Lower(c) && c != 'ÿ' && c != 'µ' ==> u == c
  {
    if IsAsciiLower(c) then (c as int - 32) as char
    else if IsLatin1Lower(c) then (c as int - 32) as char
    else if c == 'ÿ' then 'Ÿ'
    else if c == 'µ' then 'Μ'
    else c
  }

  /** `toLowerCase` on one character, for ASCII and Latin-1 letters. */
  function ToLowerChar(c: char): (l: char)
    ensures IsAsciiUpper(c) ==> IsAsciiLower(l)
    ensures !IsAsciiUpper(c) && !IsLatin1Upper(c) ==> l == c
  {
    if IsAsciiUpper(c) then (c as int + 32) as char
    else if IsLatin1Upper(c) then (c as int + 32) as char
    else c
  }

  function ToUpper(s: string): (r: string)
    ensures |r| == |s| && forall i :: 0 <= i < |s| ==> r[i] == ToUpperChar(s[i])
  {
    seq(|s|, i requires 0 <= i < |s| => ToUpperChar(s[i]))
  }

  function ToLower(s: string): (r: string)
    ensures |r| == |s| && forall i :: 0 <= i < |s| ==> r[i] == ToLowerChar(s[i])
  {
    seq(|s|, i requires 0 <= i < |s| => ToLowerChar(s[i]))
  }

  /** `s.charAt(0)`: the first character, or the empty string. */
  function CharAt0(s: string): (r: string)
    ensures |r| <= 1
    ensures |r| == 1 <==> s != []
  {
    if s == [] then [] else [s[0]]
  }
}
