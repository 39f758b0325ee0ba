/**
 * String operations that the build scripts take from JavaScript's `String`
 * and `Array` prototypes: prefix and suffix tests, first-occurrence search
 * and replacement (`String.prototype.replace` with a string pattern), the
 * backslash-to-slash rewrite, `String.prototype.trim`, `Array.prototype.join`
 * and its inverse `String.prototype.split`, and `Buffer.byteLength` (UTF-8).
 *
 * Strings are sequences of Unicode scalar values; JavaScript counts UTF-16
 * code units, which differs only for characters outside the BMP.
 */
module Text {

  predicate StartsWith(s: string, prefix: string) {
    |prefix| <= |s| && s[..|prefix|] == prefix
  }

  predicate EndsWith(s: string, suffix: string) {
    |suffix| <= |s| && s[|s| - |suffix|..] == suffix
  }

  /** `pattern` occurs in `s` starting at index `i`. */
  predicate OccursAt(s: string, pattern: string, i: int) {
    0 <= i && i + |pattern| <= |s| && s[i..i + |pattern|] == pattern
  }

  /** `String.prototype.indexOf`: the first index where `pattern` occurs, or -1. */
  function IndexOf(s: string, pattern: string): (r: int)
    ensures -1 <= r <= |s|
    ensures r >= 0 ==> OccursAt(s, pattern, r)
    ensures r >= 0 ==> forall j :: 0 <= j < r ==> !OccursAt(s, pattern, j)
    ensures r < 0 ==> forall j :: !OccursAt(s, pattern, j)
    decreases |s|
  {
    if StartsWith(s, pattern) then 0
    else if |s| == 0 then -1
    else
      var k := IndexOf(s[1..], pattern);
      assert forall j :: 1 <= j ==> (OccursAt(s, pattern, j) <==> OccursAt(s[1..], pattern, j - 1)) by {
        forall j | 1 <= j ensures OccursAt(s, pattern, j) <==> OccursAt(s[1..], pattern, j - 1) {
          if j + |pattern| <= |s| {
            assert s[j..j + |pattern|] == s[1..][j - 1..j - 1 + |pattern|] by {
              assert s[1..][j - 1..j - 1 + |pattern|] == s[j..j + |pattern|];
            }
          }
        }
      }
      if k < 0 then -1 else k + 1
  }

  /** `String.prototype.includes`. */
  predicate Contains(s: string, pattern: string) {
    IndexOf(s, pattern) >= 0
  }

  /** An occurrence anywhere makes `includes` true. */
  lemma ContainsAt(s: string, pattern: string, i: int)
    requires OccursAt(s, pattern, i)
    ensures Contains(s, pattern)
  {
  }

  /** Text appended after a string keeps every occurrence in it. */
  lemma ContainsExtend(s: string, t: string, pattern: string)
    requires Contains(s, pattern)
    ensures Contains(s + t, pattern)
  {
    var i := IndexOf(s, pattern);
    assert (s + t)[i..i + |pattern|] == s[i..i + |pattern|];
    ContainsAt(s + t, pattern, i);
  }

  /** `s.replace(pattern, replacement)` with a string pattern: only the first occurrence is replaced. */
  function ReplaceFirst(s: string, pattern: string, replacement: string): string {
    var i := IndexOf(s, pattern);
    if i < 0 then s else s[..i] + replacement + s[i + |pattern|..]
  }

  /** `s.replace(/\\/g, '/')`: every backslash becomes a slash. */
  function Slashify(s: string): (r: string)
    ensures |r| == |s|
    ensures forall i :: 0 <= i < |s| ==> r[i] == (if s[i] == '\\' then '/' else s[i])
  {
    seq(|s|, i requires 0 <= i < |s| => if s[i] == '\\' then '/' else s[i])
  }

  /** `s.replace(/\.md$/, '')`: drops one final ".md", if present. */
  function StripMdSuffix(s: string): string {
    if EndsWith(s, ".md") then s[..|s| - 3] else s
  }

  /**
   * The characters `String.prototype.trim` removes: the ECMAScript
   * WhiteSpace (TAB, VT, FF, ZWNBSP and the Unicode space separators) and
   * LineTerminator (LF, CR, LS, PS) sets.
   */
  predicate IsJsWhitespace(c: char) {
    c == '\t' || c == '\n' || c == '\U{000B}' || c == '\U{000C}' || c == '\r' || c == ' '
    || c == '\U{00A0}' || c == '\U{1680}' || ('\U{2000}' <= c <= '\U{200A}')
    || c == '\U{2028}' || c == '\U{2029}' || c == '\U{202F}' || c == '\U{205F}'
    || c == '\U{3000}' || c == '\U{FEFF}'
  }

  /*
   * Trimming is stated for any set of characters `ws` to strip; `Trim` is the
   * instance for `IsJsWhitespace`.
   */

  predicate AllIn(s: string, ws: char -> bool) {
    forall i :: 0 <= i < |s| ==> ws(s[i])
  }

  /** `s` without its leading characters from `ws`. */
  function TrimStart(s: string, ws: char -> bool): string
    decreases |s|
  {
    if |s| > 0 && ws(s[0]) then TrimStart(s[1..], ws) else s
  }

  /** `s` without its trailing characters from `ws`. */
  function TrimEnd(s: string, ws: char -> bool): string
    decreases |s|
  {
    if |s| > 0 && ws(s[|s| - 1]) then TrimEnd(s[..|s| - 1], ws) else s
  }

  /** `String.prototype.trim`. */
  function Trim(s: string): string {
    TrimStart(TrimEnd(s, IsJsWhitespace), IsJsWhitespace)
  }

  /** `s` neither starts nor ends with a character from `ws`. */
  predicate Trimmed(s: string, ws: char -> bool) {
    |s| == 0 || (!ws(s[0]) && !ws(s[|s| - 1]))
  }

  /** How many characters from `ws` `s` starts with. */
  function LeadCount(s: string, ws: char -> bool): (k: nat)
    ensures k <= |s|
    decreases |s|
  {
    if |s| > 0 && ws(s[0]) then 1 + LeadCount(s[1..], ws) else 0
  }

  /** How many characters from `ws` `s` ends with. */
  function TrailCount(s: string, ws: char -> bool): (m: nat)
    ensures m <= |s|
    decreases |s|
  {
    if |s| > 0 && ws(s[|s| - 1]) then 1 + TrailCount(s[..|s| - 1], ws) else 0
  }

  lemma {:induction false} TrimStartSplits(s: string, ws: char -> bool)
    ensures var k := LeadCount(s, ws);
      && AllIn(s[..k], ws) && TrimStart(s, ws) == s[k..] && (k == |s| || !ws(s[k]))
    decreases |s|
  {
    if |s| > 0 && ws(s[0]) {
      var t := s[1..];
      TrimStartSplits(t, ws);
      var k := LeadCount(t, ws);
      assert s[..k + 1] == [s[0]] + t[..k];
      assert s[k + 1..] == t[k..];
    }
  }

  lemma {:induction false} TrimEndSplits(s: string, ws: char -> bool)
    ensures var k := |s| - TrailCount(s, ws);
      && AllIn(s[k..], ws) && TrimEnd(s, ws) == s[..k] && (k == 0 || !ws(s[k - 1]))
    decreases |s|
  {
    var n := |s|;
    if n > 0 && ws(s[n - 1]) {
      var t := s[..n - 1];
      TrimEndSplits(t, ws);
      var k := |t| - TrailCount(t, ws);
      assert s[k..] == t[k..] + [s[n - 1]];
      assert s[..k] == t[..k];
    }
  }

  /**
   * Trimming only removes characters from `ws` at the two ends: the input is
   * the result with such characters before and after it, and the result is
   * trimmed.
   */
  lemma TrimBothIsCore(s: string, ws: char -> bool)
    ensures Trimmed(TrimStart(TrimEnd(s, ws), ws), ws)
    ensures exists a, b :: AllIn(a, ws) && AllIn(b, ws) && s == a + TrimStart(TrimEnd(s, ws), ws) + b
  {
    var k := |s| - TrailCount(s, ws);
    TrimEndSplits(s, ws);
    var e := s[..k];
    TrimStartSplits(e, ws);
    var j := LeadCount(e, ws);
    var t := e[j..];
    assert Trimmed(t, ws) by {
      if |t| > 0 {
        assert t[|t| - 1] == s[k - 1];
      }
    }
    var a, b := e[..j], s[k..];
    assert s == a + t + b by {
      assert s == s[..k] + s[k..];
      assert e == e[..j] + e[j..];
    }
  }

  /**
   * `trim` only removes JavaScript whitespace from the two ends: the input is
   * the result with whitespace before and after it, and the result neither
   * starts nor ends with whitespace.
   */
  lemma TrimIsCore(s: string)
    ensures Trimmed(Trim(s), IsJsWhitespace)
    ensures exists a, b :: AllIn(a, IsJsWhitespace) && AllIn(b, IsJsWhitespace) && s == a + Trim(s) + b
  {
    TrimBothIsCore(s, IsJsWhitespace);
  }

  /** Trimming a trimmed string changes nothing. */
  lemma TrimmedIsFixed(t: string, ws: char -> bool)
    requires Trimmed(t, ws)
    ensures TrimStart(TrimEnd(t, ws), ws) == t
  {
  }

  /** Trimming twice is trimming once. */
  lemma TrimIdempotent(s: string)
    ensures Trim(Trim(s)) == Trim(s)
  {
    TrimIsCore(s);
    TrimmedIsFixed(Trim(s), IsJsWhitespace);
  }

  /** `parts.join(sep)` for a one-character separator. */
  function Join(parts: seq<string>, sep: char): string
    decreases |parts|
  {
    if |parts| == 0 then ""
    else if |parts| == 1 then parts[0]
    else parts[0] + [sep] + Join(parts[1..], sep)
  }

  /** `s.split(sep)` for a one-character separator: always at least one piece. */
  function Split(s: string, sep: char): (r: seq<string>)
    ensures |r| >= 1
    decreases |s|
  {
    if |s| == 0 then [""]
    else if s[0] == sep then [""] + Split(s[1..], sep)
    else
      var rest := Split(s[1..], sep);
      [[s[0]] + rest[0]] + rest[1..]
  }

  /** No part holds the separator. */
  predicate SepFree(parts: seq<string>, sep: char) {
    forall i :: 0 <= i < |parts| ==> sep !in parts[i]
  }

  lemma SepFreeAppend(a: seq<string>, b: seq<string>, sep: char)
    requires SepFree(a, sep) && SepFree(b, sep)
    ensures SepFree(a + b, sep)
  {
    forall i | 0 <= i < |a + b| ensures sep !in (a + b)[i] {
      if i >= |a| {
        assert (a + b)[i] == b[i - |a|];
      }
    }
  }

  lemma {:induction false} SplitSingle(a: string, sep: char)
    requires sep !in a
    ensures Split(a, sep) == [a]
    decreases |a|
  {
    if |a| > 0 {
      SplitSingle(a[1..], sep);
      assert [a[0]] + a[1..] == a;
    }
  }

  lemma {:induction false} SplitCons(a: string, sep: char, b: string)
    requires sep !in a
    ensures Split(a + [sep] + b, sep) == [a] + Split(b, sep)
    decreases |a|
  {
    var s := a + [sep] + b;
    if |a| == 0 {
      assert s == [sep] + b;
      assert s[1..] == b;
    } else {
      assert s[1..] == a[1..] + [sep] + b;
      SplitCons(a[1..], sep, b);
      assert [a[0]] + a[1..] == a;
    }
  }

  /** Splitting undoes joining when no part holds the separator. */
  lemma {:induction false} SplitJoin(parts: seq<string>, sep: char)
    requires |parts| >= 1 && SepFree(parts, sep)
    ensures Split(Join(parts, sep), sep) == parts
    decreases |parts|
  {
    if |parts| == 1 {
      SplitSingle(parts[0], sep);
    } else {
      SplitCons(parts[0], sep, Join(parts[1..], sep));
      SplitJoin(parts[1..], sep);
    }
  }

  /** Splitting a joined prefix followed by more text yields the parts, then the pieces of the rest. */
  lemma {:induction false} SplitJoinThen(parts: seq<string>, sep: char, rest: string)
    requires |parts| >= 1 && SepFree(parts, sep)
    ensures Split(Join(parts, sep) + [sep] + rest, sep) == parts + Split(rest, sep)
    decreases |parts|
  {
    if |parts| == 1 {
      SplitCons(parts[0], sep, rest);
    } else {
      var after := JoinThenFirst(parts, sep, rest);
      var tail := Split(rest, sep);
      assert Split(Join(parts, sep) + [sep] + rest, sep) == [parts[0]] + Split(after, sep) by {
        SplitCons(parts[0], sep, after);
      }
      assert Split(after, sep) == parts[1..] + tail by {
        SplitJoinThen(parts[1..], sep, rest);
      }
      ConsAppend(parts, tail);
    }
  }

  lemma ConsAppend<T>(s: seq<T>, t: seq<T>)
    requires |s| >= 1
    ensures [s[0]] + (s[1..] + t) == s + t
  {
    assert s == [s[0]] + s[1..];
  }

  /** A joined list of two or more parts followed by more text is its first part, a separator, and the rest. */
  lemma JoinThenFirst(parts: seq<string>, sep: char, rest: string) returns (after: string)
    requires |parts| >= 2
    ensures after == Join(parts[1..], sep) + [sep] + rest
    ensures Join(parts, sep) + [sep] + rest == parts[0] + [sep] + after
  {
    after := Join(parts[1..], sep) + [sep] + rest;
  }

  /** Joining a concatenation puts one separator between the two joined halves. */
  lemma {:induction false} JoinAppend(xs: seq<string>, ys: seq<string>, sep: char)
    requires |xs| >= 1 && |ys| >= 1
    ensures Join(xs + ys, sep) == Join(xs, sep) + [sep] + Join(ys, sep)
    decreases |xs|
  {
    if |xs| == 1 {
      assert (xs + ys)[1..] == ys;
    } else {
      assert (xs + ys)[1..] == xs[1..] + ys;
      JoinAppend(xs[1..], ys, sep);
    }
  }

  /** Joining with one more part appends the separator and that part. */
  lemma JoinSnoc(xs: seq<string>, y: string, sep: char)
    requires |xs| >= 1
    ensures Join(xs + [y], sep) == Join(xs, sep) + [sep] + y
  {
    JoinAppend(xs, [y], sep);
  }

  /** Joined lines whose second line is empty start with the first line and two separators. */
  lemma JoinStartsWithBlankLine(parts: seq<string>, sep: char)
    requires |parts| >= 3 && parts[1] == ""
    ensures StartsWith(Join(parts, sep), parts[0] + [sep] + [sep])
  {
    var rest := Join(parts[2..], sep);
    assert Join(parts[1..], sep) == [sep] + rest by {
      assert parts[1..][1..] == parts[2..];
    }
    assert Join(parts, sep) == parts[0] + [sep] + [sep] + rest;
  }

  /** A joined text whose last part is empty ends in the separator. */
  lemma {:induction false} JoinEndsWithSep(parts: seq<string>, sep: char)
    requires |parts| >= 2 && parts[|parts| - 1] == ""
    ensures EndsWith(Join(parts, sep), [sep])
    decreases |parts|
  {
    if |parts| > 2 {
      JoinEndsWithSep(parts[1..], sep);
    }
  }

  /** Bytes of one Unicode scalar value in UTF-8. */
  function Utf8Width(c: char): nat {
    if c < '\U{0080}' then 1
    else if c < '\U{0800}' then 2
    else if (c as int) < 0x1_0000 then 3
    else 4
  }

  /** `Buffer.byteLength(s)`: the UTF-8 encoded length. */
  function Utf8Length(s: string): nat
    decreases |s|
  {
    if |s| == 0 then 0 else Utf8Width(s[0]) + Utf8Length(s[1..])
  }

  predicate IsAscii(s: string) {
    forall i :: 0 <= i < |s| ==> s[i] < '\U{0080}'
  }

  /** The byte length lies between one and four bytes per character, and is the character count exactly for ASCII text. */
  lemma {:induction false} Utf8LengthBounds(s: string)
    ensures |s| <= Utf8Length(s) <= 4 * |s|
    ensures Utf8Length(s) == |s| <==> IsAscii(s)
    decreases |s|
  {
    if |s| > 0 {
      Utf8LengthBounds(s[1..]);
      if IsAscii(s) {
        assert IsAscii(s[1..]) by {
          forall i | 0 <= i < |s[1..]| ensures s[1..][i] < '\U{0080}' {
            assert s[1..][i] == s[i + 1];
          }
        }
      }
      if IsAscii(s[1..]) && s[0] < '\U{0080}' {
        forall i | 0 <= i < |s| ensures s[i] < '\U{0080}' {
          if i > 0 { assert s[i] == s[1..][i - 1]; }
        }
      }
    }
  }
}
