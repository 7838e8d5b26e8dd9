/** String operations of Python and JavaScript, written over `seq<char>`.
    Trimming is defined once, over a whitespace predicate; Python's
    `str.strip()` and JavaScript's `String.prototype.trim()` differ only in
    the predicate. */
module Text {

  /** Characters for which Python's `str.isspace()` holds. */
  predicate IsPySpace(c: char) {
    c == ' ' || c == '\t' || c == '\n' || c == '\r' || c == '\U{000B}' || c == '\U{000C}'
    || ('\U{001C}' <= c <= '\U{001F}') || c == '\U{0085}' || c == '\U{00A0}' || c == '\U{1680}'
    || ('\U{2000}' <= c <= '\U{200A}') || c == '\U{2028}' || c == '\U{2029}' || c == '\U{202F}'
    || c == '\U{205F}' || c == '\U{3000}'
  }

  /** ECMAScript line terminators (the characters `.` does not match). */
  predicate IsJsLineTerminator(c: char) {
    c == '\n' || c == '\r' || c == '\U{2028}' || c == '\U{2029}'
  }

  /** ECMAScript WhiteSpace and LineTerminator: the class `\s` and the
      characters `trim()` removes. */
  predicate IsJsSpace(c: char) {
    IsJsLineTerminator(c) || c == ' ' || c == '\t' || c == '\U{000B}' || c == '\U{000C}'
    || c == '\U{00A0}' || c == '\U{1680}' || ('\U{2000}' <= c <= '\U{200A}') || c == '\U{202F}'
    || c == '\U{205F}' || c == '\U{3000}' || c == '\U{FEFF}'
  }

  /** Every character of `s` is whitespace (the empty string included). */
  predicate IsBlankWith(s: string, space: char -> bool) {
    forall i :: 0 <= i < |s| ==> space(s[i])
  }

  /** `s` without its leading whitespace. */
  function TrimStartWith(s: string, space: char -> bool): (r: string)
    ensures |r| <= |s|
    ensures |r| == 0 || !space(r[0])
  {
    if |s| == 0 || !space(s[0]) then s else TrimStartWith(s[1..], space)
  }

  /** What `TrimStartWith` removes is a blank prefix, and what it keeps is
      the rest of `s`. */
  lemma {:induction false} TrimStartFacts(s: string, space: char -> bool)
    ensures var r := TrimStartWith(s, space);
            r == s[|s| - |r|..] && IsBlankWith(s[..|s| - |r|], space)
  {
    if |s| > 0 && space(s[0]) {
      TrimStartFacts(s[1..], space);
      var r := TrimStartWith(s[1..], space);
      assert s[1..][..|s| - 1 - |r|] == s[1..|s| - |r|];
      assert s[1..][|s| - 1 - |r|..] == s[|s| - |r|..];
    }
  }

  /** `s` without its trailing whitespace. */
  function TrimEndWith(s: string, space: char -> bool): (r: string)
    ensures |r| <= |s|
    ensures |r| == 0 || !space(r[|r| - 1])
  {
    if |s| == 0 || !space(s[|s| - 1]) then s else TrimEndWith(s[..|s| - 1], space)
  }

  /** What `TrimEndWith` removes is a blank suffix, and what it keeps is
      the start of `s`. */
  lemma {:induction false} TrimEndFacts(s: string, space: char -> bool)
    ensures var r := TrimEndWith(s, space);
            r == s[..|r|] && IsBlankWith(s[|r|..], space)
  {
    if |s| > 0 && space(s[|s| - 1]) {
      TrimEndFacts(s[..|s| - 1], space);
      var r := TrimEndWith(s[..|s| - 1], space);
      assert s[..|s| - 1][|r|..] == s[|r|..|s| - 1];
      assert s[..|s| - 1][..|r|] == s[..|r|];
    }
  }

  /** `s` without leading and trailing whitespace. */
  function TrimWith(s: string, space: char -> bool): (r: string)
    ensures |r| <= |s|
    ensures |r| == 0 || (!space(r[0]) && !space(r[|r| - 1]))
  {
    var a := TrimStartWith(s, space);
    var b := TrimEndWith(a, space);
    TrimEndFacts(a, space);
    assert |b| > 0 ==> b[0] == a[0];
    b
  }

  /** The trimmed string is the slice of `s` after its leading whitespace. */
  lemma TrimIsSlice(s: string, space: char -> bool)
    ensures var k := |s| - |TrimStartWith(s, space)|;
            k + |TrimWith(s, space)| <= |s| && TrimWith(s, space) == s[k..k + |TrimWith(s, space)|]
  {
    var a := TrimStartWith(s, space);
    var b := TrimEndWith(a, space);
    TrimStartFacts(s, space);
    TrimEndFacts(a, space);
    assert b == a[..|b|];
    assert a == s[|s| - |a|..];
  }

  /** Trimming cuts `s` into a blank prefix, the result, and a blank
      suffix. */
  lemma TrimIsMiddle(s: string, space: char -> bool)
    ensures exists i, j :: 0 <= i <= j <= |s| && IsBlankWith(s[..i], space) && IsBlankWith(s[j..], space)
                           && TrimWith(s, space) == s[i..j]
  {
    var a := TrimStartWith(s, space);
    var b := TrimEndWith(a, space);
    TrimStartFacts(s, space);
    TrimEndFacts(a, space);
    TrimIsSlice(s, space);
    var i := |s| - |a|;
    var j := i + |b|;
    assert s[j..] == a[|b|..];
    assert TrimWith(s, space) == s[i..j];
  }

  /** Trimming keeps only characters of the original. */
  lemma TrimKeepsChars(s: string, space: char -> bool)
    ensures forall x :: x in TrimWith(s, space) ==> x in s
  {
    var k := |s| - |TrimStartWith(s, space)|;
    var r := TrimWith(s, space);
    TrimIsSlice(s, space);
    forall x | x in r ensures x in s {
      var i :| 0 <= i < |r| && r[i] == x;
      assert s[k + i] == x;
    }
  }

  /** Python `s.strip()`. */
  function Strip(s: string): string {
    TrimWith(s, IsPySpace)
  }

  /** JavaScript `s.trim()`. */
  function Trim(s: string): string {
    TrimWith(s, IsJsSpace)
  }

  /** Python's `if not s.strip()`: the string is empty or whitespace only. */
  predicate IsPyBlank(s: string) {
    IsBlankWith(s, IsPySpace)
  }

  /** `s` is non-empty and neither starts nor ends with whitespace. */
  predicate IsTrimmedWith(s: string, space: char -> bool) {
    |s| > 0 && !space(s[0]) && !space(s[|s| - 1])
  }

  /** Trimming a string that is not blank leaves a trimmed, non-empty
      string. */
  lemma TrimNonBlank(s: string, space: char -> bool)
    requires !IsBlankWith(s, space)
    ensures IsTrimmedWith(TrimWith(s, space), space)
  {
    TrimEmptyIffBlank(s, space);
  }

  /** Gluing two trimmed strings with anything in between gives a trimmed
      string. */
  lemma TrimmedConcat(a: string, mid: string, b: string, space: char -> bool)
    requires IsTrimmedWith(a, space) && IsTrimmedWith(b, space)
    ensures IsTrimmedWith(a + mid + b, space)
  {
    var r := a + mid + b;
    assert r[0] == a[0] && r[|r| - 1] == b[|b| - 1];
  }

  /** A trimmed string is not blank. */
  lemma TrimmedNotBlank(s: string, space: char -> bool)
    requires IsTrimmedWith(s, space)
    ensures !IsBlankWith(s, space)
  {
  }

  /** Trimming yields the empty string exactly for blank input. */
  lemma TrimEmptyIffBlank(s: string, space: char -> bool)
    ensures TrimWith(s, space) == [] <==> IsBlankWith(s, space)
  {
    var a := TrimStartWith(s, space);
    var b := TrimEndWith(a, space);
    TrimStartFacts(s, space);
    TrimEndFacts(a, space);
    var k := |s| - |a|;
    if |a| > 0 {
      assert !space(a[0]) && a[0] == s[k];
      assert b != [];
    } else {
      assert s == s[..k];
    }
  }

  /** A string that starts and ends with non-whitespace is its own trim. */
  lemma TrimOfTrimmed(s: string, space: char -> bool)
    requires |s| == 0 || (!space(s[0]) && !space(s[|s| - 1]))
    ensures TrimWith(s, space) == s
  {
  }

  /** Trimming is idempotent. */
  lemma TrimIdempotent(s: string, space: char -> bool)
    ensures TrimWith(TrimWith(s, space), space) == TrimWith(s, space)
  {
    TrimOfTrimmed(TrimWith(s, space), space);
  }

  /** The ASCII lower-case of one character; other characters unchanged. */
  function AsciiLowerChar(c: char): char {
    if 'A' <= c <= 'Z' then (c as int + 32) as char else c
  }

  /** Python `s.lower()` for ASCII text; every other character is kept. */
  function Lower(s: string): (r: string)
    ensures |r| == |s|
    ensures forall i :: 0 <= i < |s| ==> r[i] == AsciiLowerChar(s[i])
  {
    if |s| == 0 then "" else [AsciiLowerChar(s[0])] + Lower(s[1..])
  }

  /** Text without ASCII capitals is its own lower-case. */
  lemma LowerOfLower(s: string)
    requires forall i :: 0 <= i < |s| ==> !('A' <= s[i] <= 'Z')
    ensures Lower(s) == s
  {
    assert forall i :: 0 <= i < |s| ==> Lower(s)[i] == s[i];
  }

  /** Lower-casing twice is lower-casing once. */
  lemma LowerIdempotent(s: string)
    ensures Lower(Lower(s)) == Lower(s)
  {
    assert forall i :: 0 <= i < |s| ==> Lower(Lower(s))[i] == Lower(s)[i];
  }

  /** Python `sep.join(parts)`. */
  function Join(sep: string, parts: seq<string>): (r: string)
    ensures |parts| == 1 ==> r == parts[0]
    ensures |parts| > 0 && |parts[0]| > 0 ==> |r| > 0 && r[0] == parts[0][0]
    ensures |parts| > 0 && |parts[|parts| - 1]| > 0 ==>
              |r| > 0 && r[|r| - 1] == parts[|parts| - 1][|parts[|parts| - 1]| - 1]
  {
    if |parts| == 0 then ""
    else if |parts| == 1 then parts[0]
    else parts[0] + sep + Join(sep, parts[1..])
  }

  /** A character found in neither the separator nor any part is not in the
      joined string. */
  lemma {:induction false} JoinAvoids(c: char, sep: string, parts: seq<string>)
    requires c !in sep
    requires forall i :: 0 <= i < |parts| ==> c !in parts[i]
    ensures c !in Join(sep, parts)
  {
    if |parts| > 1 {
      JoinAvoids(c, sep, parts[1..]);
    }
  }

  /** Joining blank parts with a blank separator gives a blank string. */
  lemma {:induction false} JoinBlank(space: char -> bool, sep: string, parts: seq<string>)
    requires IsBlankWith(sep, space)
    requires forall i :: 0 <= i < |parts| ==> IsBlankWith(parts[i], space)
    ensures IsBlankWith(Join(sep, parts), space)
  {
    if |parts| > 1 {
      JoinBlank(space, sep, parts[1..]);
      var r := Join(sep, parts);
      assert r == parts[0] + sep + Join(sep, parts[1..]);
      assert IsBlankWith(parts[0], space);
      assert forall i :: 0 <= i < |r| ==> space(r[i]) by {
        forall i | 0 <= i < |r| ensures space(r[i]) {
          if i < |parts[0]| {
            assert r[i] == parts[0][i];
          } else if i < |parts[0]| + |sep| {
            assert r[i] == sep[i - |parts[0]|];
          } else {
            assert r[i] == Join(sep, parts[1..])[i - |parts[0]| - |sep|];
          }
        }
      }
    }
  }

  /** Joining trimmed parts gives a trimmed string. */
  lemma JoinOfTrimmed(space: char -> bool, sep: string, parts: seq<string>)
    requires |parts| > 0
    requires forall i :: 0 <= i < |parts| ==> IsTrimmedWith(parts[i], space)
    ensures IsTrimmedWith(Join(sep, parts), space)
  {
    assert IsTrimmedWith(parts[0], space) && IsTrimmedWith(parts[|parts| - 1], space);
  }

  /** Joining trimmed, non-empty parts gives a string that is its own
      trim. */
  lemma JoinOfTrimmedIsTrimmed(space: char -> bool, sep: string, parts: seq<string>)
    requires |parts| > 0
    requires forall i :: 0 <= i < |parts| ==> IsTrimmedWith(parts[i], space)
    ensures TrimWith(Join(sep, parts), space) == Join(sep, parts)
    ensures IsTrimmedWith(Join(sep, parts), space)
    ensures !IsBlankWith(Join(sep, parts), space)
  {
    var r := Join(sep, parts);
    assert IsTrimmedWith(parts[0], space) && IsTrimmedWith(parts[|parts| - 1], space);
    TrimOfTrimmed(r, space);
    assert !space(r[0]);
  }

  /** Python `s.replace(c, repl)` for a one-character pattern. */
  function ReplaceChar(s: string, c: char, repl: string): (r: string)
    ensures c !in repl ==> c !in r
    ensures forall x :: x in r ==> x in s || x in repl
  {
    if |s| == 0 then ""
    else (if s[0] == c then repl else [s[0]]) + ReplaceChar(s[1..], c, repl)
  }

  /** Python's `sub in s`. */
  predicate Contains(s: string, sub: string)
    decreases |s|
  {
    sub <= s || (|s| > 0 && Contains(s[1..], sub))
  }

  /** The pieces of `s` between newline characters: Python `s.split("\n")`. */
  function Lines(s: string): (r: seq<string>)
    ensures |r| >= 1
    ensures forall i :: 0 <= i < |r| ==> '\n' !in r[i]
  {
    if |s| == 0 then [""]
    else if s[0] == '\n' then [""] + Lines(s[1..])
    else
      var rest := Lines(s[1..]);
      [[s[0]] + rest[0]] + rest[1..]
  }

  /** Splitting `prefix + "\n" + rest` at its first newline. */
  lemma LinesAppend(line: string, rest: string)
    requires '\n' !in line
    ensures Lines(line + "\n" + rest) == [line] + Lines(rest)
  {
    if |line| == 0 {
      assert line + "\n" + rest == ['\n'] + rest;
    } else {
      assert (line + "\n" + rest)[1..] == line[1..] + "\n" + rest;
      LinesAppend(line[1..], rest);
      assert [line[0]] + line[1..] == line;
    }
  }

  /** A string without newlines is one line. */
  lemma LinesOfLine(line: string)
    requires '\n' !in line
    ensures Lines(line) == [line]
  {
    if |line| > 0 {
      assert line == [line[0]] + line[1..];
      LinesOfLine(line[1..]);
    }
  }

  /** Joining newline-free lines with "\n" and splitting again gives the
      lines back. */
  lemma {:induction false} LinesOfJoin(lines: seq<string>)
    requires |lines| >= 1
    requires forall i :: 0 <= i < |lines| ==> '\n' !in lines[i]
    ensures Lines(Join("\n", lines)) == lines
  {
    if |lines| == 1 {
      LinesOfLine(lines[0]);
    } else {
      LinesOfJoin(lines[1..]);
      LinesAppend(lines[0], Join("\n", lines[1..]));
      assert lines == [lines[0]] + lines[1..];
    }
  }
}
