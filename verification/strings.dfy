/** String predicates used by the file selection and the column renaming:
    Python's `in` on strings, `str.endswith`, `os.path.join`, and `str(int)`. */
module Strings {

  predicate StartsWith(s: string, prefix: string) {
    |prefix| <= |s| && s[..|prefix|] == prefix
  }

  predicate EndsWith(s: string, suffix: string) {
    |suffix| <= |s| && s[|s| - |suffix|..] == suffix
  }

  /** Python's `pattern in s`: `pattern` occurs as a contiguous piece of `s`. */
  predicate Contains(s: string, pattern: string)
    decreases |s|
  {
    StartsWith(s, pattern) || (0 < |s| && Contains(s[1..], pattern))
  }

  /** `pattern` sits in `s` starting at index `i`. */
  predicate OccursAt(s: string, pattern: string, i: nat) {
    i + |pattern| <= |s| && s[i..i + |pattern|] == pattern
  }

  /** `Contains` agrees with the direct reading of Python's `in`: some
      position of `s` starts a copy of `pattern`. */
  lemma ContainsIffOccurs(s: string, pattern: string)
    ensures Contains(s, pattern) <==> exists i: nat :: OccursAt(s, pattern, i)
  {
    if Contains(s, pattern) {
      var i := ContainsGivesOccurrence(s, pattern);
    }
    if i: nat :| OccursAt(s, pattern, i) {
      OccurrenceGivesContains(s, pattern, i);
    }
  }

  /** A found pattern has a position where it starts. */
  lemma {:induction false} ContainsGivesOccurrence(s: string, pattern: string) returns (i: nat)
    requires Contains(s, pattern)
    ensures OccursAt(s, pattern, i)
    decreases |s|
  {
    if StartsWith(s, pattern) {
      i := 0;
      assert s[0..|pattern|] == s[..|pattern|];
    } else {
      var k := ContainsGivesOccurrence(s[1..], pattern);
      i := k + 1;
      assert s[1..][k..k + |pattern|] == s[i..i + |pattern|];
    }
  }

  /** A copy of the pattern anywhere in `s` is found. */
  lemma {:induction false} OccurrenceGivesContains(s: string, pattern: string, i: nat)
    requires OccursAt(s, pattern, i)
    ensures Contains(s, pattern)
    decreases i
  {
    if i == 0 {
      assert s[..|pattern|] == s[0..|pattern|];
    } else {
      assert s[1..][i - 1..i - 1 + |pattern|] == s[i..i + |pattern|];
      OccurrenceGivesContains(s[1..], pattern, i - 1);
    }
  }

  /** Every character of a found pattern is a character of the string. */
  lemma {:induction false} ContainsHasChars(s: string, pattern: string, k: nat)
    requires Contains(s, pattern)
    requires k < |pattern|
    ensures pattern[k] in s
    decreases |s|
  {
    if StartsWith(s, pattern) {
      assert s[k] == pattern[k];
    } else {
      ContainsHasChars(s[1..], pattern, k);
      assert pattern[k] in s[1..];
    }
  }

  /** A pattern longer than the string cannot occur in it. */
  lemma {:induction false} ContainsNeedsRoom(s: string, pattern: string)
    requires |s| < |pattern|
    ensures !Contains(s, pattern)
    decreases |s|
  {
    if |s| > 0 {
      ContainsNeedsRoom(s[1..], pattern);
    }
  }

  /** A pattern found in a suffix is found in the whole string. */
  lemma {:induction false} ContainsInSuffix(prefix: string, rest: string, pattern: string)
    requires Contains(rest, pattern)
    ensures Contains(prefix + rest, pattern)
    decreases |prefix|
  {
    if |prefix| == 0 {
      assert prefix + rest == rest;
    } else {
      assert (prefix + rest)[1..] == prefix[1..] + rest;
      ContainsInSuffix(prefix[1..], rest, pattern);
    }
  }

  /** `str.endswith`: `s` ends with `suffix` exactly when it is something
      followed by `suffix`. */
  lemma EndsWithIffAppended(s: string, suffix: string)
    ensures EndsWith(s, suffix) <==> exists front: string :: s == front + suffix
  {
    if EndsWith(s, suffix) {
      assert s == s[..|s| - |suffix|] + suffix;
    }
    if front: string :| s == front + suffix {
      assert s[|s| - |suffix|..] == suffix;
    }
  }

  lemma EndsWithTransitive(s: string, mid: string, suffix: string)
    requires EndsWith(s, mid) && EndsWith(mid, suffix)
    ensures EndsWith(s, suffix)
  {
  }

  /** `os.path.join(folder, name)` on POSIX paths: an absolute `name` replaces
      the folder; otherwise one separator is inserted unless the folder is
      empty or already ends in one. The joined path always ends with `name`. */
  function JoinPath(folder: string, name: string): (path: string)
    ensures EndsWith(path, name)
    ensures StartsWith(name, "/") ==> path == name
    ensures !StartsWith(name, "/") ==> StartsWith(path, folder) && |path| >= |folder| + |name|
  {
    if StartsWith(name, "/") then name
    else if |folder| == 0 || EndsWith(folder, "/") then folder + name
    else folder + "/" + name
  }

  /** A path built by `JoinPath` contains everything its file name contains. */
  lemma JoinPathContains(folder: string, name: string, pattern: string)
    requires Contains(name, pattern)
    ensures Contains(JoinPath(folder, name), pattern)
  {
    var path := JoinPath(folder, name);
    var prefix := path[..|path| - |name|];
    assert path == prefix + name;
    ContainsInSuffix(prefix, name, pattern);
  }

  /** Every character is in the 7-bit ASCII range. */
  predicate IsAscii(s: string) {
    forall i :: 0 <= i < |s| ==> s[i] < '\U{80}'
  }

  /** A string with a non-ASCII character in its pattern cannot contain the
      pattern if the string itself is ASCII. */
  lemma AsciiMissesPattern(s: string, pattern: string, k: nat)
    requires IsAscii(s)
    requires k < |pattern| && !(pattern[k] < '\U{80}')
    ensures !Contains(s, pattern)
  {
    if Contains(s, pattern) {
      ContainsHasChars(s, pattern, k);
    }
  }

  predicate IsDigit(c: char) {
    '0' <= c <= '9'
  }

  function DigitChar(d: nat): (c: char)
    requires d < 10
    ensures IsDigit(c)
  {
    ('0' as int + d) as char
  }

  function DigitValue(c: char): nat
    requires IsDigit(c)
  {
    c as int - '0' as int
  }

  /** Decimal digits of `n`, most significant first, without leading zeros,
      as Python's `str` writes a non-negative `int`. */
  function NatToString(n: nat): (s: string)
    ensures |s| > 0
    ensures forall i :: 0 <= i < |s| ==> IsDigit(s[i])
    ensures n < 10 <==> |s| == 1
    ensures s[0] == '0' ==> n == 0
    decreases n
  {
    if n < 10 then [DigitChar(n)] else NatToString(n / 10) + [DigitChar(n % 10)]
  }

  /** The number a string of decimal digits denotes. */
  function DigitsValue(s: string): nat
    requires forall i :: 0 <= i < |s| ==> IsDigit(s[i])
  {
    if |s| == 0 then 0 else DigitsValue(s[..|s| - 1]) * 10 + DigitValue(s[|s| - 1])
  }

  /** Reading the decimal digits back gives the number: `NatToString` loses nothing. */
  lemma {:induction false} NatToStringRoundTrip(n: nat)
    ensures DigitsValue(NatToString(n)) == n
    decreases n
  {
    var s := NatToString(n);
    if n < 10 {
    } else {
      NatToStringRoundTrip(n / 10);
      assert s[..|s| - 1] == NatToString(n / 10);
    }
  }

  lemma NatToStringInjective(a: nat, b: nat)
    requires NatToString(a) == NatToString(b)
    ensures a == b
  {
    NatToStringRoundTrip(a);
    NatToStringRoundTrip(b);
  }

  /** Python's `str` of an `int`: a minus sign for a negative number, then
      the decimal digits of the magnitude without leading zeros. */
  function IntToString(n: int): (s: string)
    ensures |s| > 0
    ensures forall i :: 0 <= i < |s| ==> IsDigit(s[i]) || s[i] == '-'
    ensures forall i :: 0 < i < |s| ==> IsDigit(s[i])
    ensures n < 0 <==> s[0] == '-'
    ensures n >= 0 ==> DigitsValue(s) == n && (s[0] == '0' ==> n == 0)
    ensures n < 0 ==> |s| > 1 && DigitsValue(s[1..]) == -n && s[1] != '0'
  {
    if n < 0 then
      NatToStringRoundTrip(-n);
      "-" + NatToString(-n)
    else
      NatToStringRoundTrip(n);
      NatToString(n)
  }

  lemma IntToStringAscii(n: int)
    ensures IsAscii(IntToString(n))
  {
  }

  /** Distinct integers print differently; this follows from the value
      clauses of `IntToString`. */
  lemma IntToStringInjective(a: int, b: int)
    requires IntToString(a) == IntToString(b)
    ensures a == b
  {
  }
}
