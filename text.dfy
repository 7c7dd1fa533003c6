/**
 * The `str` operations the plugins rely on, with the meaning Python gives
 * them: `\s` and `strip()` whitespace, `lower()` (ASCII letters only),
 * `split(',')`, `','.join(...)`, `in` on strings, `replace(old, new)` and
 * `str(n)` for a non-negative integer.
 */
module Strings {

  /** The characters CPython counts as whitespace: `\s` in a `str` pattern and `str.strip()`. */
  predicate IsSpace(c: char) {
    var n := c as int;
    (9 <= n <= 13) || (0x1C <= n <= 0x20) || n == 0x85 || n == 0xA0 || n == 0x1680
    || (0x2000 <= n <= 0x200A) || n == 0x2028 || n == 0x2029 || n == 0x202F
    || n == 0x205F || n == 0x3000
  }

  predicate IsUpper(c: char) {
    'A' <= c <= 'Z'
  }

  /** No character of `s` is whitespace. */
  predicate NoSpace(s: string) {
    forall i :: 0 <= i < |s| ==> !IsSpace(s[i])
  }

  /** No character of `s` is an upper-case ASCII letter. */
  predicate IsLower(s: string) {
    forall i :: 0 <= i < |s| ==> !IsUpper(s[i])
  }

  // ---------------------------------------------------------------------
  // re.sub(r'\s', '-', s) and s.lower()
  // ---------------------------------------------------------------------

  function LowerChar(c: char): (d: char)
    ensures !IsUpper(d)
    ensures !IsUpper(c) ==> d == c
    ensures IsSpace(d) == IsSpace(c)
    ensures d == ',' <==> c == ','
  {
    if IsUpper(c) then (c as int - 'A' as int + 'a' as int) as char else c
  }

  /** `s.lower()`, restricted to ASCII letters. */
  function Lower(s: string): (r: string)
    ensures |r| == |s|
    ensures forall i :: 0 <= i < |s| ==> r[i] == LowerChar(s[i])
  {
    seq(|s|, i requires 0 <= i < |s| => LowerChar(s[i]))
  }

  /** `re.sub(r'\s', '-', s)`: every whitespace character becomes a hyphen. */
  function HyphenateSpaces(s: string): (r: string)
    ensures |r| == |s|
    ensures forall i :: 0 <= i < |s| ==> r[i] == if IsSpace(s[i]) then '-' else s[i]
  {
    seq(|s|, i requires 0 <= i < |s| => if IsSpace(s[i]) then '-' else s[i])
  }

  lemma LowerOfLower(s: string)
    requires IsLower(s)
    ensures Lower(s) == s
  {
  }

  lemma HyphenateNoSpace(s: string)
    requires NoSpace(s)
    ensures HyphenateSpaces(s) == s
  {
  }

  // ---------------------------------------------------------------------
  // s.split(sep) and sep.join(parts)
  // ---------------------------------------------------------------------

  /** `s.split(sep)` for a one-character separator: never empty, `"".split(sep) == [""]`. */
  function Split(s: string, sep: char): (r: seq<string>)
    ensures |r| >= 1
    ensures forall k :: 0 <= k < |r| ==> sep !in r[k]
    decreases |s|
  {
    if |s| == 0 then [""]
    else
      var rest := Split(s[1..], sep);
      if s[0] == sep then [""] + rest
      else [[s[0]] + rest[0]] + rest[1..]
  }

  /** `sep.join(parts)`. */
  function Join(parts: seq<string>, sep: char): string
    decreases |parts|
  {
    if |parts| == 0 then ""
    else if |parts| == 1 then parts[0]
    else parts[0] + [sep] + Join(parts[1..], sep)
  }

  lemma {:induction false} SplitWithoutSep(t: string, sep: char)
    requires sep !in t
    ensures Split(t, sep) == [t]
    decreases |t|
  {
    if |t| > 0 {
      SplitWithoutSep(t[1..], sep);
      assert t == [t[0]] + t[1..];
    }
  }

  lemma {:induction false} SplitAfterSep(t: string, u: string, sep: char)
    requires sep !in t
    ensures Split(t + [sep] + u, sep) == [t] + Split(u, sep)
    decreases |t|
  {
    var s := t + [sep] + u;
    if |t| == 0 {
      assert s[1..] == u;
    } else {
      assert s[1..] == t[1..] + [sep] + u;
      SplitAfterSep(t[1..], u, sep);
      assert t == [t[0]] + t[1..];
    }
  }

  /** Splitting a join of separator-free pieces gives back the pieces. */
  lemma {:induction false} SplitJoin(parts: seq<string>, sep: char)
    requires |parts| >= 1
    requires forall k :: 0 <= k < |parts| ==> sep !in parts[k]
    ensures Split(Join(parts, sep), sep) == parts
    decreases |parts|
  {
    if |parts| == 1 {
      SplitWithoutSep(parts[0], sep);
    } else {
      SplitJoin(parts[1..], sep);
      SplitAfterSep(parts[0], Join(parts[1..], sep), sep);
      assert parts == [parts[0]] + parts[1..];
    }
  }

  /** Every character of a join is the separator or a character of one of the pieces. */
  lemma {:induction false} JoinChars(parts: seq<string>, sep: char, i: nat)
    requires i < |Join(parts, sep)|
    ensures Join(parts, sep)[i] == sep
            || exists k, j :: 0 <= k < |parts| && 0 <= j < |parts[k]| && Join(parts, sep)[i] == parts[k][j]
    decreases |parts|
  {
    if |parts| == 1 {
      assert Join(parts, sep)[i] == parts[0][i];
    } else if |parts| > 1 {
      var s := Join(parts, sep);
      if i < |parts[0]| {
        assert s[i] == parts[0][i];
      } else if i > |parts[0]| {
        var i' := i - |parts[0]| - 1;
        assert s[i] == Join(parts[1..], sep)[i'];
        JoinChars(parts[1..], sep, i');
        if Join(parts[1..], sep)[i'] != sep {
          var k, j :| 0 <= k < |parts[1..]| && 0 <= j < |parts[1..][k]| && Join(parts[1..], sep)[i'] == parts[1..][k][j];
          assert s[i] == parts[k + 1][j];
        }
      }
    }
  }

  // ---------------------------------------------------------------------
  // s.strip()
  // ---------------------------------------------------------------------

  function StripLeft(s: string): (r: string)
    ensures |r| <= |s| && r == s[|s| - |r|..]
    ensures |r| > 0 ==> !IsSpace(r[0])
    decreases |s|
  {
    if |s| > 0 && IsSpace(s[0]) then StripLeft(s[1..]) else s
  }

  function StripRight(s: string): (r: string)
    ensures |r| <= |s| && r == s[..|r|]
    ensures |r| > 0 ==> !IsSpace(r[|r| - 1])
    decreases |s|
  {
    if |s| > 0 && IsSpace(s[|s| - 1]) then StripRight(s[..|s| - 1]) else s
  }

  /** `s.strip()`: whitespace removed from both ends. */
  function Strip(s: string): string {
    StripRight(StripLeft(s))
  }

  /** `strip()` removes only whitespace: a string with none is returned as it is. */
  lemma StripNoSpace(s: string)
    requires NoSpace(s)
    ensures Strip(s) == s
  {
    assert StripLeft(s) == s;
    assert StripRight(s) == s;
  }

  // ---------------------------------------------------------------------
  // `pat in s` and s.replace(pat, rep)
  // ---------------------------------------------------------------------

  predicate StartsWith(s: string, p: string) {
    |p| <= |s| && s[..|p|] == p
  }

  predicate EndsWith(s: string, p: string) {
    |p| <= |s| && s[|s| - |p|..] == p
  }

  /** Python's `pat in s` on strings. */
  predicate Contains(s: string, pat: string)
    decreases |s|
  {
    StartsWith(s, pat) || (|s| > 0 && Contains(s[1..], pat))
  }

  /** `pat` occurs in `s` starting at index `i`. */
  predicate OccursAt(s: string, pat: string, i: int) {
    0 <= i && i + |pat| <= |s| && s[i..i + |pat|] == pat
  }

  /** `pat in s` holds exactly when `pat` occurs at some index of `s`. */
  lemma {:induction false} ContainsIffOccurs(s: string, pat: string)
    ensures Contains(s, pat) <==> exists i :: OccursAt(s, pat, i)
    decreases |s|
  {
    if StartsWith(s, pat) {
      assert OccursAt(s, pat, 0);
    } else if |s| > 0 {
      ContainsIffOccurs(s[1..], pat);
      if Contains(s[1..], pat) {
        var i :| OccursAt(s[1..], pat, i);
        assert s[i + 1..i + 1 + |pat|] == s[1..][i..i + |pat|];
        assert OccursAt(s, pat, i + 1);
      }
      if i :| OccursAt(s, pat, i) {
        assert i != 0;
        assert s[1..][i - 1..i - 1 + |pat|] == s[i..i + |pat|];
        assert OccursAt(s[1..], pat, i - 1);
      }
    }
  }

  /** `s.replace(pat, rep)`: every occurrence, left to right, without overlaps. */
  function ReplaceAll(s: string, pat: string, rep: string): string
    requires |pat| > 0
    decreases |s|
  {
    if |s| == 0 then ""
    else if StartsWith(s, pat) then rep + ReplaceAll(s[|pat|..], pat, rep)
    else [s[0]] + ReplaceAll(s[1..], pat, rep)
  }

  /** With no occurrence of `pat`, `replace` leaves the string alone. */
  lemma {:induction false} ReplaceAllAbsent(s: string, pat: string, rep: string)
    requires |pat| > 0 && !Contains(s, pat)
    ensures ReplaceAll(s, pat, rep) == s
    decreases |s|
  {
    if |s| > 0 {
      ReplaceAllAbsent(s[1..], pat, rep);
      assert s == [s[0]] + s[1..];
    }
  }

  /** A longer replacement never shortens the string, and lengthens it when `pat` occurs. */
  lemma {:induction false} ReplaceAllLength(s: string, pat: string, rep: string)
    requires 0 < |pat| < |rep|
    ensures |ReplaceAll(s, pat, rep)| >= |s|
    ensures Contains(s, pat) ==> |ReplaceAll(s, pat, rep)| > |s|
    decreases |s|
  {
    if |s| > 0 {
      if StartsWith(s, pat) {
        ReplaceAllLength(s[|pat|..], pat, rep);
      } else {
        ReplaceAllLength(s[1..], pat, rep);
      }
    }
  }

  /** With a longer replacement, `replace` changes the string exactly when `pat` occurs in it. */
  lemma ReplaceAllChangesIff(s: string, pat: string, rep: string)
    requires 0 < |pat| < |rep|
    ensures ReplaceAll(s, pat, rep) == s <==> !Contains(s, pat)
  {
    ReplaceAllLength(s, pat, rep);
    if !Contains(s, pat) {
      ReplaceAllAbsent(s, pat, rep);
    }
  }

  // ---------------------------------------------------------------------
  // str(n) for a non-negative integer
  // ---------------------------------------------------------------------

  predicate IsDigit(c: char) {
    '0' <= c <= '9'
  }

  predicate AllDigits(s: string) {
    forall i :: 0 <= i < |s| ==> IsDigit(s[i])
  }

  function DigitChar(d: nat): (c: char)
    requires d < 10
    ensures IsDigit(c) && c as int - '0' as int == d
  {
    ('0' as int + d) as char
  }

  /** `str(n)` (and `f"{n}"`): decimal digits, no sign, no leading zero. */
  function NatToString(n: nat): (r: string)
    ensures |r| > 0 && AllDigits(r)
    decreases n
  {
    if n < 10 then [DigitChar(n)] else NatToString(n / 10) + [DigitChar(n % 10)]
  }

  /** The value of a string of decimal digits. */
  function DigitsValue(s: string): nat
    requires AllDigits(s)
    decreases |s|
  {
    if |s| == 0 then 0
    else DigitsValue(s[..|s| - 1]) * 10 + (s[|s| - 1] as int - '0' as int)
  }

  /** Reading back the digits of `str(n)` gives `n`. */
  lemma {:induction false} NatToStringRoundTrip(n: nat)
    ensures DigitsValue(NatToString(n)) == n
    decreases n
  {
    var s := NatToString(n);
    if n < 10 {
      assert s[..|s| - 1] == [];
    } else {
      NatToStringRoundTrip(n / 10);
      assert s[..|s| - 1] == NatToString(n / 10);
    }
  }

  /** Distinct numbers have distinct decimal spellings. */
  lemma NatToStringInjective(m: nat, n: nat)
    requires NatToString(m) == NatToString(n)
    ensures m == n
  {
    NatToStringRoundTrip(m);
    NatToStringRoundTrip(n);
  }
}
