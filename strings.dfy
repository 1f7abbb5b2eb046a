/**
 * The handful of Python string operations the translation code relies on,
 * restricted to ASCII: `str.isdigit`, `str.strip`, `str.lower`,
 * `str.endswith` and the slices `s[-4:]` and `s[:-4]`.
 */
module Strings {

  /** `c.isdigit()` for an ASCII character. */
  predicate IsDigit(c: char) {
    '0' <= c <= '9'
  }

  /** `s.isdigit()`: true only for a NON-empty run of digits. */
  predicate AllDigits(s: string) {
    |s| > 0 && forall i :: 0 <= i < |s| ==> IsDigit(s[i])
  }

  /** A four-digit year such as "2020". */
  predicate IsYear(y: string) {
    |y| == 4 && AllDigits(y)
  }

  /** Python's `s[-4:]`: the last four characters, or all of `s` when it is shorter. */
  function Tail4(s: string): (r: string)
    ensures |r| == if |s| >= 4 then 4 else |s|
    ensures r == s[|s| - |r|..]
  {
    if |s| >= 4 then s[|s| - 4..] else s
  }

  /** Python's `s[:-4]`: everything but the last four characters, or "" when `s` is shorter. */
  function Init4(s: string): (r: string)
    ensures |r| == if |s| >= 4 then |s| - 4 else 0
    ensures s == r + Tail4(s)
  {
    if |s| >= 4 then s[..|s| - 4] else ""
  }

  /** `s.endswith(suffix)`. */
  predicate EndsWith(s: string, suffix: string) {
    |suffix| <= |s| && s[|s| - |suffix|..] == suffix
  }

  /** The characters below 128 for which Python's `str.isspace` holds. */
  predicate IsSpace(c: char) {
    c == ' ' || ('\t' <= c <= '\r') || ('\U{1C}' <= c <= '\U{1F}')
  }

  /** `s.strip()`: `s` without its leading and trailing whitespace. */
  function Strip(s: string): (r: string)
    ensures |r| <= |s|
  {
    if |s| > 0 && IsSpace(s[0]) then Strip(s[1..])
    else if |s| > 0 && IsSpace(s[|s| - 1]) then Strip(s[..|s| - 1])
    else s
  }

  /** A string with no whitespace at either end: what `Strip` leaves. */
  predicate Unpadded(s: string) {
    |s| == 0 || (!IsSpace(s[0]) && !IsSpace(s[|s| - 1]))
  }

  /** `str.lower` on ASCII letters; every other character is left alone. */
  function LowerChar(c: char): char {
    if 'A' <= c <= 'Z' then (c as int - 'A' as int + 'a' as int) as char else c
  }

  function Lower(s: string): (r: string)
    ensures |r| == |s|
    ensures forall i :: 0 <= i < |s| ==> r[i] == LowerChar(s[i])
  {
    seq(|s|, i requires 0 <= i < |s| => LowerChar(s[i]))
  }

  /** What `strip` returns has no whitespace at either end. */
  lemma {:induction false} StripIsUnpadded(s: string)
    ensures Unpadded(Strip(s))
  {
    if |s| > 0 && IsSpace(s[0]) {
      StripIsUnpadded(s[1..]);
    } else if |s| > 0 && IsSpace(s[|s| - 1]) {
      StripIsUnpadded(s[..|s| - 1]);
    }
  }

  /** Every character of `s` is whitespace. */
  predicate AllSpace(s: string) {
    forall i :: 0 <= i < |s| ==> IsSpace(s[i])
  }

  /**
   * What `strip` removes is whitespace, and only from the ends: `s` is some
   * whitespace, then `Strip(s)`, then some more whitespace. With
   * `StripIsUnpadded` this pins the result down: the leading and trailing runs
   * are exactly the whitespace `s` starts and ends with.
   */
  lemma StripSplits(s: string)
    ensures exists a, b :: s == a + Strip(s) + b && AllSpace(a) && AllSpace(b)
  {
    var a, b := StripMargins(s);
  }

  /** The whitespace `Strip` removes from the front and from the back of `s`. */
  lemma {:induction false} StripMargins(s: string) returns (a: string, b: string)
    ensures s == a + Strip(s) + b && AllSpace(a) && AllSpace(b)
  {
    if |s| == 0 {
      a, b := "", "";
    } else if IsSpace(s[0]) {
      var t := s[1..];
      var a', b' := StripMargins(t);
      assert Strip(s) == Strip(t);
      SpaceCons(s[0], a');
      a, b := [s[0]] + a', b';
      assert s == [s[0]] + t;
    } else if IsSpace(s[|s| - 1]) {
      var t := s[..|s| - 1];
      var a', b' := StripMargins(t);
      assert Strip(s) == Strip(t);
      SpaceSnoc(b', s[|s| - 1]);
      a, b := a', b' + [s[|s| - 1]];
      assert s == t + [s[|s| - 1]];
    } else {
      a, b := "", "";
      assert Strip(s) == s;
    }
  }

  lemma SpaceCons(c: char, a: string)
    requires IsSpace(c) && AllSpace(a)
    ensures AllSpace([c] + a)
  {
  }

  lemma SpaceSnoc(b: string, c: char)
    requires IsSpace(c) && AllSpace(b)
    ensures AllSpace(b + [c])
  {
  }

  /** Stripping a string that has no surrounding whitespace changes nothing. */
  lemma UnpaddedStrip(s: string)
    requires Unpadded(s)
    ensures Strip(s) == s
  {
  }

  /** `str.strip` is idempotent. */
  lemma StripIdempotent(s: string)
    ensures Strip(Strip(s)) == Strip(s)
  {
    StripIsUnpadded(s);
    UnpaddedStrip(Strip(s));
  }

  /** One separating blank after an unpadded string is stripped away again. */
  lemma StripBlankSuffix(s: string)
    requires Unpadded(s)
    ensures Strip(s + " ") == s
  {
    var t := s + " ";
    assert t[..|s|] == s;
    if |s| == 0 {
      assert t[1..] == s;
    }
  }

  /** `s + " " + y` for a year `y` splits back into `s + " "` and `y` under the slices. */
  lemma YearSuffix(s: string, y: string)
    requires |y| == 4
    ensures Tail4(s + " " + y) == y
    ensures Init4(s + " " + y) == s + " "
  {
    var t := s + " " + y;
    assert t[|t| - 4..] == y;
    assert t[..|t| - 4] == s + " ";
  }
}
