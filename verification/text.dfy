/** Text handling the console prompts rely on: `str.lower()` on an answer and the
    `int(...)` conversion of the chunk-size answer, both for ASCII text. */
module Text {
  import opened Wrappers

  /** `str.lower()` on one ASCII character. */
  function LowerChar(c: char): char
  {
    if 'A' <= c <= 'Z' then (c as int - 'A' as int + 'a' as int) as char else c
  }

  predicate IsUpper(c: char)
  {
    'A' <= c <= 'Z'
  }

  /** `str.lower()` on an ASCII string: no capital letter is left, each capital becomes
      the small letter at the same place in the alphabet, and every other character is
      kept as it is. */
  function Lower(s: string): (r: string)
    ensures |r| == |s|
    ensures forall i :: 0 <= i < |r| ==> !IsUpper(r[i])
    ensures forall i :: 0 <= i < |s| && IsUpper(s[i]) ==>
      'a' <= r[i] <= 'z' && r[i] as int - 'a' as int == s[i] as int - 'A' as int
    ensures forall i :: 0 <= i < |s| && !IsUpper(s[i]) ==> r[i] == s[i]
  {
    seq(|s|, i requires 0 <= i < |s| => LowerChar(s[i]))
  }

  /** A string without capital letters is its own lower-case form. */
  lemma LowerKeepsLowercase(s: string)
    requires forall i :: 0 <= i < |s| ==> !IsUpper(s[i])
    ensures Lower(s) == s
  {
  }

  /** Lower-casing twice is lower-casing once. */
  lemma LowerIdempotent(s: string)
    ensures Lower(Lower(s)) == Lower(s)
  {
    LowerKeepsLowercase(Lower(s));
  }

  /** The ASCII characters `int()` skips around its argument: the ones `str.isspace()`
      holds for, the four separators U+001C to U+001F included. */
  predicate IsSpace(c: char)
  {
    c == ' ' || c == '\t' || c == '\n' || c == '\r' || c == 11 as char || c == 12 as char ||
    (28 as char <= c <= 31 as char)
  }

  predicate AllSpaces(s: string)
  {
    forall i :: 0 <= i < |s| ==> IsSpace(s[i])
  }

  predicate IsDigit(c: char)
  {
    '0' <= c <= '9'
  }

  predicate AllDigits(s: string)
  {
    forall i :: 0 <= i < |s| ==> IsDigit(s[i])
  }

  /** Drops leading white space: the result is a suffix of `s` starting with a non-space. */
  function TrimStart(s: string): (r: string)
    ensures r == [] || !IsSpace(r[0])
  {
    if s != [] && IsSpace(s[0]) then TrimStart(s[1..]) else s
  }

  /** Drops trailing white space: the result is a prefix of `s` ending with a non-space. */
  function TrimEnd(s: string): (r: string)
    ensures r == [] || !IsSpace(r[|r| - 1])
  {
    if s != [] && IsSpace(s[|s| - 1]) then TrimEnd(s[..|s| - 1]) else s
  }

  function Strip(s: string): string
  {
    TrimEnd(TrimStart(s))
  }

  /** The value of a string of decimal digits, most significant first. */
  function DigitsValue(s: string): nat
    requires AllDigits(s)
  {
    if s == [] then 0 else 10 * DigitsValue(s[..|s| - 1]) + (s[|s| - 1] as int - '0' as int)
  }

  /** `int(s)`: surrounding white space, an optional sign, then at least one digit.
      `None` is the `ValueError` the conversion raises on anything else. */
  function ParseInt(s: string): Option<int>
  {
    var t := Strip(s);
    if |t| > 1 && (t[0] == '-' || t[0] == '+') && AllDigits(t[1..]) then
      var magnitude: int := DigitsValue(t[1..]);
      Some(if t[0] == '-' then -magnitude else magnitude)
    else if |t| > 0 && AllDigits(t) then
      Some(DigitsValue(t))
    else
      None
  }

  function DigitChar(d: nat): (c: char)
    requires d < 10
    ensures IsDigit(c) && c as int - '0' as int == d
  {
    ('0' as int + d) as char
  }

  /** The decimal rendering of a natural number. */
  function ShowNat(n: nat): (r: string)
    ensures |r| > 0 && AllDigits(r) && DigitsValue(r) == n
  {
    if n < 10 then [DigitChar(n)]
    else
      var r := ShowNat(n / 10) + [DigitChar(n % 10)];
      assert r[..|r| - 1] == ShowNat(n / 10);
      r
  }

  /** The decimal rendering of an integer, as a user would type it. */
  function ShowInt(n: int): string
  {
    if n < 0 then "-" + ShowNat(-n) else ShowNat(n)
  }

  lemma StripKeeps(s: string)
    requires s != [] && !IsSpace(s[0]) && !IsSpace(s[|s| - 1])
    ensures Strip(s) == s
  {
  }

  /** `int()` accepts the decimal rendering of every integer, negative ones included. */
  lemma {:induction false} ParseShowRoundTrip(n: int)
    ensures ParseInt(ShowInt(n)) == Some(n)
  {
    var s := ShowInt(n);
    if n < 0 {
      var digits := ShowNat(-n);
      assert s == "-" + digits && s[1..] == digits;
      StripKeeps(s);
    } else {
      StripKeeps(s);
    }
  }

  /** Leading white space of any length is skipped. */
  lemma {:induction false} LeadingSpacesSkipped(ws: string, s: string)
    requires AllSpaces(ws)
    requires s == [] || !IsSpace(s[0])
    ensures TrimStart(ws + s) == s
  {
    if ws != [] {
      assert (ws + s)[0] == ws[0] && (ws + s)[1..] == ws[1..] + s;
      LeadingSpacesSkipped(ws[1..], s);
    } else {
      assert ws + s == s;
    }
  }

  /** Trailing white space of any length is skipped. */
  lemma {:induction false} TrailingSpacesSkipped(s: string, ws: string)
    requires AllSpaces(ws)
    requires s == [] || !IsSpace(s[|s| - 1])
    ensures TrimEnd(s + ws) == s
  {
    if ws != [] {
      var shorter := ws[..|ws| - 1];
      assert (s + ws)[|s + ws| - 1] == ws[|ws| - 1] && (s + ws)[..|s + ws| - 1] == s + shorter;
      TrailingSpacesSkipped(s, shorter);
    } else {
      assert s + ws == s;
    }
  }

  /** Any white space around the number does not change what `int()` reads. */
  lemma {:induction false} ParseIgnoresSpaces(ws1: string, n: int, ws2: string)
    requires AllSpaces(ws1) && AllSpaces(ws2)
    ensures ParseInt(ws1 + ShowInt(n) + ws2) == Some(n)
  {
    var s := ShowInt(n);
    assert s[0] == '-' || IsDigit(s[0]);
    assert ws1 + s + ws2 == ws1 + (s + ws2);
    LeadingSpacesSkipped(ws1, s + ws2);
    TrailingSpacesSkipped(s, ws2);
    StripKeeps(s);
    ParseShowRoundTrip(n);
  }
}
