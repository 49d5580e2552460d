/**
 * The few PHP string primitives the driver relies on: decimal rendering of
 * integers (string interpolation and `(int)` casts), `implode`,
 * `str_replace`, and the ASCII case mapping behind `ucfirst` and
 * case-insensitive matching.
 */
module PhpStrings {

  predicate IsDigit(c: char) {
    '0' <= c <= '9'
  }

  predicate AllDigits(s: string) {
    forall k :: 0 <= k < |s| ==> IsDigit(s[k])
  }

  function Digit(d: nat): (c: char)
    requires d < 10
    ensures IsDigit(c)
  {
    "0123456789"[d]
  }

  function DigitValue(c: char): (d: nat)
    requires IsDigit(c)
    ensures d < 10 && Digit(d) == c
  {
    (c - '0') as nat
  }

  /** Decimal rendering of a natural number, as PHP interpolates an int. */
  function NatToString(n: nat): (s: string)
    ensures |s| > 0 && AllDigits(s)
    ensures s[0] == '0' ==> n == 0
    decreases n
  {
    if n < 10 then [Digit(n)] else NatToString(n / 10) + [Digit(n % 10)]
  }

  /** Reads a run of decimal digits back as a number. */
  function ParseNat(s: string): nat
    requires AllDigits(s)
    decreases |s|
  {
    if s == [] then 0 else ParseNat(s[..|s| - 1]) * 10 + DigitValue(s[|s| - 1])
  }

  lemma {:induction false} ParseNatToString(n: nat)
    ensures ParseNat(NatToString(n)) == n
    decreases n
  {
    if n >= 10 {
      var s := NatToString(n);
      assert s[..|s| - 1] == NatToString(n / 10);
      ParseNatToString(n / 10);
    }
  }

  /** Distinct counters render as distinct strings. */
  lemma NatToStringInjective(a: nat, b: nat)
    ensures NatToString(a) == NatToString(b) <==> a == b
  {
    ParseNatToString(a);
    ParseNatToString(b);
  }

  /** Decimal rendering of a signed integer (a leading '-' when negative). */
  function IntToString(i: int): (s: string)
    ensures |s| > 0
    ensures i < 0 <==> s[0] == '-'
  {
    if i < 0 then "-" + NatToString(-i) else NatToString(i)
  }

  /** Reads back the output of IntToString. */
  function ParseInt(s: string): int
    requires |s| > 0
    requires s[0] == '-' ==> AllDigits(s[1..])
    requires s[0] != '-' ==> AllDigits(s)
  {
    if s[0] == '-' then 0 - ParseNat(s[1..]) as int else ParseNat(s)
  }

  lemma ParseIntToString(i: int)
    ensures var s := IntToString(i);
      && (s[0] == '-' ==> AllDigits(s[1..]))
      && (s[0] != '-' ==> AllDigits(s))
      && ParseInt(s) == i
  {
    var s := IntToString(i);
    if i < 0 {
      assert s[1..] == NatToString(-i);
      ParseNatToString(-i);
    } else {
      ParseNatToString(i);
    }
  }

  /** PHP `implode(sep, parts)`. */
  function Join(parts: seq<string>, sep: string): (r: string)
    ensures |parts| == 1 ==> r == parts[0]
    decreases |parts|
  {
    if |parts| == 0 then ""
    else if |parts| == 1 then parts[0]
    else parts[0] + sep + Join(parts[1..], sep)
  }

  /** Joining two non-empty lists puts one separator between their joins. */
  lemma {:induction false} JoinConcat(a: seq<string>, b: seq<string>, sep: string)
    requires |a| > 0 && |b| > 0
    ensures Join(a + b, sep) == Join(a, sep) + sep + Join(b, sep)
    decreases |a|
  {
    if |a| > 1 {
      assert (a + b)[1..] == a[1..] + b;
      JoinConcat(a[1..], b, sep);
    } else {
      assert (a + b)[1..] == b;
    }
  }

  /** Appending nothing; a hint that keeps `Table.All` cheap to verify. */
  lemma ConcatEmpty(a: string)
    ensures a + "" == a
  {
  }

  /** Regrouping a concatenation; a hint that keeps `Table.All` cheap to verify. */
  lemma ConcatAssoc(a: string, b: string, c: string)
    ensures (a + b) + c == a + (b + c)
  {
  }

  /**
   * PHP `str_replace(search, replacement, subject)` for one search string:
   * every non-overlapping occurrence, scanning left to right, is replaced;
   * an empty search string leaves the subject as it is.
   */
  function ReplaceAll(subject: string, search: string, replacement: string): (r: string)
    ensures |search| == 0 ==> r == subject
    ensures replacement == search ==> r == subject
    decreases |subject|
  {
    if |search| == 0 || |subject| == 0 then subject
    else if search <= subject then replacement + ReplaceAll(subject[|search|..], search, replacement)
    else [subject[0]] + ReplaceAll(subject[1..], search, replacement)
  }

  /** Text before the first possible start of an occurrence is copied verbatim. */
  lemma {:induction false} ReplaceAllSkipsPrefix(prefix: string, rest: string, search: string, replacement: string)
    requires |search| > 0 && search[0] !in prefix
    ensures ReplaceAll(prefix + rest, search, replacement) == prefix + ReplaceAll(rest, search, replacement)
    decreases |prefix|
  {
    if |prefix| > 0 {
      var s := prefix + rest;
      assert s[0] == prefix[0] && prefix[0] != search[0];
      assert !(search <= s);
      assert s[1..] == prefix[1..] + rest;
      calc {
        ReplaceAll(s, search, replacement);
        [s[0]] + ReplaceAll(prefix[1..] + rest, search, replacement);
        { ReplaceAllSkipsPrefix(prefix[1..], rest, search, replacement); }
        [prefix[0]] + (prefix[1..] + ReplaceAll(rest, search, replacement));
        { assert prefix == [prefix[0]] + prefix[1..]; }
        prefix + ReplaceAll(rest, search, replacement);
      }
    } else {
      assert prefix + rest == rest;
    }
  }

  /** A subject in which the search string cannot start is returned unchanged. */
  lemma ReplaceAllAbsent(subject: string, search: string, replacement: string)
    requires |search| > 0 && search[0] !in subject
    ensures ReplaceAll(subject, search, replacement) == subject
  {
    ReplaceAllSkipsPrefix(subject, "", search, replacement);
    assert subject + "" == subject;
  }

  function AsciiUpper(c: char): char {
    if 'a' <= c <= 'z' then (c as int - 32) as char else c
  }

  function AsciiLower(c: char): char {
    if 'A' <= c <= 'Z' then (c as int + 32) as char else c
  }

  /** Case-insensitive equality under ASCII case folding. */
  predicate EqualsIgnoreCase(a: string, b: string) {
    |a| == |b| && forall k :: 0 <= k < |a| ==> AsciiLower(a[k]) == AsciiLower(b[k])
  }

  /** PHP `ucfirst`: the first character upper-cased (ASCII only), the rest kept. */
  function UcFirst(s: string): (r: string)
    ensures |r| == |s|
    ensures |s| > 0 ==> r[0] == AsciiUpper(s[0]) && r[1..] == s[1..]
  {
    if |s| == 0 then s else [AsciiUpper(s[0])] + s[1..]
  }
}
