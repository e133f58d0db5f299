/** Decimal numerals: the digit loop shared by Content-Length and Range parsing,
    and the printing and parsing of integers used by the text session codec. */
module Decimal {
  import opened Wrappers

  // One more than the largest size_t / uint64_t.
  const SIZE_LIMIT := 0x1_0000_0000_0000_0000

  predicate IsDigit(c: char) { '0' <= c <= '9' }

  predicate AllDigits(s: string) { forall i :: 0 <= i < |s| ==> IsDigit(s[i]) }

  function DigitOf(c: char): nat
    requires IsDigit(c)
  {
    c as int - '0' as int
  }

  /** The number a digit string denotes. */
  function Value(s: string): nat
    requires AllDigits(s)
  {
    if s == "" then 0 else Value(s[..|s| - 1]) * 10 + DigitOf(s[|s| - 1])
  }

  /** The longest prefix made of digits only. */
  function DigitPrefix(s: string): (p: string)
    ensures AllDigits(p) && p <= s
    ensures |p| < |s| ==> !IsDigit(s[|p|])
  {
    if s == "" || !IsDigit(s[0]) then ""
    else
      var rest := DigitPrefix(s[1..]);
      [s[0]] + rest
  }

  function Print(n: nat): string {
    if n < 10 then ['0' + n as char] else Print(n / 10) + ['0' + (n % 10) as char]
  }

  lemma {:induction false} PrintDigits(n: nat)
    ensures |Print(n)| > 0 && AllDigits(Print(n)) && Value(Print(n)) == n
  {
    if n < 10 {
      assert Print(n)[..0] == "";
    } else {
      PrintDigits(n / 10);
      var p := Print(n);
      assert p[..|p| - 1] == Print(n / 10);
    }
  }

  lemma {:induction false} ValueMonotone(s: string, k: nat)
    requires AllDigits(s) && k <= |s|
    ensures Value(s[..k]) <= Value(s)
  {
    if k == |s| {
      assert s[..k] == s;
    } else {
      var t := s[..|s| - 1];
      ValueMonotone(t, k);
      assert t[..k] == s[..k];
    }
  }

  lemma DigitPrefixUnique(s: string, k: nat)
    requires k <= |s| && AllDigits(s[..k])
    requires k < |s| ==> !IsDigit(s[k])
    ensures DigitPrefix(s) == s[..k]
  {
    var p := DigitPrefix(s);
    assert forall i :: 0 <= i < k ==> s[..k][i] == s[i];
    assert forall i :: 0 <= i < |p| ==> p[i] == s[i];
  }

  datatype SizeResult = Size(value: nat) | NotANumber | TooBig

  /** What the digit loop decides, without the loop: overflow is reported as soon as the
      leading digits alone do not fit, even when a bad character follows them. */
  function ReadSize(text: string): SizeResult {
    var p := DigitPrefix(text);
    if Value(p) >= SIZE_LIMIT then TooBig
    else if text == "" || p != text then NotANumber
    else Size(Value(text))
  }

  /** The accumulating digit loop with its division-based overflow test. */
  method ParseSize(text: string) returns (r: SizeResult)
    ensures r == ReadSize(text)
  {
    if text == "" {
      return NotANumber;
    }
    var result: nat := 0;
    var i := 0;
    while i < |text|
      invariant 0 <= i <= |text|
      invariant AllDigits(text[..i]) && result == Value(text[..i]) < SIZE_LIMIT
    {
      var c := text[i];
      if c < '0' || c > '9' {
        DigitPrefixUnique(text, i);
        return NotANumber;
      }
      var digit := DigitOf(c);
      assert text[..i + 1][..i] == text[..i];
      if result > (SIZE_LIMIT - 1 - digit) / 10 {
        ghost var p := DigitPrefix(text);
        assert forall j :: 0 <= j < i ==> text[..i][j] == text[j];
        assert p[..i + 1] == text[..i + 1];
        ValueMonotone(p, i + 1);
        return TooBig;
      }
      result := result * 10 + digit;
      i := i + 1;
    }
    assert text[..i] == text;
    DigitPrefixUnique(text, i);
    return Size(result);
  }

  predicate IsSpace(c: char) { c == ' ' || '\t' <= c <= '\r' }

  function SkipSpaces(s: string): string {
    if s != "" && IsSpace(s[0]) then SkipSpaces(s[1..]) else s
  }

  /** strtol-style reading: leading blanks, an optional sign, then as many digits as there are. */
  function ReadSigned(s: string): Option<(bool, nat)> {
    var t := SkipSpaces(s);
    var negative := t != "" && t[0] == '-';
    var u := if t != "" && (t[0] == '-' || t[0] == '+') then t[1..] else t;
    var p := DigitPrefix(u);
    if p == "" then None else Some((negative, Value(p)))
  }

  /** std::stoull; a minus sign negates modulo 2^64, None stands for the exception. */
  function Stoull(s: string): Option<nat> {
    match ReadSigned(s)
    case None => None
    case Some((negative, v)) =>
      if v >= SIZE_LIMIT then None
      else Some(if negative && v != 0 then SIZE_LIMIT - v else v)
  }

  /** std::stoi for a 32-bit int. */
  function Stoi(s: string): Option<int> {
    match ReadSigned(s)
    case None => None
    case Some((negative, v)) =>
      var n: int := if negative then 0 - v else v;
      if -0x8000_0000 <= n < 0x8000_0000 then Some(n) else None
  }

  function PrintInt(n: int): string { if n < 0 then "-" + Print(-n) else Print(n) }

  lemma ReadPrinted(n: nat)
    ensures ReadSigned(Print(n)) == Some((false, n))
    ensures ReadSigned("-" + Print(n)) == Some((true, n))
  {
    var p := Print(n);
    PrintDigits(n);
    assert p[..|p|] == p;
    DigitPrefixUnique(p, |p|);
    assert SkipSpaces(p) == p;
    var m := "-" + p;
    assert SkipSpaces(m) == m && m[1..] == p;
  }

  /** Printing then reading gives back every uint64_t and every int. */
  lemma IntegersRoundTrip(n: nat, i: int)
    requires n < SIZE_LIMIT && -0x8000_0000 <= i < 0x8000_0000
    ensures Stoull(Print(n)) == Some(n)
    ensures Stoi(PrintInt(i)) == Some(i)
  {
    ReadPrinted(n);
    ReadPrinted(if i < 0 then -i else i);
  }
}
