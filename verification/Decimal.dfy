/** Decimal numbers as `Display` writes them and `parse` reads them. */
module Decimal {
  import opened Integers
  import opened Wrappers
  import opened Text

  predicate IsDigit(c: char) {
    '0' <= c <= '9'
  }

  predicate AllDigits(s: string) {
    forall i :: 0 <= i < |s| ==> IsDigit(s[i])
  }

  function Print(n: nat): (s: string)
    ensures s != [] && AllDigits(s)
  {
    if n < 10 then [('0' as int + n) as char] else Print(n / 10) + [('0' as int + n % 10) as char]
  }

  function Value(s: string): nat
    requires AllDigits(s)
  {
    if s == [] then 0 else 10 * Value(s[..|s| - 1]) + (s[|s| - 1] as int - '0' as int)
  }

  lemma {:induction false} ValueOfPrint(n: nat)
    ensures Value(Print(n)) == n
  {
    if n >= 10 {
      ValueOfPrint(n / 10);
      assert Print(n)[..|Print(n)| - 1] == Print(n / 10);
    }
  }

  /** A proper prefix of a number is a smaller number. */
  lemma {:induction false} PrefixIsSmaller(n: nat, k: nat) returns (m: nat)
    requires 0 < k < |Print(n)|
    ensures m < n && Print(n)[..k] == Print(m)
  {
    var p := Print(n / 10);
    if k == |p| {
      m := n / 10;
    } else {
      assert Print(n)[..k] == p[..k];
      m := PrefixIsSmaller(n / 10, k);
    }
  }

  /** `s.parse::<u32>()`, and with another bound the digits of `parse::<i32>()`. An optional plus is accepted. */
  function ParseUnsigned(s: string, max: nat): Option<nat> {
    var digits := if StartsWith(s, "+") then s[1..] else s;
    if digits == [] || !AllDigits(digits) then None
    else if Value(digits) <= max then Some(Value(digits))
    else None
  }

  lemma ParsesBack(n: nat, max: nat)
    ensures ParseUnsigned(Print(n), max) == if n <= max then Some(n) else None
  {
    ValueOfPrint(n);
    assert Print(n)[..1][0] == Print(n)[0];
  }

  function PrintSigned(i: int): string {
    if i < 0 then "-" + Print(-i) else Print(i)
  }

  /** `s.parse::<i32>()`. */
  function ParseI32(s: string): Option<i32> {
    if StartsWith(s, "-") then
      var digits := s[1..];
      if digits == [] || !AllDigits(digits) || Value(digits) > I32_MAX + 1 then None
      else
        var v: int := Value(digits);
        Some(-v)
    else
      var n := ParseUnsigned(s, I32_MAX);
      if n.Some? then
        assert n.value <= I32_MAX;
        Some(n.value)
      else None
  }

  lemma ParsesBackSigned(i: i32)
    ensures ParseI32(PrintSigned(i)) == Some(i)
  {
    var v: int := i;
    if v < 0 {
      ValueOfPrint(-v);
      assert PrintSigned(v)[1..] == Print(-v);
    } else {
      ParsesBack(i, I32_MAX);
      assert Print(i)[..1][0] == Print(i)[0];
    }
  }

  /** A sign the parser takes, or none. */
  predicate IsSign(sign: string) {
    sign == "" || sign == "+" || sign == "-"
  }

  /** What parses, and as what: an optional sign and at least one digit, nothing else. */
  predicate Reads(s: string, sign: string, digits: string, v: int) {
    && s == sign + digits && IsSign(sign) && digits != "" && AllDigits(digits)
    && v == if sign == "-" then 0 - Value(digits) else Value(digits)
  }

  lemma ParsesIff(s: string, v: i32)
    ensures ParseI32(s) == Some(v) <==> exists sign, digits :: Reads(s, sign, digits, v)
  {
    if ParseI32(s) == Some(v) {
      var signed := StartsWith(s, "-") || StartsWith(s, "+");
      var sign, digits := if signed then s[..1] else "", if signed then s[1..] else s;
      assert s == sign + digits;
      assert Reads(s, sign, digits, v);
    }
    if sign, digits :| Reads(s, sign, digits, v) {
      ReadsParses(s, sign, digits, v);
    }
  }

  lemma ReadsParses(s: string, sign: string, digits: string, v: i32)
    requires Reads(s, sign, digits, v)
    ensures ParseI32(s) == Some(v)
  {
    assert s[|sign|..] == digits && s[..|sign|] == sign;
    if sign == "" {
      assert s[0] == digits[0] && s[..1][0] == s[0];
    }
  }
}
