/**
 * Versions travel as decimal strings. The client orders them by length and then by
 * text; the server parses them. Both agree with the order of the natural numbers.
 */
module Decimal {
  import opened SyncTypes

  predicate IsDigit(c: char) { '0' <= c <= '9' }

  predicate AllDigits(s: string) { forall i | 0 <= i < |s| :: IsDigit(s[i]) }

  /** The client's pattern ^(0|[1-9][0-9]*)$. */
  predicate Canonical(s: string) {
    s == "0" || (|s| > 0 && s[0] != '0' && AllDigits(s))
  }

  function DigitChar(d: nat): (c: char)
    requires d < 10
  {
    '0' + d as char
  }

  function DigitValue(c: char): nat
    requires IsDigit(c)
  {
    (c - '0') as nat
  }

  function Print(n: nat): string {
    if n < 10 then [DigitChar(n)] else Print(n / 10) + [DigitChar(n % 10)]
  }

  function Value(s: string): nat
    requires AllDigits(s)
  {
    if s == "" then 0 else Value(s[..|s| - 1]) * 10 + DigitValue(s[|s| - 1])
  }

  function Pow10(n: nat): nat {
    if n == 0 then 1 else 10 * Pow10(n - 1)
  }

  lemma {:induction false} PrintRoundTrip(n: nat)
    ensures Canonical(Print(n)) && Value(Print(n)) == n
    ensures n > 0 ==> Print(n)[0] != '0'
  {
    if n < 10 {
      assert Print(n)[..0] == "";
    } else {
      PrintRoundTrip(n / 10);
      var p := Print(n);
      assert p[..|p| - 1] == Print(n / 10);
    }
  }

  lemma {:induction false} ParseRoundTrip(s: string)
    requires Canonical(s)
    ensures Print(Value(s)) == s
  {
    if |s| == 1 {
      assert s[..0] == "";
    } else {
      var p := s[..|s| - 1];
      assert p[0] == s[0];
      ParseRoundTrip(p);
      LeadingDigit(p);
      assert s == p + [s[|s| - 1]];
    }
  }

  /** A canonical string of n digits that is not "0" denotes a number in [10^(n-1), 10^n). */
  lemma {:induction false} LeadingDigit(s: string)
    requires |s| > 0 && AllDigits(s) && s[0] != '0'
    ensures Pow10(|s| - 1) <= Value(s) < Pow10(|s|)
  {
    if |s| == 1 {
      assert s[..0] == "";
    } else {
      LeadingDigit(s[..|s| - 1]);
    }
  }

  /** JavaScript's `<` on strings of digits. */
  predicate TextLess(left: string, right: string) {
    if right == "" then false
    else if left == "" then true
    else if left[0] != right[0] then left[0] < right[0]
    else TextLess(left[1..], right[1..])
  }

  function CompareDecimalVersions(left: string, right: string): Result<int, string> {
    if !Canonical(left) || !Canonical(right) then Err("record version must be an unsigned decimal string")
    else if |left| != |right| then Ok(if |left| < |right| then -1 else 1)
    else Ok(if left == right then 0 else if TextLess(left, right) then -1 else 1)
  }

  function Sign(n: int): int {
    if n < 0 then -1 else if n == 0 then 0 else 1
  }

  /** Comparing by length and then by text is comparing the numbers, and refuses everything else. */
  lemma CompareIsNumeric(left: string, right: string)
    ensures CompareDecimalVersions(left, right).Ok? <==> Canonical(left) && Canonical(right)
    ensures Canonical(left) && Canonical(right) ==>
              CompareDecimalVersions(left, right) == Ok(Sign(Value(left) - Value(right)))
  {
    if Canonical(left) && Canonical(right) {
      if |left| == |right| {
        SameLength(left, right);
      } else if |left| < |right| {
        ShorterIsSmaller(left, right);
      } else {
        ShorterIsSmaller(right, left);
      }
    }
  }

  lemma ShorterIsSmaller(short: string, long: string)
    requires Canonical(short) && Canonical(long) && |short| < |long|
    ensures Value(short) < Value(long)
  {
    LeadingDigit(long);
    if short == "0" {
      assert short[..0] == "";
      Pow10Grows(0, |long| - 1);
    } else {
      LeadingDigit(short);
      Pow10Grows(|short|, |long| - 1);
    }
  }

  lemma {:induction false} Pow10Grows(a: nat, b: nat)
    requires a <= b
    ensures 1 <= Pow10(a) <= Pow10(b)
  {
    if a < b {
      Pow10Grows(a, b - 1);
    } else if a > 0 {
      Pow10Grows(a - 1, a - 1);
    }
  }

  lemma {:induction false} SameLength(left: string, right: string)
    requires |left| == |right| && AllDigits(left) && AllDigits(right)
    ensures left == right <==> Value(left) == Value(right)
    ensures TextLess(left, right) <==> Value(left) < Value(right)
  {
    if left != "" {
      var n := |left| - 1;
      SameLength(left[..n], right[..n]);
      LastCharacter(left, right);
      assert left == left[..n] + [left[n]] && right == right[..n] + [right[n]];
    }
  }

  lemma {:induction false} LastCharacter(left: string, right: string)
    requires |left| == |right| > 0
    ensures var n := |left| - 1;
            TextLess(left, right) <==>
              TextLess(left[..n], right[..n]) || (left[..n] == right[..n] && left[n] < right[n])
  {
    var n := |left| - 1;
    if n == 0 {
      assert left[1..] == "" && right[1..] == "";
    } else if left[0] == right[0] {
      LastCharacter(left[1..], right[1..]);
      assert left[..n][1..] == left[1..][..n - 1] && right[..n][1..] == right[1..][..n - 1];
      assert left[..n] == [left[0]] + left[1..][..n - 1] && right[..n] == [right[0]] + right[1..][..n - 1];
    }
  }

  /** The server's check of an incoming base version. */
  predicate ValidBaseVersion(value: Option<string>) {
    value.None?
    || value.value == "0"
    || (|value.value| > 0 && value.value[0] != '0' && AllDigits(value.value) && Value(value.value) <= I64_MAX)
  }

  function ParseBaseVersion(value: Option<string>): Option<nat>
    requires ValidBaseVersion(value)
  {
    if value.None? then None else Some(Value(value.value))
  }

  function PrintVersion(version: Option<nat>): Option<string> {
    if version.None? then None else Some(Print(version.value))
  }

  /** The server accepts exactly the printed forms of 0 .. 2^63 - 1, and reads each back as printed. */
  lemma BaseVersionsAreNumbers(s: string)
    ensures ValidBaseVersion(Some(s)) <==> exists n: nat :: n <= I64_MAX && s == Print(n)
    ensures ValidBaseVersion(Some(s)) ==> Print(ParseBaseVersion(Some(s)).value) == s
  {
    if ValidBaseVersion(Some(s)) {
      assert s == "0" ==> s[..0] == "";
      ParseRoundTrip(s);
      assert Value(s) <= I64_MAX && s == Print(Value(s));
    }
    forall n: nat | n <= I64_MAX && s == Print(n)
      ensures ValidBaseVersion(Some(s))
    {
      PrintRoundTrip(n);
    }
  }

  lemma PrintedBaseIsRead(version: Option<nat>)
    requires version.Some? ==> version.value <= I64_MAX
    ensures ValidBaseVersion(PrintVersion(version))
    ensures ParseBaseVersion(PrintVersion(version)) == version
  {
    if version.Some? {
      PrintRoundTrip(version.value);
    }
  }

  /** The client's length guard stops at the first character past the limit. */
  method HasAtMostCodePoints(value: string, maximum: nat) returns (fits: bool)
    ensures fits <==> |value| <= maximum
  {
    var count := 0;
    for i := 0 to |value|
      invariant count == i <= maximum
    {
      count := count + 1;
      if count > maximum {
        return false;
      }
    }
    return true;
  }
}
