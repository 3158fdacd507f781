/** Array indices as text: `format!("{}", index)` and `str::parse::<usize>()`. */
module Decimal {
  import opened Values

  /** One more than `usize::MAX` on a 64-bit target. */
  const USIZE_BOUND: nat := 0x1_0000_0000_0000_0000

  function Digit(d: nat): char
    requires d < 10
  {
    '0' + d as char
  }

  predicate IsDigit(c: char) {
    '0' <= c <= '9'
  }

  predicate AllDigits(s: string) {
    forall i :: 0 <= i < |s| ==> IsDigit(s[i])
  }

  /** The decimal text of `n`, without leading zeros. */
  function Print(n: nat): (s: string)
    ensures s != [] && AllDigits(s)
  {
    if n < 10 then [Digit(n)] else Print(n / 10) + [Digit(n % 10)]
  }

  function DigitsValue(s: string): nat
    requires AllDigits(s)
  {
    if s == [] then 0
    else 10 * DigitsValue(s[..|s| - 1]) + (s[|s| - 1] as int - '0' as int)
  }

  /** Rust's `usize` parser: an optional leading plus sign, at least one digit, and no overflow. */
  function ParseUsize(s: string): (r: Option<nat>)
    ensures r.Some? ==> r.value < USIZE_BOUND
  {
    var digits := if |s| > 1 && s[0] == '+' then s[1..] else s;
    if digits != [] && AllDigits(digits) && DigitsValue(digits) < USIZE_BOUND
    then Some(DigitsValue(digits))
    else None
  }

  /** The printed form of a number is the one text of digits without a needless leading zero that has its value. */
  lemma PrintExactly(n: nat, s: string)
    ensures s == Print(n) <==> s != "" && AllDigits(s) && (s[0] == '0' ==> s == "0") && DigitsValue(s) == n
  {
    PrintLeads(n);
    PrintValue(n);
    if s != "" && AllDigits(s) && (s[0] == '0' ==> s == "0") {
      PrintOfValue(s);
    }
  }

  lemma {:induction false} PrintLeads(n: nat)
    ensures Print(n)[0] == '0' ==> n == 0 && Print(n) == "0"
  {
    if n >= 10 {
      PrintLeads(n / 10);
    }
  }

  lemma {:induction false} PrintOfValue(s: string)
    requires s != "" && AllDigits(s) && (s[0] == '0' ==> s == "0")
    ensures Print(DigitsValue(s)) == s
    ensures DigitsValue(s) > 0 || s == "0"
    decreases |s|
  {
    var front, last := s[..|s| - 1], s[|s| - 1];
    if front == "" {
      assert s == [last];
    } else {
      assert front[0] == s[0];
      PrintOfValue(front);
      var digit := last as int - '0' as int;
      assert DigitsValue(s) == 10 * DigitsValue(front) + digit && 0 <= digit < 10;
      assert s == front + [last];
    }
  }

  /** `s` is those digits, with or without a plus sign in front. */
  predicate Spells(s: string, digits: string) {
    digits != "" && AllDigits(digits) && (s == digits || s == "+" + digits)
  }

  /** An index is read from one or more digits after an optional plus sign, and only when it does not overflow. */
  lemma ParseUsizeExactly(s: string, n: nat)
    ensures ParseUsize(s) == Some(n) <==>
      n < 18_446_744_073_709_551_616 && exists digits :: Spells(s, digits) && DigitsValue(digits) == n
  {
    if ParseUsize(s) == Some(n) {
      var digits := if |s| > 1 && s[0] == '+' then s[1..] else s;
      assert Spells(s, digits);
    }
    if digits :| Spells(s, digits) && DigitsValue(digits) == n {
      assert digits[0] != '+';
      assert s == "+" + digits ==> s[1..] == digits;
    }
  }

  predicate IsIndex(s: string) {
    ParseUsize(s).Some?
  }

  lemma {:induction false} PrintValue(n: nat)
    ensures DigitsValue(Print(n)) == n
  {
    if n < 10 {
      assert Print(n)[..0] == [];
    } else {
      PrintValue(n / 10);
      assert Print(n)[..|Print(n)| - 1] == Print(n / 10);
    }
  }

  /** Every index that fits in a `usize` is parsed back from its printed form. */
  lemma ParsePrint(n: nat)
    requires n < USIZE_BOUND
    ensures ParseUsize(Print(n)) == Some(n)
  {
    PrintValue(n);
    assert Print(n)[0] != '+';
  }

  lemma PrintInjective(a: nat, b: nat)
    requires Print(a) == Print(b)
    ensures a == b
  {
    PrintValue(a);
    PrintValue(b);
  }
}
