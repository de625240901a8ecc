/** Unsigned decimal numbers as ASCII bytes. */
module Decimal {
  import opened Wrappers

  type byte = b: int | 0 <= b < 256

  const U32_LIMIT: nat := 0x1_0000_0000

  predicate IsDigit(b: byte) {
    48 <= b <= 57
  }

  predicate AllDigits(s: seq<byte>) {
    forall i | 0 <= i < |s| :: IsDigit(s[i])
  }

  function DigitsValue(s: seq<byte>): nat
    requires AllDigits(s)
  {
    if s == [] then 0 else 10 * DigitsValue(s[..|s| - 1]) + (s[|s| - 1] - 48)
  }

  // `str::parse::<u32>` on a digit string: leading zeros are allowed, overflow is an error.
  function ParseU32(s: seq<byte>): Option<nat>
    requires AllDigits(s)
  {
    if s != [] && DigitsValue(s) < U32_LIMIT then Some(DigitsValue(s)) else None
  }

  function Print(n: nat): (s: seq<byte>)
    ensures |s| > 0 && AllDigits(s)
  {
    if n < 10 then [48 + n] else Print(n / 10) + [48 + n % 10]
  }

  /** Each further digit counts ten times what stands before it. */
  lemma AnotherDigit(s: seq<byte>, d: nat)
    requires AllDigits(s) && d < 10
    ensures DigitsValue([]) == 0 && DigitsValue(s + [48 + d]) == 10 * DigitsValue(s) + d
  {
    assert (s + [48 + d])[..|s|] == s;
  }

  /** Reading a printed number returns it. */
  lemma {:induction false} ParsePrinted(n: nat)
    ensures DigitsValue(Print(n)) == n
    ensures ParseU32(Print(n)) == if n < U32_LIMIT then Some(n) else None
    decreases n
  {
    if n < 10 {
      assert Print(n)[..0] == [];
    } else {
      ParsePrinted(n / 10);
      assert Print(n)[..|Print(n)| - 1] == Print(n / 10);
    }
  }
}
