/**
 * The integer formatting main.rs relies on: `{}` (shortest decimal) and
 * `{:>w}` (the same digits right-aligned in a field of width `w`, padded
 * with spaces on the left and never truncated), producing ASCII bytes.
 */
module Format {
  import opened Common

  const Space: u8 := 0x20
  const Zero: u8 := 0x30

  predicate IsDigit(b: u8)
  {
    Zero <= b <= Zero + 9
  }

  predicate AllDigits(s: seq<u8>)
  {
    forall i :: 0 <= i < |s| ==> IsDigit(s[i])
  }

  function Pow10(k: nat): (p: nat)
    ensures p >= 1
  {
    if k == 0 then 1 else 10 * Pow10(k - 1)
  }

  /** `format!("{}", n)`: the decimal digits of `n`, without leading zeros. */
  function Decimal(n: nat): (s: seq<u8>)
    ensures 1 <= |s| && AllDigits(s)
    ensures s[0] == Zero ==> n == 0
  {
    if n < 10 then [Zero + n as u8]
    else Decimal(n / 10) + [Zero + (n % 10) as u8]
  }

  /** Reads back a run of decimal digits: the inverse of Decimal. */
  function Value(s: seq<u8>): nat
    requires AllDigits(s)
  {
    if s == [] then 0 else 10 * Value(s[..|s| - 1]) + (s[|s| - 1] - Zero) as nat
  }

  /** Formatting then reading back gives the number again. */
  lemma {:induction false} ValueOfDecimal(n: nat)
    ensures Value(Decimal(n)) == n
  {
    if n >= 10 {
      var s := Decimal(n);
      assert s[..|s| - 1] == Decimal(n / 10);
      ValueOfDecimal(n / 10);
    }
  }

  /** `n` needs at most `k` digits exactly when it is below 10^k. */
  lemma {:induction false} DecimalWidth(n: nat, k: nat)
    requires k >= 1
    ensures |Decimal(n)| <= k <==> n < Pow10(k)
  {
    if n >= 10 && k > 1 {
      DecimalWidth(n / 10, k - 1);
    } else if n >= 10 {
      assert Pow10(1) == 10;
    }
  }

  /** `{:>width}`: left-pad with spaces up to `width`; longer text is kept whole. */
  function PadLeft(s: seq<u8>, width: nat): (r: seq<u8>)
    ensures |r| == if |s| < width then width else |s|
    ensures r[|r| - |s|..] == s
    ensures forall i :: 0 <= i < |r| - |s| ==> r[i] == Space
  {
    if |s| < width then seq(width - |s|, _ => Space) + s else s
  }

  /** `format!("{:>width}", n)`. */
  function Right(n: nat, width: nat): seq<u8>
  {
    PadLeft(Decimal(n), width)
  }

  /** A number below 10^w fills a `{:>w}` field exactly. */
  lemma RightWidth(n: nat, w: nat)
    requires w >= 1 && n < Pow10(w)
    ensures |Right(n, w)| == w
  {
    DecimalWidth(n, w);
  }
}
