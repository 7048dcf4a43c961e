/** Small shared vocabulary: optional values, results, the decimal rendering
    of a timestamp or index, and the `Math.floor(Math.random() * n)` idiom. */
module Common {

  datatype Option<+T> = None | Some(value: T)

  datatype Result<+T, +E> = Ok(value: T) | Err(error: E)

  function DigitChar(d: nat): (c: char)
    requires d < 10
    ensures '0' <= c <= '9'
    ensures c as int - '0' as int == d
  {
    ('0' as int + d) as char
  }

  /** The decimal text of a natural number, as JavaScript's template literals
      render an integer-valued number (no sign, no leading zeros). */
  function Decimal(n: nat): (s: string)
    ensures |s| >= 1
    ensures n >= 10 ==> |s| >= 2
    ensures forall i :: 0 <= i < |s| ==> '0' <= s[i] <= '9'
    decreases n
  {
    if n < 10 then [DigitChar(n)] else Decimal(n / 10) + [DigitChar(n % 10)]
  }

  /** Two different numbers never render to the same text. */
  lemma {:induction false} DecimalInjective(a: nat, b: nat)
    requires Decimal(a) == Decimal(b)
    ensures a == b
  {
    if a < 10 && b < 10 {
      assert Decimal(a)[0] == DigitChar(a);
    } else if a >= 10 && b >= 10 {
      var sa, sb := Decimal(a), Decimal(b);
      assert sa[|sa| - 1] == DigitChar(a % 10);
      assert sb[|sb| - 1] == DigitChar(b % 10);
      assert sa[..|sa| - 1] == Decimal(a / 10);
      assert sb[..|sb| - 1] == Decimal(b / 10);
      DecimalInjective(a / 10, b / 10);
    }
  }

  /** A text prefix followed by a number; distinct numbers give distinct texts. */
  lemma PrefixedDecimalInjective(prefix: string, a: nat, b: nat)
    requires prefix + Decimal(a) == prefix + Decimal(b)
    ensures a == b
  {
    var s := prefix + Decimal(a);
    assert Decimal(a) == s[|prefix|..];
    assert Decimal(b) == (prefix + Decimal(b))[|prefix|..];
    DecimalInjective(a, b);
  }

  /** `Math.floor(r * n)` for a random draw `r` in [0, 1): an index into a
      collection of `n` elements (0 when the collection is empty). */
  function RandomIndex(r: real, n: nat): (i: int)
    requires 0.0 <= r < 1.0
    ensures n > 0 ==> 0 <= i < n
    ensures n == 0 ==> i == 0
  {
    var x := r * (n as real);
    assert 0.0 <= x;
    assert n > 0 ==> x < n as real;
    x.Floor
  }
}
