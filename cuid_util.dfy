/** crates/cuid-util: the shared base-36 conversion of any `u128`. */
module CuidUtil {
  import Codec

  /** Reversal of a character buffer, last character first. */
  function Reverse(s: string): (r: string)
    ensures |r| == |s|
  {
    if s == [] then [] else [s[|s| - 1]] + Reverse(s[..|s| - 1])
  }

  lemma ReverseSnoc(s: string, c: char)
    ensures Reverse(s + [c]) == [c] + Reverse(s)
  {
    assert (s + [c])[..|s|] == s;
  }

  /** `u128::MAX` has at most 25 base-36 digits, the capacity reserved for
      the buffer. */
  lemma U128FitsCapacity()
    ensures Codec.U128_LIMIT < Codec.Pow(36, 25)
  {
    Codec.PowAdd(36, 12, 13);
    assert Codec.Pow(36, 12) == 4738381338321616896;
    assert Codec.Pow(36, 13) == 170581728179578208256;
  }

  /** One pass of a digit loop: with `n == q * radix + m`, pushing the
      character of the remainder `m` onto the least-significant-first buffer
      and continuing with the quotient `q` keeps the rendering of the
      original number split between what is left and the reversed buffer. */
  lemma DigitLoopStep(radix: nat, number: nat, n: nat, q: nat, m: nat, buffer: string)
    requires 2 <= radix <= 36 && n > 0 && n == q * radix + m && m < radix
    requires Codec.Encode(radix, number) == Codec.Encode(radix, n) + Reverse(buffer)
    ensures q < n
    ensures Codec.Encode(radix, number)
         == (if q == 0 then [] else Codec.Encode(radix, q)) + Reverse(buffer + [Codec.DigitChar(m)])
  {
    Codec.DivModUnique(q, m, radix);
    Codec.EncodeStep(radix, n);
    Codec.DivDecreases(n, radix);
    ReverseSnoc(buffer, Codec.DigitChar(m));
  }

  /** `u128` values have at most 25 base-36 digits. */
  lemma Base36Fits(number: nat)
    requires number < Codec.U128_LIMIT
    ensures |Codec.Base36(number)| <= 25
  {
    U128FitsCapacity();
    Codec.EncodeLengthAtMost(36, number, 25);
  }

  /** `to_base_36`: the digits are produced least significant first by
      repeated division and then reversed; the result is the canonical
      base-36 rendering, at most 25 characters long. */
  method ToBase36(number: nat) returns (s: string)
    requires number < Codec.U128_LIMIT
    ensures s == Codec.Base36(number)
    ensures 1 <= |s| <= 25
  {
    Base36Fits(number);
    if number < 36 {
      return [Codec.DigitChar(number)];
    }
    var n: nat := number;
    var buffer: string := [];
    while n > 0
      invariant Codec.Base36(number) == (if n == 0 then [] else Codec.Base36(n)) + Reverse(buffer)
      decreases n
    {
      Codec.QuotRem(n, 36);
      var q, m := n / 36, n % 36;
      DigitLoopStep(36, number, n, q, m, buffer);
      buffer := buffer + [Codec.DigitChar(m)];
      n := q;
    }
    assert [] + Reverse(buffer) == Reverse(buffer);
    s := Reverse(buffer);
  }
}
