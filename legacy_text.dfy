/** src/text.rs: the older generator's radix rendering and padding. */
module LegacyText {
  import Codec
  import CuidUtil
  import opened Errors

  /** `f64::MAX as u128`: the float-to-integer cast saturates, so the bound
      is `u128::MAX`. */
  const F64_MAX_AS_U128: nat := Codec.U128_LIMIT - 1

  const DIVIDE_BY_ZERO: string := "attempt to calculate the remainder with a divisor of zero"

  /** `char::from_digit` for a radix it accepts: the digit's character, or
      `None` for a digit outside the radix. (A radix above 36 makes it
      panic; callers check that first.) */
  function FromDigit(digit: nat, radix: nat): (r: Option<char>)
    requires radix <= 36
    ensures r.Some? <==> digit < radix
    ensures r.Some? ==> Codec.IsDigitOf(radix, r.value) && Codec.DigitValue(r.value) == digit
  {
    if digit < radix then Some(Codec.DigitChar(digit)) else None
  }

  /** `to_radix_string`: one character for a number below the radix,
      otherwise the digits least significant first, collected in reverse.
      For every radix `char::from_digit` accepts, the result is the
      canonical rendering; a larger radix panics. Radix 0 skips the
      single-character case: zero gives the empty string (the loop never
      runs) and anything else divides by zero. The too-large and bad-digit
      errors are modelled as written and are never returned. */
  method ToRadixString(radix: nat, number: nat) returns (r: Outcome<string>)
    requires radix != 1 && radix < 256 && number < Codec.U128_LIMIT
    ensures 2 <= radix <= 36 ==> r == Ok(Codec.Encode(radix, number))
    ensures radix > 36 ==> r.Panic?
    ensures radix == 0 ==> r == (if number == 0 then Ok("") else Panic(DIVIDE_BY_ZERO))
  {
    if radix == 0 {
      if number == 0 {
        return Ok("");
      }
      return Panic(DIVIDE_BY_ZERO);
    }
    if number < radix {
      if radix > 36 {
        return Panic("from_digit: radix is too high");
      }
      match FromDigit(number, radix) {
        case None => return Err(TextError("Bad digit"));
        case Some(c) => return Ok([c]);
      }
    } else if number > F64_MAX_AS_U128 {
      return Err(TextError("Input number too large"));
    }
    r := DigitLoop(radix, number);
  }

  /** The digit loop of `to_radix_string` (reached for `number >= radix`):
      push `number % radix` and divide until nothing is left, then collect
      the characters in reverse. */
  method DigitLoop(radix: nat, number: nat) returns (r: Outcome<string>)
    requires 2 <= radix && number > 0
    ensures radix <= 36 ==> r == Ok(Codec.Encode(radix, number))
    ensures radix > 36 ==> r.Panic?
  {
    if radix > 36 {
      // The first pass of the loop asks `from_digit` for a digit in this
      // radix, which panics.
      return Panic("from_digit: radix is too high");
    }
    var n: nat := number;
    var chars: string := [];
    while n > 0
      invariant Codec.Encode(radix, number) == (if n == 0 then [] else Codec.Encode(radix, n)) + CuidUtil.Reverse(chars)
      decreases n
    {
      // `from_digit(..).unwrap()` on a remainder, which is below the radix.
      Codec.QuotRem(n, radix);
      var q, m := n / radix, n % radix;
      CuidUtil.DigitLoopStep(radix, number, n, q, m, chars);
      chars := chars + [Codec.DigitChar(m)];
      n := q;
    }
    assert [] + CuidUtil.Reverse(chars) == CuidUtil.Reverse(chars);
    r := Ok(CuidUtil.Reverse(chars));
  }

  /** `to_base_string`: rendering in base 36. */
  method ToBaseString(number: nat) returns (r: Outcome<string>)
    requires number < Codec.U128_LIMIT
    ensures r == Ok(Codec.Base36(number))
  {
    r := ToRadixString(Codec.BASE, number);
  }

  /** `pad_with_char`: equal length is returned as is, a longer string keeps
      its rightmost `size` characters, a shorter one is built by pushing
      `padChar` once per missing character and then the string. */
  method PadWithChar(padChar: char, size: nat, toPad: string) returns (r: string)
    ensures r == Codec.PadWithChar(padChar, size, toPad)
  {
    var length := |toPad|;
    if length == size {
      return toPad;
    } else if length > size {
      return toPad[length - size..];
    }
    var ret: string := [];
    for i := 0 to size - length
      invariant ret == Codec.Repeat(padChar, i)
    {
      ret := ret + [padChar];
    }
    r := ret + toPad;
  }

  /** `pad`: pad-or-truncate with '0'. */
  method Pad(size: nat, toPad: string) returns (r: string)
    ensures r == Codec.Pad(size, toPad)
  {
    r := PadWithChar('0', size, toPad);
  }

  /** The unit tests of `to_radix_string`, stated on the rendering it is
      proved to return. */
  lemma RadixExamples()
    ensures Codec.Encode(16, 8) == "8"
    ensures Codec.Encode(16, 10) == "a"
    ensures Codec.Encode(16, 16) == "10"
    ensures Codec.Encode(32, 1234) == "16i"
    ensures Codec.Encode(36, 12341234) == "7cik2"
  {
  }
}
