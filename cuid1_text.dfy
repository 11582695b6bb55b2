/** crates/cuid1/src/text.rs: base-36 text and fixed-width padding. */
module CuidOneText {
  import Codec
  import CuidUtil
  import opened Errors

  /** `to_base_string` never fails: it wraps `to_base_36`. */
  method ToBaseString(number: nat) returns (r: Outcome<string>)
    requires number < Codec.U128_LIMIT
    ensures r.Ok? && r.value == Codec.Base36(number)
  {
    var s := CuidUtil.ToBase36(number);
    r := Ok(s);
  }

  /** `pad_with_char`: the three-way comparison of the length with `size`;
      a longer string loses characters from its start, a shorter one gets
      `padChar` inserted in front. */
  function PadWithChar(padChar: char, size: nat, toPad: string): (r: string)
    ensures r == Codec.PadWithChar(padChar, size, toPad)
  {
    var length := |toPad|;
    if length < size then
      Codec.Repeat(padChar, size - length) + toPad
    else if length == size then
      toPad
    else
      toPad[length - size..]
  }

  /** `pad`: pad-or-truncate with '0'. */
  function Pad(size: nat, toPad: string): (r: string)
    ensures r == Codec.Pad(size, toPad)
  {
    PadWithChar('0', size, toPad)
  }

  /** The unit tests of the padding helpers. */
  lemma PadExamples()
    ensures PadWithChar('a', 3, "foo") == "foo"
    ensures PadWithChar('a', 4, "foo") == "afoo"
    ensures PadWithChar('a', 6, "foo") == "aaafoo"
    ensures PadWithChar('a', 1, "abc") == "c"
    ensures Pad(5, "foo") == "00foo"
  {
    assert Codec.Repeat('a', 1) == "a";
    assert Codec.Repeat('a', 3) == "aaa";
    assert Codec.Repeat('0', 2) == "00";
    assert "abc"[2..] == "c";
  }
}
