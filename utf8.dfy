/** Byte lengths of strings. Rust's `str::len` counts the bytes of the UTF-8
    encoding, not the characters: a code point below 0x80 takes one byte,
    below 0x800 two, below 0x10000 three, and any other four. */
module Utf8 {
  /** Number of bytes in the UTF-8 encoding of one code point. */
  function Width(c: char): (w: nat)
    ensures 1 <= w <= 4
    ensures w == 1 <==> (c as int) < 0x80
  {
    if (c as int) < 0x80 then 1
    else if (c as int) < 0x800 then 2
    else if (c as int) < 0x1_0000 then 3
    else 4
  }

  /** `str::len`: the length of the UTF-8 encoding. */
  function ByteLen(s: string): nat
  {
    if s == [] then 0 else Width(s[0]) + ByteLen(s[1..])
  }

  /** Every character is a single byte. */
  predicate IsAscii(s: string)
  {
    forall i :: 0 <= i < |s| ==> (s[i] as int) < 0x80
  }

  /** A string has at least as many bytes as characters and at most four
      times as many; the two counts agree exactly on ASCII strings. */
  lemma {:induction false} ByteLenBounds(s: string)
    ensures |s| <= ByteLen(s) <= 4 * |s|
    ensures ByteLen(s) == |s| <==> IsAscii(s)
    decreases |s|
  {
    if s != [] {
      var t := s[1..];
      ByteLenBounds(t);
      if IsAscii(s) {
        assert forall i :: 0 <= i < |t| ==> t[i] == s[i + 1];
      }
      if (s[0] as int) < 0x80 && IsAscii(t) {
        forall i | 0 <= i < |s|
          ensures (s[i] as int) < 0x80
        {
          if i > 0 {
            assert s[i] == t[i - 1];
          }
        }
      }
    }
  }

  /** The bytes of a concatenation are the bytes of its parts. */
  lemma {:induction false} ByteLenAppend(a: string, b: string)
    ensures ByteLen(a + b) == ByteLen(a) + ByteLen(b)
    decreases |a|
  {
    if a == [] {
      assert a + b == b;
    } else {
      assert (a + b)[1..] == a[1..] + b;
      ByteLenAppend(a[1..], b);
    }
  }

  /** Characters of the alphabet `0-9a-z` are ASCII, so a string of them has
      as many bytes as characters. */
  lemma Base36ByteLen(s: string)
    requires forall i :: 0 <= i < |s| ==> ('0' <= s[i] <= '9' || 'a' <= s[i] <= 'z')
    ensures ByteLen(s) == |s|
  {
    ByteLenBounds(s);
  }

  /** One accented letter: 'é' is U+00E9 and takes two bytes. */
  lemma AccentedWidth()
    ensures ByteLen("é") == 2
  {
  }
}
