/** The host-name number shared by the three fingerprint copies
    (crates/cuid1/src/fingerprint.rs, crates/cuid1/src/cuid1/fingerprint.rs,
    src/fingerprint.rs): the length of the name plus the radix plus the sum of
    its character codes, rendered in base 36 and cut to two characters. */
module Hostname {
  import Codec
  import Utf8

  /** FINGERPRINT_PADDING: width of the host and process blocks. */
  const FINGERPRINT_PADDING: nat := 2

  /** Sum of the character codes (`c as usize`) of a string. */
  function CharCodeSum(s: string): nat
  {
    if s == [] then 0 else s[0] as nat + CharCodeSum(s[1..])
  }

  lemma {:induction false} CharCodeSumAppend(a: string, b: string)
    ensures CharCodeSum(a + b) == CharCodeSum(a) + CharCodeSum(b)
  {
    if a == [] {
      assert a + b == b;
    } else {
      assert (a + b)[1..] == a[1..] + b;
      CharCodeSumAppend(a[1..], b);
    }
  }

  /** `chars().fold(acc, |acc, c| acc + c as usize)`. */
  function Fold(acc: nat, s: string): nat
    decreases |s|
  {
    if s == [] then acc else Fold(acc + s[0] as nat, s[1..])
  }

  /** The left fold adds every character code to the seed. */
  lemma {:induction false} FoldIsSum(acc: nat, s: string)
    ensures Fold(acc, s) == acc + CharCodeSum(s)
    decreases |s|
  {
    if s != [] {
      FoldIsSum(acc + s[0] as nat, s[1..]);
    }
  }

  /** The fold seeded with the name's length (`str::len`, its UTF-8 bytes)
      plus the radix. */
  function HostValue(h: string): (r: nat)
    ensures r == Utf8.ByteLen(h) + Codec.BASE + CharCodeSum(h)
  {
    FoldIsSum(Utf8.ByteLen(h) + Codec.BASE, h);
    Fold(Utf8.ByteLen(h) + Codec.BASE, h)
  }

  /** On an ASCII name the length term is the number of characters. */
  lemma AsciiHostValue(h: string)
    requires Utf8.IsAscii(h)
    ensures HostValue(h) == |h| + Codec.BASE + CharCodeSum(h)
  {
    Utf8.ByteLenBounds(h);
  }

  /** A name outside ASCII: "é" is one character of code 233 but two bytes,
      so its value is 2 + 36 + 233 = 271, whose block is "7j". */
  lemma HostBlockAccented()
    ensures HostValue("é") == 271
    ensures HostBlock("é") == "7j"
  {
    Utf8.AccentedWidth();
    assert CharCodeSum("é") == 233;
    assert Codec.Base36(271) == "7j";
  }

  /** The host block: the host value in base 36, padded or cut to two
      characters. */
  function HostBlock(h: string): (s: string)
    ensures |s| == FINGERPRINT_PADDING
  {
    Codec.Pad(FINGERPRINT_PADDING, Codec.Base36(HostValue(h)))
  }

  /** The process block: the process id in base 36, padded or cut to two
      characters. */
  function PidBlock(pid: nat): (s: string)
    ensures |s| == FINGERPRINT_PADDING
  {
    Codec.Pad(FINGERPRINT_PADDING, Codec.Base36(pid))
  }

  /** A two-character block keeps the value modulo 36^2: the cut drops the
      more significant digits. */
  lemma BlockKeepsLowDigits(h: string, pid: nat)
    ensures Codec.IsDigitString(36, HostBlock(h)) && Codec.Decode(36, HostBlock(h)) == HostValue(h) % 1296
    ensures Codec.IsDigitString(36, PidBlock(pid)) && Codec.Decode(36, PidBlock(pid)) == pid % 1296
  {
    Codec.FixedWidthDecode(HostValue(h), FINGERPRINT_PADDING);
    Codec.FixedWidthDecode(pid, FINGERPRINT_PADDING);
    assert Codec.Pow(36, FINGERPRINT_PADDING) == 1296;
  }

  lemma CodesOfFoo() ensures CharCodeSum("foo") == 324 {}
  lemma CodesOfBar() ensures CharCodeSum("bar") == 309 {}
  lemma CodesOfMrMagoo() ensures CharCodeSum("mr-magoo") == 799 {}
  lemma CodesOfWowWhatA() ensures CharCodeSum("wow-what-a") == 972 {}
  lemma CodesOfLongHost() ensures CharCodeSum("-long-host") == 968 {}
  lemma CodesOfNameYouHave() ensures CharCodeSum("name-you-have") == 1276 {}

  /** The host names of the unit tests and the blocks the original
      JavaScript implementation gives for them. */
  lemma HostBlockFoo()
    ensures HostBlock("foo") == "a3"
  {
    CodesOfFoo();
    AsciiHostValue("foo");
    assert HostValue("foo") == 363;
  }

  lemma HostBlockBar()
    ensures HostBlock("bar") == "9o"
  {
    CodesOfBar();
    AsciiHostValue("bar");
    assert HostValue("bar") == 348;
  }

  lemma HostBlockMrMagoo()
    ensures HostBlock("mr-magoo") == "nf"
  {
    CodesOfMrMagoo();
    AsciiHostValue("mr-magoo");
    assert HostValue("mr-magoo") == 843;
  }

  lemma LongHostCodes()
    ensures CharCodeSum("wow-what-a-long-hostname-you-have") == 3216
  {
    CodesOfWowWhatA();
    CodesOfLongHost();
    CodesOfNameYouHave();
    CharCodeSumAppend("wow-what-a", "-long-host");
    LongNameFirstHalf();
    CharCodeSumAppend("wow-what-a-long-host", "name-you-have");
    LongNameWhole();
  }

  lemma LongNameFirstHalf() ensures "wow-what-a" + "-long-host" == "wow-what-a-long-host" {}

  lemma LongNameWhole()
    ensures "wow-what-a-long-host" + "name-you-have" == "wow-what-a-long-hostname-you-have"
  {
  }

  lemma BytesOfWowWhatA() ensures Utf8.ByteLen("wow-what-a") == 10 {}
  lemma BytesOfLongHost() ensures Utf8.ByteLen("-long-host") == 10 {}
  lemma BytesOfNameYouHave() ensures Utf8.ByteLen("name-you-have") == 13 {}

  lemma LongNameBytes()
    ensures Utf8.ByteLen("wow-what-a-long-hostname-you-have") == 33
  {
    BytesOfWowWhatA();
    BytesOfLongHost();
    BytesOfNameYouHave();
    Utf8.ByteLenAppend("wow-what-a", "-long-host");
    LongNameFirstHalf();
    Utf8.ByteLenAppend("wow-what-a-long-host", "name-you-have");
    LongNameWhole();
  }

  lemma Base36Of3285()
    ensures Codec.Base36(3285) == "2j9"
  {
  }

  /** A long name: the value 3285 has three digits, "2j9", and the cut keeps
      the last two. */
  lemma HostBlockLongName()
    ensures HostBlock("wow-what-a-long-hostname-you-have") == "j9"
  {
    var h := "wow-what-a-long-hostname-you-have";
    LongHostCodes();
    LongNameBytes();
    assert HostValue(h) == 3285;
    Base36Of3285();
    assert Codec.Pad(2, "2j9") == "j9";
  }
}
