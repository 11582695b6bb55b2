/** Reference definitions shared by every generator copy: digit alphabets,
    the canonical most-significant-first radix rendering and its decoding,
    the pad-or-truncate shaping of fixed-width fields, and the byte-wise
    string order Rust uses for `str` comparison. The source modules are
    proved against these definitions. */
module Codec {

  /** 2^128: every `Into<u128>` input lies below this bound. */
  const U128_LIMIT: nat := 0x1_0000_0000_0000_0000_0000_0000_0000_0000

  /** The radix of every CUID text field. */
  const BASE: nat := 36

  function Pow(base: nat, exp: nat): (r: nat)
    ensures base >= 1 ==> r >= 1
  {
    if exp == 0 then 1 else base * Pow(base, exp - 1)
  }

  lemma {:induction false} PowMonotone(base: nat, a: nat, b: nat)
    requires base >= 1 && a <= b
    ensures Pow(base, a) <= Pow(base, b)
  {
    if a < b {
      PowMonotone(base, a, b - 1);
      PowUnfold(base, b);
      MulMono(1, base, Pow(base, b - 1));
    }
  }


  /** Exponents add: `base^(m+n) == base^m * base^n`. */
  lemma {:induction false} PowAdd(base: nat, m: nat, n: nat)
    ensures Pow(base, m + n) == Pow(base, m) * Pow(base, n)
    decreases n
  {
    if n > 0 {
      PowAdd(base, m, n - 1);
      PowUnfold(base, m + n);
      PowUnfold(base, n);
      MulSwap(base, Pow(base, m), Pow(base, n - 1));
    }
  }

  lemma MulSwap(a: nat, b: nat, c: nat)
    ensures (b * c) * a == b * (c * a)
  {
  }

  // ---------------------------------------------------------------------------
  // Arithmetic helpers (kept apart so that the solver sees small contexts)
  // ---------------------------------------------------------------------------

  lemma MulMono(a: nat, b: nat, c: nat)
    ensures a <= b ==> a * c <= b * c
  {
  }

  lemma DivMod(n: nat, radix: nat)
    requires 2 <= radix && n >= radix
    ensures 1 <= n / radix < n && n % radix < radix
    ensures n == (n / radix) * radix + n % radix
  {
  }

  lemma QuotRem(n: nat, radix: nat)
    requires radix >= 1
    ensures 0 <= n / radix && 0 <= n % radix < radix
    ensures n == (n / radix) * radix + n % radix
  {
  }

  lemma DivDecreases(n: nat, radix: nat)
    requires 2 <= radix && n > 0
    ensures n / radix < n
  {
    if n >= radix {
      DivMod(n, radix);
    } else {
      DivModUnique(0, n, radix);
    }
  }

  lemma DivModUnique(d: nat, v: nat, radix: nat)
    requires v < radix
    ensures (d * radix + v) / radix == d && (d * radix + v) % radix == v
  {
    var n := d * radix + v;
    QuotRem(n, radix);
    var q, r := n / radix, n % radix;
    MulMono(d + 1, q, radix);
    MulMono(q + 1, d, radix);
    MulSucc(d, radix);
    MulSucc(q, radix);
  }

  lemma MulSucc(a: nat, b: nat)
    ensures (a + 1) * b == a * b + b
  {
  }

  lemma SnocBound(d: nat, v: nat, radix: nat, p: nat)
    requires d < p && v < radix
    ensures d * radix + v < p * radix
  {
    MulMono(d + 1, p, radix);
    assert (d + 1) * radix == d * radix + radix;
  }

  lemma ConsBound(vx: nat, vy: nat, p: nat, da: nat, db: nat)
    requires vx < vy && da < p
    ensures vx * p + da < vy * p + db
  {
    MulMono(vx + 1, vy, p);
    assert (vx + 1) * p == vx * p + p;
  }

  lemma Regroup(a: nat, p: nat, b: nat, radix: nat, d: nat)
    ensures (a * p + b) * radix + d == a * (p * radix) + (b * radix + d)
  {
  }

  lemma ModStep(a: nat, m: nat, radix: nat, v: nat)
    requires m >= 1 && v < radix
    ensures (a * radix + v) % (m * radix) == (a % m) * radix + v
  {
    var q, r := a / m, a % m;
    assert a == q * m + r && r < m;
    SnocBound(r, v, radix, m);
    Regroup(q, m, r, radix, v);
    DivModUnique(q, r * radix + v, m * radix);
  }

  // ---------------------------------------------------------------------------
  // Digits
  // ---------------------------------------------------------------------------

  predicate IsAsciiDigit(c: char) { '0' <= c <= '9' }

  predicate IsAsciiLowercase(c: char) { 'a' <= c <= 'z' }

  /** A character of the alphabet `0-9a-z`. */
  predicate IsBase36Char(c: char) { IsAsciiDigit(c) || IsAsciiLowercase(c) }

  /** The value of a character of `0-9a-z` (as `char::to_digit(36)`); other
      characters are given 0 and never occur in digit strings. */
  function DigitValue(c: char): nat
  {
    if IsAsciiDigit(c) then c as int - '0' as int
    else if IsAsciiLowercase(c) then c as int - 'a' as int + 10
    else 0
  }

  /** `char::from_digit(d, radix)` for a digit below the radix (radix <= 36). */
  function DigitChar(d: nat): (c: char)
    requires d < 36
    ensures IsBase36Char(c) && DigitValue(c) == d
    ensures c == '0' <==> d == 0
  {
    if d < 10 then ('0' as int + d) as char else ('a' as int + (d - 10)) as char
  }

  /** `c` is a digit of the given radix. */
  predicate IsDigitOf(radix: nat, c: char) { IsBase36Char(c) && DigitValue(c) < radix }

  predicate IsDigitString(radix: nat, s: string)
  {
    forall i :: 0 <= i < |s| ==> IsDigitOf(radix, s[i])
  }

  lemma CharRoundTrip(c: char)
    requires IsBase36Char(c)
    ensures DigitValue(c) < 36 && DigitChar(DigitValue(c)) == c
  {
  }

  /** On `0-9a-z` the character order (ASCII) agrees with the digit order. */
  lemma DigitOrder(x: char, y: char)
    requires IsBase36Char(x) && IsBase36Char(y)
    ensures x < y <==> DigitValue(x) < DigitValue(y)
    ensures x == y <==> DigitValue(x) == DigitValue(y)
  {
  }

  // ---------------------------------------------------------------------------
  // Canonical rendering and its inverse
  // ---------------------------------------------------------------------------

  /** The canonical rendering of `n` in `radix`: most significant digit first,
      no leading zero, "0" for zero. */
  function Encode(radix: nat, n: nat): (s: string)
    requires 2 <= radix <= 36
    ensures |s| >= 1 && IsDigitString(radix, s)
    ensures s[0] == '0' <==> n == 0
    decreases n
  {
    if n < radix then [DigitChar(n)]
    else
      DivMod(n, radix);
      var c := DigitChar(n % radix);
      assert IsDigitOf(radix, c);
      Encode(radix, n / radix) + [c]
  }

  /** The lowercase base-36 rendering used by every CUID field. */
  function Base36(n: nat): (s: string)
    ensures |s| >= 1 && IsDigitString(36, s)
  {
    Encode(BASE, n)
  }

  /** Horner evaluation of a most-significant-first digit string. */
  function Decode(radix: nat, s: string): nat
  {
    if s == [] then 0 else Decode(radix, s[..|s| - 1]) * radix + DigitValue(s[|s| - 1])
  }

  /** One step of the digit loop: the last digit of the rendering is
      `n % radix`, the rest renders `n / radix` (nothing once that is zero). */
  lemma EncodeStep(radix: nat, n: nat)
    requires 2 <= radix <= 36 && n > 0
    ensures n % radix < radix
    ensures Encode(radix, n)
         == (if n / radix == 0 then [] else Encode(radix, n / radix)) + [DigitChar(n % radix)]
  {
    if n >= radix {
      DivMod(n, radix);
    } else {
      DivModUnique(0, n, radix);
    }
  }

  lemma DecodeSnoc(radix: nat, s: string, c: char)
    ensures Decode(radix, s + [c]) == Decode(radix, s) * radix + DigitValue(c)
  {
    assert (s + [c])[..|s|] == s;
  }

  /** Round trip: decoding the rendering gives the number back. */
  lemma {:induction false} DecodeEncode(radix: nat, n: nat)
    requires 2 <= radix <= 36
    ensures Decode(radix, Encode(radix, n)) == n
    decreases n
  {
    if n < radix {
      DecodeSnoc(radix, [], DigitChar(n));
    } else {
      EncodeSplit(radix, n);
      var q, r := n / radix, n % radix;
      var e, c := Encode(radix, q), DigitChar(r);
      DecodeEncode(radix, q);
      DecodeStep(radix, n, q, r, e, c);
    }
  }

  lemma DecodeStep(radix: nat, n: nat, q: nat, r: nat, e: string, c: char)
    requires n == q * radix + r && Decode(radix, e) == q && DigitValue(c) == r
    ensures Decode(radix, e + [c]) == n
  {
    DecodeSnoc(radix, e, c);
  }

  /** A number of at least two digits renders as its quotient followed by the
      digit of its remainder. */
  lemma EncodeSplit(radix: nat, n: nat)
    requires 2 <= radix <= 36 && n >= radix
    ensures 1 <= n / radix < n && n % radix < radix
    ensures n == (n / radix) * radix + n % radix
    ensures Encode(radix, n) == Encode(radix, n / radix) + [DigitChar(n % radix)]
    ensures DigitValue(DigitChar(n % radix)) == n % radix
  {
    DivMod(n, radix);
  }

  /** Rendering is injective. */
  lemma EncodeInjective(radix: nat, a: nat, b: nat)
    requires 2 <= radix <= 36
    ensures Encode(radix, a) == Encode(radix, b) <==> a == b
  {
    DecodeEncode(radix, a);
    DecodeEncode(radix, b);
  }

  /** A nonzero leading character makes a digit string denote a positive
      value. */
  lemma {:induction false} DecodePositive(radix: nat, s: string)
    requires radix >= 2 && |s| >= 1 && IsDigitString(radix, s) && s[0] != '0'
    ensures Decode(radix, s) >= 1
    decreases |s|
  {
    var k := |s| - 1;
    DecodeUnfold(radix, s);
    if k >= 1 {
      DigitStringPrefix(radix, s, k);
      assert s[..k][0] == s[0];
      DecodePositive(radix, s[..k]);
      MulMono(1, Decode(radix, s[..k]), radix);
    } else {
      assert IsDigitOf(radix, s[0]);
      CharRoundTrip(s[0]);
      assert s[..k] == [];
    }
  }

  /** The rendering is characterised by its shape: a non-empty digit string
      without a leading zero (or "0" itself) is the rendering of its value. */
  lemma {:induction false} EncodeDecode(radix: nat, s: string)
    requires 2 <= radix <= 36 && |s| >= 1 && IsDigitString(radix, s)
    requires s[0] != '0' || |s| == 1
    ensures Encode(radix, Decode(radix, s)) == s
    decreases |s|
  {
    var k := |s| - 1;
    var p, c := s[..k], s[k];
    DecodeUnfold(radix, s);
    DigitStringAt(radix, s, k);
    assert IsDigitOf(radix, c);
    CharRoundTrip(c);
    var v := DigitValue(c);
    assert Decode(radix, s) == Decode(radix, p) * radix + v;
    if k == 0 {
      assert p == [];
      assert s == [c];
    } else {
      DigitStringPrefix(radix, s, k);
      assert p[0] == s[0];
      var d := Decode(radix, p);
      DecodePositive(radix, p);
      EncodeDecode(radix, p);
      var n := d * radix + v;
      MulMono(1, d, radix);
      EncodeSplit(radix, n);
      DivModUnique(d, v, radix);
      assert Encode(radix, n) == p + [c];
      assert s == p + [c];
    }
  }

  /** Length of the rendering: `radix^(L-1) <= n < radix^L` (the lower bound
      for positive `n`). */
  lemma {:induction false} EncodeLength(radix: nat, n: nat)
    requires 2 <= radix <= 36
    ensures var L := |Encode(radix, n)|;
      n < Pow(radix, L) && (n > 0 ==> Pow(radix, L - 1) <= n)
    decreases n
  {
    if n < radix {
      assert |Encode(radix, n)| == 1;
      PowUnfold(radix, 1);
    } else {
      DivMod(n, radix);
      var q, r := n / radix, n % radix;
      EncodeStep(radix, n);
      EncodeLength(radix, q);
      var K := |Encode(radix, q)|;
      assert |Encode(radix, n)| == K + 1;
      PowUnfold(radix, K + 1);
      PowUnfold(radix, K);
      LengthStep(radix, n, q, r, Pow(radix, K - 1), Pow(radix, K));
    }
  }

  lemma LengthStep(radix: nat, n: nat, q: nat, r: nat, p1: nat, p: nat)
    requires n == q * radix + r && r < radix && p1 <= q < p
    ensures p1 * radix <= n < p * radix
  {
    SnocBound(q, r, radix, p);
    MulMono(p1, q, radix);
  }

  /** `n < radix^k` renders in at most `k` digits. */
  lemma EncodeLengthAtMost(radix: nat, n: nat, k: nat)
    requires 2 <= radix <= 36 && k >= 1 && n < Pow(radix, k)
    ensures |Encode(radix, n)| <= k
  {
    EncodeLength(radix, n);
    var L := |Encode(radix, n)|;
    if L > k {
      PowMonotone(radix, k, L - 1);
    }
  }

  /** `radix^(k-1) <= n < radix^k` renders in exactly `k` digits. */
  lemma EncodeLengthExactly(radix: nat, n: nat, k: nat)
    requires 2 <= radix <= 36 && k >= 1 && Pow(radix, k - 1) <= n < Pow(radix, k)
    ensures |Encode(radix, n)| == k
  {
    EncodeLength(radix, n);
    var L := |Encode(radix, n)|;
    if L < k {
      PowMonotone(radix, L, k - 1);
    } else if L > k {
      PowMonotone(radix, k, L - 1);
    }
  }

  lemma DigitStringPrefix(radix: nat, s: string, k: nat)
    requires IsDigitString(radix, s) && k <= |s|
    ensures IsDigitString(radix, s[..k])
  {
    forall i | 0 <= i < k ensures IsDigitOf(radix, s[..k][i]) {
      assert s[..k][i] == s[i];
    }
  }

  lemma DigitStringAt(radix: nat, s: string, i: nat)
    requires IsDigitString(radix, s) && i < |s|
    ensures DigitValue(s[i]) < radix
  {
    assert IsDigitOf(radix, s[i]);
  }

  lemma DecodeUnfold(radix: nat, s: string)
    requires s != []
    ensures Decode(radix, s) == Decode(radix, s[..|s| - 1]) * radix + DigitValue(s[|s| - 1])
  {
  }

  lemma PowUnfold(radix: nat, k: nat)
    requires k >= 1
    ensures Pow(radix, k) == Pow(radix, k - 1) * radix
  {
  }

  /** A digit string of length `k` denotes a value below `radix^k`. */
  lemma {:induction false} DecodeBelow(radix: nat, s: string)
    requires IsDigitString(radix, s)
    ensures Decode(radix, s) < Pow(radix, |s|)
    decreases |s|
  {
    if s != [] {
      var k := |s| - 1;
      DigitStringPrefix(radix, s, k);
      DigitStringAt(radix, s, k);
      DecodeBelow(radix, s[..k]);
      DecodeUnfold(radix, s);
      PowUnfold(radix, |s|);
      SnocBound(Decode(radix, s[..k]), DigitValue(s[k]), radix, Pow(radix, k));
    }
  }

  /** Decoding from the front: the first digit weighs `radix^(|rest|)`. */
  lemma {:induction false} DecodeCons(radix: nat, c: char, s: string)
    ensures Decode(radix, [c] + s) == DigitValue(c) * Pow(radix, |s|) + Decode(radix, s)
    decreases |s|
  {
    if s == [] {
      DecodeSnoc(radix, [], c);
    } else {
      var n := |s| - 1;
      ConsStep(c, s);
      DecodeUnfold(radix, [c] + s);
      DecodeUnfold(radix, s);
      DecodeCons(radix, c, s[..n]);
      PowUnfold(radix, |s|);
      Regroup(DigitValue(c), Pow(radix, n), Decode(radix, s[..n]), radix, DigitValue(s[n]));
    }
  }

  lemma ConsStep(c: char, s: string)
    requires s != []
    ensures var t := [c] + s;
      t[..|t| - 1] == [c] + s[..|s| - 1] && t[|t| - 1] == s[|s| - 1]
  {
  }

  // ---------------------------------------------------------------------------
  // Fixed-width fields
  // ---------------------------------------------------------------------------

  function Repeat(c: char, k: nat): (r: string)
    ensures |r| == k && forall i :: 0 <= i < k ==> r[i] == c
  {
    if k == 0 then [] else [c] + Repeat(c, k - 1)
  }

  /** Reference pad-or-truncate: left-pad with `padChar` up to `size`, or keep
      only the rightmost `size` characters of a longer string. */
  function PadWithChar(padChar: char, size: nat, s: string): (r: string)
    ensures |r| == size
    ensures |s| >= size ==> r == s[|s| - size..]
    ensures |s| < size ==>
      r[size - |s|..] == s && forall i :: 0 <= i < size - |s| ==> r[i] == padChar
  {
    if |s| >= size then s[|s| - size..] else Repeat(padChar, size - |s|) + s
  }

  /** Pad-or-truncate with '0', the only padding CUID fields use. */
  function Pad(size: nat, s: string): (r: string)
    ensures |r| == size
  {
    PadWithChar('0', size, s)
  }

  lemma PadIdempotent(padChar: char, size: nat, s: string)
    ensures PadWithChar(padChar, size, PadWithChar(padChar, size, s)) == PadWithChar(padChar, size, s)
  {
  }

  lemma PadKeepsDigits(radix: nat, size: nat, s: string)
    requires radix >= 1 && IsDigitString(radix, s)
    ensures IsDigitString(radix, Pad(size, s))
  {
  }

  lemma {:induction false} DecodeLeadingZeros(radix: nat, k: nat, s: string)
    ensures Decode(radix, Repeat('0', k) + s) == Decode(radix, s)
    decreases k
  {
    if k > 0 {
      assert Repeat('0', k) == ['0'] + Repeat('0', k - 1);
      assert Repeat('0', k) + s == ['0'] + (Repeat('0', k - 1) + s);
      var rest := Repeat('0', k - 1) + s;
      DecodeCons(radix, '0', rest);
      assert DigitValue('0') == 0;
      assert Decode(radix, ['0'] + rest) == Decode(radix, rest);
      DecodeLeadingZeros(radix, k - 1, s);
    } else {
      assert Repeat('0', k) + s == s;
    }
  }

  /** The rightmost `k` digits of a digit string denote its value modulo
      `radix^k`. */
  lemma {:induction false} DecodeSuffix(radix: nat, s: string, k: nat)
    requires radix >= 2 && k <= |s| && IsDigitString(radix, s)
    ensures Decode(radix, s[|s| - k..]) == Decode(radix, s) % Pow(radix, k)
    decreases k
  {
    if k == 0 {
      assert s[|s|..] == [];
    } else {
      var n := |s| - 1;
      DigitStringPrefix(radix, s, n);
      DigitStringAt(radix, s, n);
      DecodeSuffix(radix, s[..n], k - 1);
      SuffixStep(s, k);
      DecodeUnfold(radix, s[|s| - k..]);
      DecodeUnfold(radix, s);
      PowUnfold(radix, k);
      ModStep(Decode(radix, s[..n]), Pow(radix, k - 1), radix, DigitValue(s[n]));
    }
  }

  lemma SuffixStep(s: string, k: nat)
    requires 1 <= k <= |s|
    ensures var t := s[|s| - k..];
      t[..|t| - 1] == s[..|s| - 1][|s| - k..] && t[|t| - 1] == s[|s| - 1]
  {
  }

  /** A `k`-character field holding the base-36 rendering of `n` denotes
      `n mod 36^k`: padding adds zeros, truncation drops the most significant
      digits. */
  lemma FixedWidthDecode(n: nat, k: nat)
    ensures IsDigitString(36, Pad(k, Base36(n)))
    ensures Decode(36, Pad(k, Base36(n))) == n % Pow(36, k)
  {
    var s := Base36(n);
    PadKeepsDigits(36, k, s);
    DecodeEncode(36, n);
    if |s| >= k {
      assert Pad(k, s) == s[|s| - k..];
      DecodeSuffix(36, s, k);
    } else {
      assert Pad(k, s) == Repeat('0', k - |s|) + s;
      DecodeLeadingZeros(36, k - |s|, s);
      EncodeLength(36, n);
      PowMonotone(36, |s|, k);
      ModSmall(n, Pow(36, k));
    }
  }

  lemma ModSmall(n: nat, m: nat)
    requires n < m
    ensures n % m == n
  {
  }

  // ---------------------------------------------------------------------------
  // String order
  // ---------------------------------------------------------------------------

  /** `a < b` for Rust strings: lexicographic by character (for ASCII,
      byte-wise). */
  predicate LexLess(a: string, b: string)
  {
    if a == [] then b != []
    else b != [] && (a[0] < b[0] || (a[0] == b[0] && LexLess(a[1..], b[1..])))
  }

  /** For equal-length digit strings the string order is the numeric order. */
  lemma {:induction false} LexLessIsNumeric(radix: nat, a: string, b: string)
    requires |a| == |b| && IsDigitString(radix, a) && IsDigitString(radix, b)
    ensures LexLess(a, b) <==> Decode(radix, a) < Decode(radix, b)
    decreases |a|
  {
    if a != [] {
      var x, y, a', b' := a[0], b[0], a[1..], b[1..];
      assert a == [x] + a' && b == [y] + b';
      assert IsDigitString(radix, a') && IsDigitString(radix, b');
      LexLessIsNumeric(radix, a', b');
      DecodeCons(radix, x, a');
      DecodeCons(radix, y, b');
      DecodeBelow(radix, a');
      DecodeBelow(radix, b');
      DigitOrder(x, y);
      var P := Pow(radix, |a'|);
      var vx, vy := DigitValue(x), DigitValue(y);
      if vx < vy {
        ConsBound(vx, vy, P, Decode(radix, a'), Decode(radix, b'));
      } else if vy < vx {
        ConsBound(vy, vx, P, Decode(radix, b'), Decode(radix, a'));
      }
    }
  }
}
