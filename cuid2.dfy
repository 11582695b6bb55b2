/** crates/cuid2/src/lib.rs: version-2 CUIDs. An id is a random lowercase
    letter followed by the base-36 rendering of a SHA3-512 digest of the
    timestamp, fresh entropy, a per-thread counter and a per-thread
    fingerprint, cut to the requested length.

    The clock (`None` before the Unix epoch), the random draws, the process
    and thread ids and the digest are inputs. The digest `sha3` stands for
    SHA3-512 followed by reading the 64 bytes as one big-endian number. */
module CuidTwo {
  import Codec
  import CuidUtil
  import Utf8
  import opened Errors

  /** The primes bounding the entropy draws. */
  const PRIMES: seq<nat> := [109717, 109721, 109741, 109751, 109789, 109793, 109807, 109819, 109829, 109831]
  const DEFAULT_LENGTH: nat := 24
  const BIG_LENGTH: nat := 32
  /** Characters an id may start with. */
  const STARTING_CHARS: string := "abcdefghijklmnopqrstuvwxyz"

  /** `COUNTER_INIT` is drawn from `0..2057`. */
  const COUNTER_INIT_LIMIT: nat := 2057
  /** The fingerprint's random number is drawn from `2063..4126`. */
  const FINGERPRINT_DRAW_LOW: nat := 2063
  const FINGERPRINT_DRAW_HIGH: nat := 4126

  const U16_LIMIT: nat := 0x1_0000
  const U32_LIMIT: nat := 0x1_0000_0000
  const U64_LIMIT: nat := 0x1_0000_0000_0000_0000

  const TIMESTAMP_PANIC: string := "Failed to calculate system timestamp!"
  const SLICE_PANIC: string := "byte index out of range"

  // ---------------------------------------------------------------------
  // Validation

  /** One step of the `is_cuid2` fold as written: `acc && lower || digit`
      groups as `(acc && lower) || digit`. */
  function TailStep(acc: bool, c: char): bool {
    (acc && Codec.IsAsciiLowercase(c)) || Codec.IsAsciiDigit(c)
  }

  /** The fold over the characters after the first. */
  function TailFold(acc: bool, t: string): bool
    decreases |t|
  {
    if t == [] then acc else TailFold(TailStep(acc, t[0]), t[1..])
  }

  /** `is_cuid2` as written: 2 to 32 bytes (`str::len`), a first character
      in `STARTING_CHARS` (`contains` of a one-character string is
      membership), and the fold over the characters after it. */
  predicate IsCuid2(s: string) {
    2 <= Utf8.ByteLen(s) <= BIG_LENGTH && |s| >= 1 && s[0] in STARTING_CHARS && TailFold(true, s[1..])
  }

  /** The step the fold evidently means: `acc && (lower || digit)`. */
  function IntendedStep(acc: bool, c: char): bool {
    acc && (Codec.IsAsciiLowercase(c) || Codec.IsAsciiDigit(c))
  }

  function IntendedFold(acc: bool, t: string): bool
    decreases |t|
  {
    if t == [] then acc else IntendedFold(IntendedStep(acc, t[0]), t[1..])
  }

  /** `is_cuid2` with the intended grouping. */
  predicate IsCuid2AsIntended(s: string) {
    2 <= Utf8.ByteLen(s) <= BIG_LENGTH && |s| >= 1 && s[0] in STARTING_CHARS && IntendedFold(true, s[1..])
  }

  /** A character that is neither a lowercase ASCII letter nor an ASCII
      digit. */
  predicate Bad(c: char) { !Codec.IsBase36Char(c) }

  /** Some digit comes after position `i`. */
  predicate DigitAfter(t: string, i: int) {
    exists j :: i < j < |t| && 0 <= j && Codec.IsAsciiDigit(t[j])
  }

  /** Every bad character is followed, somewhere later, by a digit. */
  predicate Recovered(t: string) {
    forall i :: 0 <= i < |t| && Bad(t[i]) ==> DigitAfter(t, i)
  }

  predicate HasNonLower(t: string) {
    exists k :: 0 <= k < |t| && !Codec.IsAsciiLowercase(t[k])
  }

  /** The intended fold accepts exactly the strings of lowercase letters
      and digits. */
  lemma {:induction false} IntendedFoldMeaning(acc: bool, t: string)
    ensures IntendedFold(acc, t) <==> acc && forall i :: 0 <= i < |t| ==> Codec.IsBase36Char(t[i])
    decreases |t|
  {
    if t != [] {
      IntendedFoldMeaning(IntendedStep(acc, t[0]), t[1..]);
      assert forall i :: 1 <= i < |t| ==> t[i] == t[1..][i - 1];
    }
  }

  /** The predicates on a string in terms of its first character and the
      rest. */
  lemma Uncons(t: string)
    requires |t| >= 1
    ensures Recovered(t) <==> (Bad(t[0]) ==> DigitAfter(t[1..], -1)) && Recovered(t[1..])
    ensures HasNonLower(t) <==> !Codec.IsAsciiLowercase(t[0]) || HasNonLower(t[1..])
  {
    var u := t[1..];
    assert forall i :: 0 <= i < |u| ==> u[i] == t[i + 1];
    assert DigitAfter(t, 0) <==> DigitAfter(u, -1) by {
      if DigitAfter(t, 0) {
        var j :| 0 < j < |t| && Codec.IsAsciiDigit(t[j]);
        assert Codec.IsAsciiDigit(u[j - 1]);
      }
      if DigitAfter(u, -1) {
        var j :| -1 < j < |u| && Codec.IsAsciiDigit(u[j]);
        assert Codec.IsAsciiDigit(t[j + 1]);
      }
    }
    if Recovered(t) {
      forall i | 0 <= i < |u| && Bad(u[i])
        ensures DigitAfter(u, i)
      {
        assert Bad(t[i + 1]);
        var j :| i + 1 < j < |t| && Codec.IsAsciiDigit(t[j]);
        assert Codec.IsAsciiDigit(u[j - 1]);
      }
    }
    if (Bad(t[0]) ==> DigitAfter(u, -1)) && Recovered(u) {
      forall i | 0 <= i < |t| && Bad(t[i])
        ensures DigitAfter(t, i)
      {
        if i > 0 {
          assert Bad(u[i - 1]);
          var j :| i - 1 < j < |u| && Codec.IsAsciiDigit(u[j]);
          assert Codec.IsAsciiDigit(t[j + 1]);
        }
      }
    }
    if HasNonLower(t) {
      var k :| 0 <= k < |t| && !Codec.IsAsciiLowercase(t[k]);
      if k > 0 {
        assert !Codec.IsAsciiLowercase(u[k - 1]);
      }
    }
    if HasNonLower(u) {
      var k :| 0 <= k < |u| && !Codec.IsAsciiLowercase(u[k]);
      assert !Codec.IsAsciiLowercase(t[k + 1]);
    }
  }

  /** In a recovered string any character other than a lowercase letter
      implies a digit somewhere. */
  lemma RecoveredHasDigit(u: string)
    requires Recovered(u) && HasNonLower(u)
    ensures DigitAfter(u, -1)
  {
    var k :| 0 <= k < |u| && !Codec.IsAsciiLowercase(u[k]);
    if !Codec.IsAsciiDigit(u[k]) {
      assert Bad(u[k]);
    }
  }

  /** What the fold as written accepts: a later digit resets a failed
      accumulator, so the tail passes exactly when every bad character is
      followed by a digit (and, when there is no character other than a
      lowercase letter, the accumulator it started with is true). */
  lemma {:induction false} TailFoldMeaning(acc: bool, t: string)
    ensures TailFold(acc, t) <==> Recovered(t) && (acc || HasNonLower(t))
    decreases |t|
  {
    if t == [] {
      assert !HasNonLower(t);
    } else {
      var c, u := t[0], t[1..];
      TailFoldMeaning(TailStep(acc, c), u);
      Uncons(t);
      if Recovered(u) && HasNonLower(u) {
        RecoveredHasDigit(u);
      }
    }
  }

  /** `is_cuid2` as written, characterised. */
  lemma IsCuid2Accepts(s: string)
    ensures IsCuid2(s) <==> 2 <= Utf8.ByteLen(s) <= BIG_LENGTH && |s| >= 1 && s[0] in STARTING_CHARS && Recovered(s[1..])
  {
    if |s| >= 1 {
      TailFoldMeaning(true, s[1..]);
    }
  }

  /** The intended check accepts exactly what the written one accepts among
      strings without bad characters, and nothing else. */
  lemma IntendedIsStricter(s: string)
    ensures IsCuid2AsIntended(s) <==> IsCuid2(s) && forall i :: 1 <= i < |s| ==> !Bad(s[i])
  {
    if |s| >= 1 {
      var t := s[1..];
      assert forall i :: 1 <= i < |s| ==> s[i] == t[i - 1];
      IntendedFoldMeaning(true, t);
      TailFoldMeaning(true, t);
    }
  }

  /** The precedence slip: "a#1" passes the written check, although '#' is
      not alphanumeric; the intended check rejects it. */
  lemma DigitResetsFold()
    ensures IsCuid2("a#1")
    ensures !IsCuid2AsIntended("a#1")
  {
    assert "a#1"[1..] == "#1";
    assert "#1"[1..] == "1";
  }

  /** The documented examples: the empty string, a single letter and an
      overlong string are rejected for their length. */
  lemma IsCuid2RejectsLength()
    ensures !IsCuid2("") && !IsCuid2("a")
    ensures !IsCuid2(TOO_BIG)
  {
    TooBigIsLong();
  }

  lemma TooBigIsLong()
    ensures Utf8.ByteLen(TOO_BIG) > BIG_LENGTH
  {
    Utf8.ByteLenBounds(TOO_BIG);
  }

  /** The length bound counts bytes: "a", 29 'b's, 'é' and "1" is 32
      characters, and its tail passes the fold (the final digit resets it
      after 'é'), but it is 33 bytes, so it is rejected. */
  lemma IsCuid2CountsBytes()
    ensures var s := "a" + Codec.Repeat('b', 29) + "é1";
      |s| == 32 && TailFold(true, s[1..]) && !IsCuid2(s)
  {
    var p := "a" + Codec.Repeat('b', 29);
    var s := p + "é1";
    var t := s[1..];
    assert Utf8.IsAscii(p);
    Utf8.ByteLenBounds(p);
    Utf8.ByteLenAppend(p, "é1");
    assert Utf8.ByteLen("é1") == 3;
    assert t[30] == '1' && Codec.IsAsciiDigit(t[30]);
    forall i | 0 <= i < |t| && i != 29
      ensures !Bad(t[i])
    {
      if i < 29 {
        assert t[i] == s[i + 1] == p[i + 1] == Codec.Repeat('b', 29)[i];
      }
    }
    assert DigitAfter(t, 29);
    assert Recovered(t);
    TailFoldMeaning(true, t);
  }

  /** The documented example "a#" is rejected by both checks. */
  lemma IsCuid2RejectsSymbol()
    ensures !IsCuid2("a#") && !IsCuid2AsIntended("a#")
  {
    assert "a#"[1..] == "#";
  }

  /** The overlong example of the documentation, 130 characters. */
  const TOO_BIG: string := "a1l23j1l2k3j12o8312j3k12j3lj12k3j1lk2j312j3lkj12l3g1kj2h312312lk3j1l2j3lk12j3lkjlj1lk23jl131l2k3jl12j3lk1j2lk3j12lk3h12k3hhl1j2j3"

  // ---------------------------------------------------------------------
  // Entropy

  /** One draw of the entropy loop: the index of the prime `choose` picked
      and the value `gen_range(0..prime)` returned. */
  datatype Draw = Draw(prime: nat, value: nat)

  predicate ValidDraw(d: Draw) {
    d.prime < |PRIMES| && d.value < PRIMES[d.prime]
  }

  predicate ValidDraws(ds: seq<Draw>) {
    forall i :: 0 <= i < |ds| ==> ValidDraw(ds[i])
  }

  /** A draw renders as one to four base-36 characters (the largest prime,
      109831, is "2cqv"). */
  lemma DrawWidth(d: Draw)
    requires ValidDraw(d)
    ensures 1 <= |Codec.Base36(d.value)| <= 4
  {
    Codec.EncodeLengthAtMost(36, d.value, 4);
  }

  lemma DigitStringConcat(a: string, b: string)
    requires Codec.IsDigitString(36, a) && Codec.IsDigitString(36, b)
    ensures Codec.IsDigitString(36, a + b)
  {
    assert forall i :: |a| <= i < |a + b| ==> (a + b)[i] == b[i - |a|];
  }

  /** The entropy of `length` characters made from a stream of draws: the
      renderings of the draws, one after another, until `length` characters
      are reached or passed. Each draw adds at least one character, so
      `length` draws always suffice. */
  function Entropy(length: nat, draws: seq<Draw>): (r: string)
    requires ValidDraws(draws) && |draws| >= length
    ensures length <= |r| <= length + 3
    ensures Codec.IsDigitString(36, r)
    decreases length
  {
    if length == 0 then ""
    else
      var d := Codec.Base36(draws[0].value);
      DrawWidth(draws[0]);
      if |d| >= length then d
      else
        var rest := Entropy(length - |d|, draws[1..]);
        DigitStringConcat(d, rest);
        d + rest
  }

  /** No characters are asked for, none are made; one character takes
      exactly the first draw. */
  lemma EntropyExamples(draws: seq<Draw>)
    requires ValidDraws(draws) && |draws| >= 1
    ensures Entropy(0, draws) == ""
    ensures Entropy(1, draws) == Codec.Base36(draws[0].value)
  {
  }

  /** `create_entropy`: renderings of fresh draws are appended while the
      result is shorter than `length`. */
  method CreateEntropy(length: nat, draws: seq<Draw>) returns (result: string)
    requires ValidDraws(draws) && |draws| >= length
    ensures result == Entropy(length, draws)
  {
    result := "";
    var i := 0;
    while |result| < length
      invariant EntropyLoop(length, draws, result, i)
      decreases length - |result|
    {
      var d := CuidUtil.ToBase36(draws[i].value);
      EntropyStep(length, draws, result, i);
      result := result + d;
      i := i + 1;
    }
  }

  /** The invariant of the entropy loop after `i` draws have produced
      `result`: the rest of the specification is still to come, or the
      result is complete. */
  ghost predicate EntropyLoop(length: nat, draws: seq<Draw>, result: string, i: nat)
    requires ValidDraws(draws) && |draws| >= length
  {
    i <= |result| && i <= |draws|
    && (|result| < length ==> Entropy(length, draws) == result + Entropy(length - |result|, draws[i..]))
    && (|result| >= length ==> Entropy(length, draws) == result)
  }

  /** One pass of the entropy loop keeps its invariant. */
  lemma EntropyStep(length: nat, draws: seq<Draw>, result: string, i: nat)
    requires ValidDraws(draws) && |draws| >= length
    requires EntropyLoop(length, draws, result, i) && |result| < length
    ensures i < |draws|
    ensures EntropyLoop(length, draws, result + Codec.Base36(draws[i].value), i + 1)
  {
    var rest, rem := draws[i..], length - |result|;
    var d := Codec.Base36(draws[i].value);
    DrawWidth(draws[i]);
    assert rest[0] == draws[i] && rest[1..] == draws[i + 1..];
    EntropyUnfold(rem, rest);
    if |d| < rem {
      var tail := Entropy(rem - |d|, draws[i + 1..]);
      assert result + (d + tail) == (result + d) + tail;
    }
  }

  /** The first step of the entropy specification. */
  lemma EntropyUnfold(length: nat, draws: seq<Draw>)
    requires ValidDraws(draws) && |draws| >= length && length >= 1
    ensures var d := Codec.Base36(draws[0].value);
      if |d| >= length then Entropy(length, draws) == d
      else |draws[1..]| >= length - |d| && Entropy(length, draws) == d + Entropy(length - |d|, draws[1..])
  {
    DrawWidth(draws[0]);
  }

  // ---------------------------------------------------------------------
  // Hashing

  /** SHA3-512 of a byte stream, read as a big-endian number. */
  type Digest = seq<nat> -> nat

  /** The bytes of a string: one per character, which is its UTF-8 encoding
      for ASCII text. */
  function AsBytes(s: string): (b: seq<nat>)
    ensures |b| == |s| && forall i :: 0 <= i < |s| ==> b[i] == s[i] as nat
  {
    if s == [] then [] else [s[0] as nat] + AsBytes(s[1..])
  }

  /** The bytes of the input blocks, one after another. */
  function Flatten(blocks: seq<seq<nat>>): seq<nat>
  {
    if blocks == [] then [] else Flatten(blocks[..|blocks| - 1]) + blocks[|blocks| - 1]
  }

  /** Feeding blocks one at a time is feeding their concatenation. */
  lemma {:induction false} FlattenAppend(a: seq<seq<nat>>, b: seq<seq<nat>>)
    ensures Flatten(a + b) == Flatten(a) + Flatten(b)
    decreases |b|
  {
    if b == [] {
      assert a + b == a;
    } else {
      var k := |b| - 1;
      var ab := a + b;
      assert ab[..|ab| - 1] == a + b[..k];
      assert ab[|ab| - 1] == b[k];
      FlattenAppend(a, b[..k]);
      calc {
        Flatten(ab);
        Flatten(a + b[..k]) + b[k];
        (Flatten(a) + Flatten(b[..k])) + b[k];
        Flatten(a) + (Flatten(b[..k]) + b[k]);
        Flatten(a) + Flatten(b);
      }
    }
  }

  /** The hash of input blocks with a salt: the base-36 rendering of the
      digest of the blocks followed by the salt. */
  function HashOf(input: seq<seq<nat>>, salt: string, sha3: Digest): (r: string)
    ensures |r| >= 1 && Codec.IsDigitString(36, r)
  {
    Codec.Base36(sha3(Flatten(input) + AsBytes(salt)))
  }

  /** Only the byte stream counts: splitting it into blocks differently (an
      `update` per block) gives the same hash. */
  lemma HashSeesStream(a: seq<seq<nat>>, b: seq<seq<nat>>, salt: string, sha3: Digest)
    ensures HashOf(a + b, salt, sha3) == HashOf([Flatten(a) + Flatten(b)], salt, sha3)
  {
    var joined := Flatten(a) + Flatten(b);
    FlattenAppend(a, b);
    FlattenSingle(joined);
    assert Flatten(a + b) + AsBytes(salt) == Flatten([joined]) + AsBytes(salt);
  }

  lemma FlattenSingle(x: seq<nat>)
    ensures Flatten([x]) == x
  {
    assert [x][..0] == [];
  }

  /** `hash`: the salt is fresh entropy of `length` characters; the result
      has as many characters as the base-36 rendering of the digest. */
  method Hash(input: seq<seq<nat>>, length: nat, saltDraws: seq<Draw>, sha3: Digest) returns (r: string)
    requires ValidDraws(saltDraws) && |saltDraws| >= length
    ensures r == HashOf(input, Entropy(length, saltDraws), sha3)
  {
    var salt := CreateEntropy(length, saltDraws);
    var absorbed: seq<nat> := [];
    for i := 0 to |input|
      invariant absorbed == Flatten(input[..i])
    {
      assert input[..i + 1][..i] == input[..i];
      absorbed := absorbed + input[i];
    }
    assert input[..|input|] == input;
    absorbed := absorbed + AsBytes(salt);
    r := Codec.Base36(sha3(absorbed));
  }

  /** `u64::to_be_bytes` (with `k` = 8): the low `k` bytes, most significant
      first. */
  function BigEndian(n: nat, k: nat): (b: seq<nat>)
    ensures |b| == k && forall i :: 0 <= i < k ==> b[i] < 256
  {
    if k == 0 then [] else BigEndian(n / 256, k - 1) + [n % 256]
  }

  /** Reading bytes back as a big-endian number. */
  function FromBigEndian(b: seq<nat>): nat
  {
    if b == [] then 0 else FromBigEndian(b[..|b| - 1]) * 256 + b[|b| - 1]
  }

  /** The bytes keep the number modulo 256^k, so a `u64` is recovered from
      its eight bytes. */
  lemma {:induction false} BigEndianRoundTrip(n: nat, k: nat)
    ensures FromBigEndian(BigEndian(n, k)) == n % Codec.Pow(256, k)
    decreases k
  {
    if k == 0 {
    } else {
      var q, r := n / 256, n % 256;
      var b := BigEndian(q, k - 1);
      assert (b + [r])[..|b + [r]| - 1] == b;
      BigEndianRoundTrip(q, k - 1);
      Codec.QuotRem(n, 256);
      Codec.ModStep(q, Codec.Pow(256, k - 1), 256, r);
      Codec.PowUnfold(256, k);
    }
  }

  lemma U64RoundTrip(n: nat)
    requires n < U64_LIMIT
    ensures FromBigEndian(BigEndian(n, 8)) == n
  {
    BigEndianRoundTrip(n, 8);
    assert Codec.Pow(256, 8) == U64_LIMIT;
  }

  // ---------------------------------------------------------------------
  // Thread-local state

  /** `COUNTER_INIT` ... `get_count`: when the counter is at `u64::MAX`
      (`checked_add` fails) it rolls back to the thread's initial value. */
  function NextCount(count: nat, init: nat): (r: nat)
    requires count < U64_LIMIT && init < COUNTER_INIT_LIMIT
    ensures r < U64_LIMIT
    ensures count + 1 < U64_LIMIT ==> r == count + 1
    ensures count + 1 == U64_LIMIT ==> r == init
  {
    if count + 1 < U64_LIMIT then count + 1 else init
  }

  /** The thread-local statics of one thread: the counter, its initial
      value, and the fingerprint. */
  class ThreadLocals {
    const counterInit: nat
    var counter: nat
    const fingerprint: string

    ghost predicate Valid()
      reads this
    {
      counterInit < COUNTER_INIT_LIMIT && counterInit <= counter < U64_LIMIT
      && |fingerprint| >= 1 && Codec.IsDigitString(36, fingerprint)
    }

    /** First use on a thread: `COUNTER_INIT` from its draw, the counter
        starting there, and the fingerprint hashed (with a 32-character
        salt) from a draw in `2063..4126`, the process id and the thread
        id, each as eight big-endian bytes. */
    constructor (init: nat, fingerprintDraw: nat, pid: nat, threadId: nat, saltDraws: seq<Draw>, sha3: Digest)
      requires init < COUNTER_INIT_LIMIT
      requires FINGERPRINT_DRAW_LOW <= fingerprintDraw < FINGERPRINT_DRAW_HIGH
      requires pid < U32_LIMIT && threadId < U64_LIMIT
      requires ValidDraws(saltDraws) && |saltDraws| >= BIG_LENGTH
      ensures Valid() && counterInit == init && counter == init
      ensures fingerprint == HashOf([BigEndian(fingerprintDraw, 8), BigEndian(pid, 8), BigEndian(threadId, 8)],
                                    Entropy(BIG_LENGTH, saltDraws), sha3)
    {
      var digest := Hash([BigEndian(fingerprintDraw, 8), BigEndian(pid, 8), BigEndian(threadId, 8)],
                        BIG_LENGTH, saltDraws, sha3);
      counterInit := init;
      counter := init;
      fingerprint := digest;
    }

    /** `get_count`: the value before the call; the counter moves on. */
    method GetCount() returns (count: nat)
      requires Valid()
      modifies this
      ensures Valid()
      ensures count == old(counter) && counter == NextCount(old(counter), counterInit)
    {
      count := counter;
      counter := NextCount(counter, counterInit);
    }

    /** `get_fingerprint`. */
    function GetFingerprint(): (s: string)
      requires Valid()
      reads this
      ensures |s| >= 1 && Codec.IsDigitString(36, s)
    {
      fingerprint
    }
  }

  /** The counter test: two calls on a thread give increasing values, since
      a fresh thread's counter starts far below `u64::MAX`. */
  method CounterIncrements(init: nat, fingerprintDraw: nat, pid: nat, threadId: nat, saltDraws: seq<Draw>, sha3: Digest)
    returns (start: nat, next: nat)
    requires init < COUNTER_INIT_LIMIT
    requires FINGERPRINT_DRAW_LOW <= fingerprintDraw < FINGERPRINT_DRAW_HIGH
    requires pid < U32_LIMIT && threadId < U64_LIMIT
    requires ValidDraws(saltDraws) && |saltDraws| >= BIG_LENGTH
    ensures start == init && next == init + 1 && next > start
  {
    var locals := new ThreadLocals(init, fingerprintDraw, pid, threadId, saltDraws, sha3);
    start := locals.GetCount();
    next := locals.GetCount();
  }

  /** Between two rollovers the counter counts up by one per call; a
      rollover sends it back to a value below 2057. */
  lemma CountCycle(count: nat, init: nat)
    requires init < COUNTER_INIT_LIMIT && init <= count < U64_LIMIT
    ensures init <= NextCount(count, init)
    ensures NextCount(count, init) > count <==> count + 1 < U64_LIMIT
    ensures NextCount(count, init) < count ==> NextCount(count, init) < COUNTER_INIT_LIMIT
  {
  }

  // ---------------------------------------------------------------------
  // CUID construction

  /** The counter function of a constructor: the thread's `get_count`, or a
      function supplied by the caller (told apart by a name), whose result
      on this call is an input. */
  datatype CounterFn = GetCount | CustomCounter(name: nat)

  /** The fingerprinter of a constructor, in the same way. */
  datatype FingerprintFn = GetFingerprint | CustomFingerprinter(name: nat)

  /** The random inputs of one `create_id`: the entropy draws, the salt
      draws of `hash`, and the index of the first letter. */
  datatype Randomness = Randomness(entropy: seq<Draw>, salt: seq<Draw>, letter: nat)

  predicate RandomnessFits(rand: Randomness, length: nat) {
    ValidDraws(rand.entropy) && |rand.entropy| >= length
    && ValidDraws(rand.salt) && |rand.salt| >= DEFAULT_LENGTH
    && rand.letter < |STARTING_CHARS|
  }

  /** `format!("{first_letter}{id_body}")[..length]`: the first `length`
      characters, or a panic when there are fewer. No minimum length is
      enforced. */
  function IdFrom(first: char, body: string, length: nat): (r: Outcome<string>)
    ensures r.Ok? <==> length <= 1 + |body|
    ensures !r.Ok? ==> r == Panic(SLICE_PANIC)
    ensures r.Ok? ==> |r.value| == length
    ensures r.Ok? && length >= 1 ==> r.value[0] == first && r.value[1..] == body[..length - 1]
  {
    var joined := [first] + body;
    if length <= |joined| then Ok(joined[..length]) else Panic(SLICE_PANIC)
  }

  /** The body `create_id` hashes: timestamp, entropy, counter and
      fingerprint, salted with 24 characters of entropy. */
  function BodyOf(millis: nat, entropy: string, count: nat, fingerprint: string, salt: string, sha3: Digest): (r: string)
    ensures |r| >= 1 && Codec.IsDigitString(36, r)
  {
    HashOf([AsBytes(Codec.Base36(millis)), AsBytes(entropy), AsBytes(Codec.Base36(count)), AsBytes(fingerprint)], salt, sha3)
  }

  /** An id cut from a letter of `STARTING_CHARS` and a base-36 body is
      exactly `length` characters when the body is long enough; from 2 to
      32 characters it passes `is_cuid2` (as written and as intended), and
      an id of any other length does not. */
  lemma IdShape(first: char, body: string, length: nat)
    requires first in STARTING_CHARS && Codec.IsDigitString(36, body)
    requires length <= 1 + |body|
    ensures IdFrom(first, body, length).Ok? && |IdFrom(first, body, length).value| == length
    ensures 2 <= length <= BIG_LENGTH ==>
      IsCuid2(IdFrom(first, body, length).value) && IsCuid2AsIntended(IdFrom(first, body, length).value)
    ensures !(2 <= length <= BIG_LENGTH) ==> !IsCuid2(IdFrom(first, body, length).value)
  {
    var id := IdFrom(first, body, length).value;
    forall i | 0 <= i < |id|
      ensures '0' <= id[i] <= '9' || 'a' <= id[i] <= 'z'
    {
      if i > 0 {
        assert id[i] == body[i - 1];
        assert Codec.IsDigitOf(36, body[i - 1]);
      }
    }
    Utf8.Base36ByteLen(id);
    if 2 <= length <= BIG_LENGTH {
      var t := id[1..];
      assert t == body[..length - 1];
      assert forall i :: 0 <= i < |t| ==> Codec.IsBase36Char(t[i]) by {
        forall i | 0 <= i < |t|
          ensures Codec.IsBase36Char(t[i])
        {
          assert t[i] == body[i];
          assert Codec.IsDigitOf(36, body[i]);
        }
      }
      IntendedFoldMeaning(true, t);
      IntendedIsStricter(id);
    }
  }

  /** The body is long enough for `length` characters whenever the digest
      has at least `length - 1` base-36 digits, that is, is at least
      36^(length-2). */
  lemma BodyLongEnough(digest: nat, length: nat)
    requires length >= 2 && Codec.Pow(36, length - 2) <= digest
    ensures length <= 1 + |Codec.Base36(digest)|
  {
    Codec.EncodeLength(36, digest);
    var L := |Codec.Base36(digest)|;
    if L < length - 1 {
      Codec.PowMonotone(36, L, length - 2);
    }
  }

  /** The settings of a `CuidConstructor`. */
  class CuidConstructor {
    var length: nat
    var counter: CounterFn
    var fingerprinter: FingerprintFn

    ghost predicate Valid()
      reads this
    {
      length < U16_LIMIT
    }

    /** `CuidConstructor::new`: length 24, the thread's counter and
        fingerprint. */
    constructor ()
      ensures Valid()
      ensures length == DEFAULT_LENGTH && counter == GetCount && fingerprinter == GetFingerprint
    {
      length := DEFAULT_LENGTH;
      counter := GetCount;
      fingerprinter := GetFingerprint;
    }

    /** The struct literal `Self { .. }`. */
    constructor Of(length: nat, counter: CounterFn, fingerprinter: FingerprintFn)
      requires length < U16_LIMIT
      ensures Valid()
      ensures this.length == length && this.counter == counter && this.fingerprinter == fingerprinter
    {
      this.length := length;
      this.counter := counter;
      this.fingerprinter := fingerprinter;
    }

    /** `with_length`: a constructor differing only in its length. */
    method WithLength(length: nat) returns (c: CuidConstructor)
      requires length < U16_LIMIT
      ensures fresh(c) && c.Valid()
      ensures c.length == length && c.counter == counter && c.fingerprinter == fingerprinter
    {
      c := new CuidConstructor.Of(length, counter, fingerprinter);
    }

    /** `with_counter`: a constructor differing only in its counter. */
    method WithCounter(counter: CounterFn) returns (c: CuidConstructor)
      requires Valid()
      ensures fresh(c) && c.Valid()
      ensures c.length == length && c.counter == counter && c.fingerprinter == fingerprinter
    {
      c := new CuidConstructor.Of(length, counter, fingerprinter);
    }

    /** `with_fingerprinter`: a constructor differing only in its
        fingerprinter. */
    method WithFingerprinter(fingerprinter: FingerprintFn) returns (c: CuidConstructor)
      requires Valid()
      ensures fresh(c) && c.Valid()
      ensures c.length == length && c.counter == counter && c.fingerprinter == fingerprinter
    {
      c := new CuidConstructor.Of(length, counter, fingerprinter);
    }

    /** `set_length`. */
    method SetLength(length: nat)
      requires length < U16_LIMIT
      modifies this
      ensures Valid()
      ensures this.length == length && counter == old(counter) && fingerprinter == old(fingerprinter)
    {
      this.length := length;
    }

    /** `set_counter`. */
    method SetCounter(counter: CounterFn)
      requires Valid()
      modifies this
      ensures Valid()
      ensures length == old(length) && this.counter == counter && fingerprinter == old(fingerprinter)
    {
      this.counter := counter;
    }

    /** `set_fingerprinter`. */
    method SetFingerprinter(fingerprinter: FingerprintFn)
      requires Valid()
      modifies this
      ensures Valid()
      ensures length == old(length) && counter == old(counter) && this.fingerprinter == fingerprinter
    {
      this.fingerprinter := fingerprinter;
    }

    /** The count a call uses: the thread's counter before the call, or
        the custom function's result. */
    function CountUsed(locals: ThreadLocals, customCount: nat): nat
      reads this, locals
    {
      if counter.GetCount? then locals.counter else customCount
    }

    /** The fingerprint a call uses. */
    function PrintUsed(locals: ThreadLocals, customPrint: string): string
      reads this, locals
    {
      if fingerprinter.GetFingerprint? then locals.fingerprint else customPrint
    }

    /** `create_id`: the timestamp first (a clock before the epoch panics
        before anything else happens), then entropy of the configured
        length, one call of the counter function, the fingerprint, the
        salted hash, a random first letter, and the cut to length. */
    method CreateId(locals: ThreadLocals, clock: Option<nat>, rand: Randomness, customCount: nat, customPrint: string, sha3: Digest)
      returns (r: Outcome<string>)
      requires Valid() && locals.Valid()
      requires clock.Some? ==> clock.value < Codec.U128_LIMIT
      requires customCount < U64_LIMIT
      requires RandomnessFits(rand, length)
      modifies locals
      ensures locals.Valid()
      ensures clock.None? ==> r == Panic(TIMESTAMP_PANIC) && locals.counter == old(locals.counter)
      ensures clock.Some? ==>
        r == IdFrom(STARTING_CHARS[rand.letter],
                    BodyOf(clock.value, Entropy(length, rand.entropy), old(CountUsed(locals, customCount)),
                           PrintUsed(locals, customPrint), Entropy(DEFAULT_LENGTH, rand.salt), sha3),
                    length)
      ensures clock.Some? ==>
        locals.counter == (if counter.GetCount? then NextCount(old(locals.counter), locals.counterInit)
                           else old(locals.counter))
    {
      if clock.None? {
        return Panic(TIMESTAMP_PANIC);
      }
      var time := CuidUtil.ToBase36(clock.value);
      var entropy := CreateEntropy(length, rand.entropy);
      var countValue := customCount;
      if counter.GetCount? {
        countValue := locals.GetCount();
      }
      var count := CuidUtil.ToBase36(countValue);
      var fingerprint := if fingerprinter.GetFingerprint? then locals.GetFingerprint() else customPrint;
      var body := Hash([AsBytes(time), AsBytes(entropy), AsBytes(count), AsBytes(fingerprint)],
                       DEFAULT_LENGTH, rand.salt, sha3);
      var firstLetter := STARTING_CHARS[rand.letter];
      var joined := [firstLetter] + body;
      if |joined| < length {
        return Panic(SLICE_PANIC);
      }
      r := Ok(joined[..length]);
    }
  }

  /** `create_id` and its alias `cuid`: a constructor with the default
      settings. */
  method CreateIdDefault(locals: ThreadLocals, clock: Option<nat>, rand: Randomness, sha3: Digest)
    returns (r: Outcome<string>)
    requires locals.Valid()
    requires clock.Some? ==> clock.value < Codec.U128_LIMIT
    requires RandomnessFits(rand, DEFAULT_LENGTH)
    modifies locals
    ensures locals.Valid()
    ensures clock.None? ==> r == Panic(TIMESTAMP_PANIC) && locals.counter == old(locals.counter)
    ensures clock.Some? ==>
      r == IdFrom(STARTING_CHARS[rand.letter],
                  BodyOf(clock.value, Entropy(DEFAULT_LENGTH, rand.entropy), old(locals.counter),
                         locals.fingerprint, Entropy(DEFAULT_LENGTH, rand.salt), sha3),
                  DEFAULT_LENGTH)
    ensures clock.Some? ==> locals.counter == NextCount(old(locals.counter), locals.counterInit)
  {
    var settings := new CuidConstructor();
    r := settings.CreateId(locals, clock, rand, 0, "", sha3);
  }

  /** The byte stream the digest of `create_id` reads: the four blocks,
      then the salt. */
  function BodyStream(millis: nat, entropy: string, count: nat, fingerprint: string, salt: string): seq<nat> {
    Flatten([AsBytes(Codec.Base36(millis)), AsBytes(entropy), AsBytes(Codec.Base36(count)), AsBytes(fingerprint)])
      + AsBytes(salt)
  }

  /** The digest of the stream one `create_id` call hashes is at least
      36^30, that is, has at least 31 base-36 digits. */
  predicate WideDigest(sha3: Digest, millis: nat, length: nat, count: nat, fingerprint: string, rand: Randomness)
    requires RandomnessFits(rand, length)
  {
    sha3(BodyStream(millis, Entropy(length, rand.entropy), count, fingerprint, Entropy(DEFAULT_LENGTH, rand.salt)))
      >= Codec.Pow(36, 30)
  }

  /** A digest of at least 36^30 gives a body of at least 31 characters. */
  lemma LongBody(millis: nat, entropy: string, count: nat, fingerprint: string, salt: string, sha3: Digest)
    requires sha3(BodyStream(millis, entropy, count, fingerprint, salt)) >= Codec.Pow(36, 30)
    ensures |BodyOf(millis, entropy, count, fingerprint, salt, sha3)| >= 31
  {
    BodyLongEnough(sha3(BodyStream(millis, entropy, count, fingerprint, salt)), 32);
  }

  /** One id from a constructor whose length is valid, when the digest of
      the stream it hashes has at least 31 base-36 digits: it has the
      configured length and passes `is_cuid2`. */
  method LongDigestId(settings: CuidConstructor, locals: ThreadLocals, millis: nat, rand: Randomness, sha3: Digest)
    returns (id: string)
    requires settings.Valid() && 2 <= settings.length <= BIG_LENGTH
    requires locals.Valid() && millis < Codec.U128_LIMIT
    requires RandomnessFits(rand, settings.length)
    requires WideDigest(sha3, millis, settings.length, settings.CountUsed(locals, 0), settings.PrintUsed(locals, ""), rand)
    modifies locals
    ensures locals.Valid()
    ensures locals.counter == (if settings.counter.GetCount? then NextCount(old(locals.counter), locals.counterInit)
                               else old(locals.counter))
    ensures |id| == settings.length && IsCuid2(id)
  {
    WideId(STARTING_CHARS[rand.letter], sha3, millis, settings.length, settings.CountUsed(locals, 0),
           settings.PrintUsed(locals, ""), rand);
    var r := settings.CreateId(locals, Some(millis), rand, 0, "", sha3);
    id := r.value;
  }

  /** The id one `create_id` call cuts, when the digest of its stream is
      wide: exactly `length` characters, accepted by `is_cuid2`. */
  lemma WideId(first: char, sha3: Digest, millis: nat, length: nat, count: nat, fingerprint: string, rand: Randomness)
    requires first in STARTING_CHARS && 2 <= length <= BIG_LENGTH && RandomnessFits(rand, length)
    requires WideDigest(sha3, millis, length, count, fingerprint, rand)
    ensures var r := IdFrom(first, BodyOf(millis, Entropy(length, rand.entropy), count, fingerprint,
                                          Entropy(DEFAULT_LENGTH, rand.salt), sha3),
                            length);
      r.Ok? && |r.value| == length && IsCuid2(r.value)
  {
    var entropy, salt := Entropy(length, rand.entropy), Entropy(DEFAULT_LENGTH, rand.salt);
    var body := BodyOf(millis, entropy, count, fingerprint, salt, sha3);
    LongBody(millis, entropy, count, fingerprint, salt, sha3);
    IdShape(first, body, length);
  }

  /** The constructor examples of the documentation: when the digest of
      each of the three hashed streams has at least 31 base-36 digits, a
      default constructor makes ids of 24
      characters, one set to length 16 makes ids of 16, and one built with
      length 32 makes ids of 32; each passes `is_cuid2`. */
  method ConstructorExamples(locals: ThreadLocals, millis: nat, rand: Randomness, sha3: Digest)
    returns (a: string, b: string, c: string)
    requires locals.Valid() && millis < Codec.U128_LIMIT
    requires RandomnessFits(rand, BIG_LENGTH)
    requires WideDigest(sha3, millis, DEFAULT_LENGTH, locals.counter, locals.fingerprint, rand)
    requires WideDigest(sha3, millis, 16, NextCount(locals.counter, locals.counterInit), locals.fingerprint, rand)
    requires WideDigest(sha3, millis, BIG_LENGTH,
                        NextCount(NextCount(locals.counter, locals.counterInit), locals.counterInit),
                        locals.fingerprint, rand)
    modifies locals
    ensures |a| == 24 && |b| == 16 && |c| == 32
    ensures IsCuid2(a) && IsCuid2(b) && IsCuid2(c)
  {
    var settings := new CuidConstructor();
    a := LongDigestId(settings, locals, millis, rand, sha3);
    settings.SetLength(16);
    b := LongDigestId(settings, locals, millis, rand, sha3);
    var defaults := new CuidConstructor();
    var big := defaults.WithLength(32);
    c := LongDigestId(big, locals, millis, rand, sha3);
  }
}
