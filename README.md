# cuid-rust in Dafny

A model of the core of cuid-rust, a library that generates CUIDs (collision-resistant ids). It covers the following parts:

- **Base-36 rendering and padding.** The tuned `to_base_36` of `cuid-util`, the older radix renderer of the top-level crate, and both copies of the pad-or-truncate helper are modelled. All of them are proved against one reference: canonical radix rendering (`Codec.Encode`), Horner decoding, and pad-or-truncate (`Codec.PadWithChar`).
- **Counters.**
  - The version-1 session counter: an atomic `u32` that cycles through the 36^4 values of one block.
  - The older mutex-guarded counter.
  - The per-thread `u64` counter of version 2, which rolls back to its random seed at `u64::MAX`.
- **Fingerprints.** All three copies of the host fingerprint are modelled. The host value is the name's length in UTF-8 bytes plus 36 plus the sum of its character codes, rendered in base 36 and cut to two characters. The process id is treated the same way.
- **Version 1** (`crates/cuid1/src/cuid1.rs`):
  - CUIDs: "c", the timestamp, the counter block, the fingerprint, and two random blocks.
  - Slugs of ten characters.
  - The one-off variants, which reseed the counter.
  - The validators.
  - The fingerprint is computed lazily, once.
- **Version 2** (`crates/cuid2/src/lib.rs`):
  - `is_cuid2`, modelled as written, including its operator-precedence slip.
  - The entropy loop.
  - The salted hash, with SHA3-512 as an input function.
  - The thread-local counter and fingerprint.
  - `CuidConstructor` with its builders and setters, and `create_id`.

State that the source updates in place is modelled by classes: the counters, the version-1 generator's statics, the version-2 thread-locals and the constructor. Loops are methods, each proved equal to a reference function. Panics are an outcome of their own: `Errors.Outcome` is `Ok`, `Err` (a `CuidError`) or `Panic`.

The environment is passed in as inputs:
- the clock: `None` before the Unix epoch;
- the host name: `None` when it cannot be read;
- the process id and the thread id;
- the random draws;
- the lock-poisoning flag of the mutex;
- the SHA3 digest.

Strings are sequences of Unicode code points. Where the source measures a `str` with `str::len`, it counts bytes, and the model counts the bytes of the UTF-8 encoding (`Utf8.ByteLen`). This applies to the host-name fold and to the length checks of `is_cuid`, `is_slug` and `is_cuid2`. Every string the library builds itself is ASCII, so for those strings bytes and characters agree.

A few statements in the source do not type-check against the rest of the same snapshot. These are modelled by what they evidently mean:
- `crates/cuid1/src/counter.rs:23` and `crates/cuid1/src/fingerprint.rs:9` pad the `Result` of `to_base_string`.
- `crates/cuid1/src/time.rs:14` maps it into a `String`.
- `src/fingerprint.rs:15` calls a missing `to_base_str`.
- `src/lib.rs:13` declares the counter an `AtomicUsize`, but `src/counter.rs` locks it as a mutex.
- `src/fingerprint.rs:33` builds `FingerprintError` without its message; the model uses an empty message.

## Model

| member | source | states |
|---|---|---|
| Codec.Encode | crates/cuid-util/src/lib.rs:14-65 | The canonical rendering of a number is non-empty and made of digits of the radix. It starts with '0' exactly when the number is zero. |
| Codec.DecodeEncode | crates/cuid-util/src/lib.rs:94-105 | Decoding the rendering of `n` gives back `n`. |
| Codec.EncodeDecode | crates/cuid-util/src/lib.rs:94-105 | Any digit string without a leading zero is the rendering of its own value. So the rendering is the unique canonical form that the proptest's reference formatters also produce. |
| Codec.EncodeInjective | crates/cuid-util/src/lib.rs:14-65 | Two numbers have the same rendering exactly when they are equal. |
| Codec.EncodeLength | crates/cuid-util/src/lib.rs:32-38 | A rendering of L digits satisfies radix^(L-1) <= n < radix^L. |
| Codec.EncodeLengthExactly | crates/cuid1/src/time.rs:27-32 | A number in [radix^(k-1), radix^k) has exactly k digits. |
| Codec.EncodeLengthAtMost | crates/cuid-util/src/lib.rs:32-38 | A number below radix^k has at most k digits. |
| Codec.PadWithChar | crates/cuid1/src/text.rs:10-35 | The result has exactly `size` characters. A longer input keeps its rightmost `size` characters. A shorter input is left-filled with the pad character and ends with the input. |
| Codec.PadIdempotent | crates/cuid1/src/text.rs:15-35 | Padding twice gives the same result as padding once. |
| Codec.DecodeLeadingZeros | crates/cuid1/src/text.rs:37-39 | Leading '0' padding does not change the value. |
| Codec.DecodeSuffix | crates/cuid1/src/text.rs:21-27 | The rightmost k digits denote the value modulo radix^k. |
| Codec.FixedWidthDecode | crates/cuid1/src/text.rs:15-39 | A k-character zero-padded base-36 field of `n` is a digit string denoting n mod 36^k. |
| Codec.LexLessIsNumeric | crates/cuid1/src/counter.rs:48-61 | For digit strings of equal length, string order is numeric order (both directions). |
| CuidUtil.ToBase36 | crates/cuid-util/src/lib.rs:14-65 | For every u128, the digit loop plus the in-place reversal returns exactly the canonical base-36 rendering, between 1 and 25 characters long. |
| CuidUtil.DigitLoopStep | crates/cuid-util/src/lib.rs:40-53 | One pass of the loop keeps this invariant: the full rendering is the rendering of what is left of the number, followed by the reversed buffer. The number strictly decreases. |
| CuidUtil.U128FitsCapacity | crates/cuid-util/src/lib.rs:32-38 | 2^128 < 36^25, so the 25-character capacity is enough. |
| CuidUtil.Base36Fits | crates/cuid-util/src/lib.rs:32-38 | Every u128 renders in at most 25 characters. |
| CuidOneText.ToBaseString | crates/cuid1/src/text.rs:6-8 | Always `Ok`, holding the base-36 rendering. |
| CuidOneText.PadWithChar | crates/cuid1/src/text.rs:15-35 | The three-way length comparison gives the reference pad-or-truncate. |
| CuidOneText.Pad | crates/cuid1/src/text.rs:37-39 | Pad-or-truncate with '0'. |
| CuidOneText.PadExamples | crates/cuid1/src/text.rs:45-68 | The pad tests: "foo", "afoo", "aaafoo", "c" and "00foo". |
| LegacyText.FromDigit | src/text.rs:19-21 | For a radix up to 36, there is a character exactly when the digit is below the radix. That character is a digit of the radix and has that value. |
| LegacyText.ToRadixString | src/text.rs:13-37 | Radix 2 to 36: `Ok` with the canonical rendering, so it never returns "Bad digit" or "Input number too large". A radix above 36 panics. Radix 0 gives "" for zero and panics otherwise. |
| LegacyText.DigitLoop | src/text.rs:27-36 | The push-and-divide loop, read back in reverse, yields the canonical rendering. A radix above 36 panics. |
| LegacyText.ToBaseString | src/text.rs:40-42 | `Ok`, holding the base-36 rendering. |
| LegacyText.PadWithChar | src/text.rs:45-60 | The early returns plus the fill loop give the reference pad-or-truncate. |
| LegacyText.Pad | src/text.rs:63-65 | Pad-or-truncate with '0'. |
| LegacyText.RadixExamples | src/text.rs:114-137 | The radix tests: "8", "a", "10", "16i" and "7cik2". |
| CuidOneCounter.DiscreteValuesIsBlockCapacity | crates/cuid1/src/cuid1.rs:221-224 | 36^4 = 1679616. |
| CuidOneCounter.Next | crates/cuid1/src/counter.rs:9-19 | The update handed to `fetch_update`. The result is zero exactly at the last block value (or at u32::MAX after a wrap). Otherwise it is the successor. |
| CuidOneCounter.NextStaysInBlock | crates/cuid1/src/counter.rs:6-19 | Inside the block range, the counter steps modulo 36^4 and never leaves the range. |
| CuidOneCounter.Block | crates/cuid1/src/counter.rs:22-24 | The counter block always has four characters, all base-36 digits. |
| CuidOneCounter.BlockDecodes | crates/cuid1/src/counter.rs:22-24 | Every value below 36^4 is recovered from its block. |
| CuidOneCounter.BlockOrder | crates/cuid1/src/counter.rs:48-61 | Blocks order as strings exactly as their values order, including where the rendering gains a digit. |
| CuidOneCounter.BlockInjective | crates/cuid1/src/counter.rs:22-24 | Distinct values in the block range have distinct blocks. |
| CuidOneCounter.AtomicCounter.constructor | crates/cuid1/src/cuid1.rs:18 | The counter starts at 0. |
| CuidOneCounter.AtomicCounter.Store | crates/cuid1/src/cuid1.rs:74-75 | `store` overwrites the value with any u32. |
| CuidOneCounter.AtomicCounter.FetchAndIncrement | crates/cuid1/src/counter.rs:9-19 | Returns the old value and leaves `Next(old)`. |
| CuidOneCounter.AtomicCounter.Current | crates/cuid1/src/counter.rs:22-24 | Returns the block of the value fetched, and leaves `Next(old)`. |
| CuidOneCounter.CountFromZero | crates/cuid1/src/counter.rs:33-46 | Three fetches from zero return strictly increasing values, starting at 0. |
| CuidOneCounter.RollOver | crates/cuid1/src/counter.rs:63-74 | After the last block value, the next fetch is below it. |
| CuidOneCounter.OrderedAcrossDigitCount | crates/cuid1/src/counter.rs:48-61 | Starting from 35, the second block sorts after the first. |
| LegacyCounter.DiscreteValuesIsBlockCapacity | src/lib.rs:24-30 | 36^4 = 1679616. |
| LegacyCounter.Step | src/counter.rs:11-16 | The last value resets to zero; any other value is incremented. The value stays below 36^4. |
| LegacyCounter.CurrentTextLength | src/counter.rs:21-24 | The unpadded rendering has 1 to 4 digits and decodes back to the value. |
| LegacyCounter.UnpaddedOrderBreaks | src/counter.rs:21-24 | Without padding, 35 gives "z" and 36 gives "10", and "z" does not sort before "10". |
| LegacyCounter.MutexCounter.constructor | src/lib.rs:13 | The counter starts at 0. |
| LegacyCounter.MutexCounter.Set | src/counter.rs:50-54 | Writing through the lock sets the value. |
| LegacyCounter.MutexCounter.FetchAndIncrement | src/counter.rs:9-18 | A poisoned lock returns `CounterError` and changes nothing. Otherwise it returns `Ok(old)` and leaves `Step(old)`. |
| LegacyCounter.MutexCounter.Current | src/counter.rs:22-24 | Passes the lock error through. Otherwise it returns `Ok` with the unpadded base-36 rendering of the old value and steps the counter. |
| LegacyCounter.CountFromZero | src/counter.rs:31-46 | Three fetches from zero return strictly increasing values. |
| LegacyCounter.RollOver | src/counter.rs:48-61 | After the last value, the next fetch is below it. |
| Hostname.CharCodeSumAppend | crates/cuid1/src/fingerprint.rs:22-23 | The code sum of a concatenation is the sum of the code sums. |
| Hostname.FoldIsSum | crates/cuid1/src/fingerprint.rs:22-23 | The left fold adds every character code to its seed. |
| Utf8.ByteLenBounds | crates/cuid2/src/lib.rs:187 | `str::len` is at least the number of characters and at most four times it. It equals the number of characters exactly when the string is ASCII. |
| Hostname.HostValue | crates/cuid1/src/fingerprint.rs:12-23 | The host value is the name's length in UTF-8 bytes (`hn.len()`) plus 36 plus the sum of its character codes. |
| Hostname.AsciiHostValue | crates/cuid1/src/fingerprint.rs:22-23 | For an ASCII name the length term is the number of characters. |
| Hostname.HostBlockAccented | crates/cuid1/src/fingerprint.rs:22-25 | "é" is one character of code 233 but two bytes, so its value is 271 and its block is "7j". |
| Hostname.HostBlock | crates/cuid1/src/fingerprint.rs:18-26 | The host block has two characters. |
| Hostname.PidBlock | crates/cuid1/src/fingerprint.rs:8-10 | The process block has two characters. |
| Hostname.BlockKeepsLowDigits | crates/cuid1/src/fingerprint.rs:8-26 | Both blocks are base-36 digit strings denoting their number modulo 36^2. |
| Hostname.HostBlockFoo | crates/cuid1/src/fingerprint.rs:64-67 | "foo" gives "a3". |
| Hostname.HostBlockBar | crates/cuid1/src/fingerprint.rs:69-72 | "bar" gives "9o". |
| Hostname.HostBlockMrMagoo | crates/cuid1/src/fingerprint.rs:74-77 | "mr-magoo" gives "nf". |
| Hostname.HostBlockLongName | crates/cuid1/src/fingerprint.rs:79-85 | "wow-what-a-long-hostname-you-have" gives "j9": the value 3285 renders as "2j9", which is cut to two characters. |
| CuidOneHostFingerprint.Pid | crates/cuid1/src/fingerprint.rs:8-10 | The process block. |
| CuidOneHostFingerprint.ConvertHostname | crates/cuid1/src/fingerprint.rs:18-26 | The host block of the name. |
| CuidOneHostFingerprint.HostId | crates/cuid1/src/fingerprint.rs:28-42 | The host block of the host name, or of the UUID when there is none. |
| CuidOneHostFingerprint.Fingerprint | crates/cuid1/src/fingerprint.rs:44-49 | The host block followed by the process block: four base-36 characters. |
| CuidOneFingerprint.Pid | crates/cuid1/src/cuid1/fingerprint.rs:9-13 | `Ok` with the process block. The "Could not encode pid" error is never produced. |
| CuidOneFingerprint.ConvertHostname | crates/cuid1/src/cuid1/fingerprint.rs:21-27 | `Ok` with the host block. |
| CuidOneFingerprint.HostId | crates/cuid1/src/cuid1/fingerprint.rs:29-32 | An unreadable host name gives `IOError`; otherwise `Ok` with the host block. |
| CuidOneFingerprint.Fingerprint | crates/cuid1/src/cuid1/fingerprint.rs:34-39 | `IOError` without a host name. Otherwise `Ok` with the host block followed by the process block: four base-36 characters. |
| LegacyFingerprint.Pid | src/fingerprint.rs:14-16 | The process block. |
| LegacyFingerprint.ConvertHostname | src/fingerprint.rs:19-34 | No name gives `FingerprintError`; otherwise `Ok` with the host block. |
| LegacyFingerprint.HostId | src/fingerprint.rs:37-39 | Same outcome as `convert_hostname` on the host's name. |
| LegacyFingerprint.Fingerprint | src/fingerprint.rs:42-44 | The process block followed by the host block: four base-36 characters. The error is passed through. |
| LegacyFingerprint.OrderMatters | src/fingerprint.rs:42-44 | Process-first and host-first fingerprints agree exactly when the two blocks are equal. |
| CuidOne.Timestamp | crates/cuid1/src/time.rs:9-20 | From the epoch on, the base-36 milliseconds. A clock before the epoch panics. |
| CuidOne.RandomBlock | crates/cuid1/src/cuid1/random.rs:15-21 | A four-character block that decodes back to the draw. |
| CuidOne.Force | crates/cuid1/src/cuid1.rs:20-21 | The lazy static. A stored value is returned unchanged. The first access succeeds exactly when the host name is readable, and then stores the host block followed by the process block. A failure panics and poisons the static. |
| CuidOne.ForceOnce | crates/cuid1/src/cuid1.rs:20-21 | After a successful access, every later access returns the same fingerprint, whatever the environment then says. After a panic, later accesses panic too. |
| CuidOne.SaturatingSub | crates/cuid1/src/cuid1.rs:94 | `saturating_sub`: the difference, or 0 when it would be negative. |
| CuidOne.SlugFrom | crates/cuid1/src/cuid1.rs:88-100 | A slug exists exactly when the timestamp has at least two characters; otherwise the slicing panics. |
| CuidOne.TimestampHasTwoDigits | crates/cuid1/src/cuid1.rs:93 | The timestamp has two or more characters exactly from 36 ms on. |
| CuidOne.TimestampLength | crates/cuid1/src/time.rs:27-32 | Between 36^7 and 36^8 ms (1972 to 2059), the timestamp has 8 characters. |
| CuidOne.CuidLength | crates/cuid1/tests/cuid1/length.rs:5-16 | A CUID has 17 characters plus the timestamp, which makes 25 until 2059. |
| CuidOne.CuidIsBase36 | crates/cuid1/src/cuid1.rs:31-41 | A CUID built with a base-36 fingerprint is a base-36 string, so its byte length is its character count. |
| CuidOne.GeneratedIsCuid1 | crates/cuid1/src/cuid1.rs:158-171 | With a base-36 fingerprint, as every fingerprint module produces, a generated CUID passes `is_cuid1` exactly when the clock is in [36^7, 36^9) ms. |
| CuidOne.CuidParts | crates/cuid1/src/cuid1.rs:31-41 | Every field of a CUID can be read back at its position: the timestamp, the counter modulo 36^4, the fingerprint, and both draws. |
| CuidOne.SlugShape | crates/cuid1/src/cuid1.rs:88-100 | With a base-36 fingerprint and from 36 ms on, a slug has ten characters (ten bytes), passes `is_cuid1_slug`, and carries the whole counter block at positions 2 to 5. |
| CuidOne.ValidatorsCountBytes | crates/cuid1/src/cuid1.rs:158-200 | The validators count bytes. Ten 'é's are 20 bytes, so they are not a slug. "c" followed by twelve 'é's is 13 characters but 25 bytes, so it passes `is_cuid1`. |
| CuidOne.IsCuid1Examples | crates/cuid1/src/cuid1.rs:158-171 | `is_cuid1` checks only the length and the leading "c". So "c" followed by 24 '#' passes, while "" and 27 'c's fail. |
| CuidOne.Generator.constructor | crates/cuid1/src/cuid1.rs:18-21 | At start the counter is 0 and the fingerprint has not been computed. |
| CuidOne.Generator.ForceFingerprint | crates/cuid1/src/cuid1.rs:20-21 | Dereferencing the static updates it as `Force` says. |
| CuidOne.Generator.Cuid | crates/cuid1/src/cuid1.rs:31-41 | A clock panic leaves all state alone. Otherwise the counter has advanced, and the fingerprint is forced after that. The result is the CUID of the old counter and the forced fingerprint, or the fingerprint's panic. |
| CuidOne.Generator.Cuid1 | crates/cuid1/src/cuid1.rs:62-65 | Same as `cuid`. |
| CuidOne.Generator.OneOffCuid1 | crates/cuid1/src/cuid1.rs:73-77 | The counter is reseeded with any u32, and the CUID is built from that seed. |
| CuidOne.Generator.Slug | crates/cuid1/src/cuid1.rs:88-100 | The counter advances before the slicing. A one-character timestamp panics before the fingerprint is forced. Otherwise the result is the slug of the parts, or the fingerprint's panic. |
| CuidOne.Generator.Cuid1Slug | crates/cuid1/src/cuid1.rs:132-135 | Same as `slug`. |
| CuidOne.Generator.OneOffCuid1Slug | crates/cuid1/src/cuid1.rs:143-147 | The counter is reseeded, then a slug is made. |
| CuidOne.GeneratedIsValid | crates/cuid1/src/cuid1.rs:226-249 | The library tests: on a readable host, a fresh generator's CUID has 25 characters and passes `is_cuid1`, and its slug has 10 characters and passes `is_cuid1_slug`. |
| CuidTwo.TailFoldMeaning | crates/cuid2/src/lib.rs:190-192 | The fold as written accepts a tail exactly when every character other than a lowercase letter or a digit is followed later by a digit. (With a false seed, the tail must also hold a non-lowercase character.) |
| CuidTwo.IsCuid2Accepts | crates/cuid2/src/lib.rs:184-196 | `is_cuid2` as written: 2 to 32 bytes (`str::len`), a first letter from a to z, and a tail that passes the fold as characterised above. |
| CuidTwo.IsCuid2CountsBytes | crates/cuid2/src/lib.rs:184-196 | "a", 29 'b's, 'é' and "1" is 32 characters and its tail passes the fold, but it is 33 bytes, so `is_cuid2` rejects it. |
| CuidTwo.IntendedFoldMeaning | crates/cuid2/src/lib.rs:190-192 | The intended fold accepts exactly tails of lowercase letters and digits (with a true seed). |
| CuidTwo.IntendedIsStricter | crates/cuid2/src/lib.rs:184-196 | The intended check accepts exactly what the written check accepts among strings whose tail has no other characters. |
| CuidTwo.DigitResetsFold | crates/cuid2/src/lib.rs:190-192 | "a#1" passes `is_cuid2` as written; the intended check rejects it. |
| CuidTwo.IsCuid2RejectsLength | crates/cuid2/src/lib.rs:173-180 | "", "a" and the 130-character example are rejected. |
| CuidTwo.IsCuid2RejectsSymbol | crates/cuid2/src/lib.rs:176-181 | "a#" is rejected by both checks. |
| CuidTwo.DrawWidth | crates/cuid2/src/lib.rs:203-210 | Every draw below one of the primes renders as 1 to 4 characters. |
| CuidTwo.Entropy | crates/cuid2/src/lib.rs:199-222 | The entropy has between `length` and `length + 3` characters, all of them base-36 digits. |
| CuidTwo.EntropyExamples | crates/cuid2/src/lib.rs:213-219 | Length 0 gives ""; length 1 gives exactly the first draw's rendering. |
| CuidTwo.CreateEntropy | crates/cuid2/src/lib.rs:199-222 | The `while` loop returns exactly the entropy specification. |
| CuidTwo.EntropyStep | crates/cuid2/src/lib.rs:213-219 | One append keeps the loop invariant: what has been built, followed by the rest of the specification, is the specification. |
| CuidTwo.EntropyUnfold | crates/cuid2/src/lib.rs:213-219 | The first draw either completes the entropy or is followed by the entropy of the remaining length. |
| CuidTwo.FlattenAppend | crates/cuid2/src/lib.rs:141-144 | Absorbing the blocks of a + b equals absorbing those of a, then those of b. |
| CuidTwo.HashOf | crates/cuid2/src/lib.rs:137-164 | The hash is a non-empty base-36 string. |
| CuidTwo.HashSeesStream | crates/cuid2/src/lib.rs:141-144 | Only the byte stream counts: cutting it into blocks differently gives the same hash. |
| CuidTwo.Hash | crates/cuid2/src/lib.rs:137-164 | The update loop and the salt give the base-36 digest of the blocks followed by fresh entropy of the given length. |
| CuidTwo.BigEndian | crates/cuid2/src/lib.rs:123-125 | `to_be_bytes` gives k bytes, each below 256. |
| CuidTwo.BigEndianRoundTrip | crates/cuid2/src/lib.rs:123-125 | The bytes read back give the number modulo 256^k. |
| CuidTwo.U64RoundTrip | crates/cuid2/src/lib.rs:123-125 | A u64 is recovered from its eight bytes. |
| CuidTwo.NextCount | crates/cuid2/src/lib.rs:246-256 | The counter increments while it stays below u64::MAX; at u64::MAX it returns to the thread's initial value. |
| CuidTwo.CountCycle | crates/cuid2/src/lib.rs:94-102 | The counter never drops below its initial value. It grows exactly when it does not roll over, and any decrease lands below 2057. |
| CuidTwo.ThreadLocals.constructor | crates/cuid2/src/lib.rs:94-128 | The counter starts at `COUNTER_INIT` < 2057. The fingerprint is the hash of three 8-byte big-endian blocks (the draw, the pid, the thread id) under a 32-character salt. |
| CuidTwo.ThreadLocals.GetCount | crates/cuid2/src/lib.rs:246-256 | Returns the value before the call and leaves `NextCount` of it. |
| CuidTwo.ThreadLocals.GetFingerprint | crates/cuid2/src/lib.rs:259-261 | The fingerprint is a non-empty base-36 string. |
| CuidTwo.CounterIncrements | crates/cuid2/src/lib.rs:402-409 | On a fresh thread, two calls give `init` and then `init + 1`. |
| CuidTwo.IdFrom | crates/cuid2/src/lib.rs:365-366 | The cut succeeds exactly when `length <= 1 + |body|` and then gives exactly `length` characters: the first letter followed by the body's prefix. Otherwise it panics. |
| CuidTwo.BodyOf | crates/cuid2/src/lib.rs:348-356 | The body is a non-empty base-36 string. |
| CuidTwo.IdShape | crates/cuid2/src/lib.rs:358-366 | An id of length 2 to 32 passes `is_cuid2` (both as written and as intended). An id of any other length fails it. |
| CuidTwo.BodyLongEnough | crates/cuid2/src/lib.rs:348-366 | A digest of at least 36^(length-2) makes the cut succeed. |
| CuidTwo.CuidConstructor.constructor | crates/cuid2/src/lib.rs:296-302 | The defaults: length 24, `get_count` and `get_fingerprint`. |
| CuidTwo.CuidConstructor.Of | crates/cuid2/src/lib.rs:297-301 | The struct literal sets the three fields. |
| CuidTwo.CuidConstructor.WithLength | crates/cuid2/src/lib.rs:305-307 | A new constructor that differs only in its length. |
| CuidTwo.CuidConstructor.WithCounter | crates/cuid2/src/lib.rs:310-312 | A new constructor that differs only in its counter. |
| CuidTwo.CuidConstructor.WithFingerprinter | crates/cuid2/src/lib.rs:315-320 | A new constructor that differs only in its fingerprinter. |
| CuidTwo.CuidConstructor.SetLength | crates/cuid2/src/lib.rs:323-325 | Only the length changes. |
| CuidTwo.CuidConstructor.SetCounter | crates/cuid2/src/lib.rs:328-330 | Only the counter changes. |
| CuidTwo.CuidConstructor.SetFingerprinter | crates/cuid2/src/lib.rs:333-335 | Only the fingerprinter changes. |
| CuidTwo.CuidConstructor.CreateId | crates/cuid2/src/lib.rs:339-367 | A clock panic comes first and changes nothing. Otherwise the result is the cut of a random first letter followed by the salted hash of the timestamp, the entropy of the configured length, the count and the fingerprint. The thread counter advances once, and only when it is the counter in use. |
| CuidTwo.CreateIdDefault | crates/cuid2/src/lib.rs:378-394 | `create_id` and `cuid` use the default settings: 24 characters, the thread's counter and its fingerprint. |
| CuidTwo.LongBody | crates/cuid2/src/lib.rs:348-356 | When the digest of the hashed stream is at least 36^30, the body has at least 31 characters. |
| CuidTwo.WideId | crates/cuid2/src/lib.rs:358-366 | When the digest of the stream one call hashes is at least 36^30, the id cut for a length from 2 to 32 has exactly that length and passes `is_cuid2`. |
| CuidTwo.LongDigestId | crates/cuid2/src/lib.rs:282-287 | When the digest of the stream the call hashes is at least 36^30, a constructor of length 2 to 32 makes an id of exactly that length that passes `is_cuid2`. The thread counter advances as in `create_id`. |
| CuidTwo.ConstructorExamples | crates/cuid2/src/lib.rs:278-287 | The documented lengths 24, 16 (after `set_length`) and 32 (after `with_length`), each passing `is_cuid2`. This assumes only that the digests of the three streams hashed, at the three successive counter values, are at least 36^30. |

## Left out

- Concurrency is not modelled. This covers the atomics' memory orderings, the mutex and the thread-locals shared across threads. Each call is modelled as one atomic step.
- Hostname, pid, thread id, clock and random number generator are inputs rather than operating-system calls. This covers `hostname::get` and `process::id`, `SystemTime::now` and `thread_rng`.
- The floating-point step of version 1's `random_block` is not modelled. The draw is the integer `(f * DISCRETE_VALUES) as u64`, taken as an input below 36^4.
- SHA3-512 and `BigUint::from_bytes_be` are abstracted as one input function from byte streams to numbers. `BigUint::to_str_radix(36)` is modelled as the canonical base-36 rendering.
- Hash input bytes: `as_bytes` is modelled as one byte per character. This is exact for the ASCII strings the library hashes. A custom fingerprinter's non-ASCII string would be UTF-8 encoded in the source.
- Thread ids come from `DefaultHasher`, whose value is taken as an input.
- `digits_in_base` (src/text.rs:8-10) is left out: it only sizes a vector's capacity, computed with floating point.
- The `ToBase36` trait (crates/cuid-util/src/lib.rs:67-80) is left out: it only forwards to `to_base_36`.
- The in-place reversal of the byte buffer is modelled on values: the model reverses a sequence of characters.
- LegacyText.ToRadixString: radix 1 is excluded. For a nonzero number, the loop divides by one forever. For zero, the result depends on the Rust version's `char::from_digit`.
- CuidOneHostFingerprint.ConvertHostname, CuidOneFingerprint.ConvertHostname, LegacyFingerprint.ConvertHostname: these require the host value to fit in 64 bits. A `usize` overflow or truncation of the fold on absurdly long names is not modelled.
- CuidOneCounter.Next: the increment past `u32::MAX` is modelled as the release-build wrap to zero; a debug build panics there. It is reachable only after `one_off_cuid1` stores a value near `u32::MAX`.
- Byte slicing on non-ASCII strings: `is_cuid` and `is_cuid2` slice `[..1]` in bytes, which panics when the first character takes more than one byte. The model's `CuidOne.IsCuid` and `CuidTwo.IsCuid2` answer false there, because the first character is then not 'c' or a letter a to z. The slicing in `slug` and `create_id` only ever sees ASCII strings the library built.
- The wasm `host_id` (crates/cuid1/src/fingerprint.rs:28-33) always uses the UUID. It is the `hostname == None` case of `CuidOneHostFingerprint.HostId`.
- Lazy poisoning message: the message seen by later accesses to a poisoned `Lazy` is once_cell's, and is modelled as a fixed string.
- Custom counter and fingerprinter functions are told apart by a name. Their result on each call is an input, so any side effects of their own are not modelled.
- CuidTwo.CuidConstructor.CreateId does not cap the length: constructors may be configured to lengths from 0 to 65535. Lengths 0 and 1 and lengths over 32 are generated (when the body is long enough) but rejected by `is_cuid2`. This follows the code; a reading of the documentation as promising lengths 2 to 32 does not hold.
- The command-line binaries, benchmarks and the statistical collision and distribution tests are left out: they add no behaviour to model.

## Findings

| source | as written | input that shows it | evidently intended | confidence | as-written member | corrected member |
|---|---|---|---|---|---|---|
| crates/cuid2/src/lib.rs:190-192 | The fold step `acc && lower || digit` groups as `(acc && lower) \|\| digit`, so a later digit resets an accumulator that had already failed. | "a#1": the '#' makes the accumulator false, then '1' makes it true again, so `is_cuid2` accepts the string. | `acc && (lower \|\| digit)`: every character after the first is a lowercase letter or a digit. | high; not executed | CuidTwo.DigitResetsFold | CuidTwo.IntendedIsStricter |
