/** crates/cuid1/src/cuid1.rs: version-1 CUIDs and slugs. A CUID is "c",
    the base-36 timestamp, the counter block, the fingerprint and two random
    blocks; a slug keeps two characters of the timestamp, the counter block,
    two characters of the fingerprint and two of a random block.

    The clock (`None` when it reads before the Unix epoch), the host name
    (`None` when it cannot be read), the process id and the random draws are
    inputs. A random draw is the integer `(f * DISCRETE_VALUES) as u64` for
    the random float `f` in [0, 1). */
module CuidOne {
  import Codec
  import CuidOneText
  import CuidOneCounter
  import CuidOneFingerprint
  import Hostname
  import Utf8
  import opened Errors

  const BLOCK_SIZE: nat := 4
  const DISCRETE_VALUES: nat := 1679616
  const START_STR: string := "c"

  /** Length of the fingerprint: two host characters and two process
      characters. */
  const FINGERPRINT_LENGTH: nat := 4

  const TIMESTAMP_PANIC: string := "Failed to calculate system timestamp!"
  const FINGERPRINT_PANIC: string := "Could not determine system fingerprint!"
  const POISONED_PANIC: string := "Lazy instance has previously been poisoned"
  /** The panic of `timestamp[timestamp.len() - 2..]` on a one-character
      timestamp in a release build; a debug build panics one step earlier,
      with "attempt to subtract with overflow" at `timestamp.len() - 2`. */
  const SLICE_PANIC: string := "slice index starts after the end of the string"

  /** What the generator needs from the environment to compute the
      fingerprint. */
  predicate HostFits(hostname: Option<string>, pid: nat) {
    (hostname.Some? ==> Hostname.HostValue(hostname.value) < CuidOneFingerprint.U64_LIMIT)
    && pid < CuidOneFingerprint.U32_LIMIT
  }

  // ---------------------------------------------------------------------
  // Blocks

  /** `time::timestamp`: the milliseconds since the epoch in base 36; a clock
      before the epoch panics. */
  method Timestamp(clock: Option<nat>) returns (r: Outcome<string>)
    requires clock.Some? ==> clock.value < Codec.U128_LIMIT
    ensures clock.None? ==> r == Panic(TIMESTAMP_PANIC)
    ensures clock.Some? ==> r == Ok(Codec.Base36(clock.value))
  {
    if clock.None? {
      return Panic(TIMESTAMP_PANIC);
    }
    var text := CuidOneText.ToBaseString(clock.value);
    r := Ok(text.value);
  }

  /** `random::random_block`: the draw in base 36, padded to a block. */
  method RandomBlock(draw: nat) returns (r: Outcome<string>)
    requires draw < DISCRETE_VALUES
    ensures r.Ok? && r.value == CuidOneCounter.Block(draw)
    ensures Codec.IsDigitString(36, r.value) && Codec.Decode(36, r.value) == draw
  {
    var text := CuidOneText.ToBaseString(draw);
    r := Ok(CuidOneText.Pad(BLOCK_SIZE, text.value));
    CuidOneCounter.BlockDecodes(draw);
  }

  // ---------------------------------------------------------------------
  // The lazily computed fingerprint

  /** The `FINGERPRINT` static: not yet computed, computed, or poisoned by a
      panic during its computation. */
  datatype LazyFingerprint = Uninit | Ready(value: string) | Poisoned

  /** A computed fingerprint has the shape every fingerprint has. */
  predicate WellFormed(f: LazyFingerprint) {
    f.Ready? ==> |f.value| == FINGERPRINT_LENGTH && Codec.IsDigitString(36, f.value)
  }

  /** Dereferencing the static: the first access computes the fingerprint
      and panics when that fails (`expect`); later accesses see the stored
      value or the poison again. */
  function Force(f: LazyFingerprint, hostname: Option<string>, pid: nat): (r: (LazyFingerprint, Outcome<string>))
    requires HostFits(hostname, pid)
    ensures f.Ready? ==> r == (f, Ok(f.value))
    ensures f.Uninit? ==> (r.1.Ok? <==> hostname.Some?)
    ensures f.Uninit? && hostname.Some? ==>
      r.1 == Ok(Hostname.HostBlock(hostname.value) + Hostname.PidBlock(pid))
    ensures r.1.Ok? ==> r.0 == Ready(r.1.value)
    ensures !r.1.Ok? ==> r == (Poisoned, r.1) && r.1.Panic?
    ensures WellFormed(f) ==> WellFormed(r.0)
  {
    match f
    case Ready(s) => (f, Ok(s))
    case Poisoned => (Poisoned, Panic(POISONED_PANIC))
    case Uninit =>
      if hostname.None? then (Poisoned, Panic(FINGERPRINT_PANIC))
      else
        Hostname.BlockKeepsLowDigits(hostname.value, pid);
        var s := Hostname.HostBlock(hostname.value) + Hostname.PidBlock(pid);
        (Ready(s), Ok(s))
  }

  /** The fingerprint is computed at most once: after an access that
      succeeded, every later access returns the same string whatever the
      environment then says; after one that panicked, every later access
      panics. */
  lemma ForceOnce(f: LazyFingerprint, h1: Option<string>, p1: nat, h2: Option<string>, p2: nat)
    requires HostFits(h1, p1) && HostFits(h2, p2)
    ensures Force(f, h1, p1).1.Ok? ==> Force(Force(f, h1, p1).0, h2, p2) == Force(f, h1, p1)
    ensures !Force(f, h1, p1).1.Ok? ==> Force(Force(f, h1, p1).0, h2, p2).1.Panic?
  {
  }

  // ---------------------------------------------------------------------
  // Pure composition

  /** The CUID made of the given parts, as concatenated by `cuid`. */
  function CuidFrom(millis: nat, count: nat, fp: string, draw1: nat, draw2: nat): string {
    START_STR + Codec.Base36(millis) + CuidOneCounter.Block(count) + fp
      + CuidOneCounter.Block(draw1) + CuidOneCounter.Block(draw2)
  }

  /** `len.saturating_sub(k)`. */
  function SaturatingSub(a: nat, b: nat): (r: nat)
    ensures r <= a
    ensures b <= a ==> r + b == a
    ensures b > a ==> r == 0
  {
    if b <= a then a - b else 0
  }

  /** The slug made of the given parts, as sliced and concatenated by
      `slug`. Slicing the last two timestamp characters panics when the
      timestamp is a single character. */
  function SlugFrom(millis: nat, count: nat, fp: string, draw: nat): (r: Outcome<string>)
    requires |fp| == FINGERPRINT_LENGTH
    ensures r.Ok? <==> |Codec.Base36(millis)| >= 2
    ensures !r.Ok? ==> r == Panic(SLICE_PANIC)
  {
    var ts, c, rnd := Codec.Base36(millis), CuidOneCounter.Block(count), CuidOneCounter.Block(draw);
    if |ts| < 2 then Panic(SLICE_PANIC)
    else Ok(ts[|ts| - 2..] + c[SaturatingSub(|c|, 4)..] + fp[..1] + fp[|fp| - 1..] + rnd[|rnd| - 2..])
  }

  // ---------------------------------------------------------------------
  // Validators

  /** `is_cuid`: 25 or 26 bytes (`str::len`) beginning with "c". */
  predicate IsCuid(s: string) {
    25 <= Utf8.ByteLen(s) <= 26 && |s| >= 1 && s[..1] == START_STR
  }

  /** `is_cuid1`. */
  predicate IsCuid1(s: string) {
    IsCuid(s)
  }

  /** `is_slug`: exactly ten bytes (`str::len`). */
  predicate IsSlug(s: string) {
    Utf8.ByteLen(s) == 10
  }

  /** `is_cuid1_slug`. */
  predicate IsCuid1Slug(s: string) {
    IsSlug(s)
  }

  // ---------------------------------------------------------------------
  // Properties of the composition

  /** The timestamp has two or more characters exactly from 36 ms on. */
  lemma TimestampHasTwoDigits(millis: nat)
    ensures |Codec.Base36(millis)| >= 2 <==> millis >= 36
  {
    if millis >= 36 {
      Codec.EncodeSplit(36, millis);
    } else {
      Codec.EncodeLengthAtMost(36, millis, 1);
    }
  }

  /** From 36^7 ms (1972) up to 36^8 ms (2059) the timestamp has eight
      characters, as the timestamp test expects. */
  lemma TimestampLength(millis: nat)
    requires Codec.Pow(36, 7) <= millis < Codec.Pow(36, 8)
    ensures |Codec.Base36(millis)| == 8
  {
    Codec.EncodeLengthExactly(36, millis, 8);
  }

  /** A CUID made with a base-36 fingerprint is a base-36 string ("c" is a
      base-36 digit), so it has as many bytes as characters. */
  lemma CuidIsBase36(millis: nat, count: nat, fp: string, draw1: nat, draw2: nat)
    requires Codec.IsDigitString(36, fp)
    ensures Codec.IsDigitString(36, CuidFrom(millis, count, fp, draw1, draw2))
    ensures Utf8.ByteLen(CuidFrom(millis, count, fp, draw1, draw2)) == |CuidFrom(millis, count, fp, draw1, draw2)|
  {
    var s := CuidFrom(millis, count, fp, draw1, draw2);
    var ts, c := Codec.Base36(millis), CuidOneCounter.Block(count);
    var b1, b2 := CuidOneCounter.Block(draw1), CuidOneCounter.Block(draw2);
    assert s == START_STR + ts + c + fp + b1 + b2;
    assert Codec.IsDigitString(36, s);
    Utf8.Base36ByteLen(s);
  }

  /** A CUID is seventeen characters plus the timestamp; while the timestamp
      has eight characters a CUID has 25, as the length tests expect. */
  lemma CuidLength(millis: nat, count: nat, fp: string, draw1: nat, draw2: nat)
    requires |fp| == FINGERPRINT_LENGTH
    ensures |CuidFrom(millis, count, fp, draw1, draw2)| == 17 + |Codec.Base36(millis)|
    ensures Codec.Pow(36, 7) <= millis < Codec.Pow(36, 8) ==> |CuidFrom(millis, count, fp, draw1, draw2)| == 25
  {
    if Codec.Pow(36, 7) <= millis < Codec.Pow(36, 8) {
      TimestampLength(millis);
    }
  }

  /** Every CUID generated between 36^7 ms and 36^9 ms (the year 5188)
      passes `is_cuid1`, and outside that range none does. */
  lemma GeneratedIsCuid1(millis: nat, count: nat, fp: string, draw1: nat, draw2: nat)
    requires |fp| == FINGERPRINT_LENGTH && Codec.IsDigitString(36, fp)
    ensures IsCuid1(CuidFrom(millis, count, fp, draw1, draw2)) <==> Codec.Pow(36, 7) <= millis < Codec.Pow(36, 9)
  {
    var s := CuidFrom(millis, count, fp, draw1, draw2);
    var k := |Codec.Base36(millis)|;
    CuidLength(millis, count, fp, draw1, draw2);
    CuidIsBase36(millis, count, fp, draw1, draw2);
    assert s[..1] == START_STR;
    if millis < Codec.Pow(36, 7) {
      Codec.EncodeLengthAtMost(36, millis, 7);
    } else if millis < Codec.Pow(36, 8) {
      Codec.EncodeLengthExactly(36, millis, 8);
    } else if millis < Codec.Pow(36, 9) {
      Codec.EncodeLengthExactly(36, millis, 9);
    } else {
      Codec.EncodeLength(36, millis);
      if k <= 9 {
        Codec.PowMonotone(36, k, 9);
      }
    }
  }

  /** The parts of a CUID can be read back: the character ranges after the
      leading "c" decode to the timestamp, to the counter within one block,
      to the fingerprint and to the two draws. */
  lemma CuidParts(millis: nat, count: nat, fp: string, draw1: nat, draw2: nat)
    requires |fp| == FINGERPRINT_LENGTH && draw1 < DISCRETE_VALUES && draw2 < DISCRETE_VALUES
    ensures var s, k := CuidFrom(millis, count, fp, draw1, draw2), |Codec.Base36(millis)|;
      |s| == 17 + k && s[0] == 'c'
      && Codec.Decode(36, s[1..1 + k]) == millis
      && Codec.Decode(36, s[1 + k..5 + k]) == count % DISCRETE_VALUES
      && s[5 + k..9 + k] == fp
      && Codec.Decode(36, s[9 + k..13 + k]) == draw1
      && Codec.Decode(36, s[13 + k..]) == draw2
  {
    var ts, c := Codec.Base36(millis), CuidOneCounter.Block(count);
    var b1, b2 := CuidOneCounter.Block(draw1), CuidOneCounter.Block(draw2);
    var s := CuidFrom(millis, count, fp, draw1, draw2);
    var k := |ts|;
    assert s == START_STR + ts + c + fp + b1 + b2;
    assert s[1..1 + k] == ts;
    assert s[1 + k..5 + k] == c;
    assert s[5 + k..9 + k] == fp;
    assert s[9 + k..13 + k] == b1;
    assert s[13 + k..] == b2;
    Codec.DecodeEncode(36, millis);
    Codec.FixedWidthDecode(count, BLOCK_SIZE);
    CuidOneCounter.DiscreteValuesIsBlockCapacity();
    CuidOneCounter.BlockDecodes(draw1);
    CuidOneCounter.BlockDecodes(draw2);
  }

  /** A slug, when there is one, is ten characters and passes
      `is_cuid1_slug`; its third to sixth characters are the counter
      block. */
  lemma SlugShape(millis: nat, count: nat, fp: string, draw: nat)
    requires |fp| == FINGERPRINT_LENGTH && Codec.IsDigitString(36, fp) && millis >= 36
    ensures SlugFrom(millis, count, fp, draw).Ok?
    ensures IsCuid1Slug(SlugFrom(millis, count, fp, draw).value)
    ensures SlugFrom(millis, count, fp, draw).value[2..6] == CuidOneCounter.Block(count)
  {
    TimestampHasTwoDigits(millis);
    var ts, c, rnd := Codec.Base36(millis), CuidOneCounter.Block(count), CuidOneCounter.Block(draw);
    var s := SlugFrom(millis, count, fp, draw).value;
    var t2, f1, f2, r2 := ts[|ts| - 2..], fp[..1], fp[|fp| - 1..], rnd[|rnd| - 2..];
    assert c[SaturatingSub(|c|, 4)..] == c;
    assert s == t2 + c + f1 + f2 + r2;
    assert s[2..6] == c;
    assert Codec.IsDigitString(36, s);
    Utf8.Base36ByteLen(s);
  }

  /** `is_cuid1` looks only at the length and the first character: any
      string of 25 characters starting with "c" passes, and the empty
      string does not. */
  lemma IsCuid1Examples()
    ensures IsCuid1("c" + Codec.Repeat('#', 24))
    ensures !IsCuid1("")
    ensures !IsCuid1(Codec.Repeat('c', 27))
  {
    var s := "c" + Codec.Repeat('#', 24);
    assert s[..1] == "c";
    assert Utf8.IsAscii(s);
    Utf8.ByteLenBounds(s);
    Utf8.ByteLenBounds(Codec.Repeat('c', 27));
  }

  /** The validators measure bytes, not characters: ten copies of 'é' are
      ten characters but twenty bytes, so they are not a slug, and "c"
      followed by twelve of them is 13 characters but 25 bytes, so it
      passes `is_cuid`. */
  lemma ValidatorsCountBytes()
    ensures !IsCuid1Slug("éééééééééé")
    ensures IsCuid1("céééééééééééé")
  {
    assert "céééééééééééé"[..1] == START_STR;
  }

  // ---------------------------------------------------------------------
  // The generator: the `COUNTER` and `FINGERPRINT` statics

  class Generator {
    const counter: CuidOneCounter.AtomicCounter
    var fingerprint: LazyFingerprint

    ghost predicate Valid()
      reads this, counter
    {
      counter.Valid() && WellFormed(fingerprint)
    }

    /** Program start: the counter is zero and the fingerprint not yet
        computed. */
    constructor ()
      ensures Valid() && fresh(counter)
      ensures counter.value == 0 && fingerprint == Uninit
    {
      counter := new CuidOneCounter.AtomicCounter();
      fingerprint := Uninit;
    }

    /** Dereference `FINGERPRINT`. */
    method ForceFingerprint(hostname: Option<string>, pid: nat) returns (r: Outcome<string>)
      requires Valid() && HostFits(hostname, pid)
      modifies this
      ensures Valid()
      ensures (fingerprint, r) == Force(old(fingerprint), hostname, pid)
    {
      match fingerprint {
        case Ready(s) =>
          r := Ok(s);
        case Poisoned =>
          r := Panic(POISONED_PANIC);
        case Uninit =>
          var fp := CuidOneFingerprint.Fingerprint(hostname, pid);
          if fp.Ok? {
            fingerprint := Ready(fp.value);
            r := fp;
          } else {
            fingerprint := Poisoned;
            r := Panic(FINGERPRINT_PANIC);
          }
      }
    }

    /** `cuid`: the parts are produced in order (timestamp, counter,
        fingerprint, random blocks); a panic of the clock leaves the state
        alone, a panic of the fingerprint comes after the counter has
        advanced. */
    method Cuid(clock: Option<nat>, hostname: Option<string>, pid: nat, draw1: nat, draw2: nat)
      returns (r: Outcome<string>)
      requires Valid() && HostFits(hostname, pid)
      requires clock.Some? ==> clock.value < Codec.U128_LIMIT
      requires draw1 < DISCRETE_VALUES && draw2 < DISCRETE_VALUES
      modifies this, counter
      ensures Valid()
      ensures clock.None? ==>
        r == Panic(TIMESTAMP_PANIC) && counter.value == old(counter.value) && fingerprint == old(fingerprint)
      ensures clock.Some? ==> counter.value == CuidOneCounter.Next(old(counter.value))
      ensures clock.Some? ==>
        var forced := Force(old(fingerprint), hostname, pid);
        fingerprint == forced.0
        && r == (if forced.1.Ok?
                 then Ok(CuidFrom(clock.value, old(counter.value), forced.1.value, draw1, draw2))
                 else forced.1)
    {
      var timestamp := Timestamp(clock);
      if !timestamp.Ok? {
        return timestamp;
      }
      var count := counter.Current();
      var fp := ForceFingerprint(hostname, pid);
      if !fp.Ok? {
        return fp;
      }
      var random1 := RandomBlock(draw1);
      var random2 := RandomBlock(draw2);
      r := Ok(START_STR + timestamp.value + count + fp.value + random1.value + random2.value);
    }

    /** `cuid1`. */
    method Cuid1(clock: Option<nat>, hostname: Option<string>, pid: nat, draw1: nat, draw2: nat)
      returns (r: Outcome<string>)
      requires Valid() && HostFits(hostname, pid)
      requires clock.Some? ==> clock.value < Codec.U128_LIMIT
      requires draw1 < DISCRETE_VALUES && draw2 < DISCRETE_VALUES
      modifies this, counter
      ensures Valid()
      ensures clock.None? ==>
        r == Panic(TIMESTAMP_PANIC) && counter.value == old(counter.value) && fingerprint == old(fingerprint)
      ensures clock.Some? ==> counter.value == CuidOneCounter.Next(old(counter.value))
      ensures clock.Some? ==>
        var forced := Force(old(fingerprint), hostname, pid);
        fingerprint == forced.0
        && r == (if forced.1.Ok?
                 then Ok(CuidFrom(clock.value, old(counter.value), forced.1.value, draw1, draw2))
                 else forced.1)
    {
      r := Cuid(clock, hostname, pid, draw1, draw2);
    }

    /** `one_off_cuid1`: overwrite the counter with a random `u32`, then
        generate. */
    method OneOffCuid1(seed: nat, clock: Option<nat>, hostname: Option<string>, pid: nat, draw1: nat, draw2: nat)
      returns (r: Outcome<string>)
      requires Valid() && HostFits(hostname, pid) && seed < CuidOneCounter.U32_LIMIT
      requires clock.Some? ==> clock.value < Codec.U128_LIMIT
      requires draw1 < DISCRETE_VALUES && draw2 < DISCRETE_VALUES
      modifies this, counter
      ensures Valid()
      ensures clock.None? ==>
        r == Panic(TIMESTAMP_PANIC) && counter.value == seed && fingerprint == old(fingerprint)
      ensures clock.Some? ==> counter.value == CuidOneCounter.Next(seed)
      ensures clock.Some? ==>
        var forced := Force(old(fingerprint), hostname, pid);
        fingerprint == forced.0
        && r == (if forced.1.Ok?
                 then Ok(CuidFrom(clock.value, seed, forced.1.value, draw1, draw2))
                 else forced.1)
    {
      counter.Store(seed);
      r := Cuid1(clock, hostname, pid, draw1, draw2);
    }

    /** `slug`: timestamp, counter and random block are produced first, then
        the slices are taken left to right; the fingerprint is dereferenced
        only once the timestamp slice has succeeded. */
    method Slug(clock: Option<nat>, hostname: Option<string>, pid: nat, draw: nat)
      returns (r: Outcome<string>)
      requires Valid() && HostFits(hostname, pid)
      requires clock.Some? ==> clock.value < Codec.U128_LIMIT
      requires draw < DISCRETE_VALUES
      modifies this, counter
      ensures Valid()
      ensures clock.None? ==>
        r == Panic(TIMESTAMP_PANIC) && counter.value == old(counter.value) && fingerprint == old(fingerprint)
      ensures clock.Some? ==> counter.value == CuidOneCounter.Next(old(counter.value))
      ensures clock.Some? && clock.value < 36 ==>
        r == Panic(SLICE_PANIC) && fingerprint == old(fingerprint)
      ensures clock.Some? && clock.value >= 36 ==>
        var forced := Force(old(fingerprint), hostname, pid);
        fingerprint == forced.0
        && r == (if forced.1.Ok?
                 then SlugFrom(clock.value, old(counter.value), forced.1.value, draw)
                 else forced.1)
    {
      var timestamp := Timestamp(clock);
      if !timestamp.Ok? {
        return timestamp;
      }
      var count := counter.Current();
      var rand := RandomBlock(draw);
      var ts := timestamp.value;
      TimestampHasTwoDigits(clock.value);
      if |ts| < 2 {
        return Panic(SLICE_PANIC);
      }
      var fp := ForceFingerprint(hostname, pid);
      if !fp.Ok? {
        return fp;
      }
      var f := fp.value;
      r := Ok(ts[|ts| - 2..] + count[SaturatingSub(|count|, 4)..] + f[..1] + f[|f| - 1..] + rand.value[|rand.value| - 2..]);
    }

    /** `cuid1_slug`. */
    method Cuid1Slug(clock: Option<nat>, hostname: Option<string>, pid: nat, draw: nat)
      returns (r: Outcome<string>)
      requires Valid() && HostFits(hostname, pid)
      requires clock.Some? ==> clock.value < Codec.U128_LIMIT
      requires draw < DISCRETE_VALUES
      modifies this, counter
      ensures Valid()
      ensures clock.None? ==>
        r == Panic(TIMESTAMP_PANIC) && counter.value == old(counter.value) && fingerprint == old(fingerprint)
      ensures clock.Some? ==> counter.value == CuidOneCounter.Next(old(counter.value))
      ensures clock.Some? && clock.value < 36 ==>
        r == Panic(SLICE_PANIC) && fingerprint == old(fingerprint)
      ensures clock.Some? && clock.value >= 36 ==>
        var forced := Force(old(fingerprint), hostname, pid);
        fingerprint == forced.0
        && r == (if forced.1.Ok?
                 then SlugFrom(clock.value, old(counter.value), forced.1.value, draw)
                 else forced.1)
    {
      r := Slug(clock, hostname, pid, draw);
    }

    /** `one_off_cuid1_slug`. */
    method OneOffCuid1Slug(seed: nat, clock: Option<nat>, hostname: Option<string>, pid: nat, draw: nat)
      returns (r: Outcome<string>)
      requires Valid() && HostFits(hostname, pid) && seed < CuidOneCounter.U32_LIMIT
      requires clock.Some? ==> clock.value < Codec.U128_LIMIT
      requires draw < DISCRETE_VALUES
      modifies this, counter
      ensures Valid()
      ensures clock.None? ==>
        r == Panic(TIMESTAMP_PANIC) && counter.value == seed && fingerprint == old(fingerprint)
      ensures clock.Some? ==> counter.value == CuidOneCounter.Next(seed)
      ensures clock.Some? && clock.value < 36 ==>
        r == Panic(SLICE_PANIC) && fingerprint == old(fingerprint)
      ensures clock.Some? && clock.value >= 36 ==>
        var forced := Force(old(fingerprint), hostname, pid);
        fingerprint == forced.0
        && r == (if forced.1.Ok?
                 then SlugFrom(clock.value, seed, forced.1.value, draw)
                 else forced.1)
    {
      counter.Store(seed);
      r := Cuid1Slug(clock, hostname, pid, draw);
    }
  }

  /** The library tests: on a readable host in the present era, a fresh
      generator makes a 25-character CUID that passes `is_cuid1`, and a
      ten-character slug that passes `is_cuid1_slug`. */
  method GeneratedIsValid(millis: nat, host: string, pid: nat, draw1: nat, draw2: nat)
    returns (id: string, slug: string)
    requires Codec.Pow(36, 7) <= millis < Codec.Pow(36, 8)
    requires HostFits(Some(host), pid) && draw1 < DISCRETE_VALUES && draw2 < DISCRETE_VALUES
    ensures |id| == 25 && IsCuid1(id)
    ensures |slug| == 10 && IsCuid1Slug(slug)
  {
    var g := new Generator();
    var r := g.Cuid1(Some(millis), Some(host), pid, draw1, draw2);
    id := r.value;
    var fp := Hostname.HostBlock(host) + Hostname.PidBlock(pid);
    Hostname.BlockKeepsLowDigits(host, pid);
    assert Codec.IsDigitString(36, fp);
    CuidLength(millis, 0, fp, draw1, draw2);
    CuidIsBase36(millis, 0, fp, draw1, draw2);
    var t := g.Cuid1Slug(Some(millis), Some(host), pid, draw1);
    slug := t.value;
    SlugShape(millis, 1, fp, draw1);
  }
}
