/** crates/cuid1/src/counter.rs: the session counter of the v1 generator, an
    atomic `u32` that steps through the 36^4 values of one base-36 block and
    then starts over. */
module CuidOneCounter {
  import Codec
  import CuidOneText

  /** Characters in the counter block. */
  const BLOCK_SIZE: nat := 4

  /** Values a block can hold: 36^4. */
  const DISCRETE_VALUES: nat := 1679616

  /** 2^32: the counter is a `u32`. */
  const U32_LIMIT: nat := 0x1_0000_0000

  /** DISCRETE_VALUES is BASE^BLOCK_SIZE. */
  lemma DiscreteValuesIsBlockCapacity()
    ensures Codec.Pow(Codec.BASE, BLOCK_SIZE) == DISCRETE_VALUES
  {
  }

  /** The update handed to `fetch_update`: the last block value rolls over to
      zero, anything else is incremented. An increment of `u32::MAX` (reachable
      only after a `store` of an arbitrary value) wraps to zero, as a release
      build does. */
  function Next(i: nat): (r: nat)
    requires i < U32_LIMIT
    ensures r < U32_LIMIT
    ensures r == 0 <==> i == DISCRETE_VALUES - 1 || i == U32_LIMIT - 1
    ensures r != 0 ==> r == i + 1
  {
    if i == DISCRETE_VALUES - 1 then 0 else (i + 1) % U32_LIMIT
  }

  /** Once inside the block range the counter never leaves it. */
  lemma NextStaysInBlock(i: nat)
    requires i < DISCRETE_VALUES
    ensures Next(i) < DISCRETE_VALUES
    ensures Next(i) == (i + 1) % DISCRETE_VALUES
  {
  }

  /** The counter block for value `v`: base 36, padded (or cut) to four
      characters. */
  function Block(v: nat): (s: string)
    ensures |s| == BLOCK_SIZE && Codec.IsDigitString(36, s)
  {
    Codec.FixedWidthDecode(v, BLOCK_SIZE);
    Codec.Pad(BLOCK_SIZE, Codec.Base36(v))
  }

  /** Every value of a block's range is recoverable from its block. */
  lemma BlockDecodes(v: nat)
    requires v < DISCRETE_VALUES
    ensures Codec.IsDigitString(36, Block(v))
    ensures Codec.Decode(36, Block(v)) == v
  {
    Codec.FixedWidthDecode(v, BLOCK_SIZE);
    DiscreteValuesIsBlockCapacity();
    Codec.ModSmall(v, DISCRETE_VALUES);
  }

  /** Fixed width makes the string order of blocks the numeric order of the
      values, also where the base-36 rendering gains a digit. */
  lemma BlockOrder(a: nat, b: nat)
    requires a < DISCRETE_VALUES && b < DISCRETE_VALUES
    ensures Codec.LexLess(Block(a), Block(b)) <==> a < b
  {
    BlockDecodes(a);
    BlockDecodes(b);
    Codec.LexLessIsNumeric(36, Block(a), Block(b));
  }

  /** Blocks of distinct values differ. */
  lemma BlockInjective(a: nat, b: nat)
    requires a < DISCRETE_VALUES && b < DISCRETE_VALUES
    ensures Block(a) == Block(b) <==> a == b
  {
    BlockDecodes(a);
    BlockDecodes(b);
  }

  /** The counter shared by all calls. */
  class AtomicCounter {
    var value: nat

    ghost predicate Valid()
      reads this
    {
      value < U32_LIMIT
    }

    /** `AtomicU32::new(0)`. */
    constructor ()
      ensures Valid() && value == 0
    {
      value := 0;
    }

    /** `store`: overwrite the value. */
    method Store(v: nat)
      requires v < U32_LIMIT
      modifies this
      ensures Valid() && value == v
    {
      value := v;
    }

    /** `fetch_and_increment`: return the value and advance it; the update
        never returns `None`, so the `expect` never fires. */
    method FetchAndIncrement() returns (previous: nat)
      requires Valid()
      modifies this
      ensures Valid()
      ensures previous == old(value) && value == Next(old(value))
    {
      previous := value;
      value := Next(previous);
    }

    /** `current`: the block of the value fetched before the increment. */
    method Current() returns (s: string)
      requires Valid()
      modifies this
      ensures Valid()
      ensures value == Next(old(value)) && s == Block(old(value))
    {
      var v := FetchAndIncrement();
      var text := CuidOneText.ToBaseString(v);
      s := CuidOneText.Pad(BLOCK_SIZE, text.value);
    }
  }

  /** The increasing-counter test: three fetches from zero are increasing. */
  method CountFromZero() returns (first: nat, second: nat, third: nat)
    ensures first == 0 && first < second < third
  {
    var counter := new AtomicCounter();
    first := counter.FetchAndIncrement();
    second := counter.FetchAndIncrement();
    third := counter.FetchAndIncrement();
  }

  /** The rollover test: after the last block value the next fetch is below
      it. */
  method RollOver() returns (last: nat, rolled: nat)
    ensures last == DISCRETE_VALUES - 1 && rolled < last
  {
    var counter := new AtomicCounter();
    counter.Store(DISCRETE_VALUES - 1);
    last := counter.FetchAndIncrement();
    rolled := counter.FetchAndIncrement();
  }

  /** The ordering test: counting from 35 the second block, "0010", sorts
      after the first, "000z". */
  method OrderedAcrossDigitCount() returns (first: string, second: string)
    ensures Codec.LexLess(first, second)
  {
    var counter := new AtomicCounter();
    counter.Store(35);
    first := counter.Current();
    second := counter.Current();
    BlockOrder(35, 36);
  }
}
