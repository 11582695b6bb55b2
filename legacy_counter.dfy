/** src/counter.rs: the older generator's counter, a mutex-guarded value
    that cycles through 0 .. DISCRETE_VALUES - 1. */
module LegacyCounter {
  import Codec
  import LegacyText
  import opened Errors

  /** BASE^BLOCK_SIZE (src/lib.rs). */
  const DISCRETE_VALUES: nat := 1679616

  /** src/lib.rs: BLOCK_SIZE. */
  const BLOCK_SIZE: nat := 4

  /** The test `correct_discrete_values`. */
  lemma DiscreteValuesIsBlockCapacity()
    ensures Codec.Pow(Codec.BASE, BLOCK_SIZE) == DISCRETE_VALUES
  {
  }

  /** The guarded update: the last value resets to zero, any other value is
      incremented. */
  function Step(v: nat): (r: nat)
    requires v < DISCRETE_VALUES
    ensures r < DISCRETE_VALUES
    ensures r == 0 <==> v == DISCRETE_VALUES - 1
    ensures r != 0 ==> r == v + 1
  {
    if v == DISCRETE_VALUES - 1 then 0 else v + 1
  }

  /** The counter's rendering has between one and four digits; it is not
      padded. */
  lemma CurrentTextLength(v: nat)
    requires v < DISCRETE_VALUES
    ensures 1 <= |Codec.Base36(v)| <= BLOCK_SIZE
    ensures Codec.Decode(36, Codec.Base36(v)) == v
  {
    DiscreteValuesIsBlockCapacity();
    Codec.EncodeLengthAtMost(36, v, BLOCK_SIZE);
    Codec.DecodeEncode(36, v);
  }

  /** Without padding the string order of consecutive counter values breaks
      where the rendering gains a digit: 35 gives "z", 36 gives "10". */
  lemma UnpaddedOrderBreaks()
    ensures Codec.Base36(35) == "z" && Codec.Base36(36) == "10"
    ensures !Codec.LexLess(Codec.Base36(35), Codec.Base36(36))
  {
  }

  /** `static COUNTER`: the guarded value. Whether taking the lock fails
      (a poisoned mutex) is decided by the environment and passed in. */
  class MutexCounter {
    var value: nat

    ghost predicate Valid()
      reads this
    {
      value < DISCRETE_VALUES
    }

    /** The counter starts at zero. */
    constructor ()
      ensures Valid() && value == 0
    {
      value := 0;
    }

    /** Writing through the lock, as the tests do. */
    method Set(v: nat)
      requires v < DISCRETE_VALUES
      modifies this
      ensures Valid() && value == v
    {
      value := v;
    }

    /** `fetch_and_increment`: a failed lock is a `CounterError` and leaves
        the value alone; otherwise the previous value is returned and the
        value stepped. */
    method FetchAndIncrement(lockPoisoned: bool) returns (r: Outcome<nat>)
      requires Valid()
      modifies this
      ensures Valid()
      ensures lockPoisoned ==> r == Err(CounterError) && value == old(value)
      ensures !lockPoisoned ==> r == Ok(old(value)) && value == Step(old(value))
    {
      if lockPoisoned {
        return Err(CounterError);
      }
      var current := value;
      if current == DISCRETE_VALUES - 1 {
        value := 0;
      } else {
        value := value + 1;
      }
      r := Ok(current);
    }

    /** `current`: the fetched value rendered in base 36, or the lock
        error. */
    method Current(lockPoisoned: bool) returns (r: Outcome<string>)
      requires Valid()
      modifies this
      ensures Valid()
      ensures lockPoisoned ==> r == Err(CounterError) && value == old(value)
      ensures !lockPoisoned ==> r == Ok(Codec.Base36(old(value))) && value == Step(old(value))
    {
      var fetched := FetchAndIncrement(lockPoisoned);
      if fetched.Err? {
        return Err(fetched.error);
      }
      r := LegacyText.ToBaseString(fetched.value);
    }
  }

  /** The increasing-counter test. */
  method CountFromZero() returns (first: nat, second: nat, third: nat)
    ensures first == 0 && first < second < third
  {
    var counter := new MutexCounter();
    var a := counter.FetchAndIncrement(false);
    var b := counter.FetchAndIncrement(false);
    var c := counter.FetchAndIncrement(false);
    first, second, third := a.value, b.value, c.value;
  }

  /** The rollover test: after the last value the next fetch is below it. */
  method RollOver() returns (last: nat, rolled: nat)
    ensures last == DISCRETE_VALUES - 1 && rolled < last
  {
    var counter := new MutexCounter();
    counter.Set(DISCRETE_VALUES - 1);
    var a := counter.FetchAndIncrement(false);
    var b := counter.FetchAndIncrement(false);
    last, rolled := a.value, b.value;
  }
}
