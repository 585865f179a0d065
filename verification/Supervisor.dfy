/** Bounded retries with exponential backoff, in 64-bit machine arithmetic. */
module Supervisor {
  import opened Common

  /** Reducing an integer to a signed 64-bit word. */
  function Wrap(n: int): i64 {
    (n + I64_LIMIT) % U64_SIZE - I64_LIMIT
  }

  /** The word is the one representative of the number that fits. */
  lemma WrapIs(n: int, whole: int, word: int)
    requires n == whole * U64_SIZE + word && -I64_LIMIT <= word < I64_LIMIT
    ensures Wrap(n) == word
  {}

  lemma WrapSplits(n: int) returns (whole: int)
    ensures n == whole * U64_SIZE + Wrap(n)
  {
    whole := (n + I64_LIMIT) / U64_SIZE;
  }

  lemma WrapOfSmall(n: int)
    requires -I64_LIMIT <= n < I64_LIMIT
    ensures Wrap(n) == n
  {
    WrapIs(n, 0, n);
  }

  function Power2(k: nat): (p: nat)
    ensures p > 0
  {
    if k == 0 then 1 else 2 * Power2(k - 1)
  }

  /** Shifting a signed one left: the sign bit at 63, nothing left from 64 on. */
  function ShiftOne(k: u64): i64 {
    if k >= 64 then 0 else Wrap(Power2(k))
  }

  function Min(a: int, b: int): int {
    if a <= b then a else b
  }

  function Max(a: int, b: int): int {
    if a >= b then a else b
  }

  /** The doubled minimum as the machine computes it; the unsigned subtraction wraps when there was no try yet. */
  function Doubled(currentTry: u64, minimum: i64): i64 {
    Wrap(ShiftOne((currentTry - 1) % U64_SIZE) * minimum)
  }

  /** The delay before retry number `currentTry`. */
  function Backoff(currentTry: u64, minimum: i64, maximum: i64): i64 {
    Min(Max(Doubled(currentTry, minimum), minimum), maximum)
  }

  /** Whatever wraps on the way, the delay stays between the two limits, the maximum winning when they cross. */
  lemma BackoffIsBounded(currentTry: u64, minimum: i64, maximum: i64)
    ensures Min(minimum, maximum) <= Backoff(currentTry, minimum, maximum) <= maximum
  {}

  /** The doubled delay still fits the word. */
  predicate Fits(currentTry: u64, minimum: i64) {
    1 <= currentTry <= 63 && 0 <= minimum && Power2(currentTry - 1) * minimum < I64_LIMIT
  }

  lemma {:induction false} Power2Grows(j: nat, k: nat)
    requires j <= k
    ensures Power2(j) <= Power2(k)
    decreases k
  {
    if j < k {
      Power2Grows(j, k - 1);
    }
  }

  lemma Power2Of62()
    ensures Power2(62) < I64_LIMIT
  {
    assert Power2(10) == 1024;
    assert Power2(20) == 1024 * Power2(10);
    assert Power2(30) == 1024 * Power2(20);
    assert Power2(40) == 1024 * Power2(30);
    assert Power2(50) == 1024 * Power2(40);
    assert Power2(60) == 1024 * Power2(50);
  }

  lemma Scaled(p: nat, n: nat)
    requires p > 0
    ensures n <= p * n
  {}

  lemma ScaledMore(p: nat, q: nat, n: nat)
    requires p <= q
    ensures p * n <= q * n
  {}

  lemma WrapOfDouble(n: int)
    ensures Wrap(2 * n) == Wrap(2 * Wrap(n))
  {
    var inner := WrapSplits(n);
    var outer := WrapSplits(2 * Wrap(n));
    hide Wrap;
    WrapIs(2 * n, 2 * inner + outer, Wrap(2 * Wrap(n)));
  }

  lemma WrapOfWhole(n: int)
    ensures Wrap(n * U64_SIZE) == 0 && Wrap(n * -I64_LIMIT) == Wrap(n * I64_LIMIT)
  {
    WrapIs(n * U64_SIZE, n, 0);
    var whole := WrapSplits(n * I64_LIMIT);
    hide Wrap;
    WrapIs(n * -I64_LIMIT, whole - n, Wrap(n * I64_LIMIT));
  }

  lemma ShiftFits(k: nat)
    requires k <= 62
    ensures ShiftOne(k) == Power2(k)
  {
    Power2Grows(k, 62);
    Power2Of62();
    hide Power2, Wrap;
    WrapOfSmall(Power2(k));
  }

  lemma ShiftsDouble(k: nat)
    requires k < 62
    ensures ShiftOne(k + 1) == 2 * ShiftOne(k)
  {
    ShiftFits(k);
    ShiftFits(k + 1);
    Power2Next(k);
    hide Power2, ShiftOne;
  }

  lemma LastShifts()
    ensures 2 * ShiftOne(62) == I64_LIMIT && ShiftOne(63) == -I64_LIMIT
  {
    Power2Of62();
    Power2Of63();
    Power2Next(62);
    hide Power2;
    WrapOfSmall(Power2(62));
  }

  lemma DoubledIs(t: u64, minimum: i64)
    requires 1 <= t
    ensures Doubled(t, minimum) == Wrap(ShiftOne(t - 1) * minimum)
  {
    hide ShiftOne, Wrap;
  }

  /** Doubling a factor doubles the wrapped product. */
  lemma DoubleProduct(a: int, b: int, m: int)
    requires b == 2 * a
    ensures Wrap(b * m) == Wrap(2 * Wrap(a * m))
  {
    WrapOfDouble(a * m);
    hide Wrap;
    assert b * m == 2 * (a * m);
  }

  lemma DoubledAt63(m: int)
    ensures Wrap(-I64_LIMIT * m) == Wrap(2 * Wrap(ShiftOne(62) * m))
  {
    LastShifts();
    hide ShiftOne, Wrap;
    WrapOfWhole(m);
    DoubleProduct(ShiftOne(62), I64_LIMIT, m);
  }

  lemma DoubledAt64(m: int)
    ensures 0 == Wrap(2 * Wrap(-I64_LIMIT * m))
  {
    hide Wrap;
    WrapOfWhole(-m);
    DoubleProduct(-I64_LIMIT, -U64_SIZE, m);
    assert -U64_SIZE * m == -m * U64_SIZE;
  }

  /** Each retry doubles the word of the one before, wrapping; the shift that loses its last bit is no exception. */
  lemma DoubledDoubles(t: u64, minimum: i64)
    requires 1 <= t < U64_MAX
    ensures Doubled(t + 1, minimum) == Wrap(2 * Doubled(t, minimum))
  {
    var m: int := minimum;
    DoubledIs(t, minimum);
    DoubledIs(t + 1, minimum);
    if t < 63 {
      ShiftsDouble(t - 1);
      hide ShiftOne, Wrap, Doubled;
      DoubleProduct(ShiftOne(t - 1), ShiftOne(t), m);
    } else if t == 63 {
      LastShifts();
      hide ShiftOne, Wrap, Doubled;
      DoubledAt63(m);
    } else {
      WrapOfSmall(0);
      assert ShiftOne(t) == 0 && (t > 64 ==> ShiftOne(t - 1) == 0);
      LastShifts();
      hide ShiftOne, Wrap, Doubled;
      DoubledAt64(m);
    }
  }

  lemma Power2Next(k: nat)
    ensures Power2(k + 1) == 2 * Power2(k)
  {}

  /**
   Doubling a word that is above the minimum takes it down, below the maximum too: it no longer fits and wraps, or it was
   negative, which takes a negative minimum.
   */
  predicate Drops(word: i64, minimum: i64, maximum: i64) {
    && minimum < word && minimum < maximum
    && if word < 0 then -I64_LIMIT <= 2 * word < maximum
       else 2 * word >= I64_LIMIT && 2 * word - U64_SIZE < maximum
  }

  lemma DropIsExact(word: i64, minimum: i64, maximum: i64)
    ensures Min(Max(Wrap(2 * word), minimum), maximum) < Min(Max(word, minimum), maximum) <==> Drops(word, minimum, maximum)
  {}

  /** One retry to the next, for any limits: the delay shrinks if and only if doubling drops it. */
  lemma ShrinkIsExact(t: u64, minimum: i64, maximum: i64)
    requires 1 <= t < U64_MAX
    ensures Backoff(t + 1, minimum, maximum) < Backoff(t, minimum, maximum)
            <==> Drops(Doubled(t, minimum), minimum, maximum)
  {
    DoubledDoubles(t, minimum);
    DropIsExact(Doubled(t, minimum), minimum, maximum);
    hide Doubled, Drops, Wrap, Min, Max;
  }

  /** From a minimum that is not negative, a delay drops exactly when it is above it and its double does not fit. */
  predicate Overflows(t: u64, minimum: i64) {
    Doubled(t, minimum) > minimum && 2 * Doubled(t, minimum) >= I64_LIMIT
  }

  lemma WordFallsBack(word: i64, minimum: i64, maximum: i64)
    requires 0 <= minimum < word && minimum < maximum && 2 * word >= I64_LIMIT
    ensures Min(Max(Wrap(2 * word), minimum), maximum) == minimum
  {}

  /** A delay that shrinks falls back to the minimum at once. */
  lemma OverflowFallsBack(t: u64, minimum: i64, maximum: i64)
    requires 1 <= t < U64_MAX && 0 <= minimum
    ensures Drops(Doubled(t, minimum), minimum, maximum) <==> minimum < maximum && Overflows(t, minimum)
    ensures minimum < maximum && Overflows(t, minimum) ==> Backoff(t + 1, minimum, maximum) == minimum
  {
    DoubledDoubles(t, minimum);
    hide Doubled, Wrap, Min, Max;
    if minimum < maximum && Overflows(t, minimum) {
      WordFallsBack(Doubled(t, minimum), minimum, maximum);
    }
  }

  /** No delay among the first `last` tries is shorter than an earlier one. */
  ghost predicate NeverShrinks(last: u64, minimum: i64, maximum: i64) {
    forall s, t | 1 <= s <= t <= last :: Backoff(s, minimum, maximum) <= Backoff(t, minimum, maximum)
  }

  lemma {:induction false} StepsNeverShrink(last: u64, minimum: i64, maximum: i64, s: u64, t: u64)
    requires 1 <= s <= t <= last
    requires forall u: u64 | 1 <= u < last :: !Drops(Doubled(u, minimum), minimum, maximum)
    ensures Backoff(s, minimum, maximum) <= Backoff(t, minimum, maximum)
    decreases t
  {
    hide Backoff, Drops, Doubled;
    if s < t {
      StepsNeverShrink(last, minimum, maximum, s, t - 1);
      ShrinkIsExact(t - 1, minimum, maximum);
    }
  }

  /** For any limits: delays never shrink if and only if no doubling before the last try drops. */
  lemma NeverShrinksIsExact(last: u64, minimum: i64, maximum: i64)
    requires 1 <= last
    ensures NeverShrinks(last, minimum, maximum)
            <==> forall t: u64 | 1 <= t < last :: !Drops(Doubled(t, minimum), minimum, maximum)
  {
    hide Backoff, Drops, Doubled;
    if forall t: u64 | 1 <= t < last :: !Drops(Doubled(t, minimum), minimum, maximum) {
      forall s: u64, t: u64 | 1 <= s <= t <= last
        ensures Backoff(s, minimum, maximum) <= Backoff(t, minimum, maximum)
      {
        StepsNeverShrink(last, minimum, maximum, s, t);
      }
    } else {
      var t: u64 :| 1 <= t < last && Drops(Doubled(t, minimum), minimum, maximum);
      ShrinkIsExact(t, minimum, maximum);
    }
  }

  /** The same in terms of overflow, for limits in order and a minimum that is not negative. */
  lemma NeverShrinksUnlessOverflow(last: u64, minimum: i64, maximum: i64)
    requires 1 <= last && 0 <= minimum < maximum
    ensures NeverShrinks(last, minimum, maximum) <==> forall t: u64 | 1 <= t < last :: !Overflows(t, minimum)
  {
    hide NeverShrinks, Drops, Doubled, Overflows;
    NeverShrinksIsExact(last, minimum, maximum);
    forall t: u64 | 1 <= t < last ensures Drops(Doubled(t, minimum), minimum, maximum) <==> Overflows(t, minimum) {
      OverflowFallsBack(t, minimum, maximum);
    }
  }

  /** While it fits, the word is the minimum times a power of two. */
  lemma DoubledFits(t: u64, minimum: i64)
    requires Fits(t, minimum)
    ensures Doubled(t, minimum) == Power2(t - 1) * minimum
  {
    ShiftFits(t - 1);
    DoubledIs(t, minimum);
    hide Power2, Doubled, ShiftOne, Wrap;
    WrapOfSmall(Power2(t - 1) * minimum);
  }

  /** While it fits, the delay is the minimum doubled once per retry, up to the maximum. */
  lemma BackoffDoubles(currentTry: u64, minimum: i64, maximum: i64)
    requires Fits(currentTry, minimum)
    ensures Backoff(currentTry, minimum, maximum) == Min(Power2(currentTry - 1) * minimum, maximum)
  {
    DoubledFits(currentTry, minimum);
    hide Power2, Doubled;
    Scaled(Power2(currentTry - 1), minimum);
  }

  lemma DoubleProductExact(a: int, b: int)
    ensures 2 * a * b == 2 * (a * b)
  {}

  /** Until the word overflows, delays never shrink from one retry to a later one. */
  lemma BackoffGrows(s: u64, t: u64, minimum: i64, maximum: i64)
    requires 1 <= s <= t && Fits(t, minimum)
    ensures Backoff(s, minimum, maximum) <= Backoff(t, minimum, maximum)
  {
    Power2Grows(s - 1, t - 1);
    hide Backoff, Power2;
    ScaledMore(Power2(s - 1), Power2(t - 1), minimum);
    BackoffDoubles(s, minimum, maximum);
    BackoffDoubles(t, minimum, maximum);
  }

  /** A try that fits overflows if and only if the next one does not fit. */
  lemma FitEndsInOverflow(t: u64, minimum: i64)
    requires 1 <= t < U64_MAX && 0 < minimum && 2 * minimum < I64_LIMIT && Fits(t, minimum)
    ensures Overflows(t, minimum) <==> !Fits(t + 1, minimum)
  {
    var k := t - 1;
    DoubledFits(t, minimum);
    Power2Next(k);
    assert Power2(0) == 1;
    if k > 0 {
      Power2Grows(1, k);
      assert Power2(1) == 2;
    }
    if t == 63 {
      TryOf63(minimum);
    }
    hide Power2, Doubled;
    DoubleProductExact(Power2(k), minimum);
    if k > 0 {
      ScaledMore(2, Power2(k), minimum);
    }
  }

  /** The largest shift that fits leaves room for a minimum of one only, and its double does not fit. */
  lemma TryOf63(minimum: i64)
    requires 0 < minimum && Fits(63, minimum)
    ensures minimum == 1 && 2 * (Power2(62) * minimum) >= I64_LIMIT
  {
    Power2Of63();
    Power2Next(62);
    hide Power2;
    if minimum >= 2 {
      ScaledMore(2, minimum, Power2(62));
      assert false;
    }
  }

  /** Every try before one that fits, fits. */
  lemma FitsBefore(s: u64, t: u64, minimum: i64)
    requires 1 <= s <= t && Fits(t, minimum)
    ensures Fits(s, minimum)
  {
    Power2Grows(s - 1, t - 1);
    ScaledMore(Power2(s - 1), Power2(t - 1), minimum);
  }

  /** The last fitting try before one that does not fit. */
  lemma {:induction false} LastFit(t: u64, minimum: i64) returns (s: u64)
    requires 1 < t && Fits(1, minimum) && !Fits(t, minimum)
    ensures 1 <= s < t && Fits(s, minimum) && !Fits(s + 1, minimum)
    decreases t
  {
    if Fits(t - 1, minimum) {
      s := t - 1;
    } else {
      assert t != 2;
      s := LastFit(t - 1, minimum);
    }
  }

  /**
   With a minimum that can be doubled at all and limits that have not crossed, delays never shrink if and only if the
   last doubled delay still fits the word.
   */
  lemma NeverShrinksIffFits(last: u64, minimum: i64, maximum: i64)
    requires 1 <= last && 0 < minimum && 2 * minimum < I64_LIMIT && minimum < maximum
    ensures NeverShrinks(last, minimum, maximum) <==> Fits(last, minimum)
  {
    assert Power2(0) == 1;
    assert Fits(1, minimum);
    hide NeverShrinks, Fits, Overflows, Power2;
    NeverShrinksUnlessOverflow(last, minimum, maximum);
    if Fits(last, minimum) {
      forall t: u64 | 1 <= t < last ensures !Overflows(t, minimum) {
        FitsBefore(t, last, minimum);
        FitsBefore(t + 1, last, minimum);
        FitEndsInOverflow(t, minimum);
      }
    } else {
      var t := LastFit(last, minimum);
      FitEndsInOverflow(t, minimum);
    }
  }

  /** Crossed limits, and a minimum of zero, make every delay the same. */
  lemma ConstantDelays(t: u64, minimum: i64, maximum: i64)
    requires maximum <= minimum || minimum == 0
    ensures Backoff(t, minimum, maximum) == if maximum <= minimum then maximum else 0
  {}

  /**
   A minimum too large to be doubled: delays never shrink if and only if all but the last are the minimum itself, so that
   they do not grow either.
   */
  lemma LargeMinimum(last: u64, minimum: i64, maximum: i64)
    requires 1 <= last && 0 < minimum && 2 * minimum >= I64_LIMIT && minimum < maximum
    ensures NeverShrinks(last, minimum, maximum)
            <==> forall t: u64 | 1 <= t < last :: Backoff(t, minimum, maximum) == minimum
  {
    NeverShrinksUnlessOverflow(last, minimum, maximum);
    forall t: u64 | 1 <= t < last ensures Overflows(t, minimum) <==> Backoff(t, minimum, maximum) != minimum {
      hide Doubled;
    }
    hide NeverShrinks, Backoff, Overflows;
  }

  /** There fitting is not necessary: two equal delays, the second of which has already overflowed. */
  lemma FitsIsNotNecessary()
    ensures var minimum := I64_LIMIT / 2; !Fits(2, minimum) && NeverShrinks(2, minimum, I64_LIMIT - 1)
  {
    var minimum: i64 := I64_LIMIT / 2;
    assert Power2(1) == 2 && Power2(0) == 1;
    LargeMinimum(2, minimum, I64_LIMIT - 1);
    hide Power2, NeverShrinks;
    WrapOfSmall(1);
    WrapOfSmall(minimum);
    assert Doubled(1, minimum) == minimum;
  }

  /** With a minimum of one nanosecond the 64th delay is the minimum again. */
  lemma BackoffCanShrink()
    ensures Backoff(63, 1, I64_LIMIT - 1) > Backoff(64, 1, I64_LIMIT - 1) == 1
  {
    Power2Of62();
    Power2Next(62);
    Power2Of63();
    assert Fits(63, 1) && !Fits(64, 1);
    FitEndsInOverflow(63, 1);
    OverflowFallsBack(63, 1, I64_LIMIT - 1);
    ShrinkIsExact(63, 1, I64_LIMIT - 1);
    hide Power2, Backoff, Overflows, Drops, Doubled;
  }

  lemma Power2Of63()
    ensures Power2(63) == I64_LIMIT
  {
    assert Power2(10) == 1024;
    assert Power2(20) == 1024 * Power2(10);
    assert Power2(30) == 1024 * Power2(20);
    assert Power2(40) == 1024 * Power2(30);
    assert Power2(50) == 1024 * Power2(40);
    assert Power2(60) == 1024 * Power2(50);
  }

  class Supervisor {
    const cancelAfter: u64
    const maximumDelay: i64
    const minimumDelay: i64
    var currentTry: u64

    constructor (cancelAfter: u64, maximumDelay: i64, minimumDelay: i64)
      ensures this.cancelAfter == cancelAfter && currentTry == 0
      ensures this.maximumDelay == maximumDelay && this.minimumDelay == minimumDelay
    {
      this.cancelAfter, this.maximumDelay, this.minimumDelay, currentTry := cancelAfter, maximumDelay, minimumDelay, 0;
    }

    /**
     Whether another attempt may be made: the first one always unless the context is done, a later one only within the
     limit, and then only if its delay passes before the context is done.
     */
    method Try(done: bool, doneWhileWaiting: bool) returns (proceed: bool, delay: Option<i64>)
      modifies `currentTry
      ensures proceed == (!done && (old(currentTry) == 0 || (old(currentTry) < cancelAfter && !doneWhileWaiting)))
      ensures currentTry == if proceed then old(currentTry) + 1 else old(currentTry)
      ensures delay == if done || old(currentTry) == 0 || old(currentTry) >= cancelAfter then None
                       else Some(Backoff(old(currentTry), minimumDelay, maximumDelay))
    {
      if done {
        return false, None;
      }
      if currentTry == 0 {
        currentTry := currentTry + 1;
        return true, None;
      }
      if currentTry >= cancelAfter {
        return false, None;
      }
      var backoff := Backoff(currentTry, minimumDelay, maximumDelay);
      if doneWhileWaiting {
        return false, Some(backoff);
      }
      currentTry := currentTry + 1;
      return true, Some(backoff);
    }

    method Reset()
      modifies `currentTry
      ensures currentTry == 0
    {
      currentTry := 0;
    }
  }

  /** How many attempts a supervisor that was just reset can allow. */
  function AttemptLimit(cancelAfter: u64): nat {
    Max(1, cancelAfter)
  }
}
