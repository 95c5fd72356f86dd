/**
 * The demo application of main.cpp: the `stm32mp1::Register` word accessor,
 * the busy-wait `delay`, and the counter loop `main` runs before it idles.
 * A register is modelled as the plain word it refers to.
 */
module Demo {
  import opened Machine

  /** `uint32_t` used as a number (the loop counters); arithmetic on it wraps
      modulo 2^32 where it is written out. */
  type Uint32 = x: int | 0 <= x < 0x1_0000_0000

  /** The value after `|= mask`. */
  function WithBitsSet(v: Word, mask: Word): (r: Word)
    ensures r & mask == mask
    ensures r & !mask == v & !mask
  {
    v | mask
  }

  /** The value after `&= ~mask`. */
  function WithBitsCleared(v: Word, mask: Word): (r: Word)
    ensures r & mask == 0
    ensures r & !mask == v & !mask
  {
    v & !mask
  }

  /** Setting every bit of `mask` and keeping the others determines the
      result: any word with those two properties is `WithBitsSet(v, mask)`. */
  lemma WithBitsSetUnique(v: Word, mask: Word, r: Word)
    requires r & mask == mask && r & !mask == v & !mask
    ensures r == WithBitsSet(v, mask)
  {
  }

  /** Likewise for clearing. */
  lemma WithBitsClearedUnique(v: Word, mask: Word, r: Word)
    requires r & mask == 0 && r & !mask == v & !mask
    ensures r == WithBitsCleared(v, mask)
  {
  }

  /** Applying the same mask twice is applying it once. */
  lemma BitOperationsIdempotent(v: Word, mask: Word)
    ensures WithBitsSet(WithBitsSet(v, mask), mask) == WithBitsSet(v, mask)
    ensures WithBitsCleared(WithBitsCleared(v, mask), mask) == WithBitsCleared(v, mask)
  {
  }

  /** `stm32mp1::Register<uint32_t>`: the word at the register's address. */
  class Register {
    var value: Word

    /** The register's address is not modelled, only the word stored there. */
    constructor (initial: Word)
      ensures value == initial
    {
      value := initial;
    }

    /** `read()`. */
    function Read(): Word
      reads this
    {
      value
    }

    /** `write(value)`: a following `read()` returns `v`. */
    method Write(v: Word)
      modifies this
      ensures Read() == v
    {
      value := v;
    }

    /** `setBits(mask)`. */
    method SetBits(mask: Word)
      modifies this
      ensures Read() == WithBitsSet(old(Read()), mask)
    {
      value := value | mask;
    }

    /** `clearBits(mask)`. */
    method ClearBits(mask: Word)
      modifies this
      ensures Read() == WithBitsCleared(old(Read()), mask)
    {
      value := value & !mask;
    }
  }

  /** `delay(count)`: spins `count` times on a 32-bit counter that starts at
      zero. Returns the number of iterations; nothing else changes. */
  method Delay(count: Uint32) returns (iterations: nat)
    ensures iterations == count
  {
    var i: Uint32 := 0;
    iterations := 0;
    while i < count
      invariant i <= count
      invariant iterations == i
    {
      iterations := iterations + 1;
      i := i + 1;
    }
  }

  /** 0 + 1 + ... + (n - 1). */
  function SumBelow(n: nat): nat {
    if n == 0 then 0 else SumBelow(n - 1) + (n - 1)
  }

  /** The closed form of the sum. */
  lemma {:induction false} SumBelowClosedForm(n: nat)
    ensures 2 * SumBelow(n) == n * (n - 1)
  {
    if n > 0 {
      SumBelowClosedForm(n - 1);
    }
  }

  /** The loop of `main`: ten times, add the loop index to `counter` (a
      32-bit variable) and call `delay(1000)`. Returns `counter` as the loop
      leaves it, just before `main` calls `infinite_loop`. */
  method CounterLoop() returns (counter: Uint32)
    ensures counter == SumBelow(10)
    ensures counter == 45
  {
    counter := 0;
    var i := 0;
    while i < 10
      invariant 0 <= i <= 10
      invariant counter == SumBelow(i)
    {
      SumBelowClosedForm(i + 1);
      counter := (counter + i) % 0x1_0000_0000;
      var spins := Delay(1000);
      i := i + 1;
    }
  }
}
