/** The retry delay of the webhook dispatcher, computed in int64 nanoseconds as the source does. */
module Backoff {

  // The base of two seconds, 2_000_000_000, is written out wherever it multiplies.
  const BACKOFF_MAX := 300_000_000_000

  function Pow2(n: nat): (p: nat)
    ensures p >= 1
  {
    if n == 0 then 1 else 2 * Pow2(n - 1)
  }

  /** The value an int64 holds after the exact result x overflowed. */
  function Wrap64(x: int): (y: int)
    ensures -0x8000_0000_0000_0000 <= y < 0x8000_0000_0000_0000
    ensures -0x8000_0000_0000_0000 <= x < 0x8000_0000_0000_0000 ==> y == x
  {
    (x + 0x8000_0000_0000_0000) % 0x1_0000_0000_0000_0000 - 0x8000_0000_0000_0000
  }

  /** 1 << n on an int64: bits shifted past the word are lost. */
  function ShiftOne(n: nat): int {
    if n >= 64 then 0 else Wrap64(Pow2(n))
  }

  function Delay(attempts: nat): int
    requires attempts >= 1
  {
    var delay := Wrap64(2_000_000_000 * ShiftOne(attempts - 1));
    if delay > BACKOFF_MAX then BACKOFF_MAX else delay
  }

  /** Doubling from two seconds, capped at five minutes, in unbounded arithmetic. */
  function Intended(attempts: nat): int
    requires attempts >= 1
  {
    if 2_000_000_000 * Pow2(attempts - 1) > BACKOFF_MAX then BACKOFF_MAX else 2_000_000_000 * Pow2(attempts - 1)
  }

  // ----- the product as a chain of doublings -----

  function Double64(w: int): int {
    if 2 * w >= 0x8000_0000_0000_0000 then 2 * w - 0x1_0000_0000_0000_0000
    else if 2 * w < -0x8000_0000_0000_0000 then 2 * w + 0x1_0000_0000_0000_0000
    else 2 * w
  }

  /** The base doubled n times, each doubling wrapped on its own. */
  function Doubled(n: nat): (w: int)
    ensures -0x8000_0000_0000_0000 <= w < 0x8000_0000_0000_0000
  {
    if n == 0 then 2_000_000_000 else Double64(Doubled(n - 1))
  }

  lemma {:induction false} DoubledIsProduct(n: nat) returns (k: int)
    ensures 2_000_000_000 * Pow2(n) == Doubled(n) + k * 0x1_0000_0000_0000_0000
  {
    if n == 0 {
      k := 0;
    } else {
      var j := DoubledIsProduct(n - 1);
      var w := Doubled(n - 1);
      k := 2 * j + if 2 * w >= 0x8000_0000_0000_0000 then 1 else if 2 * w < -0x8000_0000_0000_0000 then -1 else 0;
    }
  }

  lemma WrapIgnoresWords(w: int, k: int)
    requires -0x8000_0000_0000_0000 <= w < 0x8000_0000_0000_0000
    ensures Wrap64(w + k * 0x1_0000_0000_0000_0000) == w
  {
  }

  /** Wrapping a factor first changes nothing after the product is wrapped. */
  lemma WrapFactorFirst(p: int, w: int, k: int)
    requires -0x8000_0000_0000_0000 <= w < 0x8000_0000_0000_0000
    requires 2_000_000_000 * p == w + k * 0x1_0000_0000_0000_0000
    ensures Wrap64(2_000_000_000 * Wrap64(p)) == w
  {
    var j := (p + 0x8000_0000_0000_0000) / 0x1_0000_0000_0000_0000;
    assert Wrap64(p) == p - j * 0x1_0000_0000_0000_0000;
    WrapIgnoresWords(w, k - 2_000_000_000 * j);
  }

  /** Wrapping the shift and then the product, as the source does, gives the chain of doublings. */
  lemma DelayIsDoubled(n: nat)
    ensures Wrap64(2_000_000_000 * ShiftOne(n)) == Doubled(n)
  {
    if n < 64 {
      var k := DoubledIsProduct(n);
      WrapFactorFirst(Pow2(n), Doubled(n), k);
    } else {
      VanishesFrom54(n);
    }
  }

  /** Arguments past 33 whose overflow happens to land above the cap. */
  const LUCKY := {37, 41, 42, 45, 47, 50, 51, 53}

  lemma FourDoublings(n: nat, w0: int, w1: int, w2: int, w3: int, w4: int)
    requires Doubled(n) == w0
    requires w1 == Double64(w0) && w2 == Double64(w1) && w3 == Double64(w2) && w4 == Double64(w3)
    ensures Doubled(n + 1) == w1 && Doubled(n + 2) == w2 && Doubled(n + 3) == w3 && Doubled(n + 4) == w4
  {
    assert Doubled(n + 1) == Double64(Doubled(n));
    assert Doubled(n + 2) == Double64(Doubled(n + 1));
    assert Doubled(n + 3) == Double64(Doubled(n + 2));
  }

  lemma {:induction false} Pow2Adds(m: nat, n: nat)
    ensures Pow2(m + n) == Pow2(m) * Pow2(n)
  {
    if n > 0 {
      Pow2Adds(m, n - 1);
    }
  }

  lemma Pow2Values()
    ensures Pow2(8) == 256 && Pow2(32) == 0x1_0000_0000
  {
    assert Pow2(4) == 16;
    Pow2Adds(4, 4);
    Pow2Adds(8, 8);
    Pow2Adds(16, 16);
  }

  /** Up to 32 doublings fit the word. */
  lemma {:induction false} FittingDoublings(n: nat)
    requires n <= 32
    ensures Pow2(n) <= 0x1_0000_0000
    ensures Doubled(n) == 2_000_000_000 * Pow2(n)
  {
    FittingPowers(n);
    FittingChain(n);
  }

  lemma {:induction false} FittingPowers(n: nat)
    requires n <= 32
    ensures Pow2(n) <= 0x1_0000_0000
    decreases 32 - n
  {
    if n == 32 {
      Pow2Values();
    } else {
      FittingPowers(n + 1);
    }
  }

  lemma {:induction false} FittingChain(n: nat)
    requires n <= 32
    ensures Doubled(n) == 2_000_000_000 * Pow2(n)
  {
    if n > 0 {
      FittingChain(n - 1);
      FittingPowers(n);
    }
  }

  lemma Word32()
    ensures Doubled(32) == 8589934592000000000
  {
    Pow2Values();
    FittingChain(32);
  }

  lemma Words33To36()
    ensures Doubled(33) == -1266874889709551616
    ensures Doubled(34) == -2533749779419103232
    ensures Doubled(35) == -5067499558838206464
    ensures Doubled(36) == 8311744956033138688
  {
    Word32();
    FourDoublings(32, 8589934592000000000, -1266874889709551616, -2533749779419103232,
                  -5067499558838206464, 8311744956033138688);
  }

  lemma Words37To40()
    ensures Doubled(37) == -1823254161643274240
    ensures Doubled(38) == -3646508323286548480
    ensures Doubled(39) == -7293016646573096960
    ensures Doubled(40) == 3860710780563357696
  {
    Words33To36();
    FourDoublings(36, 8311744956033138688, -1823254161643274240, -3646508323286548480,
                  -7293016646573096960, 3860710780563357696);
  }

  lemma Words41To44()
    ensures Doubled(41) == 7721421561126715392
    ensures Doubled(42) == -3003900951456120832
    ensures Doubled(43) == -6007801902912241664
    ensures Doubled(44) == 6431140267885068288
  {
    Words37To40();
    FourDoublings(40, 3860710780563357696, 7721421561126715392, -3003900951456120832,
                  -6007801902912241664, 6431140267885068288);
  }

  lemma Words45To48()
    ensures Doubled(45) == -5584463537939415040
    ensures Doubled(46) == 7277816997830721536
    ensures Doubled(47) == -3891110078048108544
    ensures Doubled(48) == -7782220156096217088
  {
    Words41To44();
    FourDoublings(44, 6431140267885068288, -5584463537939415040, 7277816997830721536,
                  -3891110078048108544, -7782220156096217088);
  }

  lemma Words49To52()
    ensures Doubled(49) == 2882303761517117440
    ensures Doubled(50) == 5764607523034234880
    ensures Doubled(51) == -6917529027641081856
    ensures Doubled(52) == 4611686018427387904
  {
    Words45To48();
    FourDoublings(48, -7782220156096217088, 2882303761517117440, 5764607523034234880,
                  -6917529027641081856, 4611686018427387904);
  }

  lemma Word53()
    ensures Doubled(53) == -9223372036854775808
  {
    Words49To52();
    assert Doubled(53) == Double64(Doubled(52));
  }

  lemma {:induction false} VanishesFrom54(n: nat)
    requires n >= 54
    ensures Doubled(n) == 0
  {
    if n == 54 {
      Word53();
      assert Doubled(54) == Double64(Doubled(53));
    } else {
      VanishesFrom54(n - 1);
    }
  }

  /** Which of these words are above the cap, whatever they are words of. */
  lemma LuckyAmong(w: nat -> int, n: nat)
    requires 33 <= n <= 53
    requires w(33) == -1266874889709551616 && w(34) == -2533749779419103232
    requires w(35) == -5067499558838206464 && w(36) == 8311744956033138688
    requires w(37) == -1823254161643274240 && w(38) == -3646508323286548480
    requires w(39) == -7293016646573096960 && w(40) == 3860710780563357696
    requires w(41) == 7721421561126715392 && w(42) == -3003900951456120832
    requires w(43) == -6007801902912241664 && w(44) == 6431140267885068288
    requires w(45) == -5584463537939415040 && w(46) == 7277816997830721536
    requires w(47) == -3891110078048108544 && w(48) == -7782220156096217088
    requires w(49) == 2882303761517117440 && w(50) == 5764607523034234880
    requires w(51) == -6917529027641081856 && w(52) == 4611686018427387904
    requires w(53) == -9223372036854775808
    ensures w(n) >= BACKOFF_MAX <==> n + 1 in LUCKY
  {
  }

  lemma LuckyUpTo53(n: nat)
    requires 33 <= n <= 53
    ensures Doubled(n) >= BACKOFF_MAX <==> n + 1 in LUCKY
  {
    Words33To36();
    Words37To40();
    Words41To44();
    Words45To48();
    Words49To52();
    Word53();
    var w := (k: nat) => Doubled(k);
    LuckyAmong(w, n);
    assert w(n) == Doubled(n);
  }

  lemma LuckyWords(n: nat)
    requires n >= 33
    ensures Doubled(n) >= BACKOFF_MAX <==> n + 1 in LUCKY
  {
    if n <= 53 {
      LuckyUpTo53(n);
    } else {
      VanishesFrom54(n);
    }
  }

  // ----- when the delay is the intended one -----

  lemma CappedFrom9(attempts: nat)
    requires attempts >= 9
    ensures Intended(attempts) == BACKOFF_MAX
  {
    Pow2Values();
    Pow2Adds(8, attempts - 9);
  }

  lemma NoOverflow(attempts: nat)
    requires 1 <= attempts <= 33
    ensures 0 < 2_000_000_000 * Pow2(attempts - 1) < 0x8000_0000_0000_0000
    ensures Delay(attempts) == Intended(attempts) > 0
  {
    FittingDoublings(attempts - 1);
    DelayIsDoubled(attempts - 1);
  }

  /** The delay is the intended one exactly for these arguments; 33 is the last before the first overflow. */
  lemma DelayIsIntendedExactlyWhen(attempts: nat)
    requires attempts >= 1
    ensures Delay(attempts) == Intended(attempts) <==> attempts <= 33 || attempts in LUCKY
  {
    if attempts <= 33 {
      NoOverflow(attempts);
    } else {
      CappedFrom9(attempts);
      DelayIsDoubled(attempts - 1);
      LuckyWords(attempts - 1);
    }
  }

  /** The schedule in seconds: 2, 4, 8, 16, 32, 64, 128 and 256, and then five minutes each time. */
  lemma ScheduleInSeconds(attempts: nat)
    requires 1 <= attempts <= 33
    ensures attempts <= 8 ==> Delay(attempts) == [2, 4, 8, 16, 32, 64, 128, 256][attempts - 1] * 1_000_000_000
    ensures attempts >= 9 ==> Delay(attempts) == 300 * 1_000_000_000
  {
    NoOverflow(attempts);
    if attempts >= 9 {
      CappedFrom9(attempts);
    } else {
      assert Pow2(0) == 1 && Pow2(1) == 2 && Pow2(2) == 4 && Pow2(3) == 8;
      assert Pow2(4) == 16 && Pow2(5) == 32 && Pow2(6) == 64 && Pow2(7) == 128;
    }
  }

  lemma SafeBudget(maxAttempts: nat, attempts: nat)
    requires 1 <= attempts < maxAttempts <= 34
    ensures Delay(attempts) == Intended(attempts)
  {
    NoOverflow(attempts);
  }

  lemma FirstOverflow()
    ensures Delay(34) != Intended(34)
  {
    DelayIsIntendedExactlyWhen(34);
  }

  /** Every delay a budget of `maxAttempts` can use is the intended one exactly when the budget is at most 34. */
  lemma BudgetIsSafeExactlyWhen(maxAttempts: nat)
    ensures (forall a :: 1 <= a < maxAttempts ==> Delay(a) == Intended(a)) <==> maxAttempts <= 34
  {
    if maxAttempts <= 34 {
      forall a | 1 <= a < maxAttempts
        ensures Delay(a) == Intended(a)
      {
        SafeBudget(maxAttempts, a);
      }
    } else {
      FirstOverflow();
    }
  }
}
