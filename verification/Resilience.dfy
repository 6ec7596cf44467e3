/** Cooldown of a failed target, and the retry budget of one request. */
module Resilience {
  import opened Int64

  const MAX_ATTEMPTS: nat := 3
  const COOLDOWN_BASE_MS: i64 := 30_000
  const COOLDOWN_MAX_MS: i64 := 300_000

  function Pow2(n: nat): (r: nat)
    ensures r >= 1
  {
    if n == 0 then 1 else 2 * Pow2(n - 1)
  }

  // The shift distance: one less than the failures, never below 0 nor above 10.
  function Doublings(failures: nat): nat {
    if failures == 0 then 0 else if failures - 1 < 10 then failures - 1 else 10
  }

  function CooldownMs(configured: i64, failures: nat): i64 {
    var base := Max(configured, COOLDOWN_BASE_MS);
    Min(Clamp(base * Pow2(Doublings(failures))), Max(COOLDOWN_MAX_MS, base))
  }

  lemma Pow2Monotone(m: nat, n: nat)
    requires m <= n
    ensures Pow2(m) <= Pow2(n)
  {
  }

  lemma ProductMonotone(a: nat, a': nat, b: nat, b': nat)
    requires a <= a' && b <= b'
    ensures a * b <= a' * b'
  {
    assert a * b <= a' * b;
    assert a' * b <= a' * b';
  }

  // Saturation never shows: the cap is itself a 64-bit value.
  lemma CooldownIsCapped(configured: i64, failures: nat)
    ensures
      var base := Max(configured, COOLDOWN_BASE_MS);
      var m := Max(COOLDOWN_MAX_MS, configured);
      var wait := base * Pow2(Doublings(failures));
      && wait >= base
      && CooldownMs(configured, failures) == if wait <= m then wait else m
  {
    var base := Max(configured, COOLDOWN_BASE_MS);
    ProductMonotone(base, base, 1, Pow2(Doublings(failures)));
  }

  // At least the configured duration and 30 s, at most the larger of 300 s and the configured
  // duration, and exactly the lower bound after a first failure.
  lemma CooldownBounds(configured: i64, failures: nat)
    ensures CooldownMs(configured, failures) >= Max(configured, COOLDOWN_BASE_MS)
    ensures CooldownMs(configured, failures) <= Max(COOLDOWN_MAX_MS, configured)
    ensures failures <= 1 ==> CooldownMs(configured, failures) == Max(configured, COOLDOWN_BASE_MS)
  {
    CooldownIsCapped(configured, failures);
  }

  // Never shorter after more failures or for a longer configured duration.
  lemma CooldownMonotone(configured: i64, configured': i64, failures: nat, failures': nat)
    requires configured <= configured' && failures <= failures'
    ensures CooldownMs(configured, failures) <= CooldownMs(configured', failures')
  {
    CooldownIsCapped(configured, failures);
    CooldownIsCapped(configured', failures');
    Pow2Monotone(Doublings(failures), Doublings(failures'));
    ProductMonotone(Max(configured, COOLDOWN_BASE_MS), Max(configured', COOLDOWN_BASE_MS),
                    Pow2(Doublings(failures)), Pow2(Doublings(failures')));
  }

  // Each failure doubles the wait until the cap is reached.
  lemma CooldownDoubles(configured: i64, failures: nat)
    requires 1 <= failures < 11
    ensures
      var m := Max(COOLDOWN_MAX_MS, configured);
      var twice := 2 * CooldownMs(configured, failures);
      CooldownMs(configured, failures + 1) == if twice <= m then twice else m
  {
    var base := Max(configured, COOLDOWN_BASE_MS);
    CooldownIsCapped(configured, failures);
    CooldownIsCapped(configured, failures + 1);
    assert Pow2(Doublings(failures + 1)) == 2 * Pow2(Doublings(failures));
    ProductDoubles(base, Pow2(Doublings(failures)));
  }

  // Without a configured duration: 30 s, 60 s, 120 s, 240 s, and 300 s ever after.
  lemma CooldownSchedule(failures: nat)
    ensures CooldownMs(0, failures) ==
      match failures {
        case 0 => 30_000
        case 1 => 30_000
        case 2 => 60_000
        case 3 => 120_000
        case 4 => 240_000
        case _ => 300_000
      }
  {
    CooldownIsCapped(0, failures);
    if 5 <= failures {
      Pow2Monotone(4, Doublings(failures));
      ProductMonotone(30_000, 30_000, 16, Pow2(Doublings(failures)));
      assert Pow2(4) == 2 * Pow2(3) == 4 * Pow2(2) == 8 * Pow2(1) == 16 * Pow2(0);
    }
  }

  lemma ProductDoubles(a: nat, b: nat)
    ensures a * (2 * b) == 2 * (a * b)
  {
  }
}
