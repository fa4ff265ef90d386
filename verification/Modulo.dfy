/** Facts about remainders that the ring buffers of both players rest on. */
module Modulo {

  // One place further in a ring, as the players compute it without a division.
  function Bump(i: nat, max: nat): nat { if i + 1 == max then 0 else i + 1 }

  lemma MultipleIsFar(max: nat, q: int)
    ensures !(0 < max * q < max)
  {
    assert q >= 1 ==> max * (q - 1) >= 0;
    assert q <= 0 ==> max * -q >= 0;
  }

  // Two positions less than a full turn apart are different slots.
  lemma NearbySlotsDiffer(i: nat, k: nat, max: nat)
    requires i < k < i + max
    ensures i % max != k % max
  {
    if i % max == k % max {
      assert k - i == max * (k / max - i / max);
      MultipleIsFar(max, k / max - i / max);
    }
  }

  lemma RemainderOf(x: nat, max: nat, q: nat, r: nat)
    requires x == max * q + r && r < max
    ensures x % max == r
  {
    var d := x / max - q;
    assert r - x % max == max * d;
    MultipleIsFar(max, d);
    MultipleIsFar(max, -d);
  }

  lemma BumpIsRemainder(n: nat, max: nat)
    requires max > 0
    ensures Bump(n % max, max) == (n + 1) % max == (n % max + 1) % max
  {
    var q, r := n / max, n % max;
    if r + 1 == max {
      assert n + 1 == max * (q + 1);
      RemainderOf(n + 1, max, q + 1, 0);
      RemainderOf(max, max, 1, 0);
    } else {
      RemainderOf(n + 1, max, q, r + 1);
      RemainderOf(r + 1, max, 0, r + 1);
    }
  }
}
