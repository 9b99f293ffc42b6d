/**
 * The scheduler step of `loop` (`checkNextRun`): after every cycle, whether
 * it succeeded or failed, the loop moves to the next configured coin, waiting
 * a short delay within a pass and a longer one when it wraps back to the first
 * coin. The timer itself is not modelled, only the choice of index and delay.
 */
module Rotation {

  /** Delay in milliseconds before the next coin of the same pass. */
  const WithinPassDelay: nat := 1000
  /** Delay in milliseconds before a new pass starts at the first coin. */
  const WrapDelay: nat := 3000

  datatype NextRun = NextRun(index: nat, delay: nat)

  /** The next coin index and the delay before it, for `count` configured coins. */
  function CheckNextRun(index: nat, count: nat): (next: NextRun)
    ensures next.delay == WrapDelay <==> index + 1 == count
    ensures next.delay == WithinPassDelay <==> index + 1 != count
    ensures index < count ==> next.index < count && next.index == (index + 1) % count
  {
    if index + 1 == count then NextRun(0, WrapDelay) else NextRun(index + 1, WithinPassDelay)
  }

  /** The coin index after `steps` cycles, starting from the first coin. */
  function IndexAfter(steps: nat, count: nat): nat
  {
    if steps == 0 then 0 else CheckNextRun(IndexAfter(steps - 1, count), count).index
  }

  lemma ProductAtLeast(d: int, c: int)
    requires c > 0 && d > 0
    ensures d * c >= c
  {
  }

  /** Quotient and remainder are determined by `n == q * c + r` with `0 <= r < c`. */
  lemma DivModUnique(n: nat, c: nat, q: nat, r: nat)
    requires 0 <= r < c && n == q * c + r
    ensures n / c == q && n % c == r
  {
    var q', r' := n / c, n % c;
    assert n == q' * c + r';
    var d: int := q - q';
    assert d * c == r' - r;
    if d > 0 {
      ProductAtLeast(d, c);
    } else if d < 0 {
      ProductAtLeast(-d, c);
    }
  }

  /** One step from `k` to `k + 1` either stays within a pass or completes one. */
  lemma Successor(k: nat, count: nat)
    requires count > 0
    ensures k % count + 1 == count ==> (k + 1) % count == 0 && (k + 1) / count == k / count + 1
    ensures k % count + 1 != count ==> (k + 1) % count == k % count + 1 && (k + 1) / count == k / count
  {
    var q, r := k / count, k % count;
    assert k == q * count + r;
    if r + 1 == count {
      DivModUnique(k + 1, count, q + 1, 0);
    } else {
      DivModUnique(k + 1, count, q, r + 1);
    }
  }

  /** After `steps` cycles the loop is at coin `steps mod count`. */
  lemma {:induction false} IndexAfterIsMod(steps: nat, count: nat)
    requires count > 0
    ensures IndexAfter(steps, count) == steps % count
  {
    if steps > 0 {
      IndexAfterIsMod(steps - 1, count);
      Successor(steps - 1, count);
    }
  }

  /** How many of the first `steps` steps wrapped around, taking the long delay. */
  function Wraps(steps: nat, count: nat): nat
  {
    if steps == 0 then 0
    else Wraps(steps - 1, count)
         + (if CheckNextRun(IndexAfter(steps - 1, count), count).delay == WrapDelay then 1 else 0)
  }

  /** Every `count` cycles make exactly one wrap: `steps` cycles complete `steps / count` passes. */
  lemma {:induction false} WrapsArePasses(steps: nat, count: nat)
    requires count > 0
    ensures Wraps(steps, count) == steps / count
  {
    if steps > 0 {
      WrapsArePasses(steps - 1, count);
      IndexAfterIsMod(steps - 1, count);
      Successor(steps - 1, count);
    }
  }

  /** Sum of the delays the first `steps` scheduler steps choose, in milliseconds. */
  function TotalDelay(steps: nat, count: nat): nat
  {
    if steps == 0 then 0
    else TotalDelay(steps - 1, count) + CheckNextRun(IndexAfter(steps - 1, count), count).delay
  }

  /** After `steps` cycles the loop has waited `1000 * steps + 2000 * (steps / count)` milliseconds. */
  lemma {:induction false} TotalDelayOfSteps(steps: nat, count: nat)
    requires count > 0
    ensures TotalDelay(steps, count) == 1000 * steps + 2000 * (steps / count)
  {
    if steps > 0 {
      TotalDelayOfSteps(steps - 1, count);
      IndexAfterIsMod(steps - 1, count);
      Successor(steps - 1, count);
    }
  }
}
