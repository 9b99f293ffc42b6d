/**
 * The rotation loop of the script: one object holding the configuration, the
 * coin index and the running `totalChange`. Each call of `Loop` is one cycle
 * for the current coin followed by the scheduler step. The three order-book
 * reads arrive as a parameter (their network calls are not modelled), and the
 * order submissions are the `orders` the cycle returns.
 */
module TradingLoop {
  import opened JsNumber
  import opened Arbitrage
  import Rotation

  /** One entry of the rotation list: a target coin and the amount to route. */
  datatype TargetEntry = TargetEntry(coin: string, amount: real)

  /**
   * The three order-book reads of a cycle, joined: all three arrived, or one
   * failed. `z`, `y` and `l` are the first entries read from the three paths
   * of `BookEndpoints`, in that order.
   */
  datatype Fetch = Fetched(z: BookTop, y: BookTop, l: BookTop) | FetchFailed

  /** Books on which the cascade's single division is defined. */
  predicate FetchUsable(fetched: Fetch)
  {
    fetched.Fetched? ==> CascadeDefined(fetched.z, fetched.l)
  }

  /** What one cycle did: a failed read, or a decision (with or without orders). */
  datatype Outcome = Failed | Decided(decision: Decision)

  predicate Executed(outcome: Outcome)
  {
    outcome.Decided? && outcome.decision.verdict.condition
  }

  /** The changes an executed cycle can add: finite, or `+Infinity` when the price product is zero. */
  predicate Admissible(history: seq<Outcome>)
  {
    forall i :: 0 <= i < |history| && Executed(history[i]) ==>
      history[i].decision.verdict.change.Finite? || history[i].decision.verdict.change == PosInf
  }

  /** `totalChange` after the cycles of `history`: each executed change added in turn. */
  function Accumulated(history: seq<Outcome>): Num
  {
    if history == [] then Finite(0.0)
    else
      var last := history[|history| - 1];
      var before := Accumulated(history[..|history| - 1]);
      if Executed(last) then Add(before, last.decision.verdict.change) else before
  }

  /** Sum of the finite changes of the executed cycles. */
  function SumExecuted(history: seq<Outcome>): real
  {
    if history == [] then 0.0
    else
      var last := history[|history| - 1];
      SumExecuted(history[..|history| - 1])
      + (if Executed(last) && last.decision.verdict.change.Finite? then last.decision.verdict.change.value else 0.0)
  }

  /** Whether some executed cycle had an infinite change. */
  predicate AnyInfinite(history: seq<Outcome>)
  {
    history != [] &&
    (AnyInfinite(history[..|history| - 1])
     || (Executed(history[|history| - 1]) && !history[|history| - 1].decision.verdict.change.Finite?))
  }

  /**
   * The running total is the sum of the executed cycles' changes, unless one
   * of them was `+Infinity`, which the total then keeps for good.
   */
  lemma {:induction false} AccumulatedIsSum(history: seq<Outcome>)
    requires Admissible(history)
    ensures Accumulated(history) == if AnyInfinite(history) then PosInf else Finite(SumExecuted(history))
  {
    if history != [] {
      var prefix := history[..|history| - 1];
      assert Admissible(prefix) by {
        forall i | 0 <= i < |prefix| && Executed(prefix[i])
          ensures prefix[i].decision.verdict.change.Finite? || prefix[i].decision.verdict.change == PosInf
        {
          assert prefix[i] == history[i];
        }
      }
      AccumulatedIsSum(prefix);
    }
  }

  /** Appending one outcome to the history adds its change exactly when it executed. */
  lemma AccumulatedExtend(history: seq<Outcome>, outcome: Outcome)
    ensures Accumulated(history + [outcome])
            == if Executed(outcome) then Add(Accumulated(history), outcome.decision.verdict.change)
               else Accumulated(history)
    ensures Admissible(history + [outcome]) <==>
            Admissible(history)
            && (Executed(outcome) ==> outcome.decision.verdict.change.Finite? || outcome.decision.verdict.change == PosInf)
  {
  }

  class Arbitrager {
    const targets: seq<TargetEntry>
    const buyCoin: string
    const sellCoin: string
    const fee: real
    /** The minimum-trade table: coin to its entry. */
    const minAmounts: map<string, real>

    var totalChange: Num
    var index: nat
    /** Every cycle run so far, oldest first. */
    ghost var history: seq<Outcome>

    ghost predicate Valid()
      reads this
    {
      |targets| > 0
      && index == Rotation.IndexAfter(|history|, |targets|)
      && index < |targets|
      && totalChange == Accumulated(history)
      && Admissible(history)
    }

    /** The loop is started at the first coin with nothing accumulated. */
    constructor (targets: seq<TargetEntry>, buyCoin: string, sellCoin: string, fee: real,
                 minAmounts: map<string, real>)
      requires |targets| > 0
      ensures Valid()
      ensures this.targets == targets && this.buyCoin == buyCoin && this.sellCoin == sellCoin
      ensures this.fee == fee && this.minAmounts == minAmounts
      ensures index == 0 && totalChange == Finite(0.0) && history == []
    {
      this.targets := targets;
      this.buyCoin := buyCoin;
      this.sellCoin := sellCoin;
      this.fee := fee;
      this.minAmounts := minAmounts;
      totalChange := Finite(0.0);
      index := 0;
      history := [];
    }

    /**
     * One cycle of `trading` for one coin: a failed read decides nothing;
     * otherwise the cascade and the trigger run, and only when the trigger
     * fires are the three orders placed and the change added to the total.
     */
    method Trading(targetCoin: string, inputAmount: real, fetched: Fetch) returns (outcome: Outcome)
      requires FetchUsable(fetched)
      requires totalChange == Accumulated(history) && Admissible(history)
      modifies this`totalChange
      ensures totalChange == Accumulated(history + [outcome]) && Admissible(history + [outcome])
      ensures outcome == match fetched
        case FetchFailed => Failed
        case Fetched(z, y, l) => Decided(Decide(targetCoin, buyCoin, sellCoin, inputAmount, fee, minAmounts, z, y, l))
      ensures totalChange == if Executed(outcome) then Add(old(totalChange), outcome.decision.verdict.change)
                             else old(totalChange)
    {
      if fetched.FetchFailed? {
        AccumulatedExtend(history, Failed);
        return Failed;
      }
      var legs := Cascade(inputAmount, fee, fetched.z, fetched.y, fetched.l);
      var verdict := Trigger(legs, fee, minAmounts, targetCoin, buyCoin);
      var orders: seq<Order> := [];
      if verdict.condition {
        orders := Orders(TradingPairs(targetCoin, buyCoin, sellCoin), legs);
        totalChange := Add(totalChange, verdict.change);
      }
      outcome := Decided(Decision(legs, verdict, orders));
      AccumulatedExtend(history, outcome);
    }

    /**
     * One step of `loop`: a cycle for the current coin, then the next index
     * and delay, taken after a failed read and after a decision alike. After the step the
     * index is the number of cycles run modulo the number of coins, and the
     * total is the sum of the executed cycles' changes.
     */
    method Loop(fetched: Fetch) returns (outcome: Outcome, delay: nat)
      requires Valid() && FetchUsable(fetched)
      modifies this`totalChange, this`index, this`history
      ensures Valid()
      ensures history == old(history) + [outcome]
      ensures outcome == match fetched
        case FetchFailed => Failed
        case Fetched(z, y, l) =>
          Decided(Decide(targets[old(index)].coin, buyCoin, sellCoin, targets[old(index)].amount, fee, minAmounts, z, y, l))
      ensures index == Rotation.CheckNextRun(old(index), |targets|).index
      ensures delay == Rotation.CheckNextRun(old(index), |targets|).delay
      ensures index == |history| % |targets|
      ensures totalChange == if AnyInfinite(history) then PosInf else Finite(SumExecuted(history))
    {
      var target := targets[index];
      outcome := Trading(target.coin, target.amount, fetched);
      var next := Rotation.CheckNextRun(index, |targets|);
      index, delay := next.index, next.delay;
      history := history + [outcome];
      Rotation.IndexAfterIsMod(|history|, |targets|);
      AccumulatedIsSum(history);
    }
  }
}
