/**
 * The decision core of one triangular-arbitrage cycle (`trading`): from the
 * best entries of the three order books it derives the three legs' prices and
 * amounts by a capping cascade, then decides whether to trade.
 *
 * Pair Z is target-buy (the target coin is bought with the buy coin), pair Y
 * is target-sell (the target coin is sold for the sell coin) and pair L is
 * buy-sell (the buy coin is bought back with the sell coin). Prices, amounts
 * and the fee are exact reals.
 */
module Arbitrage {
  import opened JsNumber
  import opened Signing

  /** Best entry of an order book as fetched: `[price, volume]`. */
  datatype BookTop = BookTop(price: real, volume: real)

  /** Prices and amounts of the three legs. */
  datatype Legs = Legs(zPrice: real, zAmount: real, yPrice: real, yAmount: real, lPrice: real, lAmount: real)

  /** Symbols of the three trading pairs. */
  datatype Pairs = Pairs(z: string, y: string, l: string)

  /** One limit order of the execute path. */
  datatype Order = Order(pair: string, side: Side, amount: real, price: real)

  /** A trading-pair symbol such as `ETH-BTC`. */
  function PairSymbol(base: string, quote: string): string
  {
    base + "-" + quote
  }

  /** A pair symbol names its two coins unambiguously when the base coin holds no `-`. */
  lemma PairSymbolSplits(base: string, quote: string)
    requires '-' !in base
    ensures SplitAt(PairSymbol(base, quote), '-') == Wrappers.Some((base, quote))
    ensures '/' !in base && '/' !in quote ==> '/' !in PairSymbol(base, quote)
  {
    assert PairSymbol(base, quote) == base + ['-'] + quote;
    SplitAtFirst(base, '-', quote);
  }

  function TradingPairs(targetCoin: string, buyCoin: string, sellCoin: string): Pairs
  {
    Pairs(PairSymbol(targetCoin, buyCoin), PairSymbol(targetCoin, sellCoin), PairSymbol(buyCoin, sellCoin))
  }

  /**
   * Paths of the three order-book reads: the sell side (asks) of Z and L,
   * where the cycle buys, and the buy side (bids) of Y, where it sells.
   */
  function BookEndpoints(pairs: Pairs): (paths: seq<string>)
    ensures |paths| == 3
    ensures paths[1] != paths[0] && paths[1] != paths[2]
    ensures paths[0] == paths[2] <==> pairs.z == pairs.l
  {
    BookPathsDiffer(pairs.z, pairs.y);
    BookPathsDiffer(pairs.l, pairs.y);
    BookPathsDiffer(pairs.z, pairs.l);
    ["/v1/" + pairs.z + "/open/orders-sell",
     "/v1/" + pairs.y + "/open/orders-buy",
     "/v1/" + pairs.l + "/open/orders-sell"]
  }

  /** A sell-side path never equals a buy-side path, and sell-side paths differ exactly when their pairs do. */
  lemma BookPathsDiffer(p: string, q: string)
    ensures "/v1/" + p + "/open/orders-sell" != "/v1/" + q + "/open/orders-buy"
    ensures "/v1/" + p + "/open/orders-sell" == "/v1/" + q + "/open/orders-sell" <==> p == q
  {
    var a := "/v1/" + p + "/open/orders-sell";
    var b := "/v1/" + q + "/open/orders-buy";
    assert a[|a| - 1] == 'l' && b[|b| - 1] == 'y';
    if a == "/v1/" + q + "/open/orders-sell" {
      assert |p| == |q|;
      assert a[4..4 + |p|] == p;
      assert ("/v1/" + q + "/open/orders-sell")[4..4 + |q|] == q;
    }
  }

  /** The fee on the input amount, `fee` being a percentage. Computed once per cycle. */
  function FeeAmount(inputAmount: real, fee: real): real
  {
    inputAmount * (fee / 100.0)
  }

  function Min(a: real, b: real): real
  {
    if a <= b then a else b
  }

  function Max(a: real, b: real): real
  {
    if a >= b then a else b
  }

  /**
   * The cascade divides by the Z price only when the L cap fires; with a zero
   * Z price the L amount is zero, so the cap fires only on a negative L volume.
   */
  predicate CascadeDefined(z: BookTop, l: BookTop)
  {
    z.price != 0.0 || 0.0 <= l.volume
  }

  /**
   * Closed form of the Z amount the cascade ends with: the input amount plus
   * fee, lowered to the Z volume, to the Y volume plus fee, and then moved to
   * the L volume divided by the Z price when the L amount exceeds that volume
   * (a lowering for a positive price).
   */
  function CappedZAmount(inputAmount: real, fee: real, z: BookTop, y: BookTop, l: BookTop): real
  {
    var f := FeeAmount(inputAmount, fee);
    var afterY := Min(Min(inputAmount + f, z.volume), y.volume + f);
    if z.price > 0.0 then Min(afterY, l.volume / z.price)
    else if z.price < 0.0 then Max(afterY, l.volume / z.price)
    else afterY
  }

  /** The legs the cascade produces, stated without its sequence of steps. */
  function CascadeSpec(inputAmount: real, fee: real, z: BookTop, y: BookTop, l: BookTop): Legs
  {
    var zAmount := CappedZAmount(inputAmount, fee, z, y, l);
    Legs(z.price, zAmount, y.price, zAmount - FeeAmount(inputAmount, fee), l.price, z.price * zAmount)
  }

  /** `p * a > v` compared with `a` against `v / p`. */
  lemma ProductBound(p: real, a: real, v: real)
    requires p != 0.0
    ensures p * (v / p) == v
    ensures p > 0.0 ==> (p * a > v <==> a > v / p)
    ensures p < 0.0 ==> (p * a > v <==> a < v / p)
  {
  }

  /**
   * The cascade of `trading`: leg amounts derived step by step, each step
   * capping one leg at its book's volume and carrying the cap back into the
   * earlier legs. The fee amount is fixed before the first cap and never
   * recomputed.
   */
  method Cascade(inputAmount: real, fee: real, z: BookTop, y: BookTop, l: BookTop) returns (legs: Legs)
    requires CascadeDefined(z, l)
    ensures legs == CascadeSpec(inputAmount, fee, z, y, l)
    ensures legs.zPrice == z.price && legs.yPrice == y.price && legs.lPrice == l.price
    ensures legs.zAmount == legs.yAmount + FeeAmount(inputAmount, fee)
    ensures legs.lAmount == z.price * legs.zAmount
  {
    var feeInputAmount := inputAmount * (fee / 100.0);

    var zPrice := z.price;
    var zAmount := inputAmount + feeInputAmount;
    if zAmount > z.volume {
      zAmount := z.volume;
    }

    var yPrice := y.price;
    var yAmount := zAmount - feeInputAmount;
    if yAmount > y.volume {
      yAmount := y.volume;
      zAmount := yAmount + feeInputAmount;
    }
    ghost var afterY := zAmount;
    assert afterY == Min(Min(inputAmount + feeInputAmount, z.volume), y.volume + feeInputAmount);

    var lPrice := l.price;
    var lAmount := zPrice * zAmount;
    if lAmount > l.volume {
      ProductBound(zPrice, afterY, l.volume);
      lAmount := l.volume;
      zAmount := lAmount / zPrice;
      yAmount := zAmount - feeInputAmount;
    } else if zPrice != 0.0 {
      ProductBound(zPrice, afterY, l.volume);
    }

    legs := Legs(zPrice, zAmount, yPrice, yAmount, lPrice, lAmount);
  }

  /** For a non-negative Z price every amount ends within the volume of its book. */
  lemma CascadeCapsHold(inputAmount: real, fee: real, z: BookTop, y: BookTop, l: BookTop)
    requires CascadeDefined(z, l) && z.price >= 0.0
    ensures var legs := CascadeSpec(inputAmount, fee, z, y, l);
      legs.zAmount <= z.volume && legs.yAmount <= y.volume && legs.lAmount <= l.volume
  {
  }

  /**
   * For a non-negative Z price no cap raises an amount: the Z amount stays
   * at most the input amount plus fee, the Y amount at most the input amount,
   * and the L amount at most what the uncapped Z amount costs.
   */
  lemma CascadeNeverGrows(inputAmount: real, fee: real, z: BookTop, y: BookTop, l: BookTop)
    requires z.price >= 0.0
    ensures var legs := CascadeSpec(inputAmount, fee, z, y, l);
      var f := FeeAmount(inputAmount, fee);
      legs.zAmount <= inputAmount + f && legs.yAmount <= inputAmount
      && legs.lAmount <= z.price * (inputAmount + f)
  {
  }

  /** An amount of the target coin that respects the input and all three volumes. */
  predicate Feasible(a: real, inputAmount: real, fee: real, z: BookTop, y: BookTop, l: BookTop)
  {
    var f := FeeAmount(inputAmount, fee);
    a <= inputAmount + f && a <= z.volume && a - f <= y.volume && z.price * a <= l.volume
  }

  /**
   * For a positive Z price the cascade finds the largest feasible Z amount:
   * its result is feasible and every feasible amount is at most it.
   */
  lemma CascadeMaximal(inputAmount: real, fee: real, z: BookTop, y: BookTop, l: BookTop)
    requires z.price > 0.0
    ensures Feasible(CascadeSpec(inputAmount, fee, z, y, l).zAmount, inputAmount, fee, z, y, l)
    ensures forall a :: Feasible(a, inputAmount, fee, z, y, l) ==> a <= CascadeSpec(inputAmount, fee, z, y, l).zAmount
  {
  }

  /**
   * `isAmoutValid`: the table must hold a truthy (non-zero) entry for the
   * coin, and that entry bounds the amount from above.
   */
  function IsAmountValid(minAmounts: map<string, real>, coin: string, amount: real): (valid: bool)
    ensures valid ==> coin in minAmounts && amount <= minAmounts[coin]
    ensures coin !in minAmounts ==> !valid
  {
    coin in minAmounts && minAmounts[coin] != 0.0 && minAmounts[coin] >= amount
  }

  /** The check accepts exactly the amounts up to a non-zero entry, and is closed downwards. */
  lemma AmountCheckBoundsAbove(minAmounts: map<string, real>, coin: string, amount: real, smaller: real)
    ensures coin in minAmounts && minAmounts[coin] == 0.0 ==> !IsAmountValid(minAmounts, coin, amount)
    ensures coin in minAmounts && minAmounts[coin] != 0.0 && amount <= minAmounts[coin]
            ==> IsAmountValid(minAmounts, coin, amount)
    ensures IsAmountValid(minAmounts, coin, amount) && smaller <= amount
            ==> IsAmountValid(minAmounts, coin, smaller)
  {
  }

  /** `checkMinAmount`: both target-coin amounts and the buy-coin amount pass the check. */
  function CheckMinAmount(minAmounts: map<string, real>, targetCoin: string, buyCoin: string, legs: Legs): (ok: bool)
    ensures ok ==> targetCoin in minAmounts && buyCoin in minAmounts
    ensures ok ==> legs.zAmount <= minAmounts[targetCoin] && legs.yAmount <= minAmounts[targetCoin]
                   && legs.lAmount <= minAmounts[buyCoin]
  {
    IsAmountValid(minAmounts, targetCoin, legs.zAmount)
    && IsAmountValid(minAmounts, targetCoin, legs.yAmount)
    && IsAmountValid(minAmounts, buyCoin, legs.lAmount)
  }

  /** `(left / right - 1) * 100` evaluated as JavaScript does, including division by zero. */
  function PercentChange(left: real, right: real): (change: Num)
    ensures right != 0.0 ==> change.Finite?
    ensures right > 0.0 ==> (change.value > 0.0 <==> left > right)
    ensures right == 0.0 ==> (change == PosInf <==> left > 0.0) && (change == NaN <==> left == 0.0)
  {
    MulReal(SubReal(Divide(left, right), 1.0), 100.0)
  }

  /** A finite change above `k` percent means the quotient beats `1 + k/100`. */
  lemma PercentChangeAbove(left: real, right: real, k: real)
    requires right > 0.0
    ensures PercentChange(left, right).value > k <==> left > right * (1.0 + k / 100.0)
  {
  }

  /** Everything the trigger computes. */
  datatype Verdict = Verdict(checkMinAmount: bool, left: real, right: real, change: Num, condition: bool)

  /**
   * The trigger: the amounts pass the minimum-amount check, the Y price beats
   * the product of the Z and L prices, and the percentage change exceeds
   * twice the fee.
   */
  function Trigger(legs: Legs, fee: real, minAmounts: map<string, real>, targetCoin: string, buyCoin: string): (v: Verdict)
    ensures v.left == legs.yPrice && v.right == legs.zPrice * legs.lPrice
    ensures v.checkMinAmount == CheckMinAmount(minAmounts, targetCoin, buyCoin, legs)
    ensures v.condition <==> v.checkMinAmount && v.left > v.right
                             && (v.right != 0.0 ==> (v.left / v.right - 1.0) * 100.0 > 2.0 * fee)
    ensures v.condition ==> v.change == PosInf || (v.change.Finite? && v.change.value > 2.0 * fee)
  {
    var checkMinAmount := CheckMinAmount(minAmounts, targetCoin, buyCoin, legs);
    var left := legs.yPrice;
    var right := legs.zPrice * legs.lPrice;
    var change := PercentChange(left, right);
    Verdict(checkMinAmount, left, right, change, checkMinAmount && left > right && Greater(change, Finite(fee * 2.0)))
  }

  /**
   * The trigger is off when the Y price does not beat the product of the
   * other two, when a finite change does not exceed twice the fee, or when an
   * amount fails its check; a positive product below the Y price gives a
   * positive change.
   */
  lemma TriggerGating(legs: Legs, fee: real, minAmounts: map<string, real>, targetCoin: string, buyCoin: string)
    ensures var v := Trigger(legs, fee, minAmounts, targetCoin, buyCoin);
      (legs.yPrice <= legs.zPrice * legs.lPrice ==> !v.condition)
      && (v.change.Finite? && v.change.value <= 2.0 * fee ==> !v.condition)
      && (!CheckMinAmount(minAmounts, targetCoin, buyCoin, legs) ==> !v.condition)
      && (v.right > 0.0 && v.left > v.right ==> v.change.Finite? && v.change.value > 0.0)
  {
  }

  /**
   * When the trigger fires on a positive price product, the Y price beats
   * that product by more than twice the fee: `YPrice > ZPrice * LPrice * (1 + fee/50)`.
   */
  lemma TriggerBeatsFees(legs: Legs, fee: real, minAmounts: map<string, real>, targetCoin: string, buyCoin: string)
    requires legs.zPrice * legs.lPrice > 0.0
    requires Trigger(legs, fee, minAmounts, targetCoin, buyCoin).condition
    ensures legs.yPrice > legs.zPrice * legs.lPrice * (1.0 + fee / 50.0)
  {
  }

  /** The three orders of the execute path, in the order they are sent. */
  function Orders(pairs: Pairs, legs: Legs): seq<Order>
  {
    [Order(pairs.z, Buy, legs.zAmount, legs.zPrice),
     Order(pairs.y, Sell, legs.yAmount, legs.yPrice),
     Order(pairs.l, Buy, legs.lAmount, legs.lPrice)]
  }

  /** The outcome of one decided cycle: legs, verdict, and the orders placed. */
  datatype Decision = Decision(legs: Legs, verdict: Verdict, orders: seq<Order>)

  /** The whole decision of `trading` once the three books are in. */
  function Decide(targetCoin: string, buyCoin: string, sellCoin: string, inputAmount: real, fee: real,
                  minAmounts: map<string, real>, z: BookTop, y: BookTop, l: BookTop): Decision
  {
    var legs := CascadeSpec(inputAmount, fee, z, y, l);
    var verdict := Trigger(legs, fee, minAmounts, targetCoin, buyCoin);
    Decision(legs, verdict,
      if verdict.condition then Orders(TradingPairs(targetCoin, buyCoin, sellCoin), legs) else [])
  }

  /**
   * Orders are placed exactly when the trigger fires, and then exactly three:
   * BUY on target-buy, SELL on target-sell, BUY on buy-sell, each at the price
   * read from its book. For a non-negative Z price each placed amount lies
   * within its book's volume and under its coin's table entry.
   */
  lemma ExecutedOrders(targetCoin: string, buyCoin: string, sellCoin: string, inputAmount: real, fee: real,
                       minAmounts: map<string, real>, z: BookTop, y: BookTop, l: BookTop)
    requires CascadeDefined(z, l)
    ensures var d := Decide(targetCoin, buyCoin, sellCoin, inputAmount, fee, minAmounts, z, y, l);
      (d.orders != [] <==> d.verdict.condition)
      && d.legs == CascadeSpec(inputAmount, fee, z, y, l)
      && (d.verdict.condition ==>
            |d.orders| == 3
            && d.orders[0].amount == d.legs.zAmount && d.orders[1].amount == d.legs.yAmount
            && d.orders[2].amount == d.legs.lAmount
            && d.orders[0].pair == PairSymbol(targetCoin, buyCoin) && d.orders[0].side == Buy
            && d.orders[1].pair == PairSymbol(targetCoin, sellCoin) && d.orders[1].side == Sell
            && d.orders[2].pair == PairSymbol(buyCoin, sellCoin) && d.orders[2].side == Buy
            && d.orders[0].price == z.price && d.orders[1].price == y.price && d.orders[2].price == l.price
            && d.orders[0].amount <= minAmounts[targetCoin] && d.orders[1].amount <= minAmounts[targetCoin]
            && d.orders[2].amount <= minAmounts[buyCoin]
            && (z.price >= 0.0 ==>
                  d.orders[0].amount <= z.volume && d.orders[1].amount <= y.volume
                  && d.orders[2].amount <= l.volume))
  {
  }
}
