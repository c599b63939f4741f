/**
 * Greedy filling gives the best price there is: no other choice from the same
 * resting orders buys as much for less, or sells as much for more (dex/orderbook.rs).
 */
module BestExecution {
  import opened Common
  import opened GreedyFill

  /** How much to take from each order. */
  ghost predicate Choice(take: seq<nat>, makers: seq<Order>) {
    |take| == |makers| && forall i | 0 <= i < |take| :: take[i] <= makers[i].amount
  }

  function Total(take: seq<nat>): nat {
    if take == [] then 0 else take[0] + Total(take[1..])
  }

  /** What the choice comes to at the orders' prices. */
  function Value(take: seq<nat>, makers: seq<Order>): nat
    requires |take| == |makers|
  {
    if take == [] then 0 else take[0] * makers[0].price + Value(take[1..], makers[1..])
  }

  /** Costs count against a buyer and for a seller. */
  function Signed(up: bool, x: int): int {
    if up then x else -x
  }

  lemma SignedProduct(up: bool, n: int, price: int)
    ensures Signed(up, n * price) == n * Signed(up, price)
  {}

  lemma AtLeast(n: nat, a: int, b: int)
    requires a <= b
    ensures n * a <= n * b
  {}

  lemma {:induction false} TotalFits(take: seq<nat>, makers: seq<Order>)
    requires Choice(take, makers)
    ensures Total(take) <= Resting(makers)
  {
    if take != [] {
      ChoiceTail(take, makers);
      TotalFits(take[1..], makers[1..]);
    }
  }

  lemma ChoiceTail(take: seq<nat>, makers: seq<Order>)
    requires Choice(take, makers) && makers != []
    ensures Choice(take[1..], makers[1..])
  {
    forall i | 0 <= i < |take[1..]|
      ensures take[1..][i] <= makers[1..][i].amount
    {
      assert take[i + 1] <= makers[i + 1].amount;
    }
  }

  lemma WorseningTail(makers: seq<Order>, up: bool)
    requires Worsening(makers, up) && makers != []
    ensures Worsening(makers[1..], up)
    ensures |makers| > 1 ==> Signed(up, makers[0].price) <= Signed(up, makers[1..][0].price)
  {
    assert forall i | 0 <= i < |makers[1..]| :: makers[1..][i] == makers[i + 1];
  }

  /** The greedy fill takes what it can from the first order and goes on with the rest. */
  lemma GreedyHead(makers: seq<Order>, taker: OrderId, amount: nat)
    requires makers != []
    ensures var first := Min(amount, makers[0].amount);
            var f, rest := Greedy(makers, taker, amount, NoLimit), Greedy(makers[1..], taker, amount - first, NoLimit);
            f.left == rest.left && Cost(f.trades) == first * makers[0].price + Cost(rest.trades)
  {
    var maker := makers[0];
    if 0 < maker.amount <= amount || (amount > 0 && maker.amount == 0) {
      var rest := Greedy(makers[1..], taker, amount - maker.amount, NoLimit);
      var trade := Trade(maker.id, taker, maker.amount, maker.price);
      assert ([trade] + rest.trades)[1..] == rest.trades;
    } else if amount > 0 {
      assert [Trade(maker.id, taker, amount, maker.price)][1..] == [];
    }
  }

  /** Exchanging what was taken elsewhere for the best order on offer gains nothing. */
  lemma Exchange(first: nat, best: nat, price: int, later: int, value: int, total: nat, amount: nat)
    requires best <= amount <= total && first <= total && amount - best <= total - first
    requires value >= later + (total - first - (amount - best)) * price
    ensures first * price + value >= best * price + later + (total - amount) * price
  {
    var more := total - first - (amount - best);
    assert first * price + more * price == (first + more) * price == (best + (total - amount)) * price;
    assert (best + (total - amount)) * price == best * price + (total - amount) * price;
  }

  /** Taking at least `amount` in whatever way is worth at least what the greedy trades
      are, and the excess at the best price. */
  lemma {:induction false} ChoiceWorth(makers: seq<Order>, taker: OrderId, amount: nat, take: seq<nat>, best: int, up: bool)
    requires Worsening(makers, up) && Choice(take, makers) && amount <= Total(take)
    requires makers != [] ==> best <= Signed(up, makers[0].price)
    ensures var f := Greedy(makers, taker, amount, NoLimit);
            f.left == 0 && Signed(up, Value(take, makers)) >= Signed(up, Cost(f.trades)) + (Total(take) - amount) * best
    decreases |makers|
  {
    hide Greedy, Cost, Worsening;
    if makers != [] {
      var first, price := Min(amount, makers[0].amount), Signed(up, makers[0].price);
      HeadFits(take, makers);
      ChoiceTail(take, makers);
      WorseningTail(makers, up);
      ChoiceWorth(makers[1..], taker, amount - first, take[1..], price, up);
      GreedyHead(makers, taker, amount);
      var later := Cost(Greedy(makers[1..], taker, amount - first, NoLimit).trades);
      SignedProduct(up, take[0], makers[0].price);
      SignedProduct(up, first, makers[0].price);
      Exchange(take[0], first, price, Signed(up, later), Signed(up, Value(take[1..], makers[1..])), Total(take), amount);
      AtLeast(Total(take) - amount, best, price);
    } else {
      GreedyNothing(taker, amount);
    }
  }

  lemma HeadFits(take: seq<nat>, makers: seq<Order>)
    requires Choice(take, makers) && makers != []
    ensures take[0] <= makers[0].amount
  {}

  lemma GreedyNothing(taker: OrderId, amount: nat)
    ensures Greedy([], taker, amount, NoLimit) == Filling([], [], amount, {}) && Cost([]) == 0
  {}

  lemma CostCons(t: Trade, trades: seq<Trade>)
    ensures Cost([t] + trades) == t.amount * t.price + Cost(trades) && Traded([t] + trades) == t.amount + Traded(trades)
  {
    assert ([t] + trades)[1..] == trades;
  }

  /** What a limit lets through is what an order of that size without one would trade. */
  lemma {:induction false} LimitedAsUnlimited(makers: seq<Order>, taker: OrderId, amount: nat, limit: PriceLimit)
    ensures var f := Greedy(makers, taker, amount, limit);
            Cost(Greedy(makers, taker, Traded(f.trades), NoLimit).trades) == Cost(f.trades)
    decreases |makers|
  {
    if amount > 0 && makers != [] && Accepts(limit, makers[0].price) {
      var maker := makers[0];
      if maker.amount <= amount {
        hide Greedy, Cost, Traded;
        LimitedAsUnlimited(makers[1..], taker, amount - maker.amount, limit);
        GreedyTakes(makers, taker, amount, limit);
        var trade := Trade(maker.id, taker, maker.amount, maker.price);
        var rest := Greedy(makers[1..], taker, amount - maker.amount, limit);
        CostCons(trade, rest.trades);
        GreedyHead(makers, taker, maker.amount + Traded(rest.trades));
      } else {
        CostCons(Trade(maker.id, taker, amount, maker.price), []);
      }
    }
  }

  /** No other choice of the same size is worth more to the taker. */
  ghost predicate BestFor(up: bool, cost: nat, size: nat, makers: seq<Order>) {
    forall take | Choice(take, makers) && Total(take) == size ::
      if up then cost <= Value(take, makers) else cost >= Value(take, makers)
  }

  lemma FillIsBest(makers: seq<Order>, taker: OrderId, amount: nat, limit: PriceLimit, up: bool)
    requires Worsening(makers, up)
    ensures var f := Greedy(makers, taker, amount, limit); BestFor(up, Cost(f.trades), Traded(f.trades), makers)
  {
    hide Greedy, Cost, Traded, Worsening, Total, Value;
    var f := Greedy(makers, taker, amount, limit);
    var size := Traded(f.trades);
    LimitedAsUnlimited(makers, taker, amount, limit);
    forall take | Choice(take, makers) && Total(take) == size
      ensures if up then Cost(f.trades) <= Value(take, makers) else Cost(f.trades) >= Value(take, makers)
    {
      ChoiceWorth(makers, taker, size, take, if makers == [] then 0 else Signed(up, makers[0].price), up);
    }
  }

  /** What the greedy fill takes from each order. */
  function Taken(makers: seq<Order>, amount: nat): seq<nat> {
    if makers == [] then [] else [Min(amount, makers[0].amount)] + Taken(makers[1..], amount - Min(amount, makers[0].amount))
  }

  lemma {:induction false} TakenIsChoice(makers: seq<Order>, taker: OrderId, amount: nat)
    requires amount <= Resting(makers)
    ensures var f, take := Greedy(makers, taker, amount, NoLimit), Taken(makers, amount);
            f.left == 0 && Choice(take, makers) && Total(take) == amount && Value(take, makers) == Cost(f.trades)
    decreases |makers|
  {
    hide Greedy, Cost;
    if makers != [] {
      var first := Min(amount, makers[0].amount);
      TakenIsChoice(makers[1..], taker, amount - first);
      GreedyHead(makers, taker, amount);
      var rest := Taken(makers[1..], amount - first);
      assert ([first] + rest)[1..] == rest;
      forall i | 0 <= i < |makers|
        ensures ([first] + rest)[i] <= makers[i].amount
      {
        assert i > 0 ==> rest[i - 1] <= makers[1..][i - 1].amount;
      }
    } else {
      GreedyNothing(taker, amount);
    }
  }

  /** The least cost of so much, if there is as much. */
  ghost predicate LeastCost(cost: nat, size: nat, makers: seq<Order>) {
    && BestFor(true, cost, size, makers)
    && exists take :: Choice(take, makers) && Total(take) == size && Value(take, makers) == cost
  }

  /** A quote is the least that buying the amount can cost, and is given exactly when
      that much is on offer. */
  lemma QuoteIsLeast(makers: seq<Order>, amount: nat)
    requires Worsening(makers, true)
    ensures var f := Greedy(makers, 0, amount, NoLimit);
            && (f.left == 0 <==> amount <= Resting(makers))
            && (f.left == 0 ==> LeastCost(Cost(f.trades), amount, makers))
  {
    GreedyConserves(makers, 0, amount, NoLimit);
    if amount <= Resting(makers) {
      TakenIsChoice(makers, 0, amount);
      FillIsBest(makers, 0, amount, NoLimit, true);
    }
  }
}
