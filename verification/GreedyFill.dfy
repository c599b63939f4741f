/**
 * The order book's price levels as one list, and the greedy fill of such a list
 * that matching and quoting come down to (dex/orderbook.rs).
 */
module GreedyFill {
  import opened Common

  type Price = nat
  type OrderId = nat

  datatype Side = Buy | Sell

  datatype OrderType = Market | Limit | StopLoss | TakeProfit | Iceberg(visibleAmount: nat)

  datatype Order = Order(id: OrderId, trader: nat, orderType: OrderType, side: Side, amount: nat, price: Price)

  datatype Trade = Trade(makerOrderId: OrderId, takerOrderId: OrderId, amount: nat, price: Price)

  /** `Panic` stands for a subtraction below zero. */
  datatype DexError = InvalidPrice | OrderNotFound | InsufficientLiquidity | Panic

  type Levels = map<Price, seq<Order>>

  // ----- the keys of a sorted map -----

  predicate IsLeast(m: nat, s: set<nat>) {
    m in s && forall x | x in s :: m <= x
  }

  lemma {:induction false} LeastExists(s: set<nat>)
    requires s != {}
    ensures exists m :: IsLeast(m, s)
  {
    var y :| y in s;
    if s == {y} {
      assert IsLeast(y, s);
    } else {
      LeastExists(s - {y});
      var m :| IsLeast(m, s - {y});
      assert forall x | x in s :: x == y || x in s - {y};
      assert IsLeast(if y < m then y else m, s);
    }
  }

  lemma LeastUnique(m: nat, n: nat, s: set<nat>)
    requires IsLeast(m, s) && IsLeast(n, s)
    ensures m == n
  {
  }

  function Least(s: set<nat>): (m: nat)
    requires s != {}
    ensures IsLeast(m, s)
  {
    LeastExists(s);
    assert forall m, n | IsLeast(m, s) && IsLeast(n, s) :: m == n by {
      forall m, n | IsLeast(m, s) && IsLeast(n, s)
        ensures m == n
      {
        LeastUnique(m, n, s);
      }
    }
    var m :| IsLeast(m, s);
    m
  }

  function SortedKeys(s: set<nat>): (r: seq<nat>)
    ensures forall x :: x in r <==> x in s
    ensures forall i, j | 0 <= i < j < |r| :: r[i] < r[j]
  {
    if s == {} then []
    else
      var m := Least(s);
      var rest := SortedKeys(s - {m});
      assert forall i | 0 <= i < |rest| :: rest[i] in rest;
      [m] + rest
  }

  function Reversed(s: seq<nat>): (r: seq<nat>)
    ensures |r| == |s| && forall i | 0 <= i < |r| :: r[i] == s[|s| - 1 - i]
    ensures forall x :: x in r <==> x in s
  {
    var r := seq(|s|, i requires 0 <= i < |s| => s[|s| - 1 - i]);
    assert forall i | 0 <= i < |s| :: s[i] == r[|s| - 1 - i];
    r
  }

  // ----- the book as one list -----

  /** The resting orders level after level; a missing level is empty. */
  function Flat(levels: Levels, prices: seq<Price>): seq<Order> {
    if prices == [] then []
    else (if prices[0] in levels then levels[prices[0]] else []) + Flat(levels, prices[1..])
  }

  /** Sell orders, cheapest first. */
  function Asks(levels: Levels): seq<Order> {
    Flat(levels, SortedKeys(levels.Keys))
  }

  /** Buy orders, dearest first. */
  function Bids(levels: Levels): seq<Order> {
    Flat(levels, Reversed(SortedKeys(levels.Keys)))
  }

  lemma {:induction false} FlatConcat(levels: Levels, p: seq<Price>, q: seq<Price>)
    ensures Flat(levels, p + q) == Flat(levels, p) + Flat(levels, q)
  {
    if p == [] {
      assert p + q == q;
    } else {
      assert (p + q)[1..] == p[1..] + q;
      FlatConcat(levels, p[1..], q);
    }
  }

  lemma {:induction false} FlatAgrees(levels: Levels, levels': Levels, prices: seq<Price>)
    requires forall p | p in prices :: Lookup(levels, p) == Lookup(levels', p)
    ensures Flat(levels, prices) == Flat(levels', prices)
  {
    if prices != [] {
      assert prices[0] in prices;
      assert Lookup(levels, prices[0]) == Lookup(levels', prices[0]);
      FlatAgrees(levels, levels', prices[1..]);
    }
  }

  lemma {:induction false} FlatEmpty(levels: Levels, prices: seq<Price>)
    requires forall p | p in prices :: p !in levels
    ensures Flat(levels, prices) == []
  {
    if prices != [] {
      assert prices[0] in prices;
      FlatEmpty(levels, prices[1..]);
    }
  }

  function Keep(prices: seq<Price>, s: set<Price>): (r: seq<Price>)
    ensures forall p :: p in r <==> p in prices && p in s
  {
    if prices == [] then [] else (if prices[0] in s then [prices[0]] else []) + Keep(prices[1..], s)
  }

  lemma {:induction false} FlatKeep(levels: Levels, prices: seq<Price>)
    ensures Flat(levels, Keep(prices, levels.Keys)) == Flat(levels, prices)
  {
    if prices != [] {
      FlatKeep(levels, prices[1..]);
      var tail := Keep(prices[1..], levels.Keys);
      if prices[0] in levels {
        assert Keep(prices, levels.Keys) == [prices[0]] + tail;
      } else {
        assert Keep(prices, levels.Keys) == tail;
      }
    }
  }

  ghost predicate Monotone(prices: seq<Price>, up: bool) {
    forall i, j | 0 <= i < j < |prices| :: if up then prices[i] < prices[j] else prices[i] > prices[j]
  }

  lemma {:induction false} MonotoneUnique(a: seq<Price>, b: seq<Price>, up: bool)
    requires Monotone(a, up) && Monotone(b, up) && forall p :: p in a <==> p in b
    ensures a == b
  {
    if a == [] {
      assert forall i | 0 <= i < |b| :: b[i] in a;
    } else {
      assert a[0] in b;
      assert b[0] in a;
      var i :| 0 <= i < |b| && b[i] == a[0];
      var j :| 0 <= j < |a| && a[j] == b[0];
      assert a[0] == b[0];
      forall p
        ensures p in a[1..] <==> p in b[1..]
      {
        TailOf(a, up, p);
        TailOf(b, up, p);
      }
      MonotoneUnique(a[1..], b[1..], up);
    }
  }

  lemma TailOf(a: seq<Price>, up: bool, p: Price)
    requires a != [] && Monotone(a, up)
    ensures p in a[1..] <==> p in a && p != a[0]
  {
    if p in a && p != a[0] {
      var i :| 0 <= i < |a| && a[i] == p;
      assert a[1..][i - 1] == p;
    }
  }

  lemma {:induction false} KeepMonotone(prices: seq<Price>, s: set<Price>, up: bool)
    requires Monotone(prices, up)
    ensures Monotone(Keep(prices, s), up)
  {
    if prices != [] {
      var tail := Keep(prices[1..], s);
      assert Monotone(prices[1..], up);
      KeepMonotone(prices[1..], s, up);
      forall p | p in tail
        ensures if up then prices[0] < p else prices[0] > p
      {
        TailOf(prices, up, p);
        HeadFirst(prices, up, p);
      }
      Prepend(prices[0], tail, up);
    }
  }

  lemma HeadFirst(a: seq<Price>, up: bool, p: Price)
    requires a != [] && Monotone(a, up) && p in a && p != a[0]
    ensures if up then a[0] < p else a[0] > p
  {
    var i :| 0 <= i < |a| && a[i] == p;
  }

  lemma Prepend(first: Price, tail: seq<Price>, up: bool)
    requires Monotone(tail, up) && forall p | p in tail :: if up then first < p else first > p
    ensures Monotone([first] + tail, up)
  {
    assert forall i | 0 <= i < |tail| :: tail[i] in tail;
  }

  /** Listing the levels along an older, longer price list gives the same book. */
  lemma FlatAlongOldPrices(levels: Levels, prices: seq<Price>, up: bool)
    requires Monotone(prices, up) && forall p | p in levels :: p in prices
    ensures Flat(levels, prices) == if up then Asks(levels) else Bids(levels)
  {
    var now := if up then SortedKeys(levels.Keys) else Reversed(SortedKeys(levels.Keys));
    FlatKeep(levels, prices);
    KeepMonotone(prices, levels.Keys, up);
    MonotoneUnique(Keep(prices, levels.Keys), now, up);
  }

  // ----- greedy filling of a list -----

  datatype PriceLimit = NoLimit | AtMost(price: Price) | AtLeast(price: Price)

  predicate Accepts(limit: PriceLimit, price: Price) {
    match limit
    case NoLimit => true
    case AtMost(p) => price <= p
    case AtLeast(p) => price >= p
  }

  /** Trades made, resting orders left, taker amount left, ids of makers used up. */
  datatype Filling = Filling(trades: seq<Trade>, rest: seq<Order>, left: nat, gone: set<OrderId>)

  /** Fills `remaining` from the front of the list while the limit allows. */
  function Greedy(makers: seq<Order>, taker: OrderId, remaining: nat, limit: PriceLimit): Filling {
    if remaining == 0 || makers == [] || !Accepts(limit, makers[0].price) then Filling([], makers, remaining, {})
    else
      var maker := makers[0];
      if maker.amount <= remaining then
        var f := Greedy(makers[1..], taker, remaining - maker.amount, limit);
        f.(trades := [Trade(maker.id, taker, maker.amount, maker.price)] + f.trades, gone := {maker.id} + f.gone)
      else
        Filling([Trade(maker.id, taker, remaining, maker.price)],
                [maker.(amount := maker.amount - remaining)] + makers[1..], 0, {})
  }

  function Resting(orders: seq<Order>): nat {
    if orders == [] then 0 else orders[0].amount + Resting(orders[1..])
  }

  function Traded(trades: seq<Trade>): nat {
    if trades == [] then 0 else trades[0].amount + Traded(trades[1..])
  }

  function Cost(trades: seq<Trade>): nat {
    if trades == [] then 0 else trades[0].amount * trades[0].price + Cost(trades[1..])
  }

  /** The resting quantity falls by what is traded, and so does what the taker wants. */
  lemma {:induction false} GreedyConserves(makers: seq<Order>, taker: OrderId, remaining: nat, limit: PriceLimit)
    ensures var f := Greedy(makers, taker, remaining, limit);
            && Resting(makers) == Resting(f.rest) + Traded(f.trades)
            && remaining == f.left + Traded(f.trades)
    decreases |makers|
  {
    if remaining > 0 && makers != [] && Accepts(limit, makers[0].price) {
      var maker := makers[0];
      if maker.amount <= remaining {
        GreedyConserves(makers[1..], taker, remaining - maker.amount, limit);
      } else {
        var f := Greedy(makers, taker, remaining, limit);
        assert f.rest[1..] == makers[1..];
        assert f.trades[1..] == [];
      }
    }
  }

  /** Priority: trade `i` is with maker `i` of the list at that maker's price,
      every maker before the last one traded is used up, and what rests is the
      rest of the list with at most its head reduced. */
  lemma {:induction false} GreedyPriority(makers: seq<Order>, taker: OrderId, remaining: nat, limit: PriceLimit)
    ensures var f := Greedy(makers, taker, remaining, limit);
            && |f.trades| <= |makers|
            && (forall i | 0 <= i < |f.trades| ::
                  && f.trades[i].makerOrderId == makers[i].id && f.trades[i].price == makers[i].price
                  && f.trades[i].takerOrderId == taker && Accepts(limit, makers[i].price))
            && (forall i | 0 <= i < |f.trades| - 1 :: f.trades[i].amount == makers[i].amount)
            && ((f.rest == makers[|f.trades|..] && forall i | 0 <= i < |f.trades| :: f.trades[i].amount == makers[i].amount)
                || (|f.trades| > 0 && f.left == 0 &&
                    var last := |f.trades| - 1;
                    && f.trades[last].amount < makers[last].amount
                    && f.rest == [makers[last].(amount := makers[last].amount - f.trades[last].amount)] + makers[last + 1..]))
    decreases |makers|
  {
    if remaining > 0 && makers != [] && Accepts(limit, makers[0].price) && makers[0].amount <= remaining {
      var rest := Greedy(makers[1..], taker, remaining - makers[0].amount, limit);
      GreedyPriority(makers[1..], taker, remaining - makers[0].amount, limit);
      var f := Greedy(makers, taker, remaining, limit);
      assert f.trades[1..] == rest.trades;
      assert forall i | 0 < i < |makers| :: makers[i] == makers[1..][i - 1];
      assert makers[|f.trades|..] == makers[1..][|rest.trades|..];
    }
  }

  /** Prices that never improve along the list. */
  ghost predicate Worsening(orders: seq<Order>, up: bool) {
    forall i, j | 0 <= i <= j < |orders| :: if up then orders[i].price <= orders[j].price else orders[i].price >= orders[j].price
  }

  /** The limit of a taker who prefers the front of the list. */
  ghost predicate Suits(limit: PriceLimit, up: bool) {
    limit.NoLimit? || (if up then limit.AtMost? else limit.AtLeast?)
  }

  ghost predicate NothingWithin(orders: seq<Order>, limit: PriceLimit) {
    forall o | o in orders :: !Accepts(limit, o.price)
  }

  /** Either the taker is filled or no resting order within its limit is left. */
  lemma {:induction false} GreedyMaximal(makers: seq<Order>, taker: OrderId, remaining: nat, limit: PriceLimit, up: bool)
    requires Worsening(makers, up) && Suits(limit, up)
    ensures var f := Greedy(makers, taker, remaining, limit); f.left == 0 || NothingWithin(f.rest, limit)
    decreases |makers|
  {
    if remaining > 0 && makers != [] {
      if Accepts(limit, makers[0].price) {
        if makers[0].amount <= remaining {
          assert forall i | 0 <= i < |makers[1..]| :: makers[1..][i] == makers[i + 1];
          GreedyMaximal(makers[1..], taker, remaining - makers[0].amount, limit, up);
        }
      } else {
        forall o | o in makers
          ensures !Accepts(limit, o.price)
        {
          var i :| 0 <= i < |makers| && makers[i] == o;
        }
      }
    }
  }

  ghost predicate WorseningTrades(trades: seq<Trade>, up: bool) {
    forall i, j | 0 <= i <= j < |trades| ::
      if up then trades[i].price <= trades[j].price else trades[i].price >= trades[j].price
  }

  ghost predicate AllWithin(trades: seq<Trade>, limit: PriceLimit) {
    forall t | t in trades :: Accepts(limit, t.price)
  }

  /** Trade prices never improve from one trade to the next, and keep to the limit. */
  lemma TradesWorsen(makers: seq<Order>, taker: OrderId, remaining: nat, limit: PriceLimit, up: bool)
    requires Worsening(makers, up)
    ensures var trades := Greedy(makers, taker, remaining, limit).trades;
            WorseningTrades(trades, up) && AllWithin(trades, limit)
  {
    GreedyPriority(makers, taker, remaining, limit);
  }

  /** The trade is with an order of the list at its price, for no more than it offers. */
  ghost predicate WithMaker(t: Trade, makers: seq<Order>) {
    exists o :: o in makers && o.id == t.makerOrderId && o.price == t.price && t.amount <= o.amount
  }

  /** Nothing that rests is better than anything traded. */
  lemma BestAreTraded(makers: seq<Order>, taker: OrderId, remaining: nat, limit: PriceLimit, up: bool)
    requires Worsening(makers, up)
    ensures var f := Greedy(makers, taker, remaining, limit);
            && (forall t, o | t in f.trades && o in f.rest :: if up then t.price <= o.price else t.price >= o.price)
            && (forall t | t in f.trades :: t.takerOrderId == taker && WithMaker(t, makers))
  {
    hide Greedy;
    GreedyPriority(makers, taker, remaining, limit);
    var f := Greedy(makers, taker, remaining, limit);
    forall t, o | t in f.trades && o in f.rest
      ensures if up then t.price <= o.price else t.price >= o.price
    {
      var i :| 0 <= i < |f.trades| && f.trades[i] == t;
      var k :| 0 <= k < |f.rest| && f.rest[k] == o;
      assert exists j :: i <= j < |makers| && makers[j].price == o.price by {
        var j := if f.rest == makers[|f.trades|..] then |f.trades| + k else |f.trades| - 1 + k;
        assert makers[j].price == o.price;
      }
    }
    forall t | t in f.trades
      ensures t.takerOrderId == taker && WithMaker(t, makers)
    {
      var i :| 0 <= i < |f.trades| && f.trades[i] == t;
      assert makers[i] in makers;
    }
  }

  lemma GreedyPartial(a: seq<Order>, b: seq<Order>, taker: OrderId, remaining: nat, limit: PriceLimit)
    requires a != [] && 0 < remaining < a[0].amount && Accepts(limit, a[0].price)
    ensures var f, g := Greedy(a + b, taker, remaining, limit), Greedy(a, taker, remaining, NoLimit);
            g.rest != [] && g.left == 0 && f == Filling(g.trades, g.rest + b, 0, g.gone)
  {
    var maker := a[0].(amount := a[0].amount - remaining);
    assert (a + b)[1..] == a[1..] + b;
    assert [maker] + (a[1..] + b) == ([maker] + a[1..]) + b;
  }

  /** `f` after one more trade at the front that used up its maker. */
  function After(first: Trade, f: Filling): Filling {
    f.(trades := [first] + f.trades, gone := {first.makerOrderId} + f.gone)
  }

  /** Filling `b` after `g` filled what came before it. */
  function Then(g: Filling, b: seq<Order>, taker: OrderId, limit: PriceLimit): Filling {
    if g.rest != [] then Filling(g.trades, g.rest + b, g.left, g.gone)
    else
      var k := Greedy(b, taker, g.left, limit);
      Filling(g.trades + k.trades, k.rest, k.left, g.gone + k.gone)
  }

  lemma GreedyTakes(makers: seq<Order>, taker: OrderId, remaining: nat, limit: PriceLimit)
    requires makers != [] && 0 < remaining && makers[0].amount <= remaining && Accepts(limit, makers[0].price)
    ensures Greedy(makers, taker, remaining, limit) ==
            After(Trade(makers[0].id, taker, makers[0].amount, makers[0].price),
                  Greedy(makers[1..], taker, remaining - makers[0].amount, limit))
  {
  }

  lemma AfterThen(first: Trade, g: Filling, b: seq<Order>, taker: OrderId, limit: PriceLimit)
    ensures After(first, Then(g, b, taker, limit)) == Then(After(first, g), b, taker, limit)
  {
    var k := Greedy(b, taker, g.left, limit);
    assert [first] + (g.trades + k.trades) == [first] + g.trades + k.trades;
    assert {first.makerOrderId} + (g.gone + k.gone) == {first.makerOrderId} + g.gone + k.gone;
  }

  /** Filling from a list whose front part is all acceptable: first that part,
      then, if it is used up, the other. */
  lemma {:induction false} GreedyConcat(a: seq<Order>, b: seq<Order>, taker: OrderId, remaining: nat, limit: PriceLimit)
    requires forall o | o in a :: Accepts(limit, o.price)
    ensures var g := Greedy(a, taker, remaining, NoLimit);
            && Greedy(a + b, taker, remaining, limit) == Then(g, b, taker, limit)
            && (g.rest != [] ==> g.left == 0)
    decreases |a|
  {
    if a == [] {
      assert a + b == b;
      var k := Greedy(b, taker, remaining, limit);
      assert [] + k.trades == k.trades && {} + k.gone == k.gone;
    } else if remaining > 0 {
      assert a[0] in a && (a + b)[1..] == a[1..] + b;
      if a[0].amount <= remaining {
        var first := Trade(a[0].id, taker, a[0].amount, a[0].price);
        GreedyConcat(a[1..], b, taker, remaining - a[0].amount, limit);
        GreedyTakes(a + b, taker, remaining, limit);
        GreedyTakes(a, taker, remaining, NoLimit);
        hide Greedy, Then;
        AfterThen(first, Greedy(a[1..], taker, remaining - a[0].amount, NoLimit), b, taker, limit);
      } else {
        GreedyPartial(a, b, taker, remaining, limit);
      }
    }
  }

  // ----- quoting -----

  /** `calculate_market_buy` on the flattened book: `None` for insufficient liquidity. */
  function Quote(makers: seq<Order>, amount: nat): Option<nat> {
    if makers == [] then (if amount == 0 then Some(0) else None)
    else
      var traded := Min(amount, makers[0].amount);
      if amount - traded == 0 then Some(traded * makers[0].price)
      else
        var rest := Quote(makers[1..], amount - traded);
        if rest.Some? then Some(traded * makers[0].price + rest.value) else None
  }

  /** A quote exists exactly when a market order of that size would be filled,
      and it is the cost of that order's trades. */
  lemma {:induction false} QuoteIsExact(makers: seq<Order>, taker: OrderId, amount: nat)
    ensures var f := Greedy(makers, taker, amount, NoLimit);
            Quote(makers, amount) == if f.left == 0 then Some(Cost(f.trades)) else None
    decreases |makers|
  {
    if makers != [] && amount > 0 {
      if makers[0].amount <= amount {
        QuoteIsExact(makers[1..], taker, amount - makers[0].amount);
        var f := Greedy(makers[1..], taker, amount - makers[0].amount, NoLimit);
        var trade := Trade(makers[0].id, taker, makers[0].amount, makers[0].price);
        assert ([trade] + f.trades)[1..] == f.trades;
        if amount == makers[0].amount {
          assert f.trades == [];
        }
      } else {
        var trade := Trade(makers[0].id, taker, amount, makers[0].price);
        assert [trade][1..] == [];
      }
    }
  }
}
