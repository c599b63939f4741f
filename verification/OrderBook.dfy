/**
 * Price-time matching over price levels, cancellation and quoting
 * (dex/orderbook.rs).
 */
module OrderBook {
  import opened Common
  import opened GreedyFill
  import BestExecution

  // ----- what every state of the book keeps -----

  type Index = map<OrderId, Order>

  function Ids(orders: seq<Order>): set<OrderId> {
    set o | o in orders :: o.id
  }

  ghost predicate DistinctIds(orders: seq<Order>) {
    forall i, j | 0 <= i < j < |orders| :: orders[i].id != orders[j].id
  }

  /** A price level: not empty, every order at its price, on its side, and indexed so. */
  ghost predicate LevelOk(orders: seq<Order>, p: Price, side: Side, index: Index) {
    && orders != [] && DistinctIds(orders)
    && forall o | o in orders ::
         o.price == p && o.side == side && o.id in index && index[o.id].price == p && index[o.id].side == side
  }

  ghost predicate SideOk(levels: Levels, side: Side, index: Index) {
    forall p | p in levels :: LevelOk(levels[p], p, side, index)
  }

  /** Every indexed id of the side rests at its indexed price. */
  ghost predicate Indexed(levels: Levels, side: Side, index: Index) {
    forall id | id in index && index[id].side == side ::
      index[id].price in levels && id in Ids(levels[index[id].price])
  }

  ghost predicate BookOk(buys: Levels, sells: Levels, index: Index) {
    SideOk(buys, Buy, index) && SideOk(sells, Sell, index) && Indexed(buys, Buy, index) && Indexed(sells, Sell, index)
  }

  function RestingIds(levels: Levels): set<OrderId> {
    set p, o | p in levels && o in levels[p] :: o.id
  }

  /** The index holds exactly the ids resting in the book, and no id rests on both sides. */
  lemma IndexIsResting(buys: Levels, sells: Levels, index: Index)
    requires BookOk(buys, sells, index)
    ensures index.Keys == RestingIds(buys) + RestingIds(sells)
    ensures RestingIds(buys) !! RestingIds(sells)
  {
    forall id | id in index
      ensures id in RestingIds(buys) + RestingIds(sells)
    {
      var levels := if index[id].side == Buy then buys else sells;
      assert id in Ids(levels[index[id].price]);
      var o: Order :| o in levels[index[id].price] && o.id == id;
    }
    forall id | id in RestingIds(buys)
      ensures id in index && index[id].side == Buy
    {
      var p, o :| p in buys && o in buys[p] && o.id == id;
      assert LevelOk(buys[p], p, Buy, index);
    }
    forall id | id in RestingIds(sells)
      ensures id in index && index[id].side == Sell
    {
      var p, o :| p in sells && o in sells[p] && o.id == id;
      assert LevelOk(sells[p], p, Sell, index);
    }
  }

  lemma IdsCons(o: Order, rest: seq<Order>)
    ensures Ids([o] + rest) == {o.id} + Ids(rest)
    ensures DistinctIds([o] + rest) <==> DistinctIds(rest) && o.id !in Ids(rest)
  {
    var all := [o] + rest;
    if DistinctIds(all) {
      assert forall i | 0 <= i < |rest| :: rest[i] == all[i + 1];
      forall r | r in rest
        ensures r.id != o.id
      {
        var i :| 0 <= i < |rest| && rest[i] == r;
        assert all[0] == o && all[i + 1] == r;
      }
    }
    if DistinctIds(rest) && o.id !in Ids(rest) {
      assert forall i | 0 <= i < |rest| :: rest[i] in rest && rest[i].id in Ids(rest);
    }
  }

  predicate SameButAmount(r: Order, o: Order) {
    r == o.(amount := r.amount)
  }

  /** Every order of `rest` is one of `makers` but for its amount. */
  ghost predicate Trimmed(rest: seq<Order>, makers: seq<Order>) {
    forall r | r in rest :: exists o :: o in makers && SameButAmount(r, o)
  }

  lemma TrimmedSelf(makers: seq<Order>)
    ensures Trimmed(makers, makers)
  {
    forall r | r in makers
      ensures exists o :: o in makers && SameButAmount(r, o)
    {
      assert SameButAmount(r, r);
    }
  }

  lemma TrimmedMore(rest: seq<Order>, o: Order, makers: seq<Order>)
    requires Trimmed(rest, makers)
    ensures Trimmed(rest, [o] + makers)
  {
    forall r | r in rest
      ensures exists x :: x in [o] + makers && SameButAmount(r, x)
    {
      var x :| x in makers && SameButAmount(r, x);
      assert x in [o] + makers;
    }
  }

  lemma TrimmedHead(o: Order, amount: nat, tail: seq<Order>)
    ensures Trimmed([o.(amount := amount)] + tail, [o] + tail)
  {
    TrimmedSelf(tail);
    TrimmedMore(tail, o, tail);
    var head := o.(amount := amount);
    forall r | r in [head] + tail
      ensures exists x :: x in [o] + tail && SameButAmount(r, x)
    {
      if r == head {
        assert o in [o] + tail && SameButAmount(r, o);
      }
    }
  }

  /** The makers' ids are those gone and those still resting, which are
      otherwise the orders they were but for their amounts. */
  ghost predicate Splits(makers: seq<Order>, f: Filling) {
    && Ids(makers) == f.gone + Ids(f.rest) && f.gone !! Ids(f.rest)
    && DistinctIds(f.rest) && Trimmed(f.rest, makers)
  }

  lemma SplitsUnfilled(makers: seq<Order>, left: nat)
    requires DistinctIds(makers)
    ensures Splits(makers, Filling([], makers, left, {}))
  {
    hide Trimmed;
    TrimmedSelf(makers);
  }

  lemma SplitsAfter(o: Order, tail: seq<Order>, trade: Trade, f: Filling)
    requires DistinctIds([o] + tail) && Splits(tail, f) && trade.makerOrderId == o.id
    ensures Splits([o] + tail, After(trade, f))
  {
    hide Ids, DistinctIds, Trimmed;
    IdsCons(o, tail);
    TrimmedMore(f.rest, o, tail);
  }

  lemma SplitsPartial(o: Order, tail: seq<Order>, trades: seq<Trade>, amount: nat)
    requires DistinctIds([o] + tail)
    ensures Splits([o] + tail, Filling(trades, [o.(amount := amount)] + tail, 0, {}))
  {
    hide Ids, DistinctIds, Trimmed;
    IdsCons(o, tail);
    IdsCons(o.(amount := amount), tail);
    TrimmedHead(o, amount, tail);
  }

  lemma {:induction false} GreedyIds(makers: seq<Order>, taker: OrderId, remaining: nat, limit: PriceLimit)
    requires DistinctIds(makers)
    ensures Splits(makers, Greedy(makers, taker, remaining, limit))
    decreases |makers|
  {
    hide Splits, DistinctIds;
    if remaining == 0 || makers == [] || !Accepts(limit, makers[0].price) {
      SplitsUnfilled(makers, remaining);
    } else {
      var o, tail := makers[0], makers[1..];
      assert makers == [o] + tail;
      IdsCons(o, tail);
      if o.amount <= remaining {
        GreedyIds(tail, taker, remaining - o.amount, limit);
        SplitsAfter(o, tail, Trade(o.id, taker, o.amount, o.price), Greedy(tail, taker, remaining - o.amount, limit));
      } else {
        SplitsPartial(o, tail, [Trade(o.id, taker, remaining, o.price)], o.amount - remaining);
      }
    }
  }

  function SetLevel(levels: Levels, p: Price, orders: seq<Order>): Levels {
    if orders == [] then levels - {p} else levels[p := orders]
  }

  function Other(side: Side): Side {
    if side == Buy then Sell else Buy
  }

  ghost predicate SidesOk(levels: Levels, others: Levels, side: Side, index: Index) {
    && SideOk(levels, side, index) && SideOk(others, Other(side), index)
    && Indexed(levels, side, index) && Indexed(others, Other(side), index)
  }

  /** Replacing a level by some of its orders, and forgetting the ids of the
      others, keeps the book in order. */
  lemma ShrinkLevel(levels: Levels, others: Levels, side: Side, index: Index, p: Price, rest: seq<Order>, gone: set<OrderId>)
    requires SidesOk(levels, others, side, index) && p in levels
    requires Ids(levels[p]) == gone + Ids(rest) && gone !! Ids(rest) && DistinctIds(rest)
    requires Trimmed(rest, levels[p])
    ensures SidesOk(SetLevel(levels, p, rest), others, side, index - gone)
  {
    var levels', index' := SetLevel(levels, p, rest), index - gone;
    assert LevelOk(levels[p], p, side, index);
    forall id | id in gone
      ensures id in index && index[id].price == p && index[id].side == side
    {
      assert id in Ids(levels[p]);
      var o :| o in levels[p] && o.id == id;
    }
    forall q | q in levels'
      ensures LevelOk(levels'[q], q, side, index')
    {
      if q != p {
        assert LevelOk(levels[q], q, side, index);
      } else {
        forall r | r in rest
          ensures r.price == p && r.side == side && r.id in index' && index'[r.id].price == p && index'[r.id].side == side
        {
          var o :| o in levels[p] && SameButAmount(r, o);
          assert r.id in Ids(rest);
        }
      }
    }
    forall q | q in others
      ensures LevelOk(others[q], q, Other(side), index')
    {
      assert LevelOk(others[q], q, Other(side), index);
    }
    forall id | id in index' && index'[id].side == side
      ensures index'[id].price in levels' && id in Ids(levels'[index'[id].price])
    {
      assert id in Ids(levels[index[id].price]);
      if index[id].price == p {
        assert id in Ids(rest);
        var r :| r in rest && r.id == id;
      }
    }
  }

  function Without(orders: seq<Order>, id: OrderId): seq<Order> {
    if orders == [] then []
    else (if orders[0].id == id then [] else [orders[0]]) + Without(orders[1..], id)
  }

  lemma {:induction false} WithoutIds(orders: seq<Order>, id: OrderId)
    requires DistinctIds(orders)
    ensures Ids(Without(orders, id)) == Ids(orders) - {id} && DistinctIds(Without(orders, id))
    ensures forall o :: o in Without(orders, id) <==> o in orders && o.id != id
  {
    hide Ids, DistinctIds;
    if orders != [] {
      var o, tail := orders[0], orders[1..];
      assert orders == [o] + tail;
      IdsCons(o, tail);
      WithoutIds(tail, id);
      IdsCons(o, Without(tail, id));
      assert Without(orders, id) == if o.id == id then Without(tail, id) else [o] + Without(tail, id);
    } else {
      NoIds(orders);
    }
  }

  lemma NoIds(orders: seq<Order>)
    requires orders == []
    ensures Ids(orders) == {} && DistinctIds(orders)
  {
  }

  /** Adding an order with a fresh id at the end of its level keeps the level in order. */
  lemma AddToLevel(level: seq<Order>, index: Index, order: Order)
    requires order.id !in index && (level != [] ==> LevelOk(level, order.price, order.side, index))
    ensures LevelOk(level + [order], order.price, order.side, index[order.id := order])
  {
    assert forall i | 0 <= i < |level| :: level[i] in level;
  }

  lemma AddKeepsSide(levels: Levels, side: Side, index: Index, order: Order)
    requires SideOk(levels, side, index) && order.id !in index
    ensures SideOk(levels, side, index[order.id := order])
  {
    forall q | q in levels
      ensures LevelOk(levels[q], q, side, index[order.id := order])
    {
      assert LevelOk(levels[q], q, side, index);
    }
  }

  lemma AddIndexes(levels: Levels, levels': Levels, side: Side, index: Index, order: Order)
    requires Indexed(levels, side, index) && order.id !in index
    requires forall p | p in levels :: p in levels' && Ids(levels[p]) <= Ids(levels'[p])
    requires order.side == side ==> order.price in levels' && order.id in Ids(levels'[order.price])
    ensures Indexed(levels', side, index[order.id := order])
  {
  }

  lemma AddKeeps(levels: Levels, others: Levels, index: Index, order: Order)
    requires SidesOk(levels, others, order.side, index) && order.id !in index
    ensures var level := if order.price in levels then levels[order.price] else [];
            SidesOk(levels[order.price := level + [order]], others, order.side, index[order.id := order])
  {
    var side, p := order.side, order.price;
    var level := if p in levels then levels[p] else [];
    var levels', index' := levels[p := level + [order]], index[order.id := order];
    AddKeepsSide(levels, side, index, order);
    AddKeepsSide(others, Other(side), index, order);
    AddToLevel(level, index, order);
    assert order in level + [order] && Ids(level) <= Ids(level + [order]);
    hide LevelOk, Ids, Indexed;
    assert SideOk(levels', side, index');
    AddIndexes(levels, levels', side, index, order);
    AddIndexes(others, others, Other(side), index, order);
  }

  // ----- the book object -----

  /** What a filling that has come this far ends in, if the rest ends in `k`. */
  function Continue(trades: seq<Trade>, gone: set<OrderId>, k: Filling): Filling {
    Filling(trades + k.trades, k.rest, k.left, gone + k.gone)
  }

  lemma ContinueTaken(trades: seq<Trade>, gone: set<OrderId>, first: Trade, k: Filling)
    ensures Continue(trades, gone, After(first, k)) == Continue(trades + [first], gone + {first.makerOrderId}, k)
  {
    assert trades + ([first] + k.trades) == trades + [first] + k.trades;
    assert gone + ({first.makerOrderId} + k.gone) == gone + {first.makerOrderId} + k.gone;
  }

  lemma ContinueLevel(trades: seq<Trade>, gone: set<OrderId>, g: Filling, b: seq<Order>, taker: OrderId, limit: PriceLimit)
    requires g.rest != [] ==> g.left == 0
    ensures Continue(trades, gone, Then(g, b, taker, limit)) ==
            Continue(trades + g.trades, gone + g.gone, Greedy(g.rest + b, taker, g.left, limit))
  {
    if g.rest == [] {
      assert g.rest + b == b;
      var k := Greedy(b, taker, g.left, limit);
      assert trades + (g.trades + k.trades) == trades + g.trades + k.trades;
      assert gone + (g.gone + k.gone) == gone + g.gone + k.gone;
    } else {
      assert trades + g.trades + [] == trades + g.trades;
      assert gone + g.gone + {} == gone + g.gone;
    }
  }

  function LimitOf(taker: Order): PriceLimit {
    if taker.orderType != Limit then NoLimit
    else if taker.side == Buy then AtMost(taker.price)
    else AtLeast(taker.price)
  }

  datatype Depth = Depth(price: Price, amount: nat, orders: nat)

  function DepthAlong(levels: Levels, prices: seq<Price>): seq<Depth>
    requires forall p | p in prices :: p in levels
  {
    if prices == [] then []
    else
      assert prices[0] in prices;
      [Depth(prices[0], Resting(levels[prices[0]]), |levels[prices[0]]|)] + DepthAlong(levels, prices[1..])
  }

  function Amounts(depth: seq<Depth>): nat {
    if depth == [] then 0 else depth[0].amount + Amounts(depth[1..])
  }

  lemma {:induction false} RestingConcat(a: seq<Order>, b: seq<Order>)
    ensures Resting(a + b) == Resting(a) + Resting(b)
  {
    if a == [] {
      assert a + b == b;
    } else {
      assert (a + b)[1..] == a[1..] + b;
      RestingConcat(a[1..], b);
    }
  }

  /** The full depth of a side adds up to everything resting on it. */
  lemma {:induction false} DepthIsResting(levels: Levels, prices: seq<Price>)
    requires forall p | p in prices :: p in levels
    ensures Amounts(DepthAlong(levels, prices)) == Resting(Flat(levels, prices))
  {
    if prices != [] {
      assert prices[0] in prices;
      DepthIsResting(levels, prices[1..]);
      RestingConcat(levels[prices[0]], Flat(levels, prices[1..]));
      var d := DepthAlong(levels, prices);
      assert d[1..] == DepthAlong(levels, prices[1..]);
    }
  }

  lemma {:induction false} DepthEntries(levels: Levels, prices: seq<Price>)
    requires forall p | p in prices :: p in levels
    ensures |DepthAlong(levels, prices)| == |prices|
    ensures forall i | 0 <= i < |prices| ::
              DepthAlong(levels, prices)[i] == Depth(prices[i], Resting(levels[prices[i]]), |levels[prices[i]]|)
  {
    if prices != [] {
      assert prices[0] in prices;
      DepthEntries(levels, prices[1..]);
      forall i | 0 <= i < |prices|
        ensures DepthAlong(levels, prices)[i] == Depth(prices[i], Resting(levels[prices[i]]), |levels[prices[i]]|)
      {
        if i > 0 {
          assert prices[i] == prices[1..][i - 1];
        }
      }
    }
  }

  /** Up to `n` levels with their totals, the better ones first, and none left out
      that is better or would still fit. */
  ghost predicate BestLevels(levels: Levels, up: bool, n: nat, depth: seq<Depth>) {
    && |depth| <= n
    && (forall i | 0 <= i < |depth| ::
          var p := depth[i].price; p in levels && depth[i].amount == Resting(levels[p]) && depth[i].orders == |levels[p]|)
    && (forall i, j | 0 <= i < j < |depth| :: if up then depth[i].price < depth[j].price else depth[i].price > depth[j].price)
    && (forall p | p in levels && forall i | 0 <= i < |depth| :: depth[i].price != p ::
          |depth| == n && forall i | 0 <= i < |depth| :: if up then depth[i].price < p else depth[i].price > p)
  }

  lemma DepthIsBest(levels: Levels, prices: seq<Price>, n: nat, up: bool)
    requires Monotone(prices, up) && forall p :: p in prices <==> p in levels
    ensures var first := prices[..Min(n, |prices|)];
            (forall p | p in first :: p in levels) && BestLevels(levels, up, n, DepthAlong(levels, first))
  {
    hide DepthAlong;
    var first := prices[..Min(n, |prices|)];
    assert forall p | p in first :: p in prices;
    DepthEntries(levels, first);
    var depth := DepthAlong(levels, first);
    forall p | p in levels && forall i | 0 <= i < |depth| :: depth[i].price != p
      ensures |depth| == n && forall i | 0 <= i < |depth| :: if up then depth[i].price < p else depth[i].price > p
    {
      var k :| 0 <= k < |prices| && prices[k] == p;
      assert forall i | 0 <= i < |first| :: depth[i].price == prices[i];
    }
  }

  function Level(levels: Levels, p: Price): seq<Order> {
    if p in levels then levels[p] else []
  }

  /** The order queued last at its price. */
  function Queued(levels: Levels, order: Order): Levels {
    levels[order.price := Level(levels, order.price) + [order]]
  }

  /** The order stands behind all at its price or a better one, before all at a worse
      one, and nothing else has moved. */
  ghost predicate QueuedAt(before: seq<Order>, after: seq<Order>, order: Order, up: bool, k: nat) {
    && k <= |before| && after == before[..k] + [order] + before[k..]
    && (forall i | 0 <= i < k :: if up then before[i].price <= order.price else before[i].price >= order.price)
    && (forall i | k <= i < |before| :: if up then before[i].price > order.price else before[i].price < order.price)
  }

  lemma QueuedInHead(head: seq<Order>, tail: seq<Order>, order: Order, up: bool)
    requires forall o | o in head :: o.price == order.price
    requires forall o | o in tail :: if up then o.price > order.price else o.price < order.price
    ensures QueuedAt(head + tail, head + [order] + tail, order, up, |head|)
  {
    var all := head + tail;
    assert all[..|head|] == head && all[|head|..] == tail;
    assert forall i | 0 <= i < |head| :: all[i] in head;
    assert forall i | |head| <= i < |all| :: all[i] in tail;
  }

  lemma QueuedInTail(head: seq<Order>, before: seq<Order>, after: seq<Order>, order: Order, up: bool, k: nat)
    requires QueuedAt(before, after, order, up, k)
    requires forall o | o in head :: if up then o.price < order.price else o.price > order.price
    ensures QueuedAt(head + before, head + after, order, up, |head| + k)
  {
    var all, m := head + before, |head| + k;
    assert all[..m] == head + before[..k] && all[m..] == before[k..];
    assert head + (before[..k] + [order] + before[k..]) == head + before[..k] + [order] + before[k..];
    forall i | 0 <= i < m
      ensures if up then all[i].price <= order.price else all[i].price >= order.price
    {
      if i < |head| {
        assert all[i] in head;
      } else {
        assert all[i] == before[i - |head|];
      }
    }
    assert forall i | m <= i < |all| :: all[i] == before[i - |head|];
  }

  /** An order added to a side comes behind all at its price or a better one. */
  lemma {:induction false} QueuedBehind(levels: Levels, prices: seq<Price>, order: Order, up: bool) returns (k: nat)
    requires Monotone(prices, up) && order.price in prices
    requires forall p, o | p in levels && o in levels[p] :: o.price == p
    ensures QueuedAt(Flat(levels, prices), Flat(Queued(levels, order), prices), order, up, k)
  {
    hide QueuedAt, Monotone;
    var head, tail, levels' := Level(levels, prices[0]), Flat(levels, prices[1..]), Queued(levels, order);
    MonotoneTail(prices, up);
    if prices[0] == order.price {
      k := |head|;
      FlatAgrees(levels, levels', prices[1..]);
      FlatPrices(levels, prices[1..]);
      QueuedInHead(head, tail, order, up);
    } else {
      var m := QueuedBehind(levels, prices[1..], order, up);
      k := |head| + m;
      QueuedInTail(head, tail, Flat(levels', prices[1..]), order, up, m);
    }
  }

  lemma SideQueued(levels: Levels, others: Levels, side: Side, index: Index, order: Order)
    requires SidesOk(levels, others, side, index)
    ensures exists k :: QueuedAt(Asks(levels), Asks(Queued(levels, order)), order, true, k)
    ensures exists k :: QueuedAt(Bids(levels), Bids(Queued(levels, order)), order, false, k)
  {
    var levels' := Queued(levels, order);
    var up := SortedKeys(levels'.Keys);
    var down := Reversed(up);
    forall p | p in levels
      ensures forall o | o in levels[p] :: o.price == p
    {
      LevelFacts(levels, others, side, index, p);
    }
    hide *;
    QueuedKeys(levels, order);
    SortedMonotone(levels'.Keys);
    FlatAlongOldPrices(levels, up, true);
    FlatAlongOldPrices(levels, down, false);
    FlatAlongOldPrices(levels', up, true);
    FlatAlongOldPrices(levels', down, false);
    var k := QueuedBehind(levels, up, order, true);
    var m := QueuedBehind(levels, down, order, false);
  }

  lemma QueuedKeys(levels: Levels, order: Order)
    ensures Queued(levels, order).Keys == levels.Keys + {order.price}
  {}

  lemma MonotoneTail(prices: seq<Price>, up: bool)
    requires Monotone(prices, up) && prices != []
    ensures Monotone(prices[1..], up)
    ensures forall p | p in prices[1..] :: if up then prices[0] < p else prices[0] > p
  {
    assert forall i | 0 <= i < |prices[1..]| :: prices[1..][i] == prices[i + 1];
  }

  lemma {:induction false} FlatPrices(levels: Levels, prices: seq<Price>)
    requires forall p, o | p in levels && o in levels[p] :: o.price == p
    ensures forall o | o in Flat(levels, prices) :: o.price in prices
  {
    if prices != [] {
      FlatPrices(levels, prices[1..]);
    }
  }

  lemma AddToBook(buys: Levels, sells: Levels, index: Index, order: Order)
    requires BookOk(buys, sells, index) && order.id !in index
    ensures order.side == Buy ==> BookOk(Queued(buys, order), sells, index[order.id := order])
    ensures order.side == Sell ==> BookOk(buys, Queued(sells, order), index[order.id := order])
  {
    hide SideOk, Indexed;
    if order.side == Buy {
      AddKeeps(buys, sells, index, order);
    } else {
      AddKeeps(sells, buys, index, order);
    }
  }

  /** What is left on a level of a book in order, as far as matching needs it. */
  lemma LevelFacts(levels: Levels, others: Levels, side: Side, index: Index, p: Price)
    requires SidesOk(levels, others, side, index) && p in levels
    ensures levels[p] != [] && DistinctIds(levels[p])
    ensures forall o | o in levels[p] :: o.price == p
    ensures Ids(levels[p]) <= index.Keys
  {
    assert LevelOk(levels[p], p, side, index);
  }

  /** Taking a filling out of one level keeps the book in order. */
  lemma FillLevel(levels: Levels, others: Levels, side: Side, index: Index, p: Price, f: Filling)
    requires SidesOk(levels, others, side, index) && p in levels && Splits(levels[p], f)
    ensures SidesOk(SetLevel(levels, p, f.rest), others, side, index - f.gone)
  {
    hide SidesOk, Ids, DistinctIds, Trimmed;
    ShrinkLevel(levels, others, side, index, p, f.rest, f.gone);
  }

  /** The state of a match before price `i` of the list: earlier levels are
      used up, later ones untouched, and going on filling the present book
      completes the fill `goal` of the original one. */
  ghost predicate Progress(levels0: Levels, prices: seq<Price>, i: nat, levels: Levels, taker: OrderId, remaining: nat,
                           limit: PriceLimit, trades: seq<Trade>, gone: set<OrderId>, goal: Filling)
    requires i <= |prices|
  {
    && levels.Keys <= levels0.Keys
    && goal == Continue(trades, gone, Greedy(Flat(levels, prices), taker, remaining, limit))
    && (remaining > 0 ==> forall p | p in prices[..i] :: p !in levels)
    && (forall p | p in prices[i..] :: Lookup(levels, p) == Lookup(levels0, p))
  }

  lemma ProgressStarts(levels: Levels, prices: seq<Price>, taker: OrderId, remaining: nat, limit: PriceLimit)
    ensures Progress(levels, prices, 0, levels, taker, remaining, limit, [], {},
                     Greedy(Flat(levels, prices), taker, remaining, limit))
  {
    var k := Greedy(Flat(levels, prices), taker, remaining, limit);
    assert [] + k.trades == k.trades && {} + k.gone == k.gone;
  }

  lemma FlatAround(levels: Levels, prices: seq<Price>, i: nat)
    requires i < |prices| && forall p | p in prices[..i] :: p !in levels
    ensures Flat(levels, prices) == Level(levels, prices[i]) + Flat(levels, prices[i + 1..])
  {
    assert prices == prices[..i] + prices[i..];
    FlatConcat(levels, prices[..i], prices[i..]);
    FlatEmpty(levels, prices[..i]);
    assert prices[i..][1..] == prices[i + 1..];
  }

  /** Filling from the present book is filling the level at `i`, then the rest. */
  lemma StepGoal(prices: seq<Price>, i: nat, levels: Levels, taker: OrderId, remaining: nat, limit: PriceLimit,
                 trades: seq<Trade>, gone: set<OrderId>)
    requires i < |prices| && prices[i] in levels && forall p | p in prices[..i] :: p !in levels
    requires forall o | o in levels[prices[i]] :: Accepts(limit, o.price)
    ensures var g := Greedy(levels[prices[i]], taker, remaining, NoLimit);
            Continue(trades, gone, Greedy(Flat(levels, prices), taker, remaining, limit)) ==
            Continue(trades + g.trades, gone + g.gone,
                     Greedy(g.rest + Flat(levels, prices[i + 1..]), taker, g.left, limit))
  {
    hide Greedy, Continue, Flat;
    var b := Flat(levels, prices[i + 1..]);
    FlatAround(levels, prices, i);
    GreedyConcat(levels[prices[i]], b, taker, remaining, limit);
    ContinueLevel(trades, gone, Greedy(levels[prices[i]], taker, remaining, NoLimit), b, taker, limit);
  }

  lemma StepFlat(prices: seq<Price>, i: nat, levels: Levels, rest: seq<Order>, up: bool)
    requires i < |prices| && prices[i] in levels && forall p | p in prices[..i] :: p !in levels
    requires Monotone(prices, up)
    ensures Flat(SetLevel(levels, prices[i], rest), prices) == rest + Flat(levels, prices[i + 1..])
    ensures forall q | q in prices[i + 1..] :: q in prices[i..] && Lookup(SetLevel(levels, prices[i], rest), q) == Lookup(levels, q)
    ensures rest == [] ==> forall q | q in prices[..i + 1] :: q !in SetLevel(levels, prices[i], rest)
  {
    hide Flat;
    var p := prices[i];
    var levels' := SetLevel(levels, p, rest);
    var earlier, later := prices[..i], prices[i + 1..];
    forall q | q in earlier
      ensures q != p && q !in levels'
    {
      var k :| 0 <= k < i && prices[k] == q;
    }
    forall q | q in later
      ensures q != p && q in prices[i..]
    {
      var k :| 0 <= k < |later| && later[k] == q;
      assert prices[i..][k + 1] == q && prices[i + 1 + k] == q;
    }
    FlatAround(levels', prices, i);
    FlatAgrees(levels, levels', later);
    assert prices[..i + 1] == earlier + [p];
  }

  lemma ProgressStep(levels0: Levels, prices: seq<Price>, i: nat, levels: Levels, taker: OrderId, remaining: nat,
                     limit: PriceLimit, trades: seq<Trade>, gone: set<OrderId>, goal: Filling, up: bool)
    requires i < |prices| && remaining > 0 && Monotone(prices, up) && prices[i] in levels
    requires Progress(levels0, prices, i, levels, taker, remaining, limit, trades, gone, goal)
    requires forall o | o in levels[prices[i]] :: Accepts(limit, o.price)
    ensures var g := Greedy(levels[prices[i]], taker, remaining, NoLimit);
            Progress(levels0, prices, i + 1, SetLevel(levels, prices[i], g.rest), taker, g.left, limit,
                     trades + g.trades, gone + g.gone, goal)
  {
    hide Flat, Greedy, Continue, Monotone;
    var g := Greedy(levels[prices[i]], taker, remaining, NoLimit);
    StepGoal(prices, i, levels, taker, remaining, limit, trades, gone);
    StepFlat(prices, i, levels, g.rest, up);
    GreedyConcat(levels[prices[i]], [], taker, remaining, limit);
    forall p | p in prices[i + 1..]
      ensures Lookup(SetLevel(levels, prices[i], g.rest), p) == Lookup(levels0, p)
    {
      assert p in prices[i..];
    }
  }

  /** Nothing more to fill: the goal is reached with the present book. */
  lemma ProgressDone(levels0: Levels, prices: seq<Price>, i: nat, levels: Levels, taker: OrderId, remaining: nat,
                     limit: PriceLimit, trades: seq<Trade>, gone: set<OrderId>, goal: Filling)
    requires i <= |prices| && Progress(levels0, prices, i, levels, taker, remaining, limit, trades, gone, goal)
    requires remaining == 0 || i == |prices| ||
             (prices[i] in levels && levels[prices[i]] != [] && !Accepts(limit, levels[prices[i]][0].price))
    ensures goal == Filling(trades, Flat(levels, prices), remaining, gone)
  {
    if remaining > 0 {
      if i == |prices| {
        assert prices[..i] == prices;
        FlatEmpty(levels, prices);
      } else {
        FlatAround(levels, prices, i);
      }
    }
    assert trades + [] == trades && gone + {} == gone;
  }

  lemma NextLevelThere(levels0: Levels, prices: seq<Price>, i: nat, levels: Levels, taker: OrderId, remaining: nat,
                       limit: PriceLimit, trades: seq<Trade>, gone: set<OrderId>, goal: Filling)
    requires i < |prices| && prices[i] in levels0
    requires Progress(levels0, prices, i, levels, taker, remaining, limit, trades, gone, goal)
    ensures prices[i] in levels
  {
    assert prices[i] in prices[i..];
    assert Lookup(levels, prices[i]) == Lookup(levels0, prices[i]);
  }

  lemma SetLevelShrinks(levels: Levels, p: Price, orders: seq<Order>)
    requires p in levels
    ensures SetLevel(levels, p, orders) == if orders == [] then levels - {p} else levels[p := orders]
    ensures SetLevel(levels, p, orders).Keys <= levels.Keys
  {
  }

  lemma MinusTwice(index: Index, a: set<OrderId>, b: set<OrderId>)
    ensures index - a - b == index - (a + b)
  {
  }

  lemma BothSides(buys: Levels, sells: Levels, index: Index)
    ensures BookOk(buys, sells, index) <==> SidesOk(sells, buys, Sell, index)
    ensures BookOk(buys, sells, index) <==> SidesOk(buys, sells, Buy, index)
  {
  }

  // ----- what a match achieves -----

  lemma {:induction false} FlatWorsens(levels: Levels, prices: seq<Price>, up: bool)
    requires Monotone(prices, up) && forall p, o | p in levels && o in levels[p] :: o.price == p
    ensures Worsening(Flat(levels, prices), up)
    ensures forall o | o in Flat(levels, prices) :: o.price in prices
  {
    if prices != [] {
      var head, tail := Level(levels, prices[0]), Flat(levels, prices[1..]);
      assert forall i | 0 <= i < |prices[1..]| :: prices[1..][i] == prices[i + 1];
      FlatWorsens(levels, prices[1..], up);
      var all: seq<Order> := head + tail;
      forall i, j | 0 <= i <= j < |all|
        ensures if up then all[i].price <= all[j].price else all[i].price >= all[j].price
      {
        if i < |head| {
          assert head[i] in head;
          if j < |head| {
            assert head[j] in head;
          } else {
            assert tail[j - |head|] in tail;
          }
        }
      }
    }
  }

  /** Matching a taker against a book in order: quantities are conserved, trade
      prices never improve, and no other choice of that size is better; a limit order
      trades within its price, and either the taker is filled or nothing it would
      trade with is left on the other side. */
  lemma MatchOutcome(buys: Levels, sells: Levels, index: Index, taker: Order)
    requires BookOk(buys, sells, index)
    ensures var up := taker.side == Buy;
            var book := if up then Asks(sells) else Bids(buys);
            var f := Greedy(book, taker.id, taker.amount, LimitOf(taker));
            && Resting(book) == Resting(f.rest) + Traded(f.trades)
            && taker.amount == f.left + Traded(f.trades)
            && WorseningTrades(f.trades, up)
            && BestExecution.BestFor(up, Cost(f.trades), Traded(f.trades), book)
            && (forall t | t in f.trades :: t.takerOrderId == taker.id && WithMaker(t, book))
            && (forall t | t in f.trades && taker.orderType == Limit :: if up then t.price <= taker.price else t.price >= taker.price)
            && (forall t, o | t in f.trades && o in f.rest :: if up then t.price <= o.price else t.price >= o.price)
            && (f.left == 0 || forall o | o in f.rest ::
                  taker.orderType == Limit && if up then o.price > taker.price else o.price < taker.price)
  {
    var up := taker.side == Buy;
    var book := if up then Asks(sells) else Bids(buys);
    BookWorsens(buys, sells, index);
    assert Suits(LimitOf(taker), up);
    hide Asks, Bids, Greedy, BookOk, Worsening, Resting, Traded, Cost, BestExecution.BestFor, WithMaker, WorseningTrades;
    GreedyConserves(book, taker.id, taker.amount, LimitOf(taker));
    GreedyMaximal(book, taker.id, taker.amount, LimitOf(taker), up);
    TradesWorsen(book, taker.id, taker.amount, LimitOf(taker), up);
    BestAreTraded(book, taker.id, taker.amount, LimitOf(taker), up);
    BestExecution.FillIsBest(book, taker.id, taker.amount, LimitOf(taker), up);
  }

  /** Each level shows up in the list. */
  lemma {:induction false} FlatLists(levels: Levels, prices: seq<Price>)
    requires forall p | p in levels :: levels[p] != [] && forall o | o in levels[p] :: o.price == p
    ensures forall p | p in prices && p in levels :: exists o :: o in Flat(levels, prices) && o.price == p
  {
    if prices != [] {
      FlatLists(levels, prices[1..]);
      forall p | p in prices && p in levels
        ensures exists o :: o in Flat(levels, prices) && o.price == p
      {
        if p == prices[0] {
          assert levels[p][0] in Flat(levels, prices);
        } else {
          var o :| o in Flat(levels, prices[1..]) && o.price == p;
          assert o in Flat(levels, prices);
        }
      }
    }
  }

  lemma SideLists(levels: Levels, others: Levels, side: Side, index: Index)
    requires SidesOk(levels, others, side, index)
    ensures forall o | o in Asks(levels) :: o.price in levels && o in levels[o.price]
    ensures forall o | o in Bids(levels) :: o.price in levels && o in levels[o.price]
    ensures forall p | p in levels :: exists o :: o in Asks(levels) && o.price == p
    ensures forall p | p in levels :: exists o :: o in Bids(levels) && o.price == p
  {
    forall p | p in levels
      ensures levels[p] != [] && forall o | o in levels[p] :: o.price == p
    {
      LevelFacts(levels, others, side, index, p);
    }
    FlatLists(levels, SortedKeys(levels.Keys));
    FlatLists(levels, Reversed(SortedKeys(levels.Keys)));
    FlatInLevels(levels, SortedKeys(levels.Keys));
    FlatInLevels(levels, Reversed(SortedKeys(levels.Keys)));
  }

  /** The trade is with an order that rests at its price, for no more than it offers. */
  ghost predicate FromLevel(t: Trade, levels: Levels) {
    t.price in levels && exists o :: o in levels[t.price] && o.id == t.makerOrderId && t.amount <= o.amount
  }

  /** What a buy order does to the sell levels. */
  lemma BuyOutcome(buys: Levels, sells: Levels, sells': Levels, index: Index, index': Index, taker: Order, f: Filling)
    requires taker.side == Buy && BookOk(buys, sells, index) && BookOk(buys, sells', index')
    requires f == Greedy(Asks(sells), taker.id, taker.amount, LimitOf(taker)) && Asks(sells') == f.rest
    ensures forall t | t in f.trades :: t.takerOrderId == taker.id && FromLevel(t, sells)
    ensures forall t | t in f.trades && taker.orderType == Limit :: t.price <= taker.price
    ensures forall i, j | 0 <= i < j < |f.trades| :: f.trades[i].price <= f.trades[j].price
    ensures forall t, p | t in f.trades && p in sells' :: t.price <= p
    ensures Traded(f.trades) <= taker.amount && Resting(Asks(sells)) == Resting(Asks(sells')) + Traded(f.trades)
    ensures Traded(f.trades) < taker.amount ==> forall p | p in sells' :: taker.orderType == Limit && p > taker.price
    ensures BestExecution.BestFor(true, Cost(f.trades), Traded(f.trades), Asks(sells))
  {
    hide BookOk, Asks, Bids, Greedy, Resting, Traded, Cost, BestExecution.BestFor, LimitOf;
    MatchOutcome(buys, sells, index, taker);
    BothSides(buys, sells, index);
    BothSides(buys, sells', index');
    SideLists(sells, buys, Sell, index);
    SideLists(sells', buys, Sell, index');
  }

  /** What a sell order does to the buy levels. */
  lemma SellOutcome(buys: Levels, sells: Levels, buys': Levels, index: Index, index': Index, taker: Order, f: Filling)
    requires taker.side == Sell && BookOk(buys, sells, index) && BookOk(buys', sells, index')
    requires f == Greedy(Bids(buys), taker.id, taker.amount, LimitOf(taker)) && Bids(buys') == f.rest
    ensures forall t | t in f.trades :: t.takerOrderId == taker.id && FromLevel(t, buys)
    ensures forall t | t in f.trades && taker.orderType == Limit :: t.price >= taker.price
    ensures forall i, j | 0 <= i < j < |f.trades| :: f.trades[i].price >= f.trades[j].price
    ensures forall t, p | t in f.trades && p in buys' :: t.price >= p
    ensures Traded(f.trades) <= taker.amount && Resting(Bids(buys)) == Resting(Bids(buys')) + Traded(f.trades)
    ensures Traded(f.trades) < taker.amount ==> forall p | p in buys' :: taker.orderType == Limit && p < taker.price
    ensures BestExecution.BestFor(false, Cost(f.trades), Traded(f.trades), Bids(buys))
  {
    hide BookOk, Asks, Bids, Greedy, Resting, Traded, Cost, BestExecution.BestFor, LimitOf;
    MatchOutcome(buys, sells, index, taker);
    BothSides(buys, sells, index);
    BothSides(buys', sells, index');
    SideLists(buys, sells, Buy, index);
    SideLists(buys', sells, Buy, index');
  }

  lemma BookWorsens(buys: Levels, sells: Levels, index: Index)
    requires BookOk(buys, sells, index)
    ensures Worsening(Asks(sells), true) && Worsening(Bids(buys), false)
  {
    forall p, o | p in buys && o in buys[p]
      ensures o.price == p
    {
      assert LevelOk(buys[p], p, Buy, index);
    }
    forall p, o | p in sells && o in sells[p]
      ensures o.price == p
    {
      assert LevelOk(sells[p], p, Sell, index);
    }
    FlatWorsens(sells, SortedKeys(sells.Keys), true);
    FlatWorsens(buys, Reversed(SortedKeys(buys.Keys)), false);
  }

  // ----- cancellation -----

  lemma {:induction false} WithoutConcat(a: seq<Order>, b: seq<Order>, id: OrderId)
    ensures Without(a + b, id) == Without(a, id) + Without(b, id)
  {
    if a == [] {
      assert a + b == b;
    } else {
      assert (a + b)[1..] == a[1..] + b;
      WithoutConcat(a[1..], b, id);
    }
  }

  lemma {:induction false} WithoutAbsent(orders: seq<Order>, id: OrderId)
    requires forall o | o in orders :: o.id != id
    ensures Without(orders, id) == orders
  {
    if orders != [] {
      assert orders[0] in orders;
      WithoutAbsent(orders[1..], id);
    }
  }

  /** Removing an id from the one level it can rest on removes it from the side. */
  lemma {:induction false} FlatWithout(levels: Levels, prices: seq<Price>, p: Price, id: OrderId)
    requires forall q, o | q in levels && q != p && o in levels[q] :: o.id != id
    ensures Flat(SetLevel(levels, p, Without(Level(levels, p), id)), prices) == Without(Flat(levels, prices), id)
  {
    if prices != [] {
      FlatWithout(levels, prices[1..], p, id);
      WithoutConcat(Level(levels, prices[0]), Flat(levels, prices[1..]), id);
      if prices[0] in levels && prices[0] != p {
        WithoutAbsent(levels[prices[0]], id);
      }
    }
  }

  lemma RestsAtItsPrice(levels: Levels, others: Levels, side: Side, index: Index, id: OrderId)
    requires SidesOk(levels, others, side, index)
    ensures forall q, o | q in levels && o in levels[q] && o.id == id :: id in index && index[id].price == q && index[id].side == side
  {
    forall q, o | q in levels && o in levels[q] && o.id == id
      ensures id in index && index[id].price == q && index[id].side == side
    {
      assert LevelOk(levels[q], q, side, index);
    }
  }

  /** Cancelling on its side takes the order, and only it, out of the side and
      the index; the other side does not hold it. */
  lemma CancelOnSide(levels: Levels, others: Levels, side: Side, index: Index, id: OrderId, up: bool)
    requires SidesOk(levels, others, side, index) && id in index && index[id].side == side
    ensures var p := index[id].price;
            && p in levels
            && var levels' := SetLevel(levels, p, Without(levels[p], id));
            && SidesOk(levels', others, side, index - {id})
            && (if up then Asks(levels') == Without(Asks(levels), id) else Bids(levels') == Without(Bids(levels), id))
  {
    hide *;
    var p := index[id].price;
    IndexedThere(levels, others, side, index, id);
    LevelFacts(levels, others, side, index, p);
    OnlyAtItsPrice(levels, others, side, index, id);
    var levels' := SetLevel(levels, p, Without(levels[p], id));
    SetLevelShrinks(levels, p, Without(levels[p], id));
    CancelFlat(levels, p, id, up);
    WithoutIds(levels[p], id);
    WithoutTrimmed(levels[p], id);
    ShrinkLevel(levels, others, side, index, p, Without(levels[p], id), {id});
  }

  lemma IndexedThere(levels: Levels, others: Levels, side: Side, index: Index, id: OrderId)
    requires SidesOk(levels, others, side, index) && id in index && index[id].side == side
    ensures index[id].price in levels && id in Ids(levels[index[id].price])
  {
  }

  lemma OnlyAtItsPrice(levels: Levels, others: Levels, side: Side, index: Index, id: OrderId)
    requires SidesOk(levels, others, side, index) && id in index
    ensures forall q, o | q in levels && q != index[id].price && o in levels[q] :: o.id != id
  {
    hide SidesOk;
    RestsAtItsPrice(levels, others, side, index, id);
  }

  lemma CancelFlat(levels: Levels, p: Price, id: OrderId, up: bool)
    requires p in levels && forall q, o | q in levels && q != p && o in levels[q] :: o.id != id
    ensures var levels' := SetLevel(levels, p, Without(levels[p], id));
            if up then Asks(levels') == Without(Asks(levels), id) else Bids(levels') == Without(Bids(levels), id)
  {
    var prices := if up then SortedKeys(levels.Keys) else Reversed(SortedKeys(levels.Keys));
    var levels' := SetLevel(levels, p, Without(levels[p], id));
    hide Flat, Without, Monotone;
    FlatWithout(levels, prices, p, id);
    SortedMonotone(levels.Keys);
    FlatAlongOldPrices(levels', prices, up);
  }

  lemma SortedMonotone(s: set<Price>)
    ensures Monotone(SortedKeys(s), true) && Monotone(Reversed(SortedKeys(s)), false)
  {
  }

  lemma WithoutTrimmed(orders: seq<Order>, id: OrderId)
    requires forall o :: o in Without(orders, id) <==> o in orders && o.id != id
    ensures Trimmed(Without(orders, id), orders)
  {
    forall r | r in Without(orders, id)
      ensures exists o :: o in orders && SameButAmount(r, o)
    {
      assert SameButAmount(r, r);
    }
  }

  /** An id that does not rest on a side is no loss to it. */
  lemma AbsentFromSide(levels: Levels, others: Levels, side: Side, index: Index, id: OrderId, prices: seq<Price>)
    requires SidesOk(levels, others, side, index) && (id !in index || index[id].side != side)
    ensures Without(Flat(levels, prices), id) == Flat(levels, prices)
  {
    RestsAtItsPrice(levels, others, side, index, id);
    FlatHolds(levels, prices, id);
    WithoutAbsent(Flat(levels, prices), id);
  }

  lemma {:induction false} FlatHolds(levels: Levels, prices: seq<Price>, id: OrderId)
    requires forall q, o | q in levels && o in levels[q] :: o.id != id
    ensures forall o | o in Flat(levels, prices) :: o.id != id
  {
    if prices != [] {
      FlatHolds(levels, prices[1..], id);
    }
  }

  /** The order with that id is taken out and nothing else has moved. */
  ghost predicate OneOut(before: seq<Order>, after: seq<Order>, id: OrderId) {
    exists k :: 0 <= k < |before| && before[k].id == id && after == before[..k] + before[k + 1..]
  }

  lemma {:induction false} WithoutOne(orders: seq<Order>, id: OrderId)
    requires DistinctIds(orders) && id in Ids(orders)
    ensures OneOut(orders, Without(orders, id), id)
  {
    hide DistinctIds, OneOut;
    var o, tail := orders[0], orders[1..];
    assert orders == [o] + tail;
    IdsCons(o, tail);
    if o.id == id {
      AbsentIds(tail, id);
      WithoutAbsent(tail, id);
      FirstOut(o, tail);
    } else {
      WithoutOne(tail, id);
      LaterOut(o, tail, Without(tail, id), id);
      assert Without(orders, id) == [o] + Without(tail, id);
    }
  }

  lemma AbsentIds(orders: seq<Order>, id: OrderId)
    requires id !in Ids(orders)
    ensures forall o | o in orders :: o.id != id
  {}

  lemma FirstOut(o: Order, tail: seq<Order>)
    ensures OneOut([o] + tail, tail, o.id)
  {
    var all := [o] + tail;
    assert all[..0] + all[0 + 1..] == tail && all[0].id == o.id;
  }

  lemma LaterOut(o: Order, tail: seq<Order>, after: seq<Order>, id: OrderId)
    requires OneOut(tail, after, id)
    ensures OneOut([o] + tail, [o] + after, id)
  {
    var k :| 0 <= k < |tail| && tail[k].id == id && after == tail[..k] + tail[k + 1..];
    var all := [o] + tail;
    assert all[..k + 1] == [o] + tail[..k] && all[k + 1 + 1..] == tail[k + 1..];
    assert all[k + 1].id == id && [o] + after == all[..k + 1] + all[k + 1 + 1..];
  }

  lemma DistinctConcat(a: seq<Order>, b: seq<Order>)
    requires DistinctIds(a) && DistinctIds(b) && forall x, y | x in a && y in b :: x.id != y.id
    ensures DistinctIds(a + b)
  {
    assert forall i | 0 <= i < |a| :: a[i] in a;
    assert forall i | 0 <= i < |b| :: b[i] in b;
  }

  /** No id rests twice on a side. */
  lemma {:induction false} FlatDistinct(levels: Levels, others: Levels, side: Side, index: Index, prices: seq<Price>, up: bool)
    requires SidesOk(levels, others, side, index) && Monotone(prices, up)
    ensures DistinctIds(Flat(levels, prices))
  {
    hide SidesOk, Monotone, DistinctIds;
    if prices != [] {
      var head, tail := Level(levels, prices[0]), Flat(levels, prices[1..]);
      MonotoneTail(prices, up);
      FlatDistinct(levels, others, side, index, prices[1..], up);
      LevelDistinct(levels, others, side, index, prices[0]);
      SidePrices(levels, others, side, index);
      FlatPrices(levels, prices[1..]);
      forall x, y | x in head && y in tail
        ensures x.id != y.id
      {
        FlatInLevels(levels, prices[1..]);
        assert x in levels[prices[0]] && y in levels[y.price];
      }
      DistinctConcat(head, tail);
      assert Flat(levels, prices) == head + tail;
    } else {
      NoIds([]);
    }
  }

  /** Each order in the list rests at its price. */
  lemma {:induction false} FlatInLevels(levels: Levels, prices: seq<Price>)
    requires forall p, o | p in levels && o in levels[p] :: o.price == p
    ensures forall o | o in Flat(levels, prices) :: o.price in levels && o in levels[o.price]
  {
    if prices != [] {
      FlatInLevels(levels, prices[1..]);
    }
  }

  lemma LevelDistinct(levels: Levels, others: Levels, side: Side, index: Index, p: Price)
    requires SidesOk(levels, others, side, index)
    ensures DistinctIds(Level(levels, p))
  {
    if p in levels {
      assert LevelOk(levels[p], p, side, index);
    }
  }

  lemma SidePrices(levels: Levels, others: Levels, side: Side, index: Index)
    requires SidesOk(levels, others, side, index)
    ensures forall p, o | p in levels && o in levels[p] :: o.price == p && o.id in index && index[o.id].price == p
  {
    forall p, o | p in levels && o in levels[p]
      ensures o.price == p && o.id in index && index[o.id].price == p
    {
      assert LevelOk(levels[p], p, side, index);
    }
  }

  lemma IndexedInFlat(levels: Levels, others: Levels, side: Side, index: Index, id: OrderId)
    requires SidesOk(levels, others, side, index) && id in index && index[id].side == side
    ensures id in Ids(Asks(levels)) && id in Ids(Bids(levels))
  {
    var p := index[id].price;
    var o: Order :| o in levels[p] && o.id == id;
    LevelInFlat(levels, SortedKeys(levels.Keys), p, o);
    LevelInFlat(levels, Reversed(SortedKeys(levels.Keys)), p, o);
  }

  lemma {:induction false} LevelInFlat(levels: Levels, prices: seq<Price>, p: Price, o: Order)
    requires p in prices && p in levels && o in levels[p]
    ensures o in Flat(levels, prices)
  {
    if prices[0] != p {
      LevelInFlat(levels, prices[1..], p, o);
    }
  }

  lemma CancelTakesOne(levels: Levels, others: Levels, side: Side, index: Index, id: OrderId)
    requires SidesOk(levels, others, side, index) && id in index && index[id].side == side
    ensures OneOut(Asks(levels), Without(Asks(levels), id), id) && OneOut(Bids(levels), Without(Bids(levels), id), id)
  {
    hide SidesOk, OneOut, Without;
    SortedMonotone(levels.Keys);
    FlatDistinct(levels, others, side, index, SortedKeys(levels.Keys), true);
    FlatDistinct(levels, others, side, index, Reversed(SortedKeys(levels.Keys)), false);
    IndexedInFlat(levels, others, side, index, id);
    WithoutOne(Asks(levels), id);
    WithoutOne(Bids(levels), id);
  }

  lemma AsksAndBids(buys: Levels, sells: Levels)
    ensures Asks(sells) == Flat(sells, SortedKeys(sells.Keys)) && Bids(buys) == Flat(buys, Reversed(SortedKeys(buys.Keys)))
  {
  }

  lemma AbsentUnchanged(buys: Levels, sells: Levels, index: Index, id: OrderId)
    requires BookOk(buys, sells, index)
    ensures id !in index || index[id].side != Buy ==> Without(Bids(buys), id) == Bids(buys)
    ensures id !in index || index[id].side != Sell ==> Without(Asks(sells), id) == Asks(sells)
  {
    hide *;
    BothSides(buys, sells, index);
    AsksAndBids(buys, sells);
    if id !in index || index[id].side != Buy {
      AbsentFromSide(buys, sells, Buy, index, id, Reversed(SortedKeys(buys.Keys)));
    }
    if id !in index || index[id].side != Sell {
      AbsentFromSide(sells, buys, Sell, index, id, SortedKeys(sells.Keys));
    }
  }

  lemma CancelKeeps(buys: Levels, sells: Levels, index: Index, id: OrderId)
    requires BookOk(buys, sells, index) && id in index
    ensures var p := index[id].price;
            if index[id].side == Buy then
              && p in buys
              && var buys' := SetLevel(buys, p, Without(buys[p], id));
              && BookOk(buys', sells, index - {id}) && Bids(buys') == Without(Bids(buys), id)
            else
              && p in sells
              && var sells' := SetLevel(sells, p, Without(sells[p], id));
              && BookOk(buys, sells', index - {id}) && Asks(sells') == Without(Asks(sells), id)
  {
    hide *;
    BothSides(buys, sells, index);
    var p := index[id].price;
    if index[id].side == Buy {
      CancelOnSide(buys, sells, Buy, index, id, false);
      BothSides(SetLevel(buys, p, Without(buys[p], id)), sells, index - {id});
    } else {
      CancelOnSide(sells, buys, Sell, index, id, true);
      BothSides(buys, SetLevel(sells, p, Without(sells[p], id)), index - {id});
    }
  }

  function AddTo(total: nat, quote: Option<nat>): Option<nat> {
    if quote.Some? then Some(total + quote.value) else None
  }

  class Book {
    var buyOrders: Levels
    var sellOrders: Levels
    var orderIndex: Index

    ghost predicate Valid()
      reads this
    {
      BookOk(buyOrders, sellOrders, orderIndex)
    }

    constructor ()
      ensures Valid() && buyOrders == map[] && sellOrders == map[] && orderIndex == map[]
    {
      buyOrders, sellOrders, orderIndex := map[], map[], map[];
    }

    /** `add_limit_order`; ids are drawn at random and taken to be fresh. */
    method AddLimitOrder(order: Order)
      requires Valid() && order.id !in orderIndex
      modifies this
      ensures Valid() && orderIndex == old(orderIndex)[order.id := order]
      ensures buyOrders == if order.side == Buy then Queued(old(buyOrders), order) else old(buyOrders)
      ensures sellOrders == if order.side == Sell then Queued(old(sellOrders), order) else old(sellOrders)
      ensures order.side == Buy ==> exists k :: QueuedAt(old(Bids(buyOrders)), Bids(buyOrders), order, false, k)
      ensures order.side == Sell ==> exists k :: QueuedAt(old(Asks(sellOrders)), Asks(sellOrders), order, true, k)
    {
      hide BookOk, Asks, Bids, QueuedAt;
      BothSides(buyOrders, sellOrders, orderIndex);
      SideQueued(buyOrders, sellOrders, Buy, orderIndex, order);
      SideQueued(sellOrders, buyOrders, Sell, orderIndex, order);
      AddToBook(buyOrders, sellOrders, orderIndex, order);
      orderIndex := orderIndex[order.id := order];
      match order.side {
        case Buy =>
          var level := if order.price in buyOrders then buyOrders[order.price] else [];
          buyOrders := buyOrders[order.price := level + [order]];
        case Sell =>
          var level := if order.price in sellOrders then sellOrders[order.price] else [];
          sellOrders := sellOrders[order.price := level + [order]];
      }
    }

    /** `add_order`: only limit orders and the visible part of iceberg orders
        rest in the book; conditional orders are accepted and forgotten. An iceberg
        order that shows more than its amount panics. */
    method AddOrder(order: Order) returns (r: Result<OrderId, DexError>)
      requires Valid() && order.id !in orderIndex
      modifies this
      ensures Valid() && (r == Err(InvalidPrice) <==> order.orderType == Market)
      ensures r == Err(Panic) <==> order.orderType.Iceberg? && order.orderType.visibleAmount > order.amount
      ensures r.Ok? ==> r.value == order.id
      ensures r.Err? ==> r.error in {InvalidPrice, Panic}
      ensures var shown := if order.orderType.Iceberg? then order.(amount := order.orderType.visibleAmount) else order;
              var rests := r.Ok? && (order.orderType == Limit || order.orderType.Iceberg?);
              && orderIndex == (if rests then old(orderIndex)[order.id := shown] else old(orderIndex))
              && buyOrders == (if rests && order.side == Buy then Queued(old(buyOrders), shown) else old(buyOrders))
              && sellOrders == (if rests && order.side == Sell then Queued(old(sellOrders), shown) else old(sellOrders))
    {
      match order.orderType {
        case Limit => AddLimitOrder(order);
        case Market => return Err(InvalidPrice);
        case StopLoss => return Ok(order.id);
        case TakeProfit => return Ok(order.id);
        case Iceberg(visibleAmount) =>
          if visibleAmount > order.amount {
            return Err(Panic);
          }
          AddLimitOrder(order.(amount := visibleAmount));
      }
      return Ok(order.id);
    }

    /** The inner loop of a match: fills from one price level, dropping used-up
        makers from the level and from the index. */
    method MatchLevel(orders0: seq<Order>, price: Price, taker: OrderId, remaining0: nat)
      returns (orders: seq<Order>, trades: seq<Trade>, remaining: nat)
      requires forall o | o in orders0 :: o.price == price
      modifies this`orderIndex
      ensures var g := Greedy(orders0, taker, remaining0, NoLimit);
              && orders == g.rest && trades == g.trades && remaining == g.left
              && orderIndex == old(orderIndex) - g.gone
    {
      orders, trades, remaining := orders0, [], remaining0;
      ghost var goal, gone := Greedy(orders0, taker, remaining0, NoLimit), {};
      assert goal == Continue([], {}, goal) by {
        assert [] + goal.trades == goal.trades && {} + goal.gone == goal.gone;
      }
      while orders != [] && remaining > 0
        invariant forall o | o in orders :: o.price == price
        invariant goal == Continue(trades, gone, Greedy(orders, taker, remaining, NoLimit))
        invariant orderIndex == old(orderIndex) - gone
        decreases |orders|, remaining
      {
        var maker := orders[0];
        assert maker in orders;
        var tradeAmount := Min(remaining, maker.amount);
        var trade := Trade(maker.id, taker, tradeAmount, price);
        if maker.amount <= remaining {
          GreedyTakes(orders, taker, remaining, NoLimit);
          ContinueTaken(trades, gone, trade, Greedy(orders[1..], taker, remaining - tradeAmount, NoLimit));
        }
        trades := trades + [trade];
        remaining := remaining - tradeAmount;
        orders := [maker.(amount := maker.amount - tradeAmount)] + orders[1..];
        if orders[0].amount == 0 {
          orders := orders[1..];
          orderIndex := orderIndex - {maker.id};
          gone := gone + {maker.id};
        }
      }
      assert trades + [] == trades && gone + {} == gone;
    }

    /** The loop over price levels shared by `match_buy_order` and
        `match_sell_order`, which differ in the side and the direction. */
    method MatchLevels(levels0: Levels, prices: seq<Price>, taker: Order, limit: PriceLimit, side: Side, ghost others: Levels)
      returns (levels: Levels, trades: seq<Trade>)
      requires Monotone(prices, side == Sell) && forall p :: p in prices <==> p in levels0
      requires SidesOk(levels0, others, side, orderIndex)
      modifies this`orderIndex
      ensures var f := Greedy(Flat(levels0, prices), taker.id, taker.amount, limit);
              && trades == f.trades && Flat(levels, prices) == f.rest
              && orderIndex == old(orderIndex) - f.gone
      ensures SidesOk(levels, others, side, orderIndex) && levels.Keys <= levels0.Keys
    {
      levels, trades := levels0, [];
      var remaining := taker.amount;
      ghost var goal, gone := Greedy(Flat(levels0, prices), taker.id, taker.amount, limit), {};
      ProgressStarts(levels0, prices, taker.id, remaining, limit);
      hide *;
      var i := 0;
      while i < |prices| && remaining != 0
        invariant 0 <= i <= |prices|
        invariant Progress(levels0, prices, i, levels, taker.id, remaining, limit, trades, gone, goal)
        invariant SidesOk(levels, others, side, orderIndex) && levels.Keys <= levels0.Keys
        invariant orderIndex == old(orderIndex) - gone
      {
        var price := prices[i];
        NextLevelThere(levels0, prices, i, levels, taker.id, remaining, limit, trades, gone, goal);
        LevelFacts(levels, others, side, orderIndex, price);
        if !Accepts(limit, price) {
          break;
        }
        ProgressStep(levels0, prices, i, levels, taker.id, remaining, limit, trades, gone, goal, side == Sell);
        GreedyIds(levels[price], taker.id, remaining, NoLimit);
        FillLevel(levels, others, side, orderIndex, price, Greedy(levels[price], taker.id, remaining, NoLimit));
        ghost var taken := Greedy(levels[price], taker.id, remaining, NoLimit).gone;
        var orders, levelTrades, left := MatchLevel(levels[price], price, taker.id, remaining);
        SetLevelShrinks(levels, price, orders);
        if orders == [] {
          levels := levels - {price};
        } else {
          levels := levels[price := orders];
        }
        MinusTwice(old(orderIndex), gone, taken);
        trades, remaining, gone := trades + levelTrades, left, gone + taken;
        i := i + 1;
      }
      ProgressDone(levels0, prices, i, levels, taker.id, remaining, limit, trades, gone, goal);
    }

    /** `match_buy_order`: greedy filling from the asks, cheapest first. */
    method MatchBuyOrder(taker: Order) returns (trades: seq<Trade>)
      requires Valid() && taker.side == Buy
      modifies this
      ensures Valid() && buyOrders == old(buyOrders)
      ensures var f := Greedy(old(Asks(sellOrders)), taker.id, taker.amount, LimitOf(taker));
              trades == f.trades && Asks(sellOrders) == f.rest && orderIndex == old(orderIndex) - f.gone
      ensures forall t | t in trades :: t.takerOrderId == taker.id && FromLevel(t, old(sellOrders))
      ensures forall t | t in trades && taker.orderType == Limit :: t.price <= taker.price
      ensures forall i, j | 0 <= i < j < |trades| :: trades[i].price <= trades[j].price
      ensures forall t, p | t in trades && p in sellOrders :: t.price <= p
      ensures Traded(trades) <= taker.amount && old(Resting(Asks(sellOrders))) == Resting(Asks(sellOrders)) + Traded(trades)
      ensures Traded(trades) < taker.amount ==> forall p | p in sellOrders :: taker.orderType == Limit && p > taker.price
      ensures BestExecution.BestFor(true, Cost(trades), Traded(trades), old(Asks(sellOrders)))
    {
      var prices := SortedKeys(sellOrders.Keys);
      FlatAlongOldPrices(sellOrders, prices, true);
      hide BookOk, SideOk, Indexed, Greedy, Asks, Bids, Resting, Traded, Cost, LimitOf, FromLevel, BestExecution.BestFor;
      BothSides(buyOrders, sellOrders, orderIndex);
      var levels, matched := MatchLevels(sellOrders, prices, taker, LimitOf(taker), Sell, buyOrders);
      FlatAlongOldPrices(levels, prices, true);
      BothSides(buyOrders, levels, orderIndex);
      ghost var f := Greedy(Asks(sellOrders), taker.id, taker.amount, LimitOf(taker));
      BuyOutcome(buyOrders, sellOrders, levels, old(orderIndex), orderIndex, taker, f);
      sellOrders, trades := levels, matched;
    }

    /** `match_sell_order`: greedy filling from the bids, dearest first. */
    method MatchSellOrder(taker: Order) returns (trades: seq<Trade>)
      requires Valid() && taker.side == Sell
      modifies this
      ensures Valid() && sellOrders == old(sellOrders)
      ensures var f := Greedy(old(Bids(buyOrders)), taker.id, taker.amount, LimitOf(taker));
              trades == f.trades && Bids(buyOrders) == f.rest && orderIndex == old(orderIndex) - f.gone
      ensures forall t | t in trades :: t.takerOrderId == taker.id && FromLevel(t, old(buyOrders))
      ensures forall t | t in trades && taker.orderType == Limit :: t.price >= taker.price
      ensures forall i, j | 0 <= i < j < |trades| :: trades[i].price >= trades[j].price
      ensures forall t, p | t in trades && p in buyOrders :: t.price >= p
      ensures Traded(trades) <= taker.amount && old(Resting(Bids(buyOrders))) == Resting(Bids(buyOrders)) + Traded(trades)
      ensures Traded(trades) < taker.amount ==> forall p | p in buyOrders :: taker.orderType == Limit && p < taker.price
      ensures BestExecution.BestFor(false, Cost(trades), Traded(trades), old(Bids(buyOrders)))
    {
      var prices := Reversed(SortedKeys(buyOrders.Keys));
      FlatAlongOldPrices(buyOrders, prices, false);
      hide BookOk, SideOk, Indexed, Greedy, Asks, Bids, Resting, Traded, Cost, LimitOf, FromLevel, BestExecution.BestFor;
      BothSides(buyOrders, sellOrders, orderIndex);
      var levels, matched := MatchLevels(buyOrders, prices, taker, LimitOf(taker), Buy, sellOrders);
      FlatAlongOldPrices(levels, prices, false);
      BothSides(levels, sellOrders, orderIndex);
      ghost var f := Greedy(Bids(buyOrders), taker.id, taker.amount, LimitOf(taker));
      SellOutcome(buyOrders, sellOrders, levels, old(orderIndex), orderIndex, taker, f);
      buyOrders, trades := levels, matched;
    }

    /** `cancel_order` */
    method CancelOrder(id: OrderId) returns (r: Result<(), DexError>)
      requires Valid()
      modifies this
      ensures Valid() && r == (if id in old(orderIndex) then Ok(()) else Err(OrderNotFound))
      ensures orderIndex == old(orderIndex) - {id}
      ensures Asks(sellOrders) == Without(old(Asks(sellOrders)), id) && Bids(buyOrders) == Without(old(Bids(buyOrders)), id)
      ensures r.Err? ==> buyOrders == old(buyOrders) && sellOrders == old(sellOrders)
      ensures r.Ok? && old(orderIndex)[id].side == Buy ==>
                sellOrders == old(sellOrders) && OneOut(old(Bids(buyOrders)), Bids(buyOrders), id)
      ensures r.Ok? && old(orderIndex)[id].side == Sell ==>
                buyOrders == old(buyOrders) && OneOut(old(Asks(sellOrders)), Asks(sellOrders), id)
    {
      hide BookOk, Asks, Bids, Without, SetLevel, OneOut;
      AbsentUnchanged(buyOrders, sellOrders, orderIndex, id);
      if id !in orderIndex {
        assert orderIndex - {id} == orderIndex;
        return Err(OrderNotFound);
      }
      var order := orderIndex[id];
      CancelKeeps(buyOrders, sellOrders, orderIndex, id);
      BothSides(buyOrders, sellOrders, orderIndex);
      if order.side == Buy {
        CancelTakesOne(buyOrders, sellOrders, Buy, orderIndex, id);
      } else {
        CancelTakesOne(sellOrders, buyOrders, Sell, orderIndex, id);
      }
      orderIndex := orderIndex - {id};
      match order.side {
        case Buy =>
          if order.price in buyOrders {
            var orders := Without(buyOrders[order.price], id);
            SetLevelShrinks(buyOrders, order.price, orders);
            buyOrders := if orders == [] then buyOrders - {order.price} else buyOrders[order.price := orders];
          }
        case Sell =>
          if order.price in sellOrders {
            var orders := Without(sellOrders[order.price], id);
            SetLevelShrinks(sellOrders, order.price, orders);
            sellOrders := if orders == [] then sellOrders - {order.price} else sellOrders[order.price := orders];
          }
      }
      return Ok(());
    }

    /** `calculate_market_buy`: walks the asks without touching them. */
    method CalculateMarketBuy(amount: nat) returns (r: Result<nat, DexError>)
      requires Valid()
      ensures var f := Greedy(Asks(sellOrders), 0, amount, NoLimit);
              r == if f.left == 0 then Ok(Cost(f.trades)) else Err(InsufficientLiquidity)
      ensures r.Ok? <==> amount <= Resting(Asks(sellOrders))
      ensures r.Ok? ==> BestExecution.LeastCost(r.value, amount, Asks(sellOrders))
    {
      var prices := SortedKeys(sellOrders.Keys);
      var totalCost: nat, remaining: nat := 0, amount;
      ghost var quote := Quote(Asks(sellOrders), amount);
      QuoteIsExact(Asks(sellOrders), 0, amount);
      BookWorsens(buyOrders, sellOrders, orderIndex);
      BestExecution.QuoteIsLeast(Asks(sellOrders), amount);
      hide Greedy, Quote, BookOk, Resting, Worsening, BestExecution.LeastCost;
      assert prices[0..] == prices;
      for i := 0 to |prices|
        invariant quote == AddTo(totalCost, Quote(Flat(sellOrders, prices[i..]), remaining))
      {
        PriceOf(buyOrders, sellOrders, orderIndex, prices[i]);
        assert prices[i] in sellOrders && prices[i..][1..] == prices[i + 1..];
        var found: bool;
        found, totalCost, remaining :=
          QuoteLevel(sellOrders[prices[i]], prices[i], Flat(sellOrders, prices[i + 1..]), totalCost, remaining, quote);
        if found {
          return Ok(totalCost);
        }
      }
      assert prices[|prices|..] == [];
      QuoteNothing(remaining);
      if remaining > 0 {
        return Err(InsufficientLiquidity);
      }
      return Ok(totalCost);
    }

    /** `get_depth`: the best `levels` prices of either side with their totals. */
    method GetDepth(levels: nat) returns (bids: seq<Depth>, asks: seq<Depth>)
      ensures var up := SortedKeys(sellOrders.Keys); asks == DepthAlong(sellOrders, up[..Min(levels, |up|)])
      ensures var down := Reversed(SortedKeys(buyOrders.Keys)); bids == DepthAlong(buyOrders, down[..Min(levels, |down|)])
      ensures BestLevels(sellOrders, true, levels, asks) && BestLevels(buyOrders, false, levels, bids)
    {
      var up, down := SortedKeys(sellOrders.Keys), Reversed(SortedKeys(buyOrders.Keys));
      bids := DepthOf(buyOrders, down[..Min(levels, |down|)]);
      asks := DepthOf(sellOrders, up[..Min(levels, |up|)]);
      DepthIsBest(sellOrders, up, levels, true);
      DepthIsBest(buyOrders, down, levels, false);
    }
  }

  lemma PriceOf(buys: Levels, sells: Levels, index: Index, p: Price)
    requires BookOk(buys, sells, index)
    ensures p in sells ==> forall o | o in sells[p] :: o.price == p
  {
    if p in sells {
      assert LevelOk(sells[p], p, Sell, index);
    }
  }

  lemma QuoteNothing(amount: nat)
    ensures Quote([], amount) == if amount == 0 then Some(0) else None
  {
  }

  lemma QuoteOne(order: Order, later: seq<Order>, amount: nat)
    ensures var traded := Min(amount, order.amount);
            Quote([order] + later, amount) ==
            if amount == traded then Some(traded * order.price)
            else AddTo(traded * order.price, Quote(later, amount - traded))
  {
    assert ([order] + later)[1..] == later;
  }

  /** The inner loop of a quote, over the orders of one level. */
  method QuoteLevel(orders: seq<Order>, price: Price, ghost later: seq<Order>, total0: nat, remaining0: nat,
                    ghost quote: Option<nat>)
    returns (found: bool, total: nat, remaining: nat)
    requires forall o | o in orders :: o.price == price
    requires quote == AddTo(total0, Quote(orders + later, remaining0))
    ensures found ==> quote == Some(total)
    ensures !found ==> quote == AddTo(total, Quote(later, remaining))
  {
    hide Quote;
    total, remaining := total0, remaining0;
    assert orders[0..] + later == orders + later;
    for j := 0 to |orders|
      invariant quote == AddTo(total, Quote(orders[j..] + later, remaining))
    {
      var order := orders[j];
      assert order in orders && orders[j..] + later == [order] + (orders[j + 1..] + later);
      QuoteOne(order, orders[j + 1..] + later, remaining);
      var tradeAmount := Min(remaining, order.amount);
      total := total + tradeAmount * price;
      remaining := remaining - tradeAmount;
      if remaining == 0 {
        return true, total, remaining;
      }
    }
    assert orders[|orders|..] + later == later;
    return false, total, remaining;
  }

  method DepthOf(levels: Levels, prices: seq<Price>) returns (depth: seq<Depth>)
    requires forall p | p in prices :: p in levels
    ensures depth == DepthAlong(levels, prices)
  {
    depth := [];
    var i := |prices|;
    while i > 0
      invariant 0 <= i <= |prices|
      invariant forall p | p in prices[i..] :: p in levels
      invariant depth == DepthAlong(levels, prices[i..])
    {
      i := i - 1;
      assert prices[i] in prices && prices[i..] == [prices[i]] + prices[i + 1..];
      depth := [Depth(prices[i], Resting(levels[prices[i]]), |levels[prices[i]]|)] + depth;
    }
    assert prices[0..] == prices;
  }
}
