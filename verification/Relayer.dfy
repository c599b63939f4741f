/**
 * The cross-chain relayer (cross_chain/relayer.rs) as a step protocol: submit,
 * confirm, relay. Each method is one step; the order in which the pending map is
 * visited and the outcome of every relay attempt are parameters. Chains, payload
 * and timestamps, which nothing branches on, are left out.
 */
module Relayer {
  import opened Common

  type Id = nat

  datatype Status = Pending | Confirming | Ready | Relayed | Failed

  datatype Message = Message(id: Id, nonce: nat, confirmations: nat, status: Status, retryCount: nat)

  datatype Config = Config(minConfirmations: nat, batchSize: nat, maxRetryAttempts: nat)

  /** `log` is history only: the ids whose relay succeeded, in order. */
  datatype State = State(queue: seq<Message>, pending: map<Id, Message>, relayed: map<Id, Message>, nonce: nat, log: seq<Id>)

  /** Known ids: `get_message_status` finds them. */
  predicate Known(s: State, id: Id) {
    id in s.pending || id in s.relayed
  }

  // ---- the three steps ----

  function Submit(s: State, id: Id): State {
    var message := Message(id, s.nonce + 1, 0, Status.Pending, 0);
    s.(queue := s.queue + [message], pending := s.pending[id := message], nonce := s.nonce + 1)
  }

  /** One more confirmation; the message is ready when it has enough. */
  function Confirmed(c: Config, m: Message): Message {
    if !m.status.Pending? then m
    else
      m.(confirmations := m.confirmations + 1,
         status := if m.confirmations + 1 >= c.minConfirmations then Ready else Status.Pending)
  }

  /** The messages that become ready, in the order visited. */
  function NewlyReady(c: Config, pending: map<Id, Message>, order: seq<Id>): seq<Message>
    requires forall id | id in order :: id in pending
  {
    if order == [] then []
    else
      var m := pending[order[|order| - 1]];
      NewlyReady(c, pending, order[..|order| - 1]) +
      if m.status.Pending? && Confirmed(c, m).status.Ready? then [Confirmed(c, m)] else []
  }

  ghost predicate Enumerates(order: seq<Id>, keys: set<Id>) {
    && (forall id :: id in order <==> id in keys)
    && (forall i, j | 0 <= i < j < |order| :: order[i] != order[j])
  }

  function Process(c: Config, s: State, order: seq<Id>): State
    requires forall id | id in order :: id in s.pending
  {
    s.(pending := map id | id in s.pending :: Confirmed(c, s.pending[id]),
       queue := s.queue + NewlyReady(c, s.pending, order))
  }

  function ReadyOnly(q: seq<Message>): seq<Message> {
    if q == [] then []
    else ReadyOnly(q[..|q| - 1]) + if q[|q| - 1].status.Ready? then [q[|q| - 1]] else []
  }

  function NotReady(q: seq<Message>): seq<Message> {
    if q == [] then []
    else NotReady(q[..|q| - 1]) + if q[|q| - 1].status.Ready? then [] else [q[|q| - 1]]
  }

  function DeliverOne(c: Config, s: State, m: Message, ok: bool): State {
    if ok then
      s.(relayed := s.relayed[m.id := m.(status := Relayed)], pending := s.pending - {m.id}, log := s.log + [m.id])
    else if m.retryCount + 1 >= c.maxRetryAttempts then s
    else s.(queue := s.queue + [m.(retryCount := m.retryCount + 1)])
  }

  function Deliver(c: Config, s: State, batch: seq<Message>, ok: Id -> bool): State
    decreases |batch|
  {
    if batch == [] then s else Deliver(c, DeliverOne(c, s, batch[0], ok(batch[0].id)), batch[1..], ok)
  }

  /** The state once the first `n` messages are taken off: those not ready go to the back. */
  function Taken(s: State, n: nat): State
    requires n <= |s.queue|
  {
    s.(queue := s.queue[n..] + NotReady(s.queue[..n]))
  }

  function Relay(c: Config, s: State, ok: Id -> bool): State {
    var n := Min(c.batchSize, |s.queue|);
    Deliver(c, Taken(s, n), ReadyOnly(s.queue[..n]), ok)
  }

  // ---- the invariant ----

  /** Confirmations a message has when it becomes ready. */
  function Needed(c: Config): nat {
    Max(1, c.minConfirmations)
  }

  predicate RetriesBounded(c: Config, m: Message) {
    m.retryCount == 0 || m.retryCount < c.maxRetryAttempts
  }

  /** How many ready copies of `id` the queue holds. */
  function ReadyCount(q: seq<Message>, id: Id): nat {
    if q == [] then 0
    else (if q[0].status.Ready? && q[0].id == id then 1 else 0) + ReadyCount(q[1..], id)
  }

  predicate QueuedOk(c: Config, pending: map<Id, Message>, m: Message) {
    || m.status.Pending?
    || (m.status.Ready? && m.id in pending && pending[m.id].status.Ready?
        && m.confirmations == Needed(c) && RetriesBounded(c, m))
  }

  ghost predicate QueueOk(c: Config, s: State) {
    && (forall m | m in s.queue :: QueuedOk(c, s.pending, m))
    && (forall id :: ReadyCount(s.queue, id) <= 1)
  }

  predicate PendingOk(c: Config, id: Id, m: Message) {
    && m.id == id && m.retryCount == 0
    && (m.status.Ready? || m.status.Pending?)
    && (m.status.Ready? ==> m.confirmations == Needed(c))
    && (m.status.Pending? ==> m.confirmations < Needed(c))
  }

  predicate RelayedOk(c: Config, id: Id, m: Message) {
    m.id == id && m.status.Relayed? && m.confirmations == Needed(c) && RetriesBounded(c, m)
  }

  ghost predicate MapsOk(c: Config, s: State) {
    && s.pending.Keys !! s.relayed.Keys
    && (forall id | id in s.pending :: PendingOk(c, id, s.pending[id]))
    && (forall id | id in s.relayed :: RelayedOk(c, id, s.relayed[id]))
  }

  /** Every success is on record, and nothing succeeded twice. */
  ghost predicate LogOk(s: State) {
    && (forall id :: id in s.log <==> id in s.relayed)
    && (forall i, j | 0 <= i < j < |s.log| :: s.log[i] != s.log[j])
  }

  ghost predicate Inv(c: Config, s: State) {
    QueueOk(c, s) && MapsOk(c, s) && LogOk(s)
  }

  const EMPTY := State([], map[], map[], 0, [])

  lemma EmptyInv(c: Config)
    ensures Inv(c, EMPTY)
  {}

  lemma {:induction false} ReadyCountConcat(a: seq<Message>, b: seq<Message>, id: Id)
    ensures ReadyCount(a + b, id) == ReadyCount(a, id) + ReadyCount(b, id)
  {
    if a == [] {
      assert a + b == b;
    } else {
      assert (a + b)[1..] == a[1..] + b;
      ReadyCountConcat(a[1..], b, id);
    }
  }

  lemma {:induction false} ReadyCountIn(q: seq<Message>, m: Message)
    requires m in q && m.status.Ready?
    ensures ReadyCount(q, m.id) >= 1
  {
    if q[0] != m {
      ReadyCountIn(q[1..], m);
    }
  }

  lemma {:induction false} ReadyCountNone(q: seq<Message>, id: Id)
    requires forall m | m in q && m.status.Ready? :: m.id != id
    ensures ReadyCount(q, id) == 0
  {
    if q != [] {
      ReadyCountNone(q[1..], id);
    }
  }

  /** No success of `id` is on record and no copy of it waits to be relayed. */
  predicate Unrelayed(s: State, id: Id) {
    id !in s.relayed && ReadyCount(s.queue, id) == 0
  }

  lemma SubmitKeeps(c: Config, s: State, id: Id)
    requires Inv(c, s) && Unrelayed(s, id)
    ensures Inv(c, Submit(s, id))
  {
    var t := Submit(s, id);
    forall k
      ensures ReadyCount(t.queue, k) <= 1
    {
      ReadyCountConcat(s.queue, [t.queue[|s.queue|]], k);
    }
    forall m | m in t.queue
      ensures QueuedOk(c, t.pending, m)
    {
      if m in s.queue {
        assert QueuedOk(c, s.pending, m);
        if m.status.Ready? {
          ReadyCountIn(s.queue, m);
        }
      }
    }
  }

  // ---- confirming ----

  /** `m` is ready and is what a pending message visited has become. */
  ghost predicate FromPending(c: Config, pending: map<Id, Message>, order: seq<Id>, m: Message)
    requires forall id | id in order :: id in pending
  {
    m.status.Ready? && exists id :: id in order && pending[id].status.Pending? && m == Confirmed(c, pending[id])
  }

  lemma {:induction false} NewlyReadyAre(c: Config, pending: map<Id, Message>, order: seq<Id>)
    requires forall id | id in order :: id in pending
    ensures forall m | m in NewlyReady(c, pending, order) :: FromPending(c, pending, order, m)
  {
    if order != [] {
      var front := order[..|order| - 1];
      NewlyReadyAre(c, pending, front);
      forall m | m in NewlyReady(c, pending, order)
        ensures FromPending(c, pending, order, m)
      {
        if m in NewlyReady(c, pending, front) {
          var id :| id in front && pending[id].status.Pending? && m == Confirmed(c, pending[id]);
          assert id in order;
        } else {
          assert order[|order| - 1] in order;
        }
      }
    }
  }

  lemma {:induction false} NewlyReadyOnce(c: Config, pending: map<Id, Message>, order: seq<Id>, id: Id)
    requires forall k | k in order :: k in pending && pending[k].id == k
    requires forall i, j | 0 <= i < j < |order| :: order[i] != order[j]
    ensures ReadyCount(NewlyReady(c, pending, order), id) <= (if id in order && pending[id].status.Pending? then 1 else 0)
  {
    if order != [] {
      var front, k := order[..|order| - 1], order[|order| - 1];
      NewlyReadyOnce(c, pending, front, id);
      var now := if pending[k].status.Pending? && Confirmed(c, pending[k]).status.Ready?
                 then [Confirmed(c, pending[k])] else [];
      ReadyCountConcat(NewlyReady(c, pending, front), now, id);
      assert k in order && k !in front;
      assert ReadyCount(now, id) <= (if id == k && pending[k].status.Pending? then 1 else 0);
      assert forall x | x in front :: x in order;
    }
  }

  lemma ProcessKeeps(c: Config, s: State, order: seq<Id>)
    requires Inv(c, s) && Enumerates(order, s.pending.Keys)
    ensures Inv(c, Process(c, s, order))
  {
    var t := Process(c, s, order);
    var now := NewlyReady(c, s.pending, order);
    NewlyReadyAre(c, s.pending, order);
    assert MapsOk(c, t) by {
      assert t.pending.Keys == s.pending.Keys;
    }
    forall m | m in t.queue
      ensures QueuedOk(c, t.pending, m)
    {
      if m in s.queue {
        assert QueuedOk(c, s.pending, m);
      } else {
        assert m in now;
        var id :| id in order && s.pending[id].status.Pending? && m == Confirmed(c, s.pending[id]);
        assert PendingOk(c, id, s.pending[id]);
      }
    }
    forall id
      ensures ReadyCount(t.queue, id) <= 1
    {
      ReadyCountConcat(s.queue, now, id);
      NewlyReadyOnce(c, s.pending, order, id);
      if id in order && s.pending[id].status.Pending? {
        PendingNotQueued(c, s, id);
      }
    }
  }

  lemma PendingNotQueued(c: Config, s: State, id: Id)
    requires QueueOk(c, s) && !(id in s.pending && s.pending[id].status.Ready?)
    ensures ReadyCount(s.queue, id) == 0
  {
    forall m | m in s.queue && m.status.Ready?
      ensures m.id != id
    {
      assert QueuedOk(c, s.pending, m);
    }
    ReadyCountNone(s.queue, id);
  }

  // ---- relaying ----

  lemma {:induction false} Partition(q: seq<Message>, id: Id)
    ensures ReadyCount(ReadyOnly(q), id) == ReadyCount(q, id) && ReadyCount(NotReady(q), id) == 0
    ensures forall m :: m in ReadyOnly(q) <==> m in q && m.status.Ready?
    ensures forall m :: m in NotReady(q) <==> m in q && !m.status.Ready?
  {
    if q != [] {
      var front, m := q[..|q| - 1], q[|q| - 1];
      Partition(front, id);
      assert q == front + [m];
      ReadyCountConcat(front, [m], id);
      ReadyCountConcat(ReadyOnly(front), if m.status.Ready? then [m] else [], id);
      ReadyCountConcat(NotReady(front), if m.status.Ready? then [] else [m], id);
    }
  }

  /** The invariant with the batch in hand counted as queued. */
  ghost predicate InHand(c: Config, s: State, batch: seq<Message>) {
    && Inv(c, s.(queue := batch + s.queue))
    && forall m | m in batch :: m.status.Ready?
  }

  lemma TakeKeeps(c: Config, s: State, n: nat)
    requires Inv(c, s) && n <= |s.queue|
    ensures InHand(c, Taken(s, n), ReadyOnly(s.queue[..n]))
  {
    var batch, t := ReadyOnly(s.queue[..n]), Taken(s, n);
    var whole := t.(queue := batch + t.queue);
    assert s.queue == s.queue[..n] + s.queue[n..];
    forall id
      ensures ReadyCount(whole.queue, id) == ReadyCount(s.queue, id)
    {
      Partition(s.queue[..n], id);
      ReadyCountConcat(s.queue[..n], s.queue[n..], id);
      ReadyCountConcat(batch, t.queue, id);
      ReadyCountConcat(s.queue[n..], NotReady(s.queue[..n]), id);
    }
    Partition(s.queue[..n], 0);
    forall m | m in whole.queue
      ensures QueuedOk(c, whole.pending, m)
    {
      assert m in s.queue;
    }
  }

  lemma DeliverOneKeeps(c: Config, s: State, batch: seq<Message>, ok: bool)
    requires batch != [] && InHand(c, s, batch)
    ensures InHand(c, DeliverOne(c, s, batch[0], ok), batch[1..])
  {
    var m, rest, t := batch[0], batch[1..], DeliverOne(c, s, batch[0], ok);
    var before, after := s.(queue := batch + s.queue), t.(queue := rest + t.queue);
    assert m in before.queue && QueuedOk(c, before.pending, m);
    var pushed := if !ok && m.retryCount + 1 < c.maxRetryAttempts then [m.(retryCount := m.retryCount + 1)] else [];
    assert batch == [m] + rest && t.queue == s.queue + pushed;
    forall id
      ensures ReadyCount(after.queue, id) + (if id == m.id then 1 else 0)
           == ReadyCount(before.queue, id) + ReadyCount(pushed, id)
      ensures ReadyCount(pushed, id) <= (if id == m.id then 1 else 0)
    {
      ReadyCountConcat(batch, s.queue, id);
      ReadyCountConcat([m], rest, id);
      ReadyCountConcat(rest, t.queue, id);
      ReadyCountConcat(s.queue, pushed, id);
      assert ReadyCount([m], id) == (if id == m.id then 1 else 0);
      assert ReadyCount(pushed, id) <= (if id == m.id then 1 else 0);
    }
    assert pushed == [] || pushed == [m.(retryCount := m.retryCount + 1)];
    forall x | x in after.queue
      ensures QueuedOk(c, after.pending, x)
    {
      if x !in pushed {
        assert x in before.queue && QueuedOk(c, before.pending, x);
        if ok && x.status.Ready? {
          ReadyCountIn(after.queue, x);
        }
      }
    }
    assert QueueOk(c, after);
    DeliverOneMaps(c, s, m, ok);
  }

  lemma DeliverOneMaps(c: Config, s: State, m: Message, ok: bool)
    requires MapsOk(c, s) && LogOk(s) && m.status.Ready? && QueuedOk(c, s.pending, m)
    ensures MapsOk(c, DeliverOne(c, s, m, ok)) && LogOk(DeliverOne(c, s, m, ok))
  {
    var t := DeliverOne(c, s, m, ok);
    if ok {
      assert m.id !in s.relayed && m.id !in s.log;
      forall id
        ensures id in t.log <==> id in t.relayed
      {
        assert id in s.log <==> id in s.relayed;
      }
    }
  }

  lemma {:induction false} DeliverKeeps(c: Config, s: State, batch: seq<Message>, ok: Id -> bool)
    requires InHand(c, s, batch)
    ensures Inv(c, Deliver(c, s, batch, ok))
    decreases |batch|
  {
    hide Inv;
    if batch == [] {
      assert s.(queue := batch + s.queue) == s;
    } else {
      DeliverOneKeeps(c, s, batch, ok(batch[0].id));
      DeliverKeeps(c, DeliverOne(c, s, batch[0], ok(batch[0].id)), batch[1..], ok);
    }
  }

  lemma RelayKeeps(c: Config, s: State, ok: Id -> bool)
    requires Inv(c, s)
    ensures Inv(c, Relay(c, s, ok))
  {
    hide Inv, InHand, Deliver, Taken;
    var n := Min(c.batchSize, |s.queue|);
    TakeKeeps(c, s, n);
    DeliverKeeps(c, Taken(s, n), ReadyOnly(s.queue[..n]), ok);
  }

  // ---- runs ----

  datatype Step = Submitted(id: Id) | Tick(order: seq<Id>) | Round(ok: Id -> bool)

  /** Submitted ids are neither relayed nor about to be, and a tick visits every
      pending message once. */
  ghost predicate Allowed(s: State, step: Step) {
    match step
    case Submitted(id) => Unrelayed(s, id)
    case Tick(order) => Enumerates(order, s.pending.Keys)
    case Round(_) => true
  }

  ghost function Next(c: Config, s: State, step: Step): State
    requires Allowed(s, step)
  {
    match step
    case Submitted(id) => Submit(s, id)
    case Tick(order) => Process(c, s, order)
    case Round(ok) => Relay(c, s, ok)
  }

  ghost predicate AllowedRun(c: Config, s: State, steps: seq<Step>)
    decreases |steps|
  {
    steps != [] ==> Allowed(s, steps[0]) && AllowedRun(c, Next(c, s, steps[0]), steps[1..])
  }

  ghost function Run(c: Config, s: State, steps: seq<Step>): State
    requires AllowedRun(c, s, steps)
    decreases |steps|
  {
    if steps == [] then s else Run(c, Next(c, s, steps[0]), steps[1..])
  }

  lemma NextKeeps(c: Config, s: State, step: Step)
    requires Inv(c, s) && Allowed(s, step)
    ensures Inv(c, Next(c, s, step))
  {
    hide Inv;
    match step
    case Submitted(id) => SubmitKeeps(c, s, id);
    case Tick(order) => ProcessKeeps(c, s, order);
    case Round(ok) => RelayKeeps(c, s, ok);
  }

  /** In every run, whatever the outcomes: no message is relayed twice, every
      relayed one had the needed confirmations, nothing is pending and relayed
      at once, and retries stay below the limit. */
  lemma {:induction false} RunKeeps(c: Config, s: State, steps: seq<Step>)
    requires Inv(c, s) && AllowedRun(c, s, steps)
    ensures Inv(c, Run(c, s, steps))
    decreases |steps|
  {
    hide Inv;
    if steps != [] {
      NextKeeps(c, s, steps[0]);
      RunKeeps(c, Next(c, s, steps[0]), steps[1..]);
    }
  }

  lemma RelayedAtMostOnce(c: Config, steps: seq<Step>)
    requires AllowedRun(c, EMPTY, steps)
    ensures var t := Run(c, EMPTY, steps);
            && (forall i, j | 0 <= i < j < |t.log| :: t.log[i] != t.log[j])
            && (forall id :: id in t.log <==> id in t.relayed)
            && (forall id | id in t.relayed :: RelayedOk(c, id, t.relayed[id]) && id !in t.pending)
            && (forall m | m in t.queue :: m.status.Pending? || RetriesBounded(c, m))
  {
    EmptyInv(c);
    RunKeeps(c, EMPTY, steps);
    var t := Run(c, EMPTY, steps);
    forall m | m in t.queue
      ensures m.status.Pending? || RetriesBounded(c, m)
    {
      assert QueuedOk(c, t.pending, m);
    }
  }

  // ---- confirmations are ticks ----

  function Ticks(steps: seq<Step>): nat {
    if steps == [] then 0 else (if steps[0].Tick? then 1 else 0) + Ticks(steps[1..])
  }

  /** Confirmations on record for `id`. */
  function Confirmations(s: State, id: Id): nat {
    if id in s.relayed then s.relayed[id].confirmations
    else if id in s.pending then s.pending[id].confirmations
    else 0
  }

  lemma {:induction false} DeliverConfirmations(c: Config, s: State, batch: seq<Message>, ok: Id -> bool, id: Id)
    requires InHand(c, s, batch)
    ensures Confirmations(Deliver(c, s, batch, ok), id) == Confirmations(s, id)
    decreases |batch|
  {
    if batch != [] {
      var m := batch[0];
      var t := DeliverOne(c, s, m, ok(m.id));
      assert m in s.(queue := batch + s.queue).queue && QueuedOk(c, s.pending, m) && PendingOk(c, m.id, s.pending[m.id]);
      assert Confirmations(t, id) == Confirmations(s, id);
      DeliverOneKeeps(c, s, batch, ok(m.id));
      DeliverConfirmations(c, t, batch[1..], ok, id);
    }
  }

  lemma NextConfirmations(c: Config, s: State, step: Step, id: Id)
    requires Inv(c, s) && Allowed(s, step)
    ensures Confirmations(Next(c, s, step), id) <= Confirmations(s, id) + if step.Tick? then 1 else 0
  {
    match step
    case Submitted(k) =>
    case Tick(order) =>
    case Round(ok) =>
      hide Inv, InHand, ReadyOnly;
      var n := Min(c.batchSize, |s.queue|);
      TakeKeeps(c, s, n);
      DeliverConfirmations(c, Taken(s, n), ReadyOnly(s.queue[..n]), ok, id);
  }

  lemma {:induction false} RunConfirmations(c: Config, s: State, steps: seq<Step>, id: Id)
    requires Inv(c, s) && AllowedRun(c, s, steps)
    ensures Confirmations(Run(c, s, steps), id) <= Confirmations(s, id) + Ticks(steps)
    decreases |steps|
  {
    hide Inv;
    if steps != [] {
      NextKeeps(c, s, steps[0]);
      NextConfirmations(c, s, steps[0], id);
      RunConfirmations(c, Next(c, s, steps[0]), steps[1..], id);
    }
  }

  /** A message unknown at the start of a run is relayed in it only if the run
      has as many ticks as confirmations are required, and at least one. */
  lemma RelayedOnlyConfirmed(c: Config, s: State, steps: seq<Step>, id: Id)
    requires Inv(c, s) && AllowedRun(c, s, steps) && !Known(s, id)
    requires id in Run(c, s, steps).relayed
    ensures Ticks(steps) >= 1 && Ticks(steps) >= c.minConfirmations
  {
    RunConfirmations(c, s, steps, id);
    RunKeeps(c, s, steps);
    assert RelayedOk(c, id, Run(c, s, steps).relayed[id]);
  }

  // ---- a ready message gets its turn ----

  function Rounds(steps: seq<Step>): nat {
    if steps == [] then 0 else (if steps[0].Round? then 1 else 0) + Rounds(steps[1..])
  }

  lemma {:induction false} DeliverMonotone(c: Config, s: State, batch: seq<Message>, ok: Id -> bool)
    ensures var t := Deliver(c, s, batch, ok);
            s.relayed.Keys <= t.relayed.Keys && s.queue <= t.queue
            && forall m | m in batch && ok(m.id) :: m.id in t.relayed
    decreases |batch|
  {
    if batch != [] {
      DeliverMonotone(c, DeliverOne(c, s, batch[0], ok(batch[0].id)), batch[1..], ok);
    }
  }

  lemma RelayProgress(c: Config, s: State, ok: Id -> bool, p: nat)
    requires p < |s.queue| && s.queue[p].status.Ready?
    ensures var t := Relay(c, s, ok);
            && s.relayed.Keys <= t.relayed.Keys
            && (p < c.batchSize && ok(s.queue[p].id) ==> s.queue[p].id in t.relayed)
            && (p >= c.batchSize ==> p - c.batchSize < |t.queue| && t.queue[p - c.batchSize] == s.queue[p])
  {
    hide Deliver, ReadyOnly, NotReady, ReadyCount;
    var n := Min(c.batchSize, |s.queue|);
    var batch := ReadyOnly(s.queue[..n]);
    DeliverMonotone(c, Taken(s, n), batch, ok);
    Partition(s.queue[..n], 0);
    if p < c.batchSize {
      assert s.queue[..n][p] == s.queue[p];
      assert s.queue[p] in s.queue[..n];
    } else {
      assert Taken(s, n).queue[p - n] == s.queue[p];
    }
  }

  lemma {:induction false} RelayedStays(c: Config, s: State, steps: seq<Step>)
    requires AllowedRun(c, s, steps)
    ensures s.relayed.Keys <= Run(c, s, steps).relayed.Keys
    decreases |steps|
  {
    if steps != [] {
      var t := Next(c, s, steps[0]);
      if steps[0].Round? {
        var n := Min(c.batchSize, |s.queue|);
        DeliverMonotone(c, Taken(s, n), ReadyOnly(s.queue[..n]), steps[0].ok);
      }
      RelayedStays(c, t, steps[1..]);
    }
  }

  ghost predicate Succeeds(steps: seq<Step>, id: Id) {
    forall i | 0 <= i < |steps| && steps[i].Round? :: steps[i].ok(id)
  }

  /** A ready message at position `p` of the queue is relayed by any run with
      more than `p / batchSize` rounds in which its relay does not fail, whatever
      else is submitted, confirmed or fails meanwhile. */
  lemma {:induction false} ReadyIsRelayed(c: Config, s: State, steps: seq<Step>, p: nat)
    requires AllowedRun(c, s, steps) && c.batchSize > 0
    requires p < |s.queue| && s.queue[p].status.Ready?
    requires Succeeds(steps, s.queue[p].id) && Rounds(steps) > p / c.batchSize
    ensures s.queue[p].id in Run(c, s, steps).relayed
    decreases |steps|
  {
    hide Relay, NewlyReady;
    var t := Next(c, s, steps[0]);
    assert Succeeds(steps[1..], s.queue[p].id) by {
      forall i | 0 <= i < |steps| - 1 && steps[1..][i].Round?
        ensures steps[1..][i].ok(s.queue[p].id)
      {
        assert steps[i + 1].Round?;
      }
    }
    if !steps[0].Round? {
      assert t.queue[p] == s.queue[p];
      ReadyIsRelayed(c, t, steps[1..], p);
    } else {
      RelayProgress(c, s, steps[0].ok, p);
      if p < c.batchSize {
        RelayedStays(c, t, steps[1..]);
      } else {
        NextTurn(p, c.batchSize);
        ReadyIsRelayed(c, t, steps[1..], p - c.batchSize);
      }
    }
  }

  lemma NextTurn(p: nat, batch: nat)
    requires 0 < batch <= p
    ensures (p - batch) / batch == p / batch - 1
  {
    var q, r := p / batch, p % batch;
    assert p == q * batch + r;
    assert p - batch == (q - 1) * batch + r;
    assert (p - batch) / batch == q - 1 by {
      Quotient(p - batch, batch, q - 1);
    }
  }

  lemma Quotient(n: int, d: int, q: int)
    requires 0 < d && q * d <= n < q * d + d
    ensures n / d == q
  {
    var k := n / d;
    assert k * d <= n < k * d + d;
    assert k < q ==> (k + 1) * d <= q * d;
    assert k > q ==> (q + 1) * d <= k * d;
  }

  // ---- what the queue keeps ----

  function Submissions(steps: seq<Step>): nat {
    if steps == [] then 0 else (if steps[0].Submitted? then 1 else 0) + Submissions(steps[1..])
  }

  lemma {:induction false} NotReadyConcat(a: seq<Message>, b: seq<Message>)
    ensures NotReady(a + b) == NotReady(a) + NotReady(b)
  {
    if b == [] {
      assert a + b == a;
    } else {
      assert (a + b)[..|a + b| - 1] == a + b[..|b| - 1];
      NotReadyConcat(a, b[..|b| - 1]);
    }
  }

  lemma {:induction false} NotReadyTwice(q: seq<Message>)
    ensures NotReady(NotReady(q)) == NotReady(q)
  {
    if q != [] {
      NotReadyTwice(q[..|q| - 1]);
      NotReadyConcat(NotReady(q[..|q| - 1]), if q[|q| - 1].status.Ready? then [] else [q[|q| - 1]]);
    }
  }

  lemma NextKeepsCopies(c: Config, s: State, step: Step)
    requires Allowed(s, step)
    ensures |NotReady(Next(c, s, step).queue)| >= |NotReady(s.queue)| + if step.Submitted? then 1 else 0
  {
    match step
    case Submitted(id) => NotReadyConcat(s.queue, [Submit(s, id).queue[|s.queue|]]);
    case Tick(order) => NotReadyConcat(s.queue, NewlyReady(c, s.pending, order));
    case Round(ok) => RelayKeepsCopies(c, s, ok);
  }

  lemma RelayKeepsCopies(c: Config, s: State, ok: Id -> bool)
    ensures |NotReady(Relay(c, s, ok).queue)| >= |NotReady(s.queue)|
  {
    hide NotReady, ReadyOnly, Deliver;
    var n := Min(c.batchSize, |s.queue|);
    var front, back := s.queue[..n], s.queue[n..];
    var taken, t := Taken(s, n), Relay(c, s, ok);
    DeliverMonotone(c, taken, ReadyOnly(front), ok);
    assert t.queue == taken.queue + t.queue[|taken.queue|..];
    NotReadyConcat(taken.queue, t.queue[|taken.queue|..]);
    NotReadyConcat(back, NotReady(front));
    NotReadyTwice(front);
    assert s.queue == front + back;
    NotReadyConcat(front, back);
  }

  /** The copy queued at submission never becomes ready and never leaves: the
      queue holds at least one message for every submission ever made. */
  lemma {:induction false} QueueNeverDrains(c: Config, s: State, steps: seq<Step>)
    requires AllowedRun(c, s, steps)
    ensures |NotReady(Run(c, s, steps).queue)| >= |NotReady(s.queue)| + Submissions(steps)
    decreases |steps|
  {
    if steps != [] {
      NextKeepsCopies(c, s, steps[0]);
      QueueNeverDrains(c, Next(c, s, steps[0]), steps[1..]);
    }
  }

  // ---- which resubmissions are safe ----

  /** Successes of `id` so far and copies waiting to be the next. */
  function Copies(s: State, id: Id): nat {
    multiset(s.log)[id] + ReadyCount(s.queue, id)
  }

  const ALL_SUCCEED: Id -> bool := _ => true

  lemma {:induction false} DeliverCopies(c: Config, s: State, batch: seq<Message>, id: Id)
    requires forall m | m in batch :: m.status.Ready?
    ensures var t := Deliver(c, s, batch, ALL_SUCCEED);
            t.queue == s.queue && multiset(t.log)[id] == multiset(s.log)[id] + ReadyCount(batch, id)
    decreases |batch|
  {
    if batch != [] {
      var t := DeliverOne(c, s, batch[0], true);
      assert batch[0] in batch;
      DeliverCopies(c, t, batch[1..], id);
    }
  }

  /** A round without failures neither loses nor invents a copy, and takes the front
      of the queue off, those not ready going to the back. */
  lemma RoundCopies(c: Config, s: State, id: Id)
    ensures var n, t := Min(c.batchSize, |s.queue|), Relay(c, s, ALL_SUCCEED);
            t.queue == s.queue[n..] + NotReady(s.queue[..n]) && Copies(t, id) == Copies(s, id)
  {
    hide ReadyOnly, NotReady, Deliver, ReadyCount;
    var n := Min(c.batchSize, |s.queue|);
    var front, back := s.queue[..n], s.queue[n..];
    Partition(front, id);
    DeliverCopies(c, Taken(s, n), ReadyOnly(front), id);
    assert s.queue == front + back;
    ReadyCountConcat(front, back, id);
    ReadyCountConcat(back, NotReady(front), id);
  }

  ghost predicate NoneReadyFrom(q: seq<Message>, p: nat) {
    forall i | p <= i < |q| :: !q[i].status.Ready?
  }

  ghost predicate OnlyRounds(steps: seq<Step>) {
    forall i | 0 <= i < |steps| :: steps[i] == Round(ALL_SUCCEED)
  }

  lemma NoneReadyShift(s: State, n: nat, p: nat)
    requires n <= |s.queue| && NoneReadyFrom(s.queue, p)
    ensures NoneReadyFrom(s.queue[n..] + NotReady(s.queue[..n]), if p <= n then 0 else p - n)
  {
    hide NotReady;
    Partition(s.queue[..n], 0);
    var back: seq<Message>, moved: seq<Message> := s.queue[n..], NotReady(s.queue[..n]);
    forall i: nat | (if p <= n then 0 else p - n) <= i < |back + moved|
      ensures !(back + moved)[i].status.Ready?
    {
      if i < |back| {
        assert back[i] == s.queue[n + i];
      } else {
        assert moved[i - |back|] in moved;
      }
    }
  }

  /** Enough rounds without failures relay every copy that is ready. */
  lemma {:induction false} Drain(c: Config, s: State, id: Id, p: nat) returns (steps: seq<Step>)
    requires c.batchSize > 0 && NoneReadyFrom(s.queue, p)
    ensures AllowedRun(c, s, steps) && OnlyRounds(steps)
    ensures multiset(Run(c, s, steps).log)[id] == Copies(s, id)
    decreases p
  {
    if p == 0 || s.queue == [] {
      ReadyCountNone(s.queue, id);
      steps := [];
    } else {
      var n := Min(c.batchSize, |s.queue|);
      var t := Next(c, s, Round(ALL_SUCCEED));
      RoundCopies(c, s, id);
      NoneReadyShift(s, n, p);
      var rest := Drain(c, t, id, if p <= n then 0 else p - n);
      steps := [Round(ALL_SUCCEED)] + rest;
      assert steps[1..] == rest;
    }
  }

  lemma {:induction false} Enumeration(keys: set<Id>) returns (order: seq<Id>)
    ensures Enumerates(order, keys)
  {
    if keys == {} {
      order := [];
    } else {
      var id :| id in keys;
      var rest := Enumeration(keys - {id});
      order := [id] + rest;
    }
  }

  lemma {:induction false} NewlyReadyHas(c: Config, pending: map<Id, Message>, order: seq<Id>, id: Id)
    requires (forall k | k in order :: k in pending) && id in order
    requires pending[id].status.Pending? && Confirmed(c, pending[id]).status.Ready?
    ensures Confirmed(c, pending[id]) in NewlyReady(c, pending, order)
  {
    var last := |order| - 1;
    if id != order[last] {
      NewlyReadyHas(c, pending, order[..last], id);
    }
  }

  /** The steps neither submit anything nor let a relay fail. */
  ghost predicate Undisturbed(steps: seq<Step>) {
    forall i | 0 <= i < |steps| :: steps[i].Tick? || steps[i] == Round(ALL_SUCCEED)
  }

  /** A pending message is confirmed and relayed, on top of the copies there are. */
  lemma {:induction false} ConfirmAndRelay(c: Config, s: State, id: Id) returns (steps: seq<Step>)
    requires c.batchSize > 0 && id in s.pending && s.pending[id].id == id && s.pending[id].status.Pending?
    ensures AllowedRun(c, s, steps) && Undisturbed(steps)
    ensures multiset(Run(c, s, steps).log)[id] > Copies(s, id)
    decreases c.minConfirmations - s.pending[id].confirmations
  {
    hide Relay, ReadyCount, NewlyReady;
    var order := Enumeration(s.pending.Keys);
    var t := Next(c, s, Tick(order));
    var now := NewlyReady(c, s.pending, order);
    ReadyCountConcat(s.queue, now, id);
    var rest: seq<Step>;
    if t.pending[id].status.Pending? {
      rest := ConfirmAndRelay(c, t, id);
    } else {
      NewlyReadyHas(c, s.pending, order, id);
      ReadyCountIn(now, t.pending[id]);
      rest := Drain(c, t, id, |t.queue|);
    }
    steps := [Tick(order)] + rest;
    assert steps[1..] == rest;
  }

  /** Whatever the confirmations needed and the size of a batch, an id submitted
      again when it has been relayed, or waits to be, is relayed twice by a run
      with nothing else submitted and no failure. */
  lemma ResubmittedRelaysTwice(c: Config, s: State, id: Id) returns (steps: seq<Step>)
    requires Inv(c, s) && c.batchSize > 0 && !Unrelayed(s, id)
    ensures AllowedRun(c, Submit(s, id), steps) && Undisturbed(steps)
    ensures multiset(Run(c, Submit(s, id), steps).log)[id] >= 2
  {
    var t := Submit(s, id);
    ReadyCountConcat(s.queue, [t.queue[|s.queue|]], id);
    assert id in s.log <==> id in s.relayed;
    steps := ConfirmAndRelay(c, t, id);
  }

  ghost predicate NoneRelayedTwice(s: State) {
    forall i, j | 0 <= i < j < |s.log| :: s.log[i] != s.log[j]
  }

  lemma {:induction false} OnceEach(log: seq<Id>, id: Id)
    requires forall i, j | 0 <= i < j < |log| :: log[i] != log[j]
    ensures multiset(log)[id] <= 1
  {
    if log != [] {
      var n := |log| - 1;
      OnceEach(log[..n], id);
      assert log == log[..n] + [log[n]];
    }
  }

  lemma {:induction false} EmptyBatchRelaysNothing(c: Config, s: State, steps: seq<Step>)
    requires AllowedRun(c, s, steps) && c.batchSize == 0
    ensures Run(c, s, steps).log == s.log
    decreases |steps|
  {
    if steps != [] {
      assert s.queue[..0] == [];
      EmptyBatchRelaysNothing(c, Next(c, s, steps[0]), steps[1..]);
    }
  }

  /** Submitting an id is safe, in that no run afterwards relays a message twice,
      if and only if it has neither been relayed nor waits to be, or batches are
      empty and nothing is ever relayed. */
  lemma ResubmitSafeIff(c: Config, s: State, id: Id)
    requires Inv(c, s)
    ensures (forall steps | AllowedRun(c, Submit(s, id), steps) :: NoneRelayedTwice(Run(c, Submit(s, id), steps)))
            <==> Unrelayed(s, id) || c.batchSize == 0
  {
    hide Inv;
    var t := Submit(s, id);
    if Unrelayed(s, id) || c.batchSize == 0 {
      forall steps | AllowedRun(c, t, steps)
        ensures NoneRelayedTwice(Run(c, t, steps))
      {
        if Unrelayed(s, id) {
          SubmitKeeps(c, s, id);
          RunKeeps(c, t, steps);
          LogOnce(c, Run(c, t, steps));
        } else {
          LogOnce(c, s);
          EmptyBatchRelaysNothing(c, t, steps);
        }
      }
    } else {
      var steps := ResubmittedRelaysTwice(c, s, id);
      if NoneRelayedTwice(Run(c, t, steps)) {
        OnceEach(Run(c, t, steps).log, id);
      }
    }
  }

  lemma LogOnce(c: Config, s: State)
    requires Inv(c, s)
    ensures NoneRelayedTwice(s)
  {}

  // ---- what failing for good means ----

  /** Ready on record, but no copy left to relay: all attempts have failed. */
  predicate Exhausted(s: State, id: Id) {
    id in s.pending && s.pending[id].status.Ready? && ReadyCount(s.queue, id) == 0
  }

  lemma {:induction false} DeliverOthers(c: Config, s: State, batch: seq<Message>, ok: Id -> bool, id: Id)
    requires forall m | m in batch :: m.id != id
    ensures var t := Deliver(c, s, batch, ok);
            ReadyCount(t.queue, id) == ReadyCount(s.queue, id) && Lookup(t.pending, id) == Lookup(s.pending, id)
    decreases |batch|
  {
    if batch != [] {
      var m := batch[0];
      var t := DeliverOne(c, s, m, ok(m.id));
      assert m in batch;
      ReadyCountConcat(s.queue, [m.(retryCount := m.retryCount + 1)], id);
      DeliverOthers(c, t, batch[1..], ok, id);
    }
  }

  lemma RelayOthers(c: Config, s: State, ok: Id -> bool, id: Id)
    requires Exhausted(s, id)
    ensures Exhausted(Relay(c, s, ok), id)
  {
    hide ReadyCount, ReadyOnly, NotReady, Deliver;
    var n := Min(c.batchSize, |s.queue|);
    var front, back := s.queue[..n], s.queue[n..];
    Partition(front, id);
    assert s.queue == front + back;
    ReadyCountConcat(front, back, id);
    ReadyCountConcat(back, NotReady(front), id);
    forall m | m in ReadyOnly(front)
      ensures m.id != id
    {
      if m.id == id {
        ReadyCountIn(front, m);
      }
    }
    DeliverOthers(c, Taken(s, n), ReadyOnly(front), ok, id);
  }

  /** A message that has used up its attempts is never relayed in any run that
      does not submit it anew, and its status on record stays ready: it is never
      reported as failed. */
  lemma {:induction false} ExhaustedForGood(c: Config, s: State, steps: seq<Step>, id: Id)
    requires Inv(c, s) && Exhausted(s, id) && AllowedRun(c, s, steps) && Submitted(id) !in steps
    ensures Exhausted(Run(c, s, steps), id) && id !in Run(c, s, steps).relayed
    decreases |steps|
  {
    if steps != [] {
      NextKeeps(c, s, steps[0]);
      ExhaustedNext(c, s, steps[0], id);
      ExhaustedForGood(c, Next(c, s, steps[0]), steps[1..], id);
    }
  }

  lemma ExhaustedNext(c: Config, s: State, step: Step, id: Id)
    requires Inv(c, s) && Exhausted(s, id) && Allowed(s, step) && step != Submitted(id)
    ensures Exhausted(Next(c, s, step), id)
  {
    match step
    case Submitted(k) => ReadyCountConcat(s.queue, [Submit(s, k).queue[|s.queue|]], id);
    case Tick(order) =>
      ReadyCountConcat(s.queue, NewlyReady(c, s.pending, order), id);
      NewlyReadyOnce(c, s.pending, order, id);
    case Round(ok) => RelayOthers(c, s, ok, id);
  }

  /** A ready message whose last attempt fails is exhausted after the round. */
  lemma LastFailureExhausts(c: Config, s: State, ok: Id -> bool, m: Message)
    requires Inv(c, s) && c.batchSize > 0 && s.queue != [] && m == s.queue[0] && m.status.Ready?
    requires !ok(m.id) && m.retryCount + 1 >= c.maxRetryAttempts
    ensures Exhausted(Relay(c, s, ok), m.id)
  {
    hide Inv;
    var n := Min(c.batchSize, |s.queue|);
    var front, back := s.queue[..n], s.queue[n..];
    assert s.queue == front + back && front == [m] + front[1..];
    ReadyOnlyFirst(front);
    var batch, taken := ReadyOnly(front), Taken(s, n);
    TakeKeeps(c, s, n);
    DeliverOneKeeps(c, taken, batch, false);
    assert DeliverOne(c, taken, m, false) == taken;
    assert Exhausted(taken, m.id) && forall x | x in batch[1..] :: x.id != m.id by {
      OnlyCopy(c, taken, batch);
    }
    DeliverOthers(c, taken, batch[1..], ok, m.id);
  }

  lemma {:induction false} ReadyOnlyFirst(q: seq<Message>)
    requires q != [] && q[0].status.Ready?
    ensures ReadyOnly(q) != [] && ReadyOnly(q)[0] == q[0]
  {
    if |q| > 1 {
      ReadyOnlyFirst(q[..|q| - 1]);
    } else {
      assert q[..0] == [];
    }
  }

  lemma OnlyCopy(c: Config, s: State, batch: seq<Message>)
    requires batch != [] && InHand(c, s, batch)
    ensures Exhausted(s, batch[0].id) && forall m | m in batch[1..] :: m.id != batch[0].id
  {
    var m, rest := batch[0], batch[1..];
    var whole := s.(queue := batch + s.queue);
    assert m in whole.queue && QueuedOk(c, s.pending, m);
    assert batch == [m] + rest;
    ReadyCountConcat(batch, s.queue, m.id);
    ReadyCountConcat([m], rest, m.id);
    assert ReadyCount([m], m.id) == 1;
    forall x | x in rest
      ensures x.id != m.id
    {
      assert x in batch;
      if x.id == m.id {
        ReadyCountIn(rest, x);
      }
    }
  }

  /** No relay attempt fails, as none does in `relay_message` as it stands. */
  ghost predicate NoFailures(steps: seq<Step>) {
    forall i | 0 <= i < |steps| && steps[i].Round? :: steps[i].ok == ALL_SUCCEED
  }

  ghost predicate NoneExhausted(s: State) {
    forall id :: !Exhausted(s, id)
  }

  lemma RoundExhaustsNone(c: Config, s: State)
    requires Inv(c, s) && NoneExhausted(s)
    ensures NoneExhausted(Relay(c, s, ALL_SUCCEED))
  {
    var t := Relay(c, s, ALL_SUCCEED);
    RelayKeeps(c, s, ALL_SUCCEED);
    forall id
      ensures !Exhausted(t, id)
    {
      RoundCopies(c, s, id);
      assert !Exhausted(s, id);
      RelayPending(c, s, id);
      assert id in t.log <==> id in t.relayed;
    }
  }

  lemma {:induction false} DeliverPending(c: Config, s: State, batch: seq<Message>, ok: Id -> bool, id: Id)
    ensures var t := Deliver(c, s, batch, ok);
            id in t.pending ==> id in s.pending && t.pending[id] == s.pending[id]
    decreases |batch|
  {
    if batch != [] {
      DeliverPending(c, DeliverOne(c, s, batch[0], ok(batch[0].id)), batch[1..], ok, id);
    }
  }

  lemma RelayPending(c: Config, s: State, id: Id)
    ensures var t := Relay(c, s, ALL_SUCCEED);
            id in t.pending ==> id in s.pending && t.pending[id] == s.pending[id]
  {
    var n := Min(c.batchSize, |s.queue|);
    DeliverPending(c, Taken(s, n), ReadyOnly(s.queue[..n]), ALL_SUCCEED, id);
  }

  /** Without failures no ready message is ever without its queued copy. */
  lemma {:induction false} NothingExhausts(c: Config, s: State, steps: seq<Step>)
    requires Inv(c, s) && NoneExhausted(s) && AllowedRun(c, s, steps) && NoFailures(steps)
    ensures NoneExhausted(Run(c, s, steps))
    decreases |steps|
  {
    if steps != [] {
      var t := Next(c, s, steps[0]);
      NextKeeps(c, s, steps[0]);
      match steps[0] {
        case Submitted(k) => SubmitExhaustsNone(s, k);
        case Tick(order) => TickExhaustsNone(c, s, order);
        case Round(ok) => RoundExhaustsNone(c, s);
      }
      assert NoFailures(steps[1..]) by {
        assert forall i | 0 <= i < |steps| - 1 :: steps[1..][i] == steps[i + 1];
      }
      NothingExhausts(c, t, steps[1..]);
    }
  }

  lemma SubmitExhaustsNone(s: State, k: Id)
    requires NoneExhausted(s)
    ensures NoneExhausted(Submit(s, k))
  {
    var t := Submit(s, k);
    forall id
      ensures !Exhausted(t, id)
    {
      ReadyCountConcat(s.queue, [t.queue[|s.queue|]], id);
      assert !Exhausted(s, id);
    }
  }

  lemma TickExhaustsNone(c: Config, s: State, order: seq<Id>)
    requires Inv(c, s) && NoneExhausted(s) && Enumerates(order, s.pending.Keys)
    ensures NoneExhausted(Process(c, s, order))
  {
    var t, now := Process(c, s, order), NewlyReady(c, s.pending, order);
    forall id
      ensures !Exhausted(t, id)
    {
      ReadyCountConcat(s.queue, now, id);
      assert !Exhausted(s, id);
      if id in t.pending && t.pending[id].status.Ready? && s.pending[id].status.Pending? {
        NewlyReadyHas(c, s.pending, order, id);
        ReadyCountIn(now, t.pending[id]);
      }
    }
  }

  // ---- one tick, message by message ----

  ghost predicate Visited(order: seq<Id>, i: nat, done: set<Id>, pending: map<Id, Message>) {
    && Enumerates(order, pending.Keys) && i <= |order|
    && forall id :: id in done <==> id in order[..i]
  }

  function Partly(c: Config, pending: map<Id, Message>, done: set<Id>): map<Id, Message> {
    map id | id in pending :: if id in done then Confirmed(c, pending[id]) else pending[id]
  }

  lemma VisitNone(c: Config, pending: map<Id, Message>, order: seq<Id>)
    requires Enumerates(order, pending.Keys)
    ensures Visited(order, 0, {}, pending) && Partly(c, pending, {}) == pending
    ensures order[..0] == [] && NewlyReady(c, pending, []) == []
  {}

  lemma VisitedIn(order: seq<Id>, i: nat, done: set<Id>, pending: map<Id, Message>)
    requires Visited(order, i, done, pending)
    ensures forall id | id in order[..i] :: id in pending
  {
    forall id | id in order[..i]
      ensures id in pending
    {
      assert id in order;
    }
  }

  lemma VisitNext(c: Config, pending: map<Id, Message>, order: seq<Id>, i: nat, done: set<Id>)
    requires i < |order| && Visited(order, i, done, pending)
    ensures forall id | id in order[..i] :: id in pending
    ensures forall id | id in order[..i + 1] :: id in pending
    ensures var id := order[i];
            && id in pending && Visited(order, i + 1, done + {id}, pending)
            && id in Partly(c, pending, done) && Partly(c, pending, done)[id] == pending[id]
            && Partly(c, pending, done + {id}) == Partly(c, pending, done)[id := Confirmed(c, pending[id])]
            && Partly(c, pending, done)[id := pending[id]] == Partly(c, pending, done)
            && Confirmed(c, pending[id]) == (
                 var m := pending[id];
                 if !m.status.Pending? then m
                 else if m.confirmations + 1 >= c.minConfirmations then
                   m.(confirmations := m.confirmations + 1, status := Ready)
                 else m.(confirmations := m.confirmations + 1))
            && NewlyReady(c, pending, order[..i + 1]) == NewlyReady(c, pending, order[..i]) +
                 if pending[id].status.Pending? && Confirmed(c, pending[id]).status.Ready? then [Confirmed(c, pending[id])] else []
  {
    VisitedIn(order, i, done, pending);
    var id := order[i];
    assert id in order && id !in order[..i];
    assert order[..i + 1] == order[..i] + [id] && order[..i + 1][..i] == order[..i];
  }

  lemma VisitAll(c: Config, pending: map<Id, Message>, order: seq<Id>, done: set<Id>)
    requires Visited(order, |order|, done, pending)
    ensures Partly(c, pending, done) == map id | id in pending :: Confirmed(c, pending[id])
    ensures forall id | id in order :: id in pending
    ensures order[..|order|] == order
  {
    assert order[..|order|] == order;
  }

  // ---- what one step does, message by message ----

  /** The messages of the queue's front that are relayed. */
  ghost predicate Succeeded(front: seq<Message>, ok: Id -> bool, id: Id) {
    exists m :: m in front && m.status.Ready? && m.id == id && ok(id)
  }

  /** The copies to try again. */
  function Retried(c: Config, batch: seq<Message>, ok: Id -> bool): seq<Message> {
    if batch == [] then []
    else
      var m := batch[0];
      (if !ok(m.id) && m.retryCount + 1 < c.maxRetryAttempts then [m.(retryCount := m.retryCount + 1)] else []) +
      Retried(c, batch[1..], ok)
  }

  function RelayedIds(batch: seq<Message>, ok: Id -> bool): seq<Id> {
    if batch == [] then [] else (if ok(batch[0].id) then [batch[0].id] else []) + RelayedIds(batch[1..], ok)
  }

  lemma {:induction false} RetriedAre(c: Config, batch: seq<Message>, ok: Id -> bool, x: Message)
    ensures x in Retried(c, batch, ok) <==>
            exists m :: m in batch && !ok(m.id) && m.retryCount + 1 < c.maxRetryAttempts && x == m.(retryCount := m.retryCount + 1)
  {
    if batch != [] {
      var m, rest := batch[0], batch[1..];
      assert batch == [m] + rest;
      RetriedAre(c, rest, ok, x);
      if y :| y in batch && !ok(y.id) && y.retryCount + 1 < c.maxRetryAttempts && x == y.(retryCount := y.retryCount + 1) {
        assert y == m || y in rest;
      }
      if y :| y in rest && !ok(y.id) && y.retryCount + 1 < c.maxRetryAttempts && x == y.(retryCount := y.retryCount + 1) {
        assert y in batch;
      }
      assert m in batch;
    }
  }

  lemma {:induction false} RelayedIdsAre(batch: seq<Message>, ok: Id -> bool, id: Id)
    ensures id in RelayedIds(batch, ok) <==> ok(id) && exists m :: m in batch && m.id == id
  {
    if batch != [] {
      RelayedIdsAre(batch[1..], ok, id);
      assert batch == [batch[0]] + batch[1..];
      if m :| m in batch[1..] && m.id == id {
        assert m in batch;
      }
      assert batch[0] in batch;
    }
  }

  lemma {:induction false} DeliverQueue(c: Config, s: State, batch: seq<Message>, ok: Id -> bool)
    ensures var t := Deliver(c, s, batch, ok);
            t.queue == s.queue + Retried(c, batch, ok) && t.log == s.log + RelayedIds(batch, ok) && t.nonce == s.nonce
    decreases |batch|
  {
    if batch != [] {
      var m := batch[0];
      var t := DeliverOne(c, s, m, ok(m.id));
      DeliverQueue(c, t, batch[1..], ok);
      var again := if !ok(m.id) && m.retryCount + 1 < c.maxRetryAttempts then [m.(retryCount := m.retryCount + 1)] else [];
      var done := if ok(m.id) then [m.id] else [];
      DeliverOneQueue(c, s, m, ok(m.id));
      hide DeliverOne;
      assert s.queue + again + Retried(c, batch[1..], ok) == s.queue + (again + Retried(c, batch[1..], ok));
      assert s.log + done + RelayedIds(batch[1..], ok) == s.log + (done + RelayedIds(batch[1..], ok));
    }
  }

  lemma DeliverOneQueue(c: Config, s: State, m: Message, ok: bool)
    ensures var t := DeliverOne(c, s, m, ok);
            && t.queue == s.queue + (if !ok && m.retryCount + 1 < c.maxRetryAttempts
                                     then [m.(retryCount := m.retryCount + 1)] else [])
            && t.log == s.log + (if ok then [m.id] else []) && t.nonce == s.nonce
  {
    assert s.queue + [] == s.queue && s.log + [] == s.log;
  }

  lemma {:induction false} DeliverMaps(c: Config, s: State, batch: seq<Message>, ok: Id -> bool)
    ensures var t := Deliver(c, s, batch, ok);
            && (forall id :: id in t.pending <==> id in s.pending && id !in RelayedIds(batch, ok))
            && (forall id | id in t.pending :: t.pending[id] == s.pending[id])
            && (forall id :: id in t.relayed <==> id in s.relayed || id in RelayedIds(batch, ok))
    decreases |batch|
  {
    if batch != [] {
      var m := batch[0];
      var t := DeliverOne(c, s, m, ok(m.id));
      DeliverMaps(c, t, batch[1..], ok);
      assert RelayedIds(batch, ok) == (if ok(m.id) then [m.id] else []) + RelayedIds(batch[1..], ok);
    }
  }

  /** A round in base terms. Of the first `batchSize` messages those not ready go behind
      the rest; of the ready ones those that succeed are recorded as relayed and are
      pending no more, and those that fail are tried again unless it was the last time. */
  lemma RelayExact(c: Config, s: State, ok: Id -> bool)
    ensures var t, n := Relay(c, s, ok), Min(c.batchSize, |s.queue|);
            var front := s.queue[..n];
            && s.queue[n..] + NotReady(front) <= t.queue
            && (forall x :: x in t.queue[|s.queue[n..] + NotReady(front)|..] <==>
                  exists m :: m in front && m.status.Ready? && !ok(m.id) && m.retryCount + 1 < c.maxRetryAttempts &&
                              x == m.(retryCount := m.retryCount + 1))
            && (forall id :: id in t.relayed <==> id in s.relayed || Succeeded(front, ok, id))
            && (forall id :: id in t.pending <==> id in s.pending && !Succeeded(front, ok, id))
            && (forall id | id in t.pending :: t.pending[id] == s.pending[id])
            && s.log <= t.log && (forall id :: id in t.log[|s.log|..] <==> Succeeded(front, ok, id))
            && t.nonce == s.nonce
  {
    hide Deliver, Retried, RelayedIds, NotReady, ReadyOnly;
    var n := Min(c.batchSize, |s.queue|);
    var front := s.queue[..n];
    var batch := ReadyOnly(front);
    DeliverQueue(c, Taken(s, n), batch, ok);
    DeliverMaps(c, Taken(s, n), batch, ok);
    assert forall m :: m in batch <==> m in front && m.status.Ready? by {
      Partition(front, 0);
    }
    forall x
      ensures x in Retried(c, batch, ok) <==>
              exists m :: m in front && m.status.Ready? && !ok(m.id) && m.retryCount + 1 < c.maxRetryAttempts &&
                          x == m.(retryCount := m.retryCount + 1)
    {
      RetriedAre(c, batch, ok, x);
    }
    forall id
      ensures id in RelayedIds(batch, ok) <==> Succeeded(front, ok, id)
    {
      RelayedIdsAre(batch, ok, id);
    }
  }

  /** A message goes from pending to ready with the tick that brings it to the number of
      confirmations required; then, and only then, a copy is queued. */
  lemma ProcessExact(c: Config, s: State, order: seq<Id>)
    requires Enumerates(order, s.pending.Keys)
    ensures var t := Process(c, s, order);
            && t.pending.Keys == s.pending.Keys && t.relayed == s.relayed && t.nonce == s.nonce && t.log == s.log
            && s.queue <= t.queue
            && (forall id | id in s.pending ::
                  var m := s.pending[id];
                  t.pending[id] ==
                    if m.status != Status.Pending then m
                    else if m.confirmations + 1 < c.minConfirmations then m.(confirmations := m.confirmations + 1)
                    else m.(confirmations := m.confirmations + 1, status := Status.Ready))
            && (forall x :: x in t.queue[|s.queue|..] <==>
                  exists id :: id in s.pending && s.pending[id].status == Status.Pending &&
                               t.pending[id].status == Status.Ready && x == t.pending[id])
  {
    var now := NewlyReady(c, s.pending, order);
    NewlyReadyAre(c, s.pending, order);
    forall x
      ensures x in now <==> exists id :: id in s.pending && s.pending[id].status == Status.Pending &&
                                         Confirmed(c, s.pending[id]).status == Status.Ready && x == Confirmed(c, s.pending[id])
    {
      if id :| id in s.pending && s.pending[id].status == Status.Pending &&
               Confirmed(c, s.pending[id]).status == Status.Ready && x == Confirmed(c, s.pending[id]) {
        NewlyReadyHas(c, s.pending, order, id);
      }
    }
  }

  /** A failed attempt of the copy in front is the last one exactly when it is the last
      that the bound on retries allows. */
  lemma LastAttemptIff(c: Config, s: State, ok: Id -> bool, m: Message)
    requires Inv(c, s) && c.batchSize > 0 && s.queue != [] && m == s.queue[0] && m.status.Ready? && !ok(m.id)
    ensures Exhausted(Relay(c, s, ok), m.id) <==> m.retryCount + 1 >= c.maxRetryAttempts
  {
    hide Inv, Relay;
    if m.retryCount + 1 >= c.maxRetryAttempts {
      LastFailureExhausts(c, s, ok, m);
    } else {
      RelayExact(c, s, ok);
      var t, n := Relay(c, s, ok), Min(c.batchSize, |s.queue|);
      var front, kept := s.queue[..n], |s.queue[n..] + NotReady(s.queue[..n])|;
      assert front[0] == m && m in front;
      var x := m.(retryCount := m.retryCount + 1);
      assert x in t.queue[kept..];
      assert x in t.queue;
      ReadyCountIn(t.queue, x);
    }
  }

  class Relayer {
    const c: Config
    var messageQueue: seq<Message>
    var pendingMessages: map<Id, Message>
    var relayedMessages: map<Id, Message>
    var chainNonce: nat
    ghost var log: seq<Id>

    ghost function Abs(): State
      reads this
    {
      State(messageQueue, pendingMessages, relayedMessages, chainNonce, log)
    }

    constructor (c: Config)
      ensures this.c == c && Abs() == EMPTY && Inv(c, Abs())
    {
      this.c := c;
      messageQueue, pendingMessages, relayedMessages, chainNonce, log := [], map[], map[], 0, [];
      new;
      EmptyInv(c);
    }

    /** `submit_transfer` */
    method SubmitTransfer(transferId: Id)
      modifies this
      ensures Abs() == Submit(old(Abs()), transferId)
      ensures chainNonce == old(chainNonce) + 1 && relayedMessages == old(relayedMessages) && log == old(log)
      ensures messageQueue == old(messageQueue) + [Message(transferId, old(chainNonce) + 1, 0, Status.Pending, 0)]
      ensures pendingMessages == old(pendingMessages)[transferId := Message(transferId, old(chainNonce) + 1, 0, Status.Pending, 0)]
      ensures Unrelayed(old(Abs()), transferId) && Inv(c, old(Abs())) ==> Inv(c, Abs())
    {
      if Unrelayed(Abs(), transferId) && Inv(c, Abs()) {
        SubmitKeeps(c, Abs(), transferId);
      }
      chainNonce := chainNonce + 1;
      var message := Message(transferId, chainNonce, 0, Status.Pending, 0);
      messageQueue := messageQueue + [message];
      pendingMessages := pendingMessages[transferId := message];
    }

    /** `process_pending_messages`, visiting the pending map in the given order. */
    method ProcessPendingMessages(order: seq<Id>)
      requires Enumerates(order, pendingMessages.Keys)
      modifies this
      ensures Abs() == Process(c, old(Abs()), order)
      ensures Inv(c, old(Abs())) ==> Inv(c, Abs())
      ensures pendingMessages.Keys == old(pendingMessages).Keys && old(messageQueue) <= messageQueue
      ensures forall id | id in pendingMessages ::
                var m := old(pendingMessages)[id];
                pendingMessages[id] ==
                  if m.status != Status.Pending then m
                  else if m.confirmations + 1 < c.minConfirmations then m.(confirmations := m.confirmations + 1)
                  else m.(confirmations := m.confirmations + 1, status := Status.Ready)
      ensures forall x :: x in messageQueue[|old(messageQueue)|..] <==>
                exists id :: id in pendingMessages && old(pendingMessages)[id].status == Status.Pending &&
                             pendingMessages[id].status == Status.Ready && x == pendingMessages[id]
    {
      hide Inv, Confirmed, NewlyReady;
      ghost var s := Abs();
      ProcessKeepsIf(c, s, order);
      ProcessExact(c, s, order);
      var updated := ConfirmAll(order);
      NewlyReadyAre(c, s.pending, order);
      PushReady(updated);
    }

    /** Confirms every pending message once and collects those now ready. */
    method ConfirmAll(order: seq<Id>) returns (updated: seq<Message>)
      requires Enumerates(order, pendingMessages.Keys)
      modifies this`pendingMessages
      ensures pendingMessages == map id | id in old(pendingMessages) :: Confirmed(c, old(pendingMessages)[id])
      ensures updated == NewlyReady(c, old(pendingMessages), order)
    {
      hide *;
      ghost var was := pendingMessages;
      ghost var done: set<Id> := {};
      updated := [];
      VisitNone(c, was, order);
      var i := 0;
      while i < |order|
        invariant 0 <= i <= |order| && Visited(order, i, done, was)
        invariant pendingMessages == Partly(c, was, done)
        invariant (forall id | id in order[..i] :: id in was) && updated == NewlyReady(c, was, order[..i])
      {
        var id := order[i];
        VisitNext(c, was, order, i, done);
        var message := pendingMessages[id];
        if message.status == Status.Pending {
          message := message.(confirmations := message.confirmations + 1);
          if message.confirmations >= c.minConfirmations {
            message := message.(status := Ready);
            updated := updated + [message];
          }
          pendingMessages := pendingMessages[id := message];
        }
        done := done + {id};
        i := i + 1;
      }
      VisitAll(c, was, order, done);
    }

    method PushReady(updated: seq<Message>)
      requires forall m | m in updated :: m.status.Ready?
      modifies this`messageQueue
      ensures messageQueue == old(messageQueue) + updated
    {
      var i := 0;
      while i < |updated|
        invariant 0 <= i <= |updated| && messageQueue == old(messageQueue) + updated[..i]
      {
        assert updated[i] in updated;
        if updated[i].status == Ready {
          messageQueue := messageQueue + [updated[i]];
        }
        i := i + 1;
      }
    }

    /** `relay_ready_messages`; `ok` says which attempts succeed. */
    method RelayReadyMessages(ok: Id -> bool)
      modifies this
      ensures Abs() == Relay(c, old(Abs()), ok)
      ensures Inv(c, old(Abs())) ==> Inv(c, Abs())
      ensures var n := Min(c.batchSize, |old(messageQueue)|);
              var front, back := old(messageQueue)[..n], old(messageQueue)[n..];
              && back + NotReady(front) <= messageQueue
              && (forall x :: x in messageQueue[|back + NotReady(front)|..] <==>
                    exists m :: m in front && m.status.Ready? && !ok(m.id) && m.retryCount + 1 < c.maxRetryAttempts &&
                                x == m.(retryCount := m.retryCount + 1))
              && (forall id :: id in relayedMessages <==> id in old(relayedMessages) || Succeeded(front, ok, id))
              && (forall id :: id in pendingMessages <==> id in old(pendingMessages) && !Succeeded(front, ok, id))
      ensures forall id | id in pendingMessages :: pendingMessages[id] == old(pendingMessages)[id]
    {
      ghost var s := Abs();
      RelayKeepsIf(c, s, ok);
      RelayExact(c, s, ok);
      hide Inv, Retried, Succeeded, NotReady;
      var batch := TakeBatch(Min(c.batchSize, |messageQueue|));
      ghost var goal := Deliver(c, Abs(), batch, ok);
      var i := 0;
      while i < |batch|
        invariant 0 <= i <= |batch| && Deliver(c, Abs(), batch[i..], ok) == goal
      {
        ghost var now := Abs();
        var message := batch[i];
        assert batch[i..][0] == message && batch[i..][1..] == batch[i + 1..];
        if ok(message.id) {
          message := message.(status := Relayed);
          relayedMessages := relayedMessages[message.id := message];
          pendingMessages := pendingMessages - {message.id};
          log := log + [message.id];
        } else {
          message := message.(retryCount := message.retryCount + 1);
          if message.retryCount >= c.maxRetryAttempts {
            message := message.(status := Failed);
          } else {
            messageQueue := messageQueue + [message];
          }
        }
        assert Abs() == DeliverOne(c, now, batch[i], ok(batch[i].id));
        i := i + 1;
      }
    }

    /** Takes `n` messages off the front; those that are not ready go to the back. */
    method TakeBatch(n: nat) returns (batch: seq<Message>)
      requires n <= |messageQueue|
      modifies this`messageQueue
      ensures Abs() == Taken(old(Abs()), n) && batch == ReadyOnly(old(messageQueue)[..n])
    {
      hide NotReady, ReadyOnly;
      ghost var q := messageQueue;
      batch := [];
      NoneTaken(q);
      var i := 0;
      while i < n
        invariant 0 <= i <= n
        invariant messageQueue == q[i..] + NotReady(q[..i]) && batch == ReadyOnly(q[..i])
      {
        var message := messageQueue[0];
        messageQueue := messageQueue[1..];
        TakeNext(q, i);
        assert messageQueue == q[i + 1..] + NotReady(q[..i]);
        if message.status == Ready {
          batch := batch + [message];
        } else {
          messageQueue := messageQueue + [message];
        }
        i := i + 1;
      }
    }

    /** `get_message_status` */
    method GetMessageStatus(id: Id) returns (r: Option<Status>)
      ensures r.Some? <==> Known(Abs(), id)
      ensures id in pendingMessages ==> r == Some(pendingMessages[id].status)
      ensures id !in pendingMessages && id in relayedMessages ==> r == Some(relayedMessages[id].status)
      ensures Inv(c, Abs()) ==> (r == Some(Relayed) <==> id in log) && r != Some(Failed)
    {
      if id in pendingMessages {
        return Some(pendingMessages[id].status);
      }
      if id in relayedMessages {
        return Some(relayedMessages[id].status);
      }
      return None;
    }
  }

  lemma NoneTaken(q: seq<Message>)
    ensures NotReady(q[..0]) == [] && ReadyOnly(q[..0]) == [] && q[0..] == q
  {}

  lemma TakeNext(q: seq<Message>, i: nat)
    requires i < |q|
    ensures NotReady(q[..i + 1]) == NotReady(q[..i]) + if q[i].status.Ready? then [] else [q[i]]
    ensures ReadyOnly(q[..i + 1]) == ReadyOnly(q[..i]) + if q[i].status.Ready? then [q[i]] else []
  {
    assert q[..i + 1][..i] == q[..i];
  }

  lemma ProcessKeepsIf(c: Config, s: State, order: seq<Id>)
    requires Enumerates(order, s.pending.Keys)
    ensures Inv(c, s) ==> Inv(c, Process(c, s, order))
  {
    if Inv(c, s) {
      ProcessKeeps(c, s, order);
    }
  }

  lemma RelayKeepsIf(c: Config, s: State, ok: Id -> bool)
    ensures Inv(c, s) ==> Inv(c, Relay(c, s, ok))
  {
    if Inv(c, s) {
      RelayKeeps(c, s, ok);
    }
  }
}
