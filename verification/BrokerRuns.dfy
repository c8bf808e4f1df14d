/** Runs of the market broker: what clients receive, whatever the others do. */
module BrokerRuns {
  import opened Wrappers
  import opened MarketBroker

  /** `last` remembers the last event published under each key. */
  datatype System = System(broker: Broker, last: map<Key, Event>)

  datatype Action =
    | Subscribe(client: Client, subscription: Subscription)
    | Unsubscribe(client: Client)
    | Seed(event: Event)
    | Refresh(symbol: Symbol, quote: int)
    | Fail(symbol: Symbol, error: int)
    | Take(client: Client)

  const START := System(NEW_BROKER, map[])

  predicate Enabled(a: Action) {
    a.Seed? ==> a.event.Snapshot?
  }

  function Apply(s: System, a: Action): System
    requires SameClients(s.broker) && Enabled(a)
  {
    var b := s.broker;
    match a
    case Subscribe(client, subscription) => s.(broker := Subscribed(b, client, subscription))
    case Unsubscribe(client) => s.(broker := Unsubscribed(b, client))
    case Seed(event) => s.(broker := Seeded(b, event))
    case Refresh(symbol, quote) =>
      var event := Snapshot(symbol, Sequence(b.sequence, symbol) + 1, quote);
      System(Refreshed(b, symbol, quote), s.last[KeyOf(event) := event])
    case Fail(symbol, error) =>
      var event := SourceStatus(symbol, error);
      System(Published(b, event), s.last[KeyOf(event) := event])
    case Take(client) => s.(broker := TakenBy(b, client).0)
  }

  /** What the action hands to `client`. */
  function Given(s: System, a: Action, client: Client): Option<Event> {
    if a == Take(client) && TakenBy(s.broker, client).1.Ok? then TakenBy(s.broker, client).1.value else None
  }

  // --------------------------------------------------------------- invariant

  /** An undelivered event is the last one of its key, is wanted, and its key is in the client's queue. */
  ghost predicate PendingSound(s: System, c: Client, k: Key)
    requires c in s.broker.pending && k in s.broker.pending[c]
  {
    var b, e := s.broker, s.broker.pending[c][k];
    && c in b.queues && k in b.queues[c]
    && Wants(b.subscriptions, c, k.symbol)
    && k in s.last && e == s.last[k] && KeyOf(e) == k
    && (k.kind.SnapshotKind? ==> 1 <= e.sequence <= Sequence(b.sequence, k.symbol))
  }

  ghost predicate Sound(s: System) {
    SameClients(s.broker) && forall c <- s.broker.pending :: forall k <- s.broker.pending[c] :: PendingSound(s, c, k)
  }

  lemma {:induction false} NextFacts(queue: seq<Key>, pending: Pending)
    requires forall k <- pending :: k in queue
    ensures
      var t := Next(queue, pending);
      && (t.event.None? <==> pending == map[])
      && (t.event.None? ==> t.queue == [] && t.pending == pending)
      && (t.event.Some? ==> exists k <- pending :: t.event == Some(pending[k]) && t.pending == pending - {k})
      && (forall k <- t.pending :: k in t.queue)
  {
    if queue == [] {
      assert forall k <- pending :: false;
    } else if queue[0] !in pending {
      NextFacts(queue[1..], pending);
    }
  }

  /** What one client has after a publication. */
  lemma PublishedFor(b: Broker, e: Event, c: Client)
    requires SameClients(b) && c in b.queues
    ensures
      var n, k := Published(b, e), KeyOf(e);
      SameClients(n) && c in n.queues && c in n.pending
      && if Wants(b.subscriptions, c, e.symbol)
         then n.pending[c] == b.pending[c][k := e] && n.queues[c] == if k in b.pending[c] then b.queues[c] else b.queues[c] + [k]
         else n.pending[c] == b.pending[c] && n.queues[c] == b.queues[c]
  {
    hide Wants;
    assert Receives(b, e, b.queues.Keys, c) <==> Wants(b.subscriptions, c, e.symbol);
    PublishKeepsClients(b, e, b.queues.Keys);
  }

  lemma PublishKeepsSound(s: System, e: Event, sequence: map<Symbol, nat>, cache: map<Symbol, Event>)
    requires Sound(s)
    requires forall x :: Sequence(sequence, x) >= Sequence(s.broker.sequence, x)
    requires e.Snapshot? ==> 1 <= e.sequence <= Sequence(sequence, e.symbol)
    ensures Sound(System(Published(s.broker.(sequence := sequence, cache := cache), e), s.last[KeyOf(e) := e]))
  {
    hide Published, Sequence;
    var b := s.broker.(sequence := sequence, cache := cache);
    var next := System(Published(b, e), s.last[KeyOf(e) := e]);
    assert SameClients(b) && SameClients(next.broker) && next.broker.pending.Keys == b.pending.Keys == b.queues.Keys
      && next.broker.subscriptions == b.subscriptions && next.broker.sequence == sequence by { PublishedBasics(b, s.broker, e); }
    forall c <- next.broker.pending, k <- next.broker.pending[c]
      ensures PendingSound(next, c, k)
    {
      PublishedFor(b, e, c);
      if k in s.broker.pending[c] {
        assert PendingSound(s, c, k);
      }
    }
  }

  lemma PublishedBasics(b: Broker, before: Broker, e: Event)
    requires SameClients(before) && b == before.(sequence := b.sequence, cache := b.cache)
    ensures SameClients(b) && SameClients(Published(b, e)) && b.pending.Keys == b.queues.Keys
    ensures
      var n := Published(b, e);
      n.pending.Keys == b.pending.Keys && n.subscriptions == b.subscriptions && n.sequence == b.sequence
  {
    PublishKeepsClients(b, e, b.queues.Keys);
  }

  lemma TakeKeepsSound(s: System, client: Client)
    requires Sound(s)
    ensures Sound(Apply(s, Take(client)))
  {
    hide Wants, Sequence;
    var b, next := s.broker, Apply(s, Take(client));
    if client in b.queues {
      assert forall k <- b.pending[client] :: PendingSound(s, client, k);
      NextFacts(b.queues[client], b.pending[client]);
      forall c <- next.broker.pending, k <- next.broker.pending[c]
        ensures PendingSound(next, c, k)
      {
        assert k in b.pending[c] && PendingSound(s, c, k);
      }
    }
  }

  /** A client leaving takes only its own subscription; symbols others want keep their sequence numbers. */
  lemma UnsubscribeKeepsSound(s: System, client: Client)
    requires Sound(s)
    ensures Sound(Apply(s, Unsubscribe(client)))
  {
    var b, next := s.broker, Apply(s, Unsubscribe(client));
    forall c <- next.broker.pending, k <- next.broker.pending[c]
      ensures PendingSound(next, c, k)
    {
      assert k in b.pending[c] && PendingSound(s, c, k);
      SubscribedIsKept(b, client, c, k.symbol);
    }
  }

  lemma SubscribedIsKept(b: Broker, client: Client, c: Client, symbol: Symbol)
    requires c != client && Wants(b.subscriptions, c, symbol)
    ensures Wants(Unsubscribed(b, client).subscriptions, c, symbol)
    ensures Sequence(Unsubscribed(b, client).sequence, symbol) == Sequence(b.sequence, symbol)
  {
    var left := b.subscriptions - {client};
    assert Wants(left, c, symbol);
    assert c in left && Referenced(left, symbol);
  }

  lemma SubscribeKeepsSound(s: System, client: Client, subscription: Subscription)
    requires Sound(s)
    ensures Sound(Apply(s, Subscribe(client, subscription)))
  {
    hide Sequence;
    var b, next := s.broker, Apply(s, Subscribe(client, subscription));
    forall c <- next.broker.pending, k <- next.broker.pending[c]
      ensures PendingSound(next, c, k)
    {
      assert k in b.pending[c] && PendingSound(s, c, k);
    }
  }

  lemma SeedKeepsSound(s: System, e: Event)
    requires Sound(s) && e.Snapshot?
    ensures Sound(Apply(s, Seed(e)))
  {
    var b, next := s.broker, Apply(s, Seed(e));
    forall c <- next.broker.pending, k <- next.broker.pending[c]
      ensures PendingSound(next, c, k)
    {
      assert k in b.pending[c] && PendingSound(s, c, k);
    }
  }

  lemma ActionKeepsSound(s: System, a: Action)
    requires Sound(s) && Enabled(a)
    ensures Sound(Apply(s, a))
  {
    hide Sound, PendingSound, SameClients;
    assert SameClients(s.broker) by { SoundHasClients(s); }
    var b := s.broker;
    match a
    case Refresh(symbol, quote) =>
      var event := Snapshot(symbol, Sequence(b.sequence, symbol) + 1, quote);
      PublishKeepsSound(s, event, b.sequence[symbol := event.sequence], b.cache[symbol := event]);
    case Fail(symbol, error) => PublishKeepsSound(s, SourceStatus(symbol, error), b.sequence, b.cache);
    case Take(client) => TakeKeepsSound(s, client);
    case Subscribe(client, subscription) => SubscribeKeepsSound(s, client, subscription);
    case Unsubscribe(client) => UnsubscribeKeepsSound(s, client);
    case Seed(event) => SeedKeepsSound(s, event);
  }

  lemma SoundHasClients(s: System)
    requires Sound(s)
    ensures SameClients(s.broker)
  {
  }

  // ---------------------------------------------------------------- delivery

  function Position(queue: seq<Key>, k: Key): nat
    requires k in queue
  {
    if queue[0] == k then 0 else 1 + Position(queue[1..], k)
  }

  /**
   * With an undelivered event the client never waits: it gets the event, which is the last one published under
   * its key, or another one, and then the event has come closer to the head of the queue.
   */
  lemma {:induction false} TakeMakesProgress(queue: seq<Key>, pending: Pending, k: Key)
    requires k in pending && k in queue
    ensures
      var t := Next(queue, pending);
      t.event.Some?
      && ((t.event == Some(pending[k]) && k !in t.pending)
          || (k in t.pending && t.pending[k] == pending[k] && k in t.queue && Position(t.queue, k) < Position(queue, k)))
  {
    if queue[0] !in pending {
      TakeMakesProgress(queue[1..], pending, k);
    }
  }

  /** Nothing that was published for a client is stranded. */
  lemma PublishedArrives(s: System, client: Client, k: Key)
    requires Sound(s) && client in s.broker.pending && k in s.broker.pending[client]
    ensures
      var given, next := Given(s, Take(client), client), Apply(s, Take(client)).broker;
      given.Some? && KeyOf(given.value) in s.last && given.value == s.last[KeyOf(given.value)]
      && ((given.value == s.last[k] && k !in next.pending[client])
          || (k in next.pending[client] && next.pending[client][k] == s.last[k]
              && k in next.queues[client] && Position(next.queues[client], k) < Position(s.broker.queues[client], k)))
  {
    hide Sequence, Wants;
    var b := s.broker;
    assert PendingSound(s, client, k);
    assert forall x <- b.pending[client] :: PendingSound(s, client, x);
    NextFacts(b.queues[client], b.pending[client]);
    TakeMakesProgress(b.queues[client], b.pending[client], k);
  }

  // ---------------------------------------------------- increasing sequences

  /** The client stays subscribed to the symbol. */
  predicate Stays(actions: seq<Action>, client: Client, symbol: Symbol) {
    forall a <- actions :: Enabled(a) && a != Unsubscribe(client)
      && (a.Subscribe? && a.client == client ==> symbol in a.subscription.watchlist + a.subscription.detail)
  }

  function Run(s: System, actions: seq<Action>): System
    requires Sound(s) && forall a <- actions :: Enabled(a)
    decreases |actions|
  {
    if actions == [] then s
    else
      ActionKeepsSound(s, actions[0]);
      Run(Apply(s, actions[0]), actions[1..])
  }

  /** The sequence numbers of the snapshots of a symbol handed to a client. */
  function Received(s: System, actions: seq<Action>, client: Client, symbol: Symbol): seq<nat>
    requires Sound(s) && forall a <- actions :: Enabled(a)
    decreases |actions|
  {
    if actions == [] then []
    else
      ActionKeepsSound(s, actions[0]);
      var given := Given(s, actions[0], client);
      (if given.Some? && given.value.Snapshot? && given.value.symbol == symbol then [given.value.sequence] else [])
      + Received(Apply(s, actions[0]), actions[1..], client, symbol)
  }

  predicate IncreasingFrom(bound: nat, numbers: seq<nat>)
    decreases |numbers|
  {
    numbers != [] ==> numbers[0] > bound && IncreasingFrom(numbers[0], numbers[1..])
  }

  /** No undelivered snapshot of the symbol is as old as `bound`. */
  ghost predicate Newer(s: System, client: Client, symbol: Symbol, bound: nat) {
    && Wants(s.broker.subscriptions, client, symbol) && client in s.broker.pending
    && bound <= Sequence(s.broker.sequence, symbol)
    && (var k := Key(symbol, SnapshotKind); k in s.broker.pending[client] ==> s.broker.pending[client][k].Snapshot? && s.broker.pending[client][k].sequence > bound)
  }

  lemma ActionKeepsNewer(s: System, a: Action, client: Client, symbol: Symbol, bound: nat)
    requires Sound(s) && Newer(s, client, symbol, bound) && Stays([a], client, symbol)
    ensures
      var given := Given(s, a, client);
      if given.Some? && given.value.Snapshot? && given.value.symbol == symbol
      then given.value.sequence > bound && Newer(Apply(s, a), client, symbol, given.value.sequence)
      else Newer(Apply(s, a), client, symbol, bound)
  {
    hide Referenced, TakenBy, Unsubscribed, Subscribed, Refreshed, Published;
    var b := s.broker;
    assert a in [a];
    match a
    case Refresh(x, quote) => RefreshingKeepsNewer(s, x, quote, client, symbol, bound);
    case Fail(x, error) =>
      PublishedBasics(b, b, SourceStatus(x, error));
      PublishedFor(b, SourceStatus(x, error), client);
    case Unsubscribe(c) => LeavingKeepsNewer(s, c, client, symbol, bound);
    case Take(c) => TakeKeepsNewer(s, c, client, symbol, bound);
    case Subscribe(c, subscription) => SubscribingKeepsNewer(s, c, subscription, client, symbol, bound);
    case Seed(_) =>
  }

  lemma RefreshingKeepsNewer(s: System, x: Symbol, quote: int, client: Client, symbol: Symbol, bound: nat)
    requires Sound(s) && Newer(s, client, symbol, bound)
    ensures Newer(Apply(s, Refresh(x, quote)), client, symbol, bound)
  {
    hide Published;
    var b, event := s.broker, Snapshot(x, Sequence(s.broker.sequence, x) + 1, quote);
    var ready := b.(sequence := b.sequence[x := event.sequence], cache := b.cache[x := event]);
    PublishedBasics(ready, b, event);
    PublishedFor(ready, event, client);
  }

  lemma LeavingKeepsNewer(s: System, c: Client, client: Client, symbol: Symbol, bound: nat)
    requires Sound(s) && Newer(s, client, symbol, bound) && c != client
    ensures Newer(Apply(s, Unsubscribe(c)), client, symbol, bound)
  {
    SubscribedIsKept(s.broker, c, client, symbol);
  }

  lemma SubscribingKeepsNewer(s: System, c: Client, subscription: Subscription, client: Client, symbol: Symbol, bound: nat)
    requires Sound(s) && Newer(s, client, symbol, bound) && (c == client ==> symbol in subscription.watchlist + subscription.detail)
    ensures Newer(Apply(s, Subscribe(c, subscription)), client, symbol, bound)
  {
  }

  lemma TakeKeepsNewer(s: System, c: Client, client: Client, symbol: Symbol, bound: nat)
    requires Sound(s) && Newer(s, client, symbol, bound)
    ensures
      var given := Given(s, Take(c), client);
      if given.Some? && given.value.Snapshot? && given.value.symbol == symbol
      then given.value.sequence > bound && Newer(Apply(s, Take(c)), client, symbol, given.value.sequence)
      else Newer(Apply(s, Take(c)), client, symbol, bound)
  {
    hide Wants, Sequence;
    var b := s.broker;
    if c == client {
      assert forall k <- b.pending[client] :: PendingSound(s, client, k);
      NextFacts(b.queues[client], b.pending[client]);
    }
  }

  lemma {:induction false} SequencesIncrease(s: System, actions: seq<Action>, client: Client, symbol: Symbol, bound: nat)
    requires Sound(s) && Newer(s, client, symbol, bound) && Stays(actions, client, symbol)
    ensures IncreasingFrom(bound, Received(s, actions, client, symbol))
    decreases |actions|
  {
    hide PendingSound, Newer, Apply, Given;
    if actions != [] {
      var a, rest := actions[0], actions[1..];
      assert Stays([a], client, symbol) && Stays(rest, client, symbol);
      ActionKeepsSound(s, a);
      ActionKeepsNewer(s, a, client, symbol, bound);
      var given := Given(s, a, client);
      var next := if given.Some? && given.value.Snapshot? && given.value.symbol == symbol then given.value.sequence else bound;
      SequencesIncrease(Apply(s, a), rest, client, symbol, next);
      var later := Received(Apply(s, a), rest, client, symbol);
      if next != bound {
        assert ([next] + later)[1..] == later;
      } else {
        assert [] + later == later;
      }
    }
  }

  /** From any moment at which a client is subscribed to a symbol, while it stays so, its sequence numbers increase. */
  lemma SubscriberSeesIncreasing(before: seq<Action>, actions: seq<Action>, client: Client, symbol: Symbol)
    requires (forall a <- before :: Enabled(a)) && Stays(actions, client, symbol)
    requires Wants(Run(START, before).broker.subscriptions, client, symbol)
    ensures Sound(Run(START, before)) && IncreasingFrom(0, Received(Run(START, before), actions, client, symbol))
  {
    RunKeepsSound(START, before);
    var s := Run(START, before);
    var k := Key(symbol, SnapshotKind);
    if client in s.broker.pending && k in s.broker.pending[client] {
      assert PendingSound(s, client, k);
    }
    assert Newer(s, client, symbol, 0);
    SequencesIncrease(s, actions, client, symbol, 0);
  }

  lemma {:induction false} RunKeepsSound(s: System, actions: seq<Action>)
    requires Sound(s) && forall a <- actions :: Enabled(a)
    ensures Sound(Run(s, actions))
    decreases |actions|
  {
    hide PendingSound, Apply;
    if actions != [] {
      ActionKeepsSound(s, actions[0]);
      RunKeepsSound(Apply(s, actions[0]), actions[1..]);
    }
  }
}
