/** The market broker: coalescing delivery of published events to subscribed clients. */
module MarketBroker {
  import opened Wrappers

  type Client = nat
  type Symbol = nat

  datatype Kind = SnapshotKind | StatusKind

  datatype Key = Key(symbol: Symbol, kind: Kind)

  /** `quote` and `error` stand for what the event carries to the browser. */
  datatype Event =
    | Snapshot(symbol: Symbol, sequence: nat, quote: int)
    | SourceStatus(symbol: Symbol, error: int)

  function KeyOf(e: Event): Key {
    Key(e.symbol, if e.Snapshot? then SnapshotKind else StatusKind)
  }

  datatype Subscription = Subscription(watchlist: set<Symbol>, detail: set<Symbol>)

  type Pending = map<Key, Event>

  datatype Broker = Broker(
    subscriptions: map<Client, Subscription>,
    queues: map<Client, seq<Key>>,
    pending: map<Client, Pending>,
    cache: map<Symbol, Event>,
    sequence: map<Symbol, nat>)

  const NEW_BROKER := Broker(map[], map[], map[], map[], map[])

  predicate Wants(subscriptions: map<Client, Subscription>, client: Client, symbol: Symbol) {
    client in subscriptions && (symbol in subscriptions[client].watchlist || symbol in subscriptions[client].detail)
  }

  predicate Referenced(subscriptions: map<Client, Subscription>, symbol: Symbol) {
    exists client <- subscriptions :: Wants(subscriptions, client, symbol)
  }

  /** The last sequence number given out for a symbol. */
  function Sequence(sequence: map<Symbol, nat>, symbol: Symbol): nat {
    if symbol in sequence then sequence[symbol] else 0
  }

  // -------------------------------------------------------------- operations

  /** The undelivered events of symbols still wanted, and those not looked at yet. */
  function Pruned(pending: Pending, s: Subscription, todo: set<Key>): Pending {
    map key | key in pending && (key in todo || key.symbol in s.watchlist || key.symbol in s.detail) :: pending[key]
  }

  function Subscribed(b: Broker, client: Client, s: Subscription): Broker {
    var before := if client in b.pending then b.pending[client] else map[];
    b.(subscriptions := b.subscriptions[client := s],
       queues := if client in b.queues then b.queues else b.queues[client := []],
       pending := b.pending[client := Pruned(before, s, {})])
  }

  /** Symbols of `seen` that nobody refers to any more are forgotten, sequence numbers included. */
  function Forgotten(b: Broker, seen: set<Symbol>): Broker {
    var gone := set symbol | symbol in seen && !Referenced(b.subscriptions, symbol);
    b.(cache := b.cache - gone, sequence := b.sequence - gone)
  }

  function Unsubscribed(b: Broker, client: Client): Broker {
    Forgotten(b.(subscriptions := b.subscriptions - {client}, queues := b.queues - {client}, pending := b.pending - {client}), b.cache.Keys)
  }

  function Seeded(b: Broker, e: Event): Broker
    requires e.Snapshot?
  {
    var known := Sequence(b.sequence, e.symbol);
    b.(cache := b.cache[e.symbol := e], sequence := b.sequence[e.symbol := if e.sequence > known then e.sequence else known])
  }

  /** The event replaces the undelivered one of its key; only a key without one is queued. */
  function PublishedTo(b: Broker, e: Event, clients: set<Client>): Broker
    requires SameClients(b)
  {
    b.(queues := QueuesTo(b, e, clients), pending := PendingTo(b, e, clients))
  }

  /** The event put into one client's queue. */
  function Delivered(b: Broker, client: Client, e: Event): Broker
    requires client in b.queues && client in b.pending
  {
    if !Wants(b.subscriptions, client, e.symbol) then b
    else
      b.(queues := if KeyOf(e) in b.pending[client] then b.queues else b.queues[client := b.queues[client] + [KeyOf(e)]],
         pending := b.pending[client := b.pending[client][KeyOf(e) := e]])
  }

  predicate Receives(b: Broker, e: Event, clients: set<Client>, c: Client) {
    c in clients && Wants(b.subscriptions, c, e.symbol)
  }

  function QueuesTo(b: Broker, e: Event, clients: set<Client>): map<Client, seq<Key>>
    requires SameClients(b)
  {
    map c | c in b.queues :: if Receives(b, e, clients, c) && KeyOf(e) !in b.pending[c] then b.queues[c] + [KeyOf(e)] else b.queues[c]
  }

  function PendingTo(b: Broker, e: Event, clients: set<Client>): map<Client, Pending>
    requires SameClients(b)
  {
    map c | c in b.pending :: if Receives(b, e, clients, c) then b.pending[c][KeyOf(e) := e] else b.pending[c]
  }

  function Published(b: Broker, e: Event): Broker
    requires SameClients(b)
  {
    PublishedTo(b, e, b.queues.Keys)
  }

  /** Every subscriber has a queue and a dict of undelivered events. */
  predicate SameClients(b: Broker) {
    b.queues.Keys == b.pending.Keys == b.subscriptions.Keys
  }

  /** What `refresh` and a batch do with a snapshot read from the source. */
  function Refreshed(b: Broker, symbol: Symbol, quote: int): Broker
    requires SameClients(b)
  {
    var current := Snapshot(symbol, Sequence(b.sequence, symbol) + 1, quote);
    Published(b.(sequence := b.sequence[symbol := current.sequence], cache := b.cache[symbol := current]), current)
  }

  datatype Taken = Taken(queue: seq<Key>, pending: Pending, event: Option<Event>)

  /** Keys without an undelivered event are skipped; with none left the client would wait. */
  function Next(queue: seq<Key>, pending: Pending): Taken {
    if queue == [] then Taken([], pending, None)
    else if queue[0] in pending then Taken(queue[1..], pending - {queue[0]}, Some(pending[queue[0]]))
    else Next(queue[1..], pending)
  }

  /** next_event; Err where the client is unknown. */
  function TakenBy(b: Broker, client: Client): (Broker, Result<Option<Event>, ()>) {
    if client !in b.queues || client !in b.pending then (b, Err(()))
    else
      var t := Next(b.queues[client], b.pending[client]);
      (b.(queues := b.queues[client := t.queue], pending := b.pending[client := t.pending]), Ok(t.event))
  }

  // --------------------------------------------------------------- the class

  class MarketDataBroker {
    var subscriptions: map<Client, Subscription>
    var queues: map<Client, seq<Key>>
    var pending: map<Client, Pending>
    var cache: map<Symbol, Event>
    var sequence: map<Symbol, nat>

    function State(): Broker
      reads this
    {
      Broker(subscriptions, queues, pending, cache, sequence)
    }

    constructor ()
      ensures State() == NEW_BROKER
    {
      subscriptions, queues, pending, cache, sequence := map[], map[], map[], map[], map[];
    }

    method Subscribe(client: Client, watchlist: set<Symbol>, detail: set<Symbol>) returns (refresh: set<Symbol>)
      modifies this
      ensures State() == Subscribed(old(State()), client, Subscription(watchlist, detail))
      ensures refresh == if client in old(subscriptions) then detail - old(subscriptions)[client].detail else detail
    {
      refresh := if client in subscriptions then detail - subscriptions[client].detail else detail;
      subscriptions := subscriptions[client := Subscription(watchlist, detail)];
      if client !in queues {
        queues := queues[client := []];
      }
      var mine := if client in pending then pending[client] else map[];
      ghost var before, s := mine, Subscription(watchlist, detail);
      var todo := mine.Keys;
      while todo != {}
        invariant todo <= before.Keys && mine == Pruned(before, s, todo)
        decreases |todo|
      {
        var key :| key in todo;
        todo := todo - {key};
        if key.symbol !in watchlist + detail {
          mine := mine - {key};
        }
      }
      pending := pending[client := mine];
    }

    method Unsubscribe(client: Client)
      modifies this
      ensures State() == Unsubscribed(old(State()), client)
    {
      hide Forgotten, Referenced;
      subscriptions := subscriptions - {client};
      queues := queues - {client};
      pending := pending - {client};
      ghost var b := State();
      var todo := cache.Keys;
      ForgetNothing(b);
      while todo != {}
        invariant todo <= b.cache.Keys && State() == Forgotten(b, b.cache.Keys - todo)
        decreases |todo|
      {
        var symbol :| symbol in todo;
        ForgetNext(b, todo, symbol);
        todo := todo - {symbol};
        Forget(symbol);
      }
      assert b.cache.Keys - {} == b.cache.Keys;
    }

    method Forget(symbol: Symbol)
      modifies this`cache, this`sequence
      ensures State() == if Referenced(subscriptions, symbol) then old(State())
                         else old(State()).(cache := old(cache) - {symbol}, sequence := old(sequence) - {symbol})
    {
      if !Referenced(subscriptions, symbol) {
        cache := cache - {symbol};
        sequence := sequence - {symbol};
      }
    }

    method Seed(e: Event)
      requires e.Snapshot?
      modifies this
      ensures State() == Seeded(old(State()), e)
    {
      cache := cache[e.symbol := e];
      sequence := sequence[e.symbol := if e.sequence > Sequence(sequence, e.symbol) then e.sequence else Sequence(sequence, e.symbol)];
    }

    method Publish(e: Event)
      requires SameClients(State())
      modifies this`queues, this`pending
      ensures State() == Published(old(State()), e) && SameClients(State())
    {
      hide PublishedTo, Delivered, SameClients;
      ghost var b := State();
      var todo := queues.Keys;
      PublishToNobody(b, e);
      while todo != {}
        invariant todo <= b.queues.Keys && State() == PublishedTo(b, e, b.queues.Keys - todo)
        decreases |todo|
      {
        var client :| client in todo;
        PublishToNext(b, e, todo, client);
        todo := todo - {client};
        Deliver(client, e);
      }
      PublishedToAll(b, e);
    }

    method Deliver(client: Client, e: Event)
      requires client in queues && client in pending
      modifies this`queues, this`pending
      ensures State() == Delivered(old(State()), client, e)
    {
      if Wants(subscriptions, client, e.symbol) {
        if KeyOf(e) !in pending[client] {
          queues := queues[client := queues[client] + [KeyOf(e)]];
        }
        pending := pending[client := pending[client][KeyOf(e) := e]];
      }
    }

    method Refresh(symbol: Symbol, quote: int)
      requires SameClients(State())
      modifies this
      ensures State() == Refreshed(old(State()), symbol, quote) && SameClients(State())
    {
      var current := Snapshot(symbol, Sequence(sequence, symbol) + 1, quote);
      sequence := sequence[symbol := current.sequence];
      cache := cache[symbol := current];
      Publish(current);
    }

    /** Waiting for an event is left to the caller: without one the answer is None. */
    method NextEvent(client: Client) returns (r: Result<Option<Event>, ()>)
      modifies this
      ensures (State(), r) == TakenBy(old(State()), client)
    {
      if client !in queues || client !in pending {
        return Err(());
      }
      var queue, mine := queues[client], pending[client];
      while queue != []
        invariant Next(queue, mine) == Next(queues[client], pending[client]) && mine == pending[client]
        invariant State() == old(State())
        decreases |queue|
      {
        var key := queue[0];
        queue := queue[1..];
        if key in mine {
          r := Ok(Some(mine[key]));
          mine := mine - {key};
          queues, pending := queues[client := queue], pending[client := mine];
          return;
        }
      }
      queues, pending := queues[client := queue], pending[client := mine];
      r := Ok(None);
    }
  }

  lemma ForgetNothing(b: Broker)
    ensures Forgotten(b, b.cache.Keys - b.cache.Keys) == b
  {
    var gone := set symbol | symbol in b.cache.Keys - b.cache.Keys && !Referenced(b.subscriptions, symbol);
    assert gone == {};
    assert b.cache - gone == b.cache && b.sequence - gone == b.sequence;
  }

  lemma ForgetNext(b: Broker, todo: set<Symbol>, symbol: Symbol)
    requires symbol in todo && todo <= b.cache.Keys
    ensures
      var f := Forgotten(b, b.cache.Keys - todo);
      f.subscriptions == b.subscriptions
      && Forgotten(b, b.cache.Keys - (todo - {symbol}))
         == if Referenced(b.subscriptions, symbol) then f else f.(cache := f.cache - {symbol}, sequence := f.sequence - {symbol})
  {
    hide Forgotten, Referenced;
    ForgetOne(b, b.cache.Keys - todo, symbol);
    assert b.cache.Keys - (todo - {symbol}) == b.cache.Keys - todo + {symbol};
  }

  lemma ForgetOne(b: Broker, seen: set<Symbol>, symbol: Symbol)
    ensures Forgotten(b, seen).subscriptions == b.subscriptions
    ensures
      var f := Forgotten(b, seen);
      Forgotten(b, seen + {symbol})
      == if Referenced(b.subscriptions, symbol) then f else f.(cache := f.cache - {symbol}, sequence := f.sequence - {symbol})
  {
    hide Referenced;
    var gone := set s | s in seen && !Referenced(b.subscriptions, s);
    var more := set s | s in seen + {symbol} && !Referenced(b.subscriptions, s);
    if Referenced(b.subscriptions, symbol) {
      assert more == gone;
    } else {
      assert more == gone + {symbol};
      assert b.cache - more == b.cache - gone - {symbol} && b.sequence - more == b.sequence - gone - {symbol};
    }
  }

  lemma PublishToNobody(b: Broker, e: Event)
    requires SameClients(b)
    ensures PublishedTo(b, e, b.queues.Keys - b.queues.Keys) == b
  {
    assert b.queues.Keys - b.queues.Keys == {};
    assert forall c :: !Receives(b, e, {}, c);
    assert QueuesTo(b, e, {}) == b.queues && PendingTo(b, e, {}) == b.pending;
  }

  lemma PublishToOne(b: Broker, e: Event, done: set<Client>, client: Client)
    requires SameClients(b) && client in b.queues && client !in done
    ensures
      var p := PublishedTo(b, e, done);
      client in p.queues && client in p.pending && PublishedTo(b, e, done + {client}) == Delivered(p, client, e)
  {
    hide QueuesTo, PendingTo, Wants, SameClients;
    QueueToOne(b, e, done, client);
    PendingToOne(b, e, done, client);
  }

  lemma PublishToNext(b: Broker, e: Event, todo: set<Client>, client: Client)
    requires SameClients(b) && client in todo && todo <= b.queues.Keys
    ensures
      var p := PublishedTo(b, e, b.queues.Keys - todo);
      client in p.queues && client in p.pending && PublishedTo(b, e, b.queues.Keys - (todo - {client})) == Delivered(p, client, e)
  {
    hide PublishedTo, Delivered, SameClients;
    PublishToOne(b, e, b.queues.Keys - todo, client);
    assert b.queues.Keys - (todo - {client}) == b.queues.Keys - todo + {client};
  }

  lemma PublishedToAll(b: Broker, e: Event)
    requires SameClients(b)
    ensures PublishedTo(b, e, b.queues.Keys - {}) == Published(b, e) && SameClients(Published(b, e))
  {
    assert b.queues.Keys - {} == b.queues.Keys;
    PublishKeepsClients(b, e, b.queues.Keys);
  }

  lemma PublishKeepsClients(b: Broker, e: Event, clients: set<Client>)
    requires SameClients(b)
    ensures SameClients(PublishedTo(b, e, clients))
  {
    assert QueuesTo(b, e, clients).Keys == b.queues.Keys && PendingTo(b, e, clients).Keys == b.pending.Keys;
  }

  lemma QueueToOne(b: Broker, e: Event, done: set<Client>, client: Client)
    requires SameClients(b) && client in b.queues && client !in done
    ensures
      var q := QueuesTo(b, e, done);
      client in q && QueuesTo(b, e, done + {client})
      == if Wants(b.subscriptions, client, e.symbol) && KeyOf(e) !in b.pending[client] then q[client := q[client] + [KeyOf(e)]] else q
  {
    hide Wants;
    var q, next := QueuesTo(b, e, done), QueuesTo(b, e, done + {client});
    assert q[client] == b.queues[client];
    assert forall c <- b.queues | c != client :: Receives(b, e, done + {client}, c) <==> Receives(b, e, done, c);
    assert forall c <- b.queues | c != client :: next[c] == q[c];
  }

  lemma PendingToOne(b: Broker, e: Event, done: set<Client>, client: Client)
    requires SameClients(b) && client in b.queues && client !in done
    ensures
      var p := PendingTo(b, e, done);
      client in p && p[client] == b.pending[client]
      && PendingTo(b, e, done + {client}) == if Wants(b.subscriptions, client, e.symbol) then p[client := p[client][KeyOf(e) := e]] else p
  {
    hide Wants;
    var p, next := PendingTo(b, e, done), PendingTo(b, e, done + {client});
    assert forall c <- b.pending | c != client :: Receives(b, e, done + {client}, c) <==> Receives(b, e, done, c);
    assert forall c <- b.pending | c != client :: next[c] == p[c];
  }

  // ------------------------------------------------------- in plain terms

  /** Undelivered events survive a new subscription exactly while their symbol is still wanted. */
  lemma SubscribeMeans(b: Broker, client: Client, watchlist: set<Symbol>, detail: set<Symbol>, key: Key, other: Client)
    requires SameClients(b) && other != client
    ensures
      var a := Subscribed(b, client, Subscription(watchlist, detail));
      && a.subscriptions == b.subscriptions[client := Subscription(watchlist, detail)]
      && SameClients(a) && a.cache == b.cache && a.sequence == b.sequence
      && a.queues[client] == (if client in b.queues then b.queues[client] else [])
      && (key in a.pending[client] <==>
            client in b.pending && key in b.pending[client] && (key.symbol in watchlist || key.symbol in detail))
      && (key in a.pending[client] ==> a.pending[client][key] == b.pending[client][key])
      && (other in b.queues <==> other in a.queues)
      && (other in b.queues ==> a.queues[other] == b.queues[other] && a.pending[other] == b.pending[other])
  {
  }

  /** The client goes with its queue; a cached symbol stays, with its number, exactly if another client asks for it. */
  lemma UnsubscribeMeans(b: Broker, client: Client, symbol: Symbol)
    requires SameClients(b)
    ensures
      var a := Unsubscribed(b, client);
      var wanted := exists c <- b.subscriptions ::
          c != client && (symbol in b.subscriptions[c].watchlist || symbol in b.subscriptions[c].detail);
      && SameClients(a) && a.subscriptions == b.subscriptions - {client}
      && a.queues == b.queues - {client} && a.pending == b.pending - {client}
      && (symbol in a.cache <==> symbol in b.cache && wanted)
      && (symbol in a.sequence <==> symbol in b.sequence && (wanted || symbol !in b.cache))
      && (symbol in a.cache ==> a.cache[symbol] == b.cache[symbol])
      && (symbol in a.sequence ==> a.sequence[symbol] == b.sequence[symbol])
  {
    var rest := b.subscriptions - {client};
    if Referenced(rest, symbol) {
      var c :| c in rest && Wants(rest, c, symbol);
      assert c in b.subscriptions && c != client;
    }
    if c :| c in b.subscriptions && c != client && (symbol in b.subscriptions[c].watchlist || symbol in b.subscriptions[c].detail) {
      assert Wants(rest, c, symbol);
    }
  }

  /** A seeded snapshot is cached; the numbers of its symbol never go back. */
  lemma SeedMeans(b: Broker, symbol: Symbol, sequence: nat, quote: int)
    ensures
      var a := Seeded(b, Snapshot(symbol, sequence, quote));
      && a.cache == b.cache[symbol := Snapshot(symbol, sequence, quote)]
      && a.sequence.Keys == b.sequence.Keys + {symbol}
      && a.sequence[symbol] >= sequence && (symbol in b.sequence ==> a.sequence[symbol] >= b.sequence[symbol])
      && (a.sequence[symbol] == sequence || (symbol in b.sequence && a.sequence[symbol] == b.sequence[symbol]))
      && (forall s <- b.sequence :: s != symbol ==> a.sequence[s] == b.sequence[s])
      && a.subscriptions == b.subscriptions && a.queues == b.queues && a.pending == b.pending
  {
  }

  /** The event becomes the undelivered one of its key at every client that wants its symbol, and is queued there once. */
  lemma PublishMeans(b: Broker, e: Event, client: Client)
    requires SameClients(b) && client in b.subscriptions
    ensures
      var a := Published(b, e);
      var key := Key(e.symbol, if e.Snapshot? then SnapshotKind else StatusKind);
      var s := b.subscriptions[client];
      && SameClients(a) && a.subscriptions == b.subscriptions && a.cache == b.cache && a.sequence == b.sequence
      && if e.symbol in s.watchlist || e.symbol in s.detail then
           && a.pending[client] == b.pending[client][key := e]
           && a.queues[client] == (if key in b.pending[client] then b.queues[client] else b.queues[client] + [key])
         else a.pending[client] == b.pending[client] && a.queues[client] == b.queues[client]
  {
    PublishKeepsClients(b, e, b.queues.Keys);
  }

  /** A refreshed symbol gets the next number, starting with 1; the snapshot is cached and published. */
  lemma RefreshMeans(b: Broker, symbol: Symbol, quote: int, client: Client)
    requires SameClients(b) && client in b.subscriptions
    ensures
      var a := Refreshed(b, symbol, quote);
      var e := Snapshot(symbol, if symbol in b.sequence then b.sequence[symbol] + 1 else 1, quote);
      var s := b.subscriptions[client];
      && a.cache == b.cache[symbol := e] && a.sequence == b.sequence[symbol := e.sequence] && a.subscriptions == b.subscriptions
      && SameClients(a)
      && a.pending[client] == if symbol in s.watchlist || symbol in s.detail then b.pending[client][Key(symbol, SnapshotKind) := e]
                              else b.pending[client]
  {
    hide Published;
    var e := Snapshot(symbol, Sequence(b.sequence, symbol) + 1, quote);
    PublishMeans(b.(sequence := b.sequence[symbol := e.sequence], cache := b.cache[symbol := e]), e, client);
  }

  /** The first queued key with an undelivered event is given out; the keys before it are dropped. */
  lemma {:induction false} NextMeans(queue: seq<Key>, pending: Pending, i: nat)
    requires i <= |queue| && forall j :: 0 <= j < i ==> queue[j] !in pending
    requires i < |queue| ==> queue[i] in pending
    ensures
      var t := Next(queue, pending);
      if i < |queue| then t.event == Some(pending[queue[i]]) && t.queue == queue[i + 1..] && t.pending == pending - {queue[i]}
      else t.event == None && t.queue == [] && t.pending == pending
  {
    if i > 0 {
      NextMeans(queue[1..], pending, i - 1);
      assert i < |queue| ==> queue[1..][i..] == queue[i + 1..];
    }
  }

  /** Only the asking client's queue and events change. */
  lemma TakeMeans(b: Broker, client: Client)
    requires SameClients(b)
    ensures
      var (a, r) := TakenBy(b, client);
      if client !in b.subscriptions then a == b && r == Err(())
      else
        && r.Ok? && a.subscriptions == b.subscriptions && a.cache == b.cache && a.sequence == b.sequence && SameClients(a)
        && r.value == Next(b.queues[client], b.pending[client]).event
        && a.queues[client] == Next(b.queues[client], b.pending[client]).queue
        && a.pending[client] == Next(b.queues[client], b.pending[client]).pending
        && forall c <- b.queues :: c != client ==> a.queues[c] == b.queues[c] && a.pending[c] == b.pending[c]
  {
  }
}
