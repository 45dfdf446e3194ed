/** The subscriptions table of the Solace client wrapper returned by
    `createSolaceClient`. It maps each topic filter to its handler and to an
    `isSubscribed` flag. The broker session is reduced to whether one is held
    ("connected"), and the calls made on it are left out. */
module SolaceClient {
  import opened TopicFilter

  /** A message handler, known only by its identity. */
  type Handler = nat

  /** The value stored under a topic filter: `{ handler, isSubscribed }`. */
  datatype Subscription = Subscription(handler: Handler, isSubscribed: bool)

  /** The properties every plain object inherits from `Object.prototype`.
      Reading `subscriptions[name]` for one of them yields a truthy value
      although the table holds no such entry. */
  const PrototypeNames: set<string> :=
    {"constructor", "hasOwnProperty", "isPrototypeOf", "propertyIsEnumerable",
     "toLocaleString", "toString", "valueOf", "__proto__",
     "__defineGetter__", "__defineSetter__", "__lookupGetter__", "__lookupSetter__"}

  /** The source's truthiness test `subscriptions[topic]`: an own entry, or
      an inherited property. */
  predicate Present(table: map<string, Subscription>, topic: string)
  {
    topic in table || topic in PrototypeNames
  }

  /** The result of `unsubscribeAll`. Without a session the source calls an
      undefined `reject` and throws; that is `Failed`. */
  datatype Outcome = Done | Failed

  class Client {
    /** `session !== null` */
    var connected: bool
    /** The private `subscriptions` object. */
    var subscriptions: map<string, Subscription>

    /** No filter that shares its name with an inherited property is ever
        entered, so the table's own keys never include one. */
    predicate Valid()
      reads this
    {
      subscriptions.Keys !! PrototypeNames
    }

    /** A fresh client holds no session and no subscriptions. */
    constructor()
      ensures Valid()
      ensures !connected
      ensures subscriptions == map[]
    {
      connected := false;
      subscriptions := map[];
    }

    /** `connect` creates the session; the table is left as it is. */
    method SessionCreated()
      requires Valid()
      modifies this
      ensures Valid()
      ensures connected
      ensures subscriptions == old(subscriptions)
    {
      connected := true;
    }

    /** The DISCONNECTED handler drops the session but keeps the table, so
        the subscriptions outlive the session. */
    method SessionDisposed()
      requires Valid()
      modifies this
      ensures Valid()
      ensures !connected
      ensures subscriptions == old(subscriptions)
    {
      connected := false;
    }

    /** `subscribe(topic, handler)`: refused without a session or when
        `subscriptions[topic]` is truthy, that is when the filter is already
        in the table (the first handler stays) or names an inherited
        property; otherwise the filter is entered with its handler, not yet
        confirmed. */
    method Subscribe(topic: string, handler: Handler)
      requires Valid()
      modifies this
      ensures Valid()
      ensures connected == old(connected)
      ensures !old(connected) ==> subscriptions == old(subscriptions)
      ensures Present(old(subscriptions), topic) ==> subscriptions == old(subscriptions)
      ensures old(connected) && !Present(old(subscriptions), topic)
              ==> subscriptions == old(subscriptions)[topic := Subscription(handler, false)]
    {
      if !connected {
        return;
      }
      if Present(subscriptions, topic) {
        return;
      }
      subscriptions := subscriptions[topic := Subscription(handler, false)];
    }

    /** `unsubscribe(topic)`: without a session nothing happens; otherwise
        exactly that filter leaves the table (if it was there at all). */
    method Unsubscribe(topic: string)
      requires Valid()
      modifies this
      ensures Valid()
      ensures connected == old(connected)
      ensures !old(connected) ==> subscriptions == old(subscriptions)
      ensures old(connected) ==> subscriptions == old(subscriptions) - {topic}
    {
      if !connected {
        return;
      }
      subscriptions := subscriptions - {topic};
    }

    /** `unsubscribeAll()`: with a session every filter is unsubscribed in
        turn and the table ends empty; without one it fails before touching
        the table. */
    method UnsubscribeAll() returns (outcome: Outcome)
      requires Valid()
      modifies this
      ensures Valid()
      ensures connected == old(connected)
      ensures outcome == Failed <==> !old(connected)
      ensures !old(connected) ==> subscriptions == old(subscriptions)
      ensures old(connected) ==> subscriptions == map[]
    {
      if !connected {
        return Failed;
      }
      var keys := subscriptions.Keys;
      while keys != {}
        invariant connected && Valid()
        invariant subscriptions.Keys == keys
        decreases |keys|
      {
        var topic :| topic in keys;
        Unsubscribe(topic);
        keys := keys - {topic};
      }
      return Done;
    }

    /** `onMessage`: walks the table and calls the handler of every filter
        that matches the message's topic. It returns the filters it
        dispatched to: exactly the entries of the table that match, confirmed
        or not, and nothing else. */
    method OnMessage(topic: string) returns (dispatched: set<string>)
      ensures dispatched <= subscriptions.Keys
      ensures forall filter | filter in subscriptions :: filter in dispatched <==> TopicMatches(filter, topic)
    {
      dispatched := {};
      var pending := subscriptions.Keys;
      while pending != {}
        invariant pending <= subscriptions.Keys
        invariant dispatched <= subscriptions.Keys - pending
        invariant forall filter | filter in subscriptions.Keys - pending ::
                    filter in dispatched <==> TopicMatches(filter, topic)
        decreases |pending|
      {
        var filter :| filter in pending;
        if TopicMatches(filter, topic) {
          dispatched := dispatched + {filter};
        }
        pending := pending - {filter};
      }
    }
  }

  /** On a connected client, `unsubscribe` undoes a `subscribe` of a new
      filter: the table is back to what it was. */
  lemma UnsubscribeUndoesSubscribe(table: map<string, Subscription>, topic: string, handler: Handler)
    requires topic !in table
    ensures table[topic := Subscription(handler, false)] - {topic} == table
  {
    var after := table[topic := Subscription(handler, false)] - {topic};
    assert after.Keys == table.Keys;
  }

  /** A client that subscribes to a new filter while connected and then
      loses its session keeps the entry, unconfirmed, with its handler; a
      filter named like an inherited property is never entered. */
  method SubscribeThenDisconnect(c: Client, topic: string, handler: Handler)
    requires c.Valid() && c.connected && topic !in c.subscriptions
    modifies c
    ensures c.Valid() && !c.connected
    ensures topic !in PrototypeNames
            ==> c.subscriptions == old(c.subscriptions)[topic := Subscription(handler, false)]
    ensures topic in PrototypeNames ==> c.subscriptions == old(c.subscriptions)
  {
    c.Subscribe(topic, handler);
    c.SessionDisposed();
  }
}
