/** The connection state machine of the web app's UI (`connectMachine`),
    under the `@xstate/fsm` semantics it is built with: each state has a table
    of the events it accepts and the state each leads to, an event that is not
    in the current state's table is ignored, and state is reported as changed
    only when a transition is taken. */
module ConnectMachine {

  datatype State = Disconnected | Connecting | Connected | Error

  /** Events are plain strings; only these four appear in the tables. */
  type Event = string

  const ConnectRequest: Event := "CONNECT_REQUEST"
  const UpNotice: Event := "UP_NOTICE"
  const ErrorEvent: Event := "ERROR"
  const DisconnectedEvent: Event := "DISCONNECTED"

  /** `initial: "disconnected"` */
  const Initial: State := Disconnected

  /** The `on` table of each state. */
  function On(s: State): map<Event, State> {
    match s
    case Disconnected => map[ConnectRequest := Connecting]
    case Connecting => map[UpNotice := Connected, ErrorEvent := Error]
    case Connected => map[DisconnectedEvent := Disconnected]
    case Error => map[ConnectRequest := Connecting]
  }

  /** The machine's `transition`: the table's target, or the same state when
      the event has no entry. */
  function Transition(s: State, e: Event): State {
    if e in On(s) then On(s)[e] else s
  }

  /** The `changed` flag of the resulting state: a transition was taken to a
      different state (the machine has no actions). */
  predicate Changed(s: State, e: Event) {
    e in On(s) && On(s)[e] != s
  }

  /** The machine's edges, listed one by one. */
  const Edges: set<(State, Event, State)> := {
    (Disconnected, ConnectRequest, Connecting),
    (Connecting, UpNotice, Connected),
    (Connecting, ErrorEvent, Error),
    (Connected, DisconnectedEvent, Disconnected),
    (Error, ConnectRequest, Connecting)
  }

  /** Every listed edge is a transition of the machine. */
  lemma EdgesAreTransitions(s: State, e: Event, t: State)
    requires (s, e, t) in Edges
    ensures Transition(s, e) == t
  {
  }

  /** Every move of the machine is one of the listed edges; there are no
      others. */
  lemma TransitionsAreEdges(s: State, e: Event)
    requires Transition(s, e) != s
    ensures (s, e, Transition(s, e)) in Edges
  {
    match s
    case Disconnected =>
    case Connecting =>
      if e == UpNotice {
      } else {
        assert e == ErrorEvent;
      }
    case Connected =>
    case Error =>
  }

  /** An event without an entry in the current state's table leaves the
      state unchanged. */
  lemma UnknownEventIgnored(s: State, e: Event)
    requires e !in On(s)
    ensures Transition(s, e) == s
  {
  }

  /** The state is reported as changed exactly when it changes: the table has
      no self-loops. */
  lemma ChangedIff(s: State, e: Event)
    ensures Changed(s, e) <==> Transition(s, e) != s
  {
  }

  /** `connected` is entered only from `connecting`, on `UP_NOTICE`. */
  lemma ConnectedOnlyFromConnecting(s: State, e: Event)
    requires s != Connected && Transition(s, e) == Connected
    ensures s == Connecting && e == UpNotice
  {
    TransitionsAreEdges(s, e);
  }

  /** The state after a run of events. */
  function Run(s: State, events: seq<Event>): State
    decreases |events|
  {
    if events == [] then s else Run(Transition(s, events[0]), events[1..])
  }

  /** The states a run passes through, its start and end included. */
  function Trace(s: State, events: seq<Event>): (t: seq<State>)
    ensures |t| == |events| + 1
    ensures t[0] == s
    decreases |events|
  {
    if events == [] then [s] else [s] + Trace(Transition(s, events[0]), events[1..])
  }

  /** A trace ends in the state the run reaches. */
  lemma {:induction false} TraceEndsInRun(s: State, events: seq<Event>)
    ensures Trace(s, events)[|events|] == Run(s, events)
    decreases |events|
  {
    if events != [] {
      TraceEndsInRun(Transition(s, events[0]), events[1..]);
    }
  }

  /** Every run that starts outside `connected` and ends in it passes
      through `connecting`. */
  lemma {:induction false} ConnectedRunsPassConnecting(s: State, events: seq<Event>)
    requires s != Connected && Run(s, events) == Connected
    ensures Connecting in Trace(s, events)
    decreases |events|
  {
    if s != Connecting {
      assert events != [];
      var next := Transition(s, events[0]);
      if next == Connected {
        ConnectedOnlyFromConnecting(s, events[0]);
      } else {
        ConnectedRunsPassConnecting(next, events[1..]);
      }
    }
  }

  /** All four states are reached from the initial state. */
  lemma AllReachable(t: State)
    ensures exists events :: Run(Initial, events) == t
  {
    match t
    case Disconnected =>
      assert Run(Initial, []) == t;
    case Connecting =>
      assert Run(Initial, [ConnectRequest]) == t;
    case Connected =>
      assert Run(Initial, [ConnectRequest, UpNotice]) == t by {
        assert [ConnectRequest, UpNotice][1..] == [UpNotice];
        assert Transition(Initial, ConnectRequest) == Connecting;
        assert Run(Connecting, [UpNotice]) == Connected by {
          assert Transition(Connecting, UpNotice) == Connected;
        }
      }
    case Error =>
      assert Run(Initial, [ConnectRequest, ErrorEvent]) == t by {
        assert [ConnectRequest, ErrorEvent][1..] == [ErrorEvent];
        assert Transition(Initial, ConnectRequest) == Connecting;
        assert Run(Connecting, [ErrorEvent]) == Error by {
          assert UpNotice != ErrorEvent by {
            assert UpNotice[0] != ErrorEvent[0];
          }
          assert Transition(Connecting, ErrorEvent) == Error;
        }
      }
  }

  /** The interpreted machine behind `useMachine`: the service's current
      state and the value of the store that republishes it. */
  class Service {
    var state: State
    var published: State

    predicate Valid()
      reads this
    {
      published == state
    }

    /** The service starts in the initial state, which the store holds. */
    constructor()
      ensures state == Initial
      ensures Valid()
    {
      state := Initial;
      published := Initial;
    }

    /** `send(e)`: the service moves by `Transition`, and the store is set
        only when the new state is flagged as changed. */
    method Send(e: Event) returns (changed: bool)
      requires Valid()
      modifies this
      ensures state == Transition(old(state), e)
      ensures changed <==> state != old(state)
      ensures published == (if changed then state else old(published))
      ensures Valid()
    {
      var next := Transition(state, e);
      changed := Changed(state, e);
      ChangedIff(state, e);
      state := next;
      if changed {
        published := state;
      }
    }
  }
}
