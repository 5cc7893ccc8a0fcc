// The client-side socket service (frontend/src/services/socket.js): a
// registry of listener callbacks per event name, updated in place, and the
// connection fields set by connect, disconnect and the socket's events.
// Callbacks are opaque identifiers; the socket itself is abstract.
module SocketClient {
  import opened Seqs

  /** The socket.io client object as far as the service observes it. */
  datatype Socket = Socket(id: nat, connected: bool, connecting: bool)

  /** Map<event, Set<callback>>: a JavaScript Set keeps insertion order and
      holds each callback once, so each event maps to a duplicate-free list. */
  type Listeners = map<string, seq<nat>>

  predicate WellFormed(ls: Listeners) {
    forall e :: e in ls ==> NoDups(ls[e])
  }

  /** The callbacks registered for event, in insertion order. */
  function Registered(ls: Listeners, event: string): seq<nat> {
    if event in ls then ls[event] else []
  }

  /** The argument a listener is called with: the connection state the
      'connect' and 'disconnect' handlers pass, or data the socket delivered
      (an error object, a message), which is opaque here. */
  datatype Payload = Status(connected: bool) | Data(id: nat)

  /** One listener call: the callback and the argument it received. */
  datatype Call = Call(cb: nat, arg: Payload)

  /** Each callback of a list called once with the same argument, in order. */
  function Deliveries(cbs: seq<nat>, arg: Payload): (r: seq<Call>)
    ensures |r| == |cbs|
    ensures forall i :: 0 <= i < |r| ==> r[i] == Call(cbs[i], arg)
  {
    seq(|cbs|, i requires 0 <= i < |cbs| => Call(cbs[i], arg))
  }

  /** The callbacks of a list that throw when called. */
  function Failed(calls: seq<nat>, throwing: set<nat>): seq<nat> {
    Filter(calls, (c: nat) => c in throwing)
  }

  /** addListener: the event's set is created on first use, and the callback
      is added to it unless it is already there. */
  function WithListener(ls: Listeners, event: string, cb: nat): (r: Listeners)
    ensures event in r && cb in r[event]
    ensures forall e :: e != event ==> (e in r <==> e in ls)
    ensures forall e :: e != event && e in ls ==> r[e] == ls[e]
    ensures event !in ls ==> r[event] == [cb]
    ensures event in ls && cb in ls[event] ==> r == ls
    ensures event in ls && cb !in ls[event] ==> r[event] == ls[event] + [cb]
    ensures WellFormed(ls) ==> WellFormed(r)
  {
    var set_ := Registered(ls, event);
    ls[event := if cb in set_ then set_ else set_ + [cb]]
  }

  /** removeListener: drops cb from the event's set, if the event has one; the
      (possibly empty) set stays in the map. */
  function WithoutListener(ls: Listeners, event: string, cb: nat): (r: Listeners)
    ensures event !in ls ==> r == ls
    ensures forall e :: e in r <==> e in ls
    ensures forall e :: e != event && e in ls ==> r[e] == ls[e]
    ensures event in ls ==> cb !in r[event]
    ensures event in ls ==> forall i :: 0 <= i < |ls[event]| && ls[event][i] != cb ==> ls[event][i] in r[event]
    ensures event in ls ==> forall i :: 0 <= i < |r[event]| ==> r[event][i] in ls[event]
    ensures event in ls ==> Subseq(r[event], ls[event])
    ensures event in ls ==> forall c :: multiset(r[event])[c] == if c == cb then 0 else multiset(ls[event])[c]
    ensures WellFormed(ls) ==> WellFormed(r)
  {
    if event in ls then
      FilterNoDups(ls[event], (c: nat) => c != cb);
      FilterSubseq(ls[event], (c: nat) => c != cb);
      FilterMultiset(ls[event], (c: nat) => c != cb);
      ls[event := Filter(ls[event], (c: nat) => c != cb)]
    else ls
  }

  /** removeAllListeners: with an event (a truthy name) only that event's set
      goes; without one every event is cleared. */
  function WithoutEvent(ls: Listeners, event: string): (r: Listeners)
    ensures event == "" ==> r == map[]
    ensures event != "" ==> event !in r
    ensures event != "" ==> forall e :: e != event ==> (e in r <==> e in ls)
    ensures forall e :: e in r ==> e in ls && r[e] == ls[e]
  {
    if event != "" then ls - {event} else map[]
  }

  /** Removing a callback that was just added to an event's set restores the
      registry exactly. */
  lemma {:induction false} RemoveUndoesAdd(ls: Listeners, event: string, cb: nat)
    requires event in ls && cb !in ls[event]
    ensures WithoutListener(WithListener(ls, event, cb), event, cb) == ls
  {
    var before := ls[event];
    FilterSnoc(before, cb, (c: nat) => c != cb);
    FilterAll(before, (c: nat) => c != cb);
    assert WithoutListener(WithListener(ls, event, cb), event, cb)[event] == before;
  }

  class SocketService {
    var socket: Option<Socket>
    var isConnected: bool
    var listeners: Listeners
    /** How many sockets io() has created; a socket's id is its creation number. */
    var created: nat

    ghost predicate Valid()
      reads this
    {
      WellFormed(listeners)
    }

    constructor()
      ensures socket == None && !isConnected && listeners == map[] && created == 0
      ensures Valid()
    {
      socket := None;
      isConnected := false;
      listeners := map[];
      created := 0;
    }

    /** connect: an already connected socket is returned as it is; an existing
        disconnected one is asked to connect again; only without a socket is a
        new one created (it starts connecting at once). */
    method Connect() returns (s: Socket)
      modifies this
      ensures socket == Some(s)
      ensures old(socket).Some? && old(socket).value.connected ==> s == old(socket).value
      ensures old(socket).Some? && !old(socket).value.connected ==> s == old(socket).value.(connecting := true)
      ensures old(socket).Some? ==> created == old(created)
      ensures old(socket).None? ==> s == Socket(old(created), false, true) && created == old(created) + 1
      ensures isConnected == old(isConnected) && listeners == old(listeners)
    {
      if socket.Some? && socket.value.connected {
        return socket.value;
      }
      if socket.Some? && !socket.value.connected {
        socket := Some(socket.value.(connecting := true));
        return socket.value;
      }
      s := Socket(created, false, true);
      created := created + 1;
      socket := Some(s);
    }

    /** disconnect: drops the socket and clears the flag; without a socket it
        does nothing. */
    method Disconnect()
      modifies this
      ensures socket == None
      ensures old(socket).Some? ==> !isConnected
      ensures old(socket).None? ==> isConnected == old(isConnected)
      ensures listeners == old(listeners) && created == old(created)
    {
      if socket.Some? {
        socket := None;
        isConnected := false;
      }
    }

    method AddListener(event: string, cb: nat)
      requires Valid()
      modifies this
      ensures Valid()
      ensures listeners == WithListener(old(listeners), event, cb)
      ensures socket == old(socket) && isConnected == old(isConnected) && created == old(created)
    {
      listeners := WithListener(listeners, event, cb);
    }

    method RemoveListener(event: string, cb: nat)
      requires Valid()
      modifies this
      ensures Valid()
      ensures listeners == WithoutListener(old(listeners), event, cb)
      ensures socket == old(socket) && isConnected == old(isConnected) && created == old(created)
    {
      if event in listeners {
        listeners := WithoutListener(listeners, event, cb);
      }
    }

    /** The empty name stands for a missing (falsy) event argument. */
    method RemoveAllListeners(event: string)
      requires Valid()
      modifies this
      ensures Valid()
      ensures listeners == WithoutEvent(old(listeners), event)
      ensures socket == old(socket) && isConnected == old(isConnected) && created == old(created)
    {
      if event != "" {
        listeners := listeners - {event};
      } else {
        listeners := map[];
      }
    }

    /** emitToListeners: calls every callback registered for the event once,
        in insertion order, each with the same argument; a callback in
        throwing raises, which is caught and reported, and the remaining
        callbacks still run. */
    method EmitToListeners(event: string, data: Payload, throwing: set<nat>) returns (calls: seq<Call>, failures: seq<nat>)
      ensures calls == Deliveries(Registered(listeners, event), data)
      ensures forall i :: 0 <= i < |calls| ==> calls[i].arg == data
      ensures event !in listeners ==> calls == []
      ensures Valid() ==> NoDups(Registered(listeners, event))
      ensures failures == Failed(Registered(listeners, event), throwing)
      ensures forall i :: 0 <= i < |calls| && calls[i].cb in throwing ==> calls[i].cb in failures
    {
      calls := [];
      failures := [];
      if event in listeners {
        var registered := listeners[event];
        var i := 0;
        while i < |registered|
          invariant 0 <= i <= |registered|
          invariant calls == Deliveries(registered[..i], data)
          invariant failures == Failed(registered[..i], throwing)
        {
          var cb := registered[i];
          assert registered[..i + 1] == registered[..i] + [cb];
          FilterSnoc(registered[..i], cb, (c: nat) => c in throwing);
          calls := calls + [Call(cb, data)];
          if cb in throwing {
            failures := failures + [cb];
          }
          i := i + 1;
        }
        assert registered[..i] == registered;
      }
      FilterIn(Registered(listeners, event), (c: nat) => c in throwing);
    }

    /** The 'connect' event: the socket is connected, the flag is set and the
        'connected' listeners are called with true. The handler logs
        this.socket.id first, so with no socket it throws before changing
        anything. */
    method HandleConnect(throwing: set<nat>) returns (calls: seq<Call>)
      modifies this
      ensures old(socket).None? ==> socket == None && isConnected == old(isConnected) && calls == []
      ensures old(socket).Some? ==> isConnected && socket == Some(old(socket).value.(connected := true, connecting := false))
      ensures old(socket).Some? ==> calls == Deliveries(Registered(listeners, "connected"), Status(true))
      ensures listeners == old(listeners) && created == old(created)
    {
      calls := [];
      if socket.Some? {
        socket := Some(socket.value.(connected := true, connecting := false));
        isConnected := true;
        var failures;
        calls, failures := EmitToListeners("connected", Status(true), throwing);
      }
    }

    /** The 'disconnect' event: the flag is cleared and the 'connected'
        listeners are called with false. */
    method HandleDisconnect(throwing: set<nat>) returns (calls: seq<Call>)
      modifies this
      ensures !isConnected
      ensures socket == if old(socket).Some? then Some(old(socket).value.(connected := false)) else None
      ensures calls == Deliveries(Registered(listeners, "connected"), Status(false))
      ensures listeners == old(listeners) && created == old(created)
    {
      if socket.Some? {
        socket := Some(socket.value.(connected := false));
      }
      isConnected := false;
      var failures;
      calls, failures := EmitToListeners("connected", Status(false), throwing);
    }

    /** The 'connect_error' event: the flag is cleared and the 'error'
        listeners are called with the error the socket reported. */
    method HandleConnectError(error: nat, throwing: set<nat>) returns (calls: seq<Call>)
      modifies this
      ensures !isConnected
      ensures socket == old(socket)
      ensures calls == Deliveries(Registered(listeners, "error"), Data(error))
      ensures listeners == old(listeners) && created == old(created)
    {
      isConnected := false;
      var failures;
      calls, failures := EmitToListeners("error", Data(error), throwing);
    }
  }
}
