/**
 * The listener registry of the front end's `RagApiClient`: a map from event
 * name to the ordered list of callbacks registered for it, updated by `on`
 * and `off`, and read by `emit`, which calls the callbacks in order. The
 * socket is reduced to whether it is connected and what it was asked to send.
 */
module QueryClient {

  /** A registered callback, known only by identity. */
  type Callback = nat

  /** The data an event carries. */
  datatype Payload =
    | Message(message: string)
    | Connected(connected: bool)
    | Data(raw: string)

  /** One call of a callback with the event's data. */
  datatype Invocation = Invocation(callback: Callback, data: Payload)

  /** `Array.prototype.indexOf`: the first index of `x`, or -1. */
  function IndexOf(s: seq<Callback>, x: Callback): (r: int)
    ensures -1 <= r < |s|
    ensures r == -1 <==> x !in s
    ensures r >= 0 ==> s[r] == x && x !in s[..r]
  {
    if |s| == 0 then -1
    else if s[0] == x then 0
    else
      var k := IndexOf(s[1..], x);
      assert s[1..] == s[1..][..0] + s[1..];
      if k == -1 then -1
      else
        assert s[..k + 1] == [s[0]] + s[1..][..k];
        k + 1
  }

  /** `splice(indexOf(x), 1)` when `x` is present: the first occurrence of
      `x` is taken out and nothing else moves; otherwise nothing changes. */
  function RemoveFirst(s: seq<Callback>, x: Callback): (r: seq<Callback>)
    ensures x in s ==> |r| == |s| - 1 && multiset(r) == multiset(s) - multiset{x}
    ensures x !in s ==> r == s
  {
    var i := IndexOf(s, x);
    if i > -1 then
      assert s == s[..i] + [s[i]] + s[i + 1..];
      s[..i] + s[i + 1..]
    else s
  }

  /** The registry after `on(event, callback)`. */
  function AddListener(m: map<string, seq<Callback>>, event: string, cb: Callback): (r: map<string, seq<Callback>>)
    ensures r.Keys == m.Keys + {event}
    ensures |r[event]| == (if event in m then |m[event]| else 0) + 1
  {
    m[event := (if event in m then m[event] else []) + [cb]]
  }

  /** The registry after `off(event, callback)`. */
  function RemoveListener(m: map<string, seq<Callback>>, event: string, cb: Callback): (r: map<string, seq<Callback>>)
    ensures r.Keys == m.Keys
    ensures event in m && cb in m[event] ==> |r[event]| == |m[event]| - 1
  {
    if event in m then m[event := RemoveFirst(m[event], cb)] else m
  }

  /** The calls `emit(event, data)` makes. */
  function Dispatch(m: map<string, seq<Callback>>, event: string, data: Payload): (r: seq<Invocation>)
    ensures |r| == (if event in m then |m[event]| else 0)
  {
    if event in m then seq(|m[event]|, i requires 0 <= i < |m[event]| => Invocation(m[event][i], data))
    else []
  }

  const NotConnected: string := "Not connected to server"

  class RagApiClient {
    var listeners: map<string, seq<Callback>>
    /** `socket?.connected`. */
    var connected: bool
    /** The queries handed to the socket with `send_query`, oldest first. */
    var sent: seq<string>

    constructor ()
      ensures listeners == map[] && !connected && sent == []
    {
      listeners := map[];
      connected := false;
      sent := [];
    }

    /** `on`: create the event's list if absent, then push the callback. */
    method On(event: string, callback: Callback)
      modifies this
      ensures listeners == AddListener(old(listeners), event, callback)
      ensures connected == old(connected) && sent == old(sent)
    {
      if event !in listeners {
        listeners := listeners[event := []];
      }
      listeners := listeners[event := listeners[event] + [callback]];
    }

    /** `off`: splice out the first occurrence, if the event has a list and
        the callback is in it. */
    method Off(event: string, callback: Callback)
      modifies this
      ensures listeners == RemoveListener(old(listeners), event, callback)
      ensures connected == old(connected) && sent == old(sent)
    {
      if event in listeners {
        var eventListeners := listeners[event];
        var index := IndexOf(eventListeners, callback);
        if index > -1 {
          listeners := listeners[event := eventListeners[..index] + eventListeners[index + 1..]];
        }
      }
    }

    /** `emit`: call each of the event's callbacks with the data, in order.
        The returned trace is the sequence of calls made. */
    method Emit(event: string, data: Payload) returns (trace: seq<Invocation>)
      ensures trace == Dispatch(listeners, event, data)
    {
      trace := [];
      if event in listeners {
        var eventListeners := listeners[event];
        var i := 0;
        while i < |eventListeners|
          invariant 0 <= i <= |eventListeners|
          invariant trace == Dispatch(listeners, event, data)[..i]
        {
          trace := trace + [Invocation(eventListeners[i], data)];
          i := i + 1;
        }
      }
    }

    /** `sendQuerySocket`: hand the query to a connected socket; otherwise
        emit a local `error` event and send nothing. */
    method SendQuerySocket(query: string) returns (trace: seq<Invocation>)
      modifies this
      ensures listeners == old(listeners) && connected == old(connected)
      ensures connected ==> sent == old(sent) + [query] && trace == []
      ensures !connected ==> sent == old(sent) && trace == Dispatch(listeners, "error", Message(NotConnected))
    {
      if connected {
        sent := sent + [query];
        trace := [];
      } else {
        trace := Emit("error", Message(NotConnected));
      }
    }
  }

  // ---------------------------------------------------------------------
  // Properties of the registry
  // ---------------------------------------------------------------------

  /** `on` appends to the end of the event's list, creating it if absent, so
      registering a callback twice keeps both entries; no other event's list
      changes. */
  lemma AddListenerProperties(m: map<string, seq<Callback>>, event: string, cb: Callback)
    ensures var r := AddListener(m, event, cb);
      r.Keys == m.Keys + {event}
      && (event in m ==> r[event] == m[event] + [cb])
      && (event !in m ==> r[event] == [cb])
      && multiset(r[event]) == (if event in m then multiset(m[event]) else multiset{}) + multiset{cb}
      && (forall e :: e in m && e != event ==> r[e] == m[e])
  {
  }

  /** `off` removes the first occurrence of the callback from that event's
      list and nothing else; an unknown event or an unregistered callback
      leaves the registry as it was; the event keeps its (maybe empty) list. */
  lemma RemoveListenerProperties(m: map<string, seq<Callback>>, event: string, cb: Callback)
    ensures var r := RemoveListener(m, event, cb);
      r.Keys == m.Keys
      && (event !in m ==> r == m)
      && (event in m && cb !in m[event] ==> r == m)
      && (event in m && cb in m[event] ==>
            exists i :: 0 <= i < |m[event]| && m[event][i] == cb && cb !in m[event][..i]
              && r[event] == m[event][..i] + m[event][i + 1..])
      && (forall e :: e in m && e != event ==> r[e] == m[e])
  {
    if event in m && cb in m[event] {
      var i := IndexOf(m[event], cb);
      assert m[event][i] == cb && cb !in m[event][..i];
    }
  }

  lemma UpdateTwice<K, V>(m: map<K, V>, k: K, x: V, y: V)
    ensures m[k := x][k := y] == m[k := y]
  {
  }

  lemma UpdateSame<K, V>(m: map<K, V>, k: K)
    requires k in m
    ensures m[k := m[k]] == m
  {
  }

  /** Taking out the first occurrence of a callback just pushed onto a list
      that did not hold it gives back the list. */
  lemma RemoveFirstAppended(s: seq<Callback>, x: Callback)
    requires x !in s
    ensures RemoveFirst(s + [x], x) == s
  {
    var t := s + [x];
    assert t[|s|] == x;
    assert forall k :: 0 <= k < |s| ==> t[k] == s[k];
    var i := IndexOf(t, x);
    assert i == |s|;
    assert t[..i] == s && t[i + 1..] == [];
  }

  /** `off` undoes an `on` of a callback that was not yet registered for the
      event; the event's list stays, empty if it was created by the `on`. */
  lemma OffUndoesOn(m: map<string, seq<Callback>>, event: string, cb: Callback)
    requires event !in m || cb !in m[event]
    ensures RemoveListener(AddListener(m, event, cb), event, cb)
      == if event in m then m else m[event := []]
  {
    var s := if event in m then m[event] else [];
    RemoveFirstAppended(s, cb);
    RemoveAfterAdd(m, event, s + [cb], cb);
    UpdateTwice(m, event, s + [cb], s);
    if event in m {
      UpdateSame(m, event);
    }
  }

  lemma RemoveAfterAdd(m: map<string, seq<Callback>>, event: string, t: seq<Callback>, cb: Callback)
    ensures RemoveListener(m[event := t], event, cb) == m[event := t][event := RemoveFirst(t, cb)]
  {
  }

  /** `emit` calls exactly the event's callbacks, in registration order, each
      with the data, and makes no call when the event has none. */
  lemma DispatchProperties(m: map<string, seq<Callback>>, event: string, data: Payload)
    ensures var t := Dispatch(m, event, data);
      (event !in m ==> t == [])
      && (event in m ==>
            (|t| == |m[event]| && forall i :: 0 <= i < |t| ==> t[i].callback == m[event][i] && t[i].data == data))
  {
  }

  /** After `on`, `emit` makes the calls it made before and then calls the
      new callback. */
  lemma DispatchAfterOn(m: map<string, seq<Callback>>, event: string, cb: Callback, data: Payload)
    ensures Dispatch(AddListener(m, event, cb), event, data) == Dispatch(m, event, data) + [Invocation(cb, data)]
  {
    var r := AddListener(m, event, cb);
    var t := Dispatch(r, event, data);
    var u := Dispatch(m, event, data) + [Invocation(cb, data)];
    assert |t| == |u|;
    forall i | 0 <= i < |t| ensures t[i] == u[i] {
      if event in m && i < |m[event]| {
        assert r[event][i] == m[event][i];
      }
    }
  }

  /** `on` and `off` for one event leave `emit` for every other event as it
      was. */
  lemma DispatchOtherEvents(m: map<string, seq<Callback>>, event: string, other: string, cb: Callback, data: Payload)
    requires other != event
    ensures Dispatch(AddListener(m, event, cb), other, data) == Dispatch(m, other, data)
    ensures Dispatch(RemoveListener(m, event, cb), other, data) == Dispatch(m, other, data)
  {
  }
}
