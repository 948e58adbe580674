/** The socket provider: a notification list with timed expiry, and the
    `on`/`off`/`emit` wrappers around the socket, which also keep a registry
    of every callback ever registered per event name. The socket itself is
    observed only through the calls forwarded to it. */
module SocketContext {
  import opened Common
  import Keyed

  /** A notification; `id` is the `Date.now()` value taken when it was added. */
  datatype Notification = Notification(id: int, message: string, kind: string)

  function NotificationId(n: Notification): int { n.id }

  /** `addNotification(message, type = 'info')`: one entry appended at the
      end; an omitted type is `'info'`. */
  function AddNotification(ns: seq<Notification>, now: int, message: string, kind: Option<string>): (r: seq<Notification>)
    ensures |r| == |ns| + 1 && r[..|ns|] == ns
    ensures r[|ns|].id == now && r[|ns|].message == message
    ensures r[|ns|].kind == (if kind.Some? then kind.value else "info")
  {
    var k := match kind case Some(t) => t case None => "info";
    Keyed.Append(ns, Notification(now, message, k))
  }

  /** `removeNotification(id)`, and the timed expiry of the entry added with
      that id, which runs the very same filter. */
  function RemoveNotification(ns: seq<Notification>, id: int): (r: seq<Notification>)
    ensures forall i :: 0 <= i < |r| ==> r[i].id != id
    ensures forall n :: multiset(r)[n] == if n.id == id then 0 else multiset(ns)[n]
    ensures Keyed.IsSubsequence(r, ns)
  {
    Keyed.RemoveByKey(ns, NotificationId, id)
  }

  /** The expiry undoes the addition when the id was fresh. When two
      notifications share a `Date.now()` value, the expiry of either removes
      both. */
  lemma ExpiryUndoesAdd(ns: seq<Notification>, now: int, message: string, kind: Option<string>)
    ensures Keyed.HasKey(ns, NotificationId, now) ==>
              |RemoveNotification(AddNotification(ns, now, message, kind), now)| < |ns|
    ensures !Keyed.HasKey(ns, NotificationId, now) ==>
              RemoveNotification(AddNotification(ns, now, message, kind), now) == ns
  {
    var added := AddNotification(ns, now, message, kind);
    var r := RemoveNotification(added, now);
    if Keyed.HasKey(ns, NotificationId, now) {
      var i :| 0 <= i < |ns| && ns[i].id == now;
      Keyed.RemoveCount(added, NotificationId, now);
      CountAtLeastTwo(added, now, i, |ns|);
    } else {
      Keyed.RemoveAbsentKey(ns, NotificationId, now);
      RemoveLast(ns, added[|ns|], now);
    }
  }

  lemma {:induction false} CountAtLeastTwo(xs: seq<Notification>, id: int, i: nat, j: nat)
    requires i < j < |xs| && xs[i].id == id && xs[j].id == id
    ensures Keyed.CountKey(xs, NotificationId, id) >= 2
    decreases |xs|
  {
    if i == 0 {
      CountAtLeastOne(xs[1..], id, j - 1);
    } else {
      CountAtLeastTwo(xs[1..], id, i - 1, j - 1);
    }
  }

  lemma {:induction false} CountAtLeastOne(xs: seq<Notification>, id: int, j: nat)
    requires j < |xs| && xs[j].id == id
    ensures Keyed.CountKey(xs, NotificationId, id) >= 1
    decreases |xs|
  {
    if j > 0 {
      CountAtLeastOne(xs[1..], id, j - 1);
    }
  }

  lemma {:induction false} RemoveLast(ns: seq<Notification>, last: Notification, id: int)
    requires last.id == id
    ensures RemoveNotification(ns + [last], id) == RemoveNotification(ns, id)
    decreases |ns|
  {
    if ns == [] {
      assert [last][1..] == [];
    } else {
      assert (ns + [last])[1..] == ns[1..] + [last];
      RemoveLast(ns[1..], last, id);
    }
  }

  /** The identity of a callback function. */
  type Callback = nat

  /** A call the provider forwards to the socket. */
  datatype SocketCall =
    | Listen(event: string, callback: Callback)
    | Unlisten(event: string, callback: Callback)
    | Send(event: string, data: Record)

  /** The provider's state: whether a socket exists, the connection flag, the
      notifications, the listener registry and the calls forwarded so far. */
  datatype Provider = Provider(
    hasSocket: bool,
    connected: bool,
    notifications: seq<Notification>,
    registry: map<string, seq<Callback>>,
    forwarded: seq<SocketCall>)

  /** `emit(event, data)`: forwarded when a socket exists. */
  function Emit(p: Provider, event: string, data: Record): (r: Provider)
    ensures !p.hasSocket ==> r == p
    ensures p.hasSocket ==> r == p.(forwarded := p.forwarded + [Send(event, data)])
  {
    if p.hasSocket then p.(forwarded := p.forwarded + [Send(event, data)]) else p
  }

  /** The callbacks registered for `event`, an empty list when none is. */
  function Registered(p: Provider, event: string): seq<Callback>
  {
    if event in p.registry then p.registry[event] else []
  }

  /** `on(event, callback)`: when a socket exists, forwarded, and the callback
      appended to the event's registry list, created empty first if absent. */
  function On(p: Provider, event: string, callback: Callback): (r: Provider)
    ensures !p.hasSocket ==> r == p
    ensures p.hasSocket ==> && r.forwarded == p.forwarded + [Listen(event, callback)]
                             && r.registry.Keys == p.registry.Keys + {event}
                             && Registered(r, event) == Registered(p, event) + [callback]
                             && (forall e :: e != event ==> Registered(r, e) == Registered(p, e))
                             && r.notifications == p.notifications && r.connected == p.connected
                             && r.hasSocket == p.hasSocket
  {
    if p.hasSocket then
      var existing := if event in p.registry then p.registry[event] else [];
      p.(forwarded := p.forwarded + [Listen(event, callback)],
         registry := p.registry[event := existing + [callback]])
    else p
  }

  /** `off(event, callback)`: forwarded when a socket exists; the registry is
      left as it is. */
  function Off(p: Provider, event: string, callback: Callback): (r: Provider)
    ensures !p.hasSocket ==> r == p
    ensures p.hasSocket ==> r == p.(forwarded := p.forwarded + [Unlisten(event, callback)])
    ensures r.registry == p.registry
  {
    if p.hasSocket then p.(forwarded := p.forwarded + [Unlisten(event, callback)]) else p
  }

  /** The callbacks of the `Listen` calls for `event` in `calls`, in order. */
  function ListenedFor(calls: seq<SocketCall>, event: string): seq<Callback>
  {
    if calls == [] then []
    else
      var last := calls[|calls| - 1];
      ListenedFor(calls[..|calls| - 1], event) + (if last.Listen? && last.event == event then [last.callback] else [])
  }

  /** The registry is the history of `on` calls: for every event it lists the
      callbacks of the forwarded `Listen` calls, `off` notwithstanding. */
  ghost predicate RegistryMirrorsCalls(p: Provider)
  {
    forall e :: Registered(p, e) == ListenedFor(p.forwarded, e)
  }

  lemma EmptyProviderMirrors(hasSocket: bool)
    ensures RegistryMirrorsCalls(Provider(hasSocket, false, [], map[], []))
  {
  }

  /** `on`, `off` and `emit` preserve the mirror, so the registry never loses
      a callback: unsubscribing does not unregister. */
  lemma OperationsKeepMirror(p: Provider, event: string, callback: Callback, data: Record)
    requires RegistryMirrorsCalls(p)
    ensures RegistryMirrorsCalls(On(p, event, callback))
    ensures RegistryMirrorsCalls(Off(p, event, callback))
    ensures RegistryMirrorsCalls(Emit(p, event, data))
  {
    if p.hasSocket {
      var on, off, emit := On(p, event, callback), Off(p, event, callback), Emit(p, event, data);
      forall e ensures Registered(on, e) == ListenedFor(on.forwarded, e) {
        ListenedForSnoc(p.forwarded, Listen(event, callback), e);
      }
      forall e ensures Registered(off, e) == ListenedFor(off.forwarded, e) {
        ListenedForSnoc(p.forwarded, Unlisten(event, callback), e);
      }
      forall e ensures Registered(emit, e) == ListenedFor(emit.forwarded, e) {
        ListenedForSnoc(p.forwarded, Send(event, data), e);
      }
    }
  }

  lemma ListenedForSnoc(calls: seq<SocketCall>, c: SocketCall, e: string)
    ensures ListenedFor(calls + [c], e)
            == ListenedFor(calls, e) + (if c.Listen? && c.event == e then [c.callback] else [])
  {
    assert (calls + [c])[..|calls|] == calls;
  }

  /** Unsubscribing leaves the callback registered. */
  lemma OffKeepsRegistration(p: Provider, event: string, callback: Callback)
    requires p.hasSocket
    ensures callback in Registered(Off(On(p, event, callback), event, callback), event)
  {
    var r := Registered(On(p, event, callback), event);
    assert r[|r| - 1] == callback;
  }

  /** The socket's `connect` handler: connected, and a success notification. */
  function Connect(p: Provider, now: int): (r: Provider)
    ensures r.connected
    ensures r.notifications == AddNotification(p.notifications, now, "Connected to real-time updates", Some("success"))
    ensures r.registry == p.registry && r.forwarded == p.forwarded
    ensures r.hasSocket == p.hasSocket
  {
    p.(connected := true,
       notifications := AddNotification(p.notifications, now, "Connected to real-time updates", Some("success")))
  }

  /** The socket's `disconnect` handler. */
  function Disconnect(p: Provider): (r: Provider)
    ensures !r.connected && r.(connected := p.connected) == p
  {
    p.(connected := false)
  }

  /** `useSocket`: the nearest provider, or a throw outside any provider. */
  function UseSocket(context: Option<Provider>): (r: Result<Provider>)
    ensures context.None? <==> r.Failure?
    ensures r.Failure? ==> r.error == "useSocket must be used within a SocketProvider"
    ensures context.Some? ==> r == Success(context.value)
  {
    match context
    case None => Failure("useSocket must be used within a SocketProvider")
    case Some(p) => Success(p)
  }
}
