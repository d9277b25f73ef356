/** What one fire() of the root provider delivers: each listener is served once and in
    order, each bound component receives the current translation of its key exactly once
    when it is reachable, and a disconnected bridge passes nothing on. */
module Propagation {
  import opened Registry
  import opened Local

  /** The texts pushed into component c's sink, in the order they were pushed. */
  function Received(es: seq<Event>, c: LocalizedComponent): seq<string>
  {
    if es == [] then []
    else
      var e := es[|es| - 1];
      Received(es[..|es| - 1], c) + (if e.Changed? && e.component == c then [e.text] else [])
  }

  lemma {:induction false} ReceivedConcat(a: seq<Event>, b: seq<Event>, c: LocalizedComponent)
    ensures Received(a + b, c) == Received(a, c) + Received(b, c)
    decreases |b|
  {
    if b == [] {
      assert a + b == a;
    } else {
      var b' := b[..|b| - 1];
      assert (a + b)[..|a + b| - 1] == a + b';
      ReceivedConcat(a, b', c);
    }
  }

  /** A bridge's fire() serves each of its listeners exactly once, in list order. */
  lemma {:induction false} BridgeEventsInOrder(ls: seq<Listener>, root: LocalizationProvider)
    requires forall l <- ls :: !l.Forward? && (l.Rebind? ==> l.component.provider.Origin() == root)
    ensures |BridgeEvents(ls, root)| == |ls|
    ensures forall i :: 0 <= i < |ls| ==> BridgeEvents(ls, root)[i] == Response(ls[i])
  {
    if ls != [] {
      var front := ls[..|ls| - 1];
      BridgeEventsInOrder(front, root);
      assert forall i :: 0 <= i < |front| ==> front[i] == ls[i];
    }
  }

  /** Among a bridge's listeners, component c is served once if registered, else never,
      and it receives the root's current translation of its key. */
  lemma {:induction false} BridgeDelivers(ls: seq<Listener>, root: LocalizationProvider, c: LocalizedComponent)
    requires forall l <- ls :: !l.Forward? && (l.Rebind? ==> l.component.provider.Origin() == root)
    requires NoDuplicates(ls)
    ensures Received(BridgeEvents(ls, root), c) ==
      if Rebind(c) in ls then [root.GetString(c.key)] else []
  {
    if ls != [] {
      var front, l := ls[..|ls| - 1], ls[|ls| - 1];
      assert ls == front + [l];
      assert NoDuplicates(front);
      BridgeDelivers(front, root, c);
      ReceivedConcat(BridgeEvents(front, root), [Response(l)], c);
      assert Rebind(c) in ls <==> Rebind(c) in front || l == Rebind(c);
      assert l == Rebind(c) ==> Rebind(c) !in front;
    }
  }

  /** Whether component c is reached from a root listener list: registered there directly,
      or registered on a bridge whose forwarding listener is there. */
  ghost predicate Reached(ls: seq<Listener>, c: LocalizedComponent)
    reads c.provider.Object()
  {
    Rebind(c) in ls ||
    (c.provider.Bridged? && Forward(c.provider.bridge) in ls && Rebind(c) in c.provider.bridge.listeners)
  }

  /** Whether listener l of the root leads to component c: it is c's own listener, or the
      forwarding listener of a bridge c is registered on. */
  ghost predicate Hits(l: Listener, c: LocalizedComponent)
    reads if l.Forward? then {l.bridge} else {}
  {
    l == Rebind(c) || (l.Forward? && Rebind(c) in l.bridge.listeners)
  }

  /** What one listener of the root contributes to a fire() for component c: one push of
      the current translation if it leads to c, and nothing otherwise. */
  lemma ListenerDelivers(l: Listener, root: LocalizationProvider, c: LocalizedComponent)
    requires RootListenersReady([l], root)
    ensures Received(if l.Forward? then BridgeEvents(l.bridge.listeners, root) else [Response(l)], c) ==
      if Hits(l, c) then [root.GetString(c.key)] else []
  {
    assert l in [l];
    if l.Forward? {
      BridgeDelivers(l.bridge.listeners, root, c);
    } else {
      assert [Response(l)][..0] == [];
    }
  }

  /** Appending a listener to a list without duplicates: c is reached through the longer
      list exactly when it is reached through the shorter one or the new listener leads to
      it, and never both ways. */
  lemma ReachedSplit(front: seq<Listener>, l: Listener, root: LocalizationProvider, c: LocalizedComponent)
    requires RootListenersReady(front + [l], root) && NoDuplicates(front + [l])
    ensures Reached(front + [l], c) <==> Reached(front, c) || Hits(l, c)
    ensures !(Reached(front, c) && Hits(l, c))
  {
    var ls := front + [l];
    assert l == ls[|ls| - 1] && front == ls[..|ls| - 1];
    LastNoDuplicates(ls);
    assert l in ls;
    if l.Forward? && Rebind(c) in l.bridge.listeners {
      assert c.provider == Bridged(l.bridge);
    }
    if l == Rebind(c) {
      assert c.provider.Root?;
    }
  }

  /** Readiness of a root listener list holds for its prefix and its last listener. */
  lemma ReadySplit(front: seq<Listener>, l: Listener, root: LocalizationProvider)
    requires RootListenersReady(front + [l], root)
    ensures RootListenersReady(front, root) && RootListenersReady([l], root)
  {
    assert forall x <- front :: x in front + [l];
    assert l in front + [l];
  }

  lemma {:induction false} RootDelivers(ls: seq<Listener>, root: LocalizationProvider, c: LocalizedComponent)
    requires RootListenersReady(ls, root)
    requires NoDuplicates(ls)
    ensures Received(RootEvents(ls, root), c) ==
      if Reached(ls, c) then [root.GetString(c.key)] else []
  {
    if ls != [] {
      var front, l := ls[..|ls| - 1], ls[|ls| - 1];
      assert ls == front + [l];
      LastNoDuplicates(ls);
      ReadySplit(front, l, root);
      RootDelivers(front, root, c);
      ListenerDelivers(l, root, c);
      ReachedSplit(front, l, root, c);
      var tail := if l.Forward? then BridgeEvents(l.bridge.listeners, root) else [Response(l)];
      assert RootEvents(ls, root) == RootEvents(front, root) + tail;
      ReceivedConcat(RootEvents(front, root), tail, c);
    }
  }

  /** One fire() of a ready root pushes into each component exactly the current
      translation of its key, once, if the component is reached, and nothing otherwise. */
  lemma FireDelivers(root: LocalizationProvider, c: LocalizedComponent)
    requires root.Ready()
    ensures Received(root.FireTrace(), c) ==
      if Reached(root.listeners, c) then [root.GetString(c.key)] else []
  {
    RootDelivers(root.listeners, root, c);
  }

  /** A component bound to a bridge over the root is refreshed by the root's fire()
      exactly once while the bridge is connected, and not at all while it is disconnected. */
  lemma BridgeGating(root: LocalizationProvider, b: LocalizationProviderBridge, c: LocalizedComponent)
    requires root.Ready() && b.parent == root && b.Valid()
    requires Rebind(c) in b.listeners
    ensures Received(root.FireTrace(), c) ==
      if b.connected then [root.GetString(c.key)] else []
  {
    FireDelivers(root, c);
    assert c.provider == Bridged(b);
    assert Rebind(c) !in root.listeners;
  }

  /** A component bound to the root itself is refreshed by every fire() exactly once. */
  lemma DirectBinding(root: LocalizationProvider, c: LocalizedComponent)
    requires root.Ready()
    requires Rebind(c) in root.listeners
    ensures Received(root.FireTrace(), c) == [root.GetString(c.key)]
  {
    FireDelivers(root, c);
  }

  /** A valid bridge is registered on its parent exactly once while connected and not at
      all while disconnected, so connecting twice leaves one registration and
      disconnecting twice leaves none. */
  lemma SingleRegistration(b: LocalizationProviderBridge)
    requires b.Valid()
    ensures multiset(b.parent.listeners)[Forward(b)] == if b.connected then 1 else 0
  {
    AtMostOnce(b.parent.listeners, Forward(b));
  }

  /** How many times callback id ran in es. */
  function Calls(es: seq<Event>, id: nat): nat
  {
    if es == [] then 0
    else Calls(es[..|es| - 1], id) + (if es[|es| - 1] == Called(id) then 1 else 0)
  }

  lemma {:induction false} CallsConcat(a: seq<Event>, b: seq<Event>, id: nat)
    ensures Calls(a + b, id) == Calls(a, id) + Calls(b, id)
    decreases |b|
  {
    if b == [] {
      assert a + b == a;
    } else {
      var b' := b[..|b| - 1];
      assert (a + b)[..|a + b| - 1] == a + b';
      CallsConcat(a, b', id);
    }
  }

  /** A bridge's fire() runs each callback registered on it exactly once and no other. */
  lemma {:induction false} BridgeCalls(ls: seq<Listener>, root: LocalizationProvider, id: nat)
    requires forall l <- ls :: !l.Forward? && (l.Rebind? ==> l.component.provider.Origin() == root)
    requires NoDuplicates(ls)
    ensures Calls(BridgeEvents(ls, root), id) == if Custom(id) in ls then 1 else 0
  {
    if ls != [] {
      var front, l := ls[..|ls| - 1], ls[|ls| - 1];
      assert ls == front + [l];
      LastNoDuplicates(ls);
      BridgeCalls(front, root, id);
      CallsConcat(BridgeEvents(front, root), [Response(l)], id);
      assert [Response(l)][..0] == [];
      assert Response(l) == Called(id) <==> l == Custom(id);
    }
  }

  /** Whether listener l of the root leads to callback id: it is that callback, or the
      forwarding listener of a bridge the callback is registered on. */
  ghost predicate Serves(l: Listener, id: nat)
    reads if l.Forward? then {l.bridge} else {}
  {
    l == Custom(id) || (l.Forward? && Custom(id) in l.bridge.listeners)
  }

  /** What one listener of the root contributes to the runs of callback id. */
  lemma ListenerCalls(l: Listener, root: LocalizationProvider, id: nat)
    requires RootListenersReady([l], root)
    ensures Calls(if l.Forward? then BridgeEvents(l.bridge.listeners, root) else [Response(l)], id) ==
      if Serves(l, id) then 1 else 0
  {
    assert l in [l];
    if l.Forward? {
      BridgeCalls(l.bridge.listeners, root, id);
    } else {
      assert [Response(l)][..0] == [];
    }
  }

  /** When at most one root listener, `via`, leads to callback id, one fire() over a prefix
      of the root's list runs the callback once if `via` is in it and leads there, else never. */
  lemma {:induction false} RootCalls(ls: seq<Listener>, root: LocalizationProvider, id: nat, via: Listener)
    requires RootListenersReady(ls, root) && NoDuplicates(ls)
    requires forall l <- ls :: Serves(l, id) ==> l == via
    ensures Calls(RootEvents(ls, root), id) == if via in ls && Serves(via, id) then 1 else 0
  {
    if ls != [] {
      var front, l := ls[..|ls| - 1], ls[|ls| - 1];
      assert ls == front + [l];
      LastNoDuplicates(ls);
      ReadySplit(front, l, root);
      assert forall x <- front :: x in ls;
      RootCalls(front, root, id, via);
      ListenerCalls(l, root, id);
      var tail := if l.Forward? then BridgeEvents(l.bridge.listeners, root) else [Response(l)];
      assert RootEvents(ls, root) == RootEvents(front, root) + tail;
      CallsConcat(RootEvents(front, root), tail, id);
      assert via in ls <==> via in front || l == via;
    }
  }

  /** A callback registered on a bridge over the root, and reached through no other
      listener, runs exactly once per root fire() while the bridge is connected and not at
      all while it is disconnected. */
  lemma GatedCallback(root: LocalizationProvider, b: LocalizationProviderBridge, id: nat)
    requires root.Ready() && b.parent == root && b.Valid()
    requires Custom(id) in b.listeners
    requires forall l <- root.listeners :: Serves(l, id) ==> l == Forward(b)
    ensures Calls(root.FireTrace(), id) == if b.connected then 1 else 0
  {
    RootCalls(root.listeners, root, id, Forward(b));
    assert Serves(Forward(b), id);
  }
}
