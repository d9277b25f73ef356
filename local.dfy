/** The localization providers: the root LocalizationProvider, the bridges that wrap it,
    the components bound to either, and what a fire() delivers to them. */
module Local {
  import opened Registry
  import opened Bundles

  /** The language the root provider starts in. */
  const DefaultLanguage: string := "en"

  /** Which property of a Swing widget a localized component writes (the body of `change`). */
  datatype Sink = MenuText | ToolBarName | DialogTitle | ActionName

  /** An ILocalizationProvider: the root provider or a bridge over it. */
  datatype Provider = Root(root: LocalizationProvider) | Bridged(bridge: LocalizationProviderBridge)
  {
    /** The root provider every read of this provider ends at. */
    function Origin(): LocalizationProvider
    {
      if Root? then root else bridge.parent
    }

    /** The object holding this provider's listener list. */
    function Object(): object
    {
      if Root? then root as object else bridge as object
    }

    function Listeners(): seq<Listener>
      reads Object()
    {
      if Root? then root.listeners else bridge.listeners
    }

    /** Every provider answers exactly as the root provider it ends at. */
    function GetString(key: string): (r: string)
      reads Origin()
      ensures r == Origin().GetString(key)
    {
      match this
      case Root(p) => p.GetString(key)
      case Bridged(b) => b.GetString(key)
    }
  }

  /** An ILocalizationListener, compared by identity. */
  datatype Listener =
    | Forward(bridge: LocalizationProviderBridge)   // a bridge's `listener` field, this::fire
    | Rebind(component: LocalizedComponent)         // the lambda a LocalizedComponent registers
    | Custom(id: nat)                               // any other callback, e.g. a window's own refresher

  /** One observable effect of a notification: a sink receiving a text, or another callback running. */
  datatype Event = Changed(component: LocalizedComponent, text: string) | Called(id: nat)

  /** What a listener that is not a bridge does when notified: a component pushes the
      translation of its key, read from its provider at that moment, into its sink. */
  function Response(l: Listener): (e: Event)
    requires !l.Forward?
    reads if l.Rebind? then {l.component.provider.Origin()} else {}
    ensures l.Rebind? ==> e == Changed(l.component, l.component.provider.Origin().GetString(l.component.key))
    ensures l.Custom? ==> e == Called(l.id)
  {
    match l
    case Rebind(c) => Changed(c, c.provider.GetString(c.key))
    case Custom(id) => Called(id)
  }

  /** The events a bridge's listeners produce, in list order, when the bridge fires.
      A bridge never holds another bridge's forwarding listener (bridges wrap the root). */
  ghost function BridgeEvents(ls: seq<Listener>, root: LocalizationProvider): seq<Event>
    requires forall l <- ls :: !l.Forward? && (l.Rebind? ==> l.component.provider.Origin() == root)
    reads root
  {
    if ls == [] then []
    else BridgeEvents(ls[..|ls| - 1], root) + [Response(ls[|ls| - 1])]
  }

  /** The listener list of the root provider may hold forwarding listeners of valid bridges
      over it and components bound to it directly. */
  ghost predicate RootListenersReady(ls: seq<Listener>, root: LocalizationProvider)
    reads set l | l in ls && l.Forward? :: l.bridge
    reads root`listeners
  {
    forall l <- ls ::
      (l.Forward? ==> l.bridge.parent == root && l.bridge.Valid()) &&
      (l.Rebind? ==> l.component.provider == Root(root))
  }

  /** The events the root provider's listeners produce, in list order, when it fires;
      a bridge's forwarding listener contributes everything the bridge re-broadcasts. */
  ghost function RootEvents(ls: seq<Listener>, root: LocalizationProvider): seq<Event>
    requires RootListenersReady(ls, root)
    reads root, set l | l in ls && l.Forward? :: l.bridge
  {
    if ls == [] then []
    else
      var l := ls[|ls| - 1];
      RootEvents(ls[..|ls| - 1], root) +
      (if l.Forward? then BridgeEvents(l.bridge.listeners, root) else [Response(l)])
  }

  /** The singleton provider (LocalizationProvider): the current language, its bundle,
      and the listeners notified when the language changes. */
  class LocalizationProvider {
    var listeners: seq<Listener>
    var language: string
    var bundle: Option<Bundle>
    /** Bundle lookup for a language tag (ResourceBundle.getBundle with Locale.forLanguageTag). */
    const load: Loader
    /** The ISO-8859-1 to UTF-8 re-decoding applied to every stored text. */
    const decode: Decoder

    /** The listener list has no duplicates; bridges listening here wrap this provider,
        and components listening here are bound to this provider. */
    ghost predicate Valid()
      reads this`listeners
    {
      NoDuplicates(listeners) &&
      forall l <- listeners ::
        (l.Forward? ==> l.bridge.parent == this) &&
        (l.Rebind? ==> l.component.provider == Root(this))
    }

    /** The bridges currently connected to this provider. */
    ghost function Bridges(): set<LocalizationProviderBridge>
      reads this`listeners
    {
      set l | l in listeners && l.Forward? :: l.bridge
    }

    /** Valid, and so is every bridge connected to it: fire() can reach everything. */
    ghost predicate Ready()
      reads this`listeners, Bridges()
    {
      Valid() && RootListenersReady(listeners, this)
    }

    /** Everything one fire() delivers, in order, in the current state. */
    ghost function FireTrace(): seq<Event>
      requires Ready()
      reads this, Bridges()
    {
      RootEvents(listeners, this)
    }

    /** The private constructor: setLanguage(DEFAULT_LANGUAGE) on a provider with no
        language, no bundle and no listeners. Its guard cannot hold (equalsIgnoreCase(null)
        is false) and its fire reaches nobody. If the default bundle is missing the class
        initialiser throws and no provider exists, hence the precondition. */
    constructor (load: Loader, decode: Decoder)
      requires load(DefaultLanguage).Some?
      ensures this.load == load && this.decode == decode
      ensures language == DefaultLanguage && bundle == load(DefaultLanguage)
      ensures listeners == [] && Ready()
    {
      this.load := load;
      this.decode := decode;
      listeners := [];
      language := DefaultLanguage;
      bundle := load(DefaultLanguage);
    }

    /** getString: the decoded bundle text, the placeholder ?key? when there is no bundle,
        no such key or no text under it, and the sentinel when decoding fails. Never fails,
        and reads nothing but the bundle. */
    function GetString(key: string): (r: string)
      reads this`bundle
      ensures (bundle.None? || key !in bundle.value || bundle.value[key].NonText?) ==> r == Placeholder(key)
      ensures bundle.Some? && key in bundle.value && bundle.value[key].Text? ==>
        var decoded := decode(bundle.value[key].value);
        r == if decoded.Some? then decoded.value else UnknownEncoding
    {
      if bundle.None? || key !in bundle.value then Placeholder(key)
      else match bundle.value[key]
        case NonText => Placeholder(key)
        case Text(raw) =>
          match decode(raw)
          case Some(text) => text
          case None => UnknownEncoding
    }

    /** addLocalizationListener. Registering a callback, or a component bound to this
        provider, keeps the invariant; a forwarding listener is added only by its bridge's
        connect, which restores the bridge's own invariant. */
    method AddLocalizationListener(l: Listener)
      modifies this`listeners
      ensures listeners == Added(old(listeners), l)
      ensures old(Ready()) && (l.Custom? || (l.Rebind? && l.component.provider == Root(this))) ==> Ready()
    {
      ghost var ready := Ready() && (l.Custom? || (l.Rebind? && l.component.provider == Root(this)));
      listeners := Added(listeners, l);
      if ready {
        forall x <- listeners | x.Forward?
          ensures x.bridge.Valid()
        {
          assert x in old(listeners);
        }
      }
    }

    /** removeLocalizationListener. Removing any listener keeps the invariant. */
    method RemoveLocalizationListener(l: Listener)
      modifies this`listeners
      ensures listeners == Removed(old(listeners), l)
      ensures old(Ready()) ==> Ready()
    {
      ghost var ready := Ready();
      if ready {
        RemovedMembers(listeners, l);
        RemovedNoDuplicates(listeners, l);
      }
      listeners := Removed(listeners, l);
      if ready {
        forall x <- listeners | x.Forward?
          ensures x.bridge.Valid()
        {
          assert x in old(listeners);
        }
      }
    }

    /** fire(): notifies every listener once, in list order; a bridge's forwarding
        listener makes that bridge fire in turn. Nothing is modified. */
    method Fire() returns (events: seq<Event>)
      requires Ready()
      ensures events == FireTrace()
    {
      events := [];
      for i := 0 to |listeners|
        invariant events == RootEvents(listeners[..i], this)
      {
        var l := listeners[i];
        assert listeners[..i + 1] == listeners[..i] + [l];
        assert l in listeners;
        if l.Forward? {
          var more := l.bridge.Fire();
          events := events + more;
        } else {
          events := events + [Response(l)];
        }
      }
      assert listeners[..|listeners|] == listeners;
    }

    /** setLanguage: a tag equal to the current one ignoring case changes nothing and
        notifies nobody. Otherwise the tag is stored as given, then the bundle for it is
        loaded; if loading fails the language stays updated, the bundle keeps its old
        value and nobody is notified; if it succeeds, fire() runs on the new state. */
    method SetLanguage(tag: string) returns (outcome: LanguageChange, events: seq<Event>)
      requires Ready()
      modifies this`language, this`bundle
      ensures Ready()
      ensures EqualsIgnoreCase(tag, old(language)) ==>
        outcome == Ignored && language == old(language) && bundle == old(bundle) && events == []
      ensures !EqualsIgnoreCase(tag, old(language)) ==> language == tag
      ensures !EqualsIgnoreCase(tag, old(language)) && load(tag).None? ==>
        outcome == MissingResource && bundle == old(bundle) && events == []
      ensures !EqualsIgnoreCase(tag, old(language)) && load(tag).Some? ==>
        outcome == Switched && bundle == load(tag) && events == FireTrace()
    {
      if EqualsIgnoreCase(tag, language) {
        return Ignored, [];
      }
      language := tag;
      var loaded := load(tag);
      if loaded.None? {
        return MissingResource, [];
      }
      bundle := loaded;
      events := Fire();
      outcome := Switched;
    }
  }

  /** How a setLanguage call ended. */
  datatype LanguageChange =
    | Ignored          // same language ignoring case: nothing happened
    | Switched         // language and bundle replaced, listeners notified
    | MissingResource  // language replaced, no bundle for it: the exception reaches the caller

  /** The static part of LocalizationProvider: the one instance made by the class
      initialiser, handed out by getInstance. */
  class Singleton {
    const instance: LocalizationProvider

    constructor (load: Loader, decode: Decoder)
      requires load(DefaultLanguage).Some?
      ensures fresh(instance) && instance.load == load && instance.decode == decode
      ensures instance.language == DefaultLanguage && instance.bundle == load(DefaultLanguage)
      ensures instance.listeners == [] && instance.Ready()
    {
      instance := new LocalizationProvider(load, decode);
    }

    /** getInstance: reads no mutable state, so every call returns the same provider. */
    function GetInstance(): (r: LocalizationProvider)
      ensures r == instance
    {
      instance
    }
  }

  /** LocalizationProviderBridge: answers reads from its parent, and re-broadcasts the
      parent's notifications to its own listeners only while connected. */
  class LocalizationProviderBridge {
    const parent: LocalizationProvider
    var listeners: seq<Listener>
    var connected: bool

    /** Its own listener list has no duplicates and holds only components bound to this
        bridge and other callbacks; its forwarding listener is registered on the parent
        exactly when it is connected. */
    ghost predicate Valid()
      reads this, parent`listeners
    {
      parent.Valid() &&
      NoDuplicates(listeners) &&
      (forall l <- listeners :: !l.Forward? && (l.Rebind? ==> l.component.provider == Bridged(this))) &&
      (connected <==> Forward(this) in parent.listeners)
    }

    /** Everything the bridge's own fire() delivers, in order, in the current state. */
    ghost function Broadcast(): seq<Event>
      requires Valid()
      reads this, parent
    {
      BridgeEvents(listeners, parent)
    }

    /** A new bridge is disconnected and not registered on its parent. */
    constructor (parent: LocalizationProvider)
      requires parent.Valid()
      ensures this.parent == parent && listeners == [] && !connected
      ensures Forward(this) !in parent.listeners
      ensures Valid()
    {
      this.parent := parent;
      listeners := [];
      connected := false;
    }

    /** getString forwards to the parent whether connected or not: it reads neither the
        connection flag nor the bridge's listeners. */
    function GetString(key: string): (r: string)
      reads parent`bundle
      ensures r == parent.GetString(key)
    {
      parent.GetString(key)
    }

    /** addLocalizationListener. Registering a callback, or a component bound to this
        bridge, keeps the invariant. */
    method AddLocalizationListener(l: Listener)
      modifies this`listeners
      ensures listeners == Added(old(listeners), l)
      ensures old(Valid()) && (l.Custom? || (l.Rebind? && l.component.provider == Bridged(this))) ==> Valid()
    {
      listeners := Added(listeners, l);
    }

    /** removeLocalizationListener. Removing any listener keeps the invariant. */
    method RemoveLocalizationListener(l: Listener)
      modifies this`listeners
      ensures listeners == Removed(old(listeners), l)
      ensures old(Valid()) ==> Valid()
    {
      if Valid() {
        RemovedMembers(listeners, l);
        RemovedNoDuplicates(listeners, l);
      }
      listeners := Removed(listeners, l);
    }

    /** fire() of the bridge, which is also what its forwarding listener does. */
    method Fire() returns (events: seq<Event>)
      requires Valid()
      ensures events == Broadcast()
    {
      events := [];
      for i := 0 to |listeners|
        invariant events == BridgeEvents(listeners[..i], parent)
      {
        assert listeners[..i + 1][..i] == listeners[..i];
        events := events + [Response(listeners[i])];
      }
      assert listeners[..|listeners|] == listeners;
    }

    /** connect: when disconnected, set the flag and register the forwarding listener on
        the parent (appended at the end); when already connected, do nothing. */
    method Connect()
      requires Valid() && parent.Ready()
      modifies this`connected, parent`listeners
      ensures Valid() && parent.Ready() && connected
      ensures parent.listeners ==
        if old(connected) then old(parent.listeners) else old(parent.listeners) + [Forward(this)]
    {
      if connected {
        return;
      }
      connected := true;
      parent.AddLocalizationListener(Forward(this));
      forall l <- parent.listeners | l.Forward? && l.bridge != this
        ensures l.bridge.Valid()
      {
        assert l in old(parent.listeners);
      }
    }

    /** disconnect: when connected, clear the flag and unregister the forwarding listener
        from the parent, keeping the order of the others; when already disconnected, do nothing. */
    method Disconnect()
      requires Valid() && parent.Ready()
      modifies this`connected, parent`listeners
      ensures Valid() && parent.Ready() && !connected
      ensures parent.listeners ==
        if old(connected) then Removed(old(parent.listeners), Forward(this)) else old(parent.listeners)
    {
      if !connected {
        return;
      }
      connected := false;
      RemovedMembers(parent.listeners, Forward(this));
      RemovedNoDuplicates(parent.listeners, Forward(this));
      parent.RemoveLocalizationListener(Forward(this));
    }
  }

  /** LocalizedComponent: a key, the provider it was built with, and the widget property
      its `change` writes. The object is the identity of the lambda it registers. */
  class LocalizedComponent {
    const key: string
    const provider: Provider
    const sink: Sink

    /** Only records the captured values; a component is built by Create, which also makes
        the first push and registers the listener, as the Java constructor does. */
    constructor Of(key: string, provider: Provider, sink: Sink)
      ensures this.key == key && this.provider == provider && this.sink == sink
    {
      this.key := key;
      this.provider := provider;
      this.sink := sink;
    }

    /** The LocalizedComponent constructor: first `change(provider.getString(key))`, then
        register a fresh listener that repeats that push on every notification. Nothing
        else changes; the listener is never removed. */
    static method Create(key: string, provider: Provider, sink: Sink)
      returns (c: LocalizedComponent, pushed: Event)
      requires provider.Origin().Ready()
      requires provider.Bridged? ==> provider.bridge.Valid()
      modifies provider.Object()
      ensures fresh(c) && c.key == key && c.provider == provider && c.sink == sink
      ensures pushed == Changed(c, provider.GetString(key))
      ensures provider.Listeners() == old(provider.Listeners()) + [Rebind(c)]
      ensures provider.Origin().Ready()
      ensures provider.Bridged? ==> provider.bridge.Valid() && provider.bridge.connected == old(provider.bridge.connected)
      ensures provider.Root? ==> provider.root.language == old(provider.root.language)
      ensures provider.Origin().bundle == old(provider.Origin().bundle)
    {
      c := new LocalizedComponent.Of(key, provider, sink);
      pushed := Changed(c, provider.GetString(key));
      match provider
      case Root(p) =>
        p.AddLocalizationListener(Rebind(c));
      case Bridged(b) =>
        b.AddLocalizationListener(Rebind(c));
    }
  }
}
