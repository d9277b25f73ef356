/** How the notepad drives the localization layer: its window's open and close events
    connect and disconnect its bridge (FormLocalizationProvider), its menu actions switch
    or cycle the language, and its widgets are bound through the bridge. */
module Notepad {
  import opened Registry
  import opened Bundles
  import opened Local
  import opened Propagation

  /** The two window events FormLocalizationProvider listens to. */
  datatype WindowEvent = Opened | Closed

  /** FormLocalizationProvider's window listener: windowOpened connects the bridge,
      windowClosed disconnects it. */
  method OnWindowEvent(b: LocalizationProviderBridge, e: WindowEvent)
    requires b.Valid() && b.parent.Ready()
    modifies b`connected, b.parent`listeners
    ensures b.Valid() && b.parent.Ready()
    ensures b.connected == e.Opened?
    ensures b.parent.listeners ==
      if old(b.connected) == e.Opened? then old(b.parent.listeners)
      else if e.Opened? then old(b.parent.listeners) + [Forward(b)]
      else Removed(old(b.parent.listeners), Forward(b))
  {
    match e
    case Opened => b.Connect();
    case Closed => b.Disconnect();
  }

  /** Whether the bridge is connected after the window events es, starting from `start`. */
  function ConnectedAfter(start: bool, es: seq<WindowEvent>): bool
  {
    if es == [] then start else es[|es| - 1].Opened?
  }

  /** However often the window of a new bridge opens and closes, the parent's listener list
      is the list it had before plus at most this bridge's one forwarding listener, present
      exactly while the window is open: repeated opening and closing leaks nothing. */
  method WindowLifecycle(b: LocalizationProviderBridge, es: seq<WindowEvent>)
    requires b.Valid() && b.parent.Ready() && !b.connected
    modifies b`connected, b.parent`listeners
    ensures b.Valid() && b.parent.Ready()
    ensures b.connected == ConnectedAfter(false, es)
    ensures b.parent.listeners == old(b.parent.listeners) + (if b.connected then [Forward(b)] else [])
  {
    ghost var base := b.parent.listeners;
    assert Forward(b) !in base;
    for i := 0 to |es|
      invariant b.Valid() && b.parent.Ready()
      invariant b.connected == ConnectedAfter(false, es[..i])
      invariant b.parent.listeners == base + (if b.connected then [Forward(b)] else [])
    {
      assert es[..i + 1][..i] == es[..i];
      if b.connected && es[i].Closed? {
        AddThenRemove(base, Forward(b));
      }
      OnWindowEvent(b, es[i]);
    }
    assert es[..|es|] == es;
  }

  /** The languages the toolbar's toggle action cycles through. */
  const SupportedLanguages: seq<string> := ["en", "hr"]

  /** The toggle action: advance the language index cyclically and select that language.
      Afterwards the provider's language matches the selected entry ignoring case, whether
      the call switched, was ignored, or found no bundle; listeners are notified, and the
      bundle replaced, only when the language changed and its bundle loaded. */
  method ToggleLanguage(root: LocalizationProvider, index: nat)
    returns (next: nat, outcome: LanguageChange, events: seq<Event>)
    requires index < |SupportedLanguages| && root.Ready()
    modifies root`language, root`bundle
    ensures next == (index + 1) % |SupportedLanguages| && next < |SupportedLanguages|
    ensures root.Ready()
    ensures EqualsIgnoreCase(root.language, SupportedLanguages[next])
    ensures outcome == Ignored <==> EqualsIgnoreCase(SupportedLanguages[next], old(root.language))
    ensures outcome == Switched <==>
      !EqualsIgnoreCase(SupportedLanguages[next], old(root.language)) && root.load(SupportedLanguages[next]).Some?
    ensures outcome == Switched ==> root.bundle == root.load(SupportedLanguages[next]) && events == root.FireTrace()
    ensures outcome != Switched ==> root.bundle == old(root.bundle) && events == []
  {
    next := (index + 1) % |SupportedLanguages|;
    outcome, events := root.SetLanguage(SupportedLanguages[next]);
    EqualsIgnoreCaseIsEquivalence(SupportedLanguages[next], root.language, root.language);
  }

  /** The translation tables of the sessions below: English and Croatian. */
  function Tables(tag: string): (r: Option<Bundle>)
  {
    if tag == "en" then Some(map["greeting" := Text("Hello")])
    else if tag == "hr" then Some(map["greeting" := Text("Bok")])
    else None
  }

  /** Re-decoding that leaves ASCII text as it is. */
  function Verbatim(s: string): Option<string>
  {
    Some(s)
  }

  /** With one connected bridge holding one component, a fire() is one push of the
      component's current translation. */
  lemma SingleBinding(root: LocalizationProvider, b: LocalizationProviderBridge, c: LocalizedComponent)
    requires root.Ready() && root.listeners == [Forward(b)] && b.listeners == [Rebind(c)]
    ensures root.FireTrace() == [Changed(c, root.GetString(c.key))]
  {
    assert Forward(b) in root.listeners;
    assert b.parent == root && b.Valid();
    assert c.provider == Bridged(b);
    assert b.listeners[..0] == [];
    assert BridgeEvents(b.listeners, root) == [Response(Rebind(c))];
    assert root.listeners[..0] == [];
    assert RootEvents(root.listeners, root) == BridgeEvents(b.listeners, root);
  }

  /** The notepad starting up: the provider in English, the window's bridge over it, and
      a menu label bound through the bridge, which shows "Hello" at once. */
  method StartNotepad() returns (root: LocalizationProvider, window: LocalizationProviderBridge,
                                 menu: LocalizedComponent, shown: Event)
    ensures fresh(root) && fresh(window) && fresh(menu)
    ensures root.Ready() && window.Valid() && window.parent == root && !window.connected
    ensures root.listeners == [] && window.listeners == [Rebind(menu)]
    ensures root.load == Tables && root.decode == Verbatim && root.language == "en"
    ensures menu.key == "greeting" && menu.provider == Bridged(window)
    ensures shown == Changed(menu, "Hello")
  {
    var statics := new Singleton(Tables, Verbatim);
    root := statics.GetInstance();
    window := new LocalizationProviderBridge(root);
    menu, shown := LocalizedComponent.Create("greeting", Bridged(window), MenuText);
  }

  /** With the window's bridge connected, switching to Croatian pushes "Bok" into the
      label once. */
  method SwitchToCroatian(root: LocalizationProvider, window: LocalizationProviderBridge, menu: LocalizedComponent)
    returns (toCroatian: seq<Event>)
    requires root.Ready() && root.listeners == [Forward(window)] && window.listeners == [Rebind(menu)]
    requires root.load == Tables && root.decode == Verbatim && root.language == "en"
    requires menu.key == "greeting"
    modifies root`language, root`bundle
    ensures root.Ready() && root.language == "hr"
    ensures toCroatian == [Changed(menu, "Bok")]
  {
    assert !EqualsIgnoreCase("hr", "en") by {
      CaseExamples();
      EqualsIgnoreCaseIsEquivalence("hr", "en", "hr");
    }
    var outcome: LanguageChange;
    outcome, toCroatian := root.SetLanguage("hr");
    SingleBinding(root, window, menu);
  }

  /** Opening the window connects its bridge; switching to Croatian then pushes "Bok"
      into the label once. */
  method OpenAndSwitch(root: LocalizationProvider, window: LocalizationProviderBridge, menu: LocalizedComponent)
    returns (toCroatian: seq<Event>)
    requires root.Ready() && window.Valid() && window.parent == root && !window.connected
    requires root.listeners == [] && window.listeners == [Rebind(menu)]
    requires root.load == Tables && root.decode == Verbatim && root.language == "en"
    requires menu.key == "greeting"
    modifies root`language, root`bundle, root`listeners, window`connected
    ensures root.Ready() && window.Valid() && window.connected
    ensures root.listeners == [Forward(window)] && root.language == "hr"
    ensures toCroatian == [Changed(menu, "Bok")]
  {
    OnWindowEvent(window, Opened);
    toCroatian := SwitchToCroatian(root, window, menu);
  }

  /** With the window open, switching to Croatian pushes "Bok" into the label once, and
      selecting "HR" afterwards does nothing. */
  method WhileOpen(root: LocalizationProvider, window: LocalizationProviderBridge, menu: LocalizedComponent)
    returns (toCroatian: seq<Event>, again: LanguageChange)
    requires root.Ready() && window.Valid() && window.parent == root && !window.connected
    requires root.listeners == [] && window.listeners == [Rebind(menu)]
    requires root.load == Tables && root.decode == Verbatim && root.language == "en"
    requires menu.key == "greeting"
    modifies root`language, root`bundle, root`listeners, window`connected
    ensures root.Ready() && window.Valid() && window.connected
    ensures root.listeners == [Forward(window)] && root.language == "hr"
    ensures toCroatian == [Changed(menu, "Bok")]
    ensures again == Ignored
  {
    toCroatian := OpenAndSwitch(root, window, menu);
    assert EqualsIgnoreCase("HR", "hr");
    var none: seq<Event>;
    again, none := root.SetLanguage("HR");
  }

  /** With the window closed, switching back to English reaches the label no more. */
  method WhileClosed(root: LocalizationProvider, window: LocalizationProviderBridge)
    returns (whileClosed: seq<Event>)
    requires root.Ready() && window.Valid() && window.parent == root && window.connected
    requires root.listeners == [Forward(window)] && root.load == Tables && root.language == "hr"
    modifies root`language, root`bundle, root`listeners, window`connected
    ensures whileClosed == []
  {
    CaseExamples();
    OnWindowEvent(window, Closed);
    assert Removed([Forward(window)], Forward(window)) == [];
    var outcome: LanguageChange;
    outcome, whileClosed := root.SetLanguage("en");
  }

  /** A notepad session: a menu label bound through the window's bridge shows "Hello" at
      once; with the window open, switching to Croatian pushes "Bok" once and selecting "HR"
      afterwards does nothing; with the window closed, switching back to English reaches
      the label no more. */
  method Session()
    returns (menu: LocalizedComponent, shown: Event, toCroatian: seq<Event>, again: LanguageChange,
             whileClosed: seq<Event>)
    ensures shown == Changed(menu, "Hello")
    ensures toCroatian == [Changed(menu, "Bok")]
    ensures again == Ignored
    ensures whileClosed == []
  {
    var root: LocalizationProvider, window: LocalizationProviderBridge;
    root, window, menu, shown := StartNotepad();
    toCroatian, again := WhileOpen(root, window, menu);
    whileClosed := WhileClosed(root, window);
  }

  /** A language without a bundle: the tag is stored although loading fails, so the
      English table stays in place under the new tag, and a later request for the same
      language in another case is ignored without any attempt to load it. */
  method MissingLanguage()
    returns (unknown: LanguageChange, language: string, stale: string, retry: LanguageChange)
    ensures unknown == MissingResource && language == "xx" && stale == "Hello"
    ensures retry == Ignored
  {
    var statics := new Singleton(Tables, Verbatim);
    var root := statics.GetInstance();
    assert !EqualsIgnoreCase("xx", "en") by {
      assert Lower("xx"[0]) != Lower("en"[0]);
    }
    var none: seq<Event>;
    unknown, none := root.SetLanguage("xx");
    language := root.language;
    stale := root.GetString("greeting");
    assert EqualsIgnoreCase("XX", "xx");
    retry, none := root.SetLanguage("XX");
  }
}
