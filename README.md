# Localization propagation layer of jNotepad, in Dafny

This project models the `hr.fer.zemris.local` layer of the jNotepad editor. The layer
lets any number of Swing widgets show translated text and keeps them in step when the
language changes at run time.

- **`LocalizationProvider`**: the root provider, a singleton in the program. It holds the current language
  tag, the last bundle that loaded, and an ordered list of listeners.
- **`LocalizationProviderBridge`**: a decorator over the root provider. It answers every
  read from its parent. It passes the parent's notifications on to its own listeners only
  while it is connected.
- **`LocalizedComponent`**: binds a key to a widget property. It pushes the translation
  once at construction and again on every notification.

The listener list that both providers inherit from `AbstractLocalizationProvider` is
modelled in `Registry` as pure operations on a sequence. The classes reassign their
`listeners` field with these operations. Listeners are identity values:

- `Forward(bridge)`: the bridge's own `this::fire` listener. There is one per bridge.
- `Rebind(component)`: the lambda a component registers. The component object gives it
  its identity.
- `Custom(id)`: any other callback.

A notification does not write into widgets. `fire()` returns the trace of what it
delivers, in order: `Changed(component, text)` for a sink call and `Called(id)` for
another callback. `fire()` modifies nothing. Each `Fire` method is proved equal to a
ghost trace function. The lemmas in `Propagation` say what that trace gives each
component.

Files:
- `registry.dfy`: module `Registry`.
- `bundles.dfy`: module `Bundles`, with bundles, the fallback strings and ASCII
  `equalsIgnoreCase`.
- `local.dfy`: module `Local`, with the three classes and the trace functions.
- `propagation.dfy`: module `Propagation`.
- `notepad.dfy`: module `Notepad`, which covers how `JNotepad` and
  `FormLocalizationProvider` drive the layer.

Two functions are parameters of the root provider:
- `load`: the bundle loader, `ResourceBundle.getBundle` after `Locale.forLanguageTag`.
  `None` stands for `MissingResourceException`.
- `decode`: the ISO-8859-1 to UTF-8 re-decoding. `None` stands for
  `UnsupportedEncodingException`.

In `setLanguage`, the tag is stored before the bundle is loaded; the two are not
replaced together. When loading fails, the provider keeps the new
tag with the old bundle, and nobody is notified. A later request for the same language in
another case is then ignored without loading anything (`Notepad.MissingLanguage`).

The scenarios in `Notepad` use `Tables`, an illustrative two-language fixture: the key
`greeting` with the texts `Hello` and `Bok` stands in for the program's real bundles,
whose keys are names such as `FILE_MENU`.

## Model

| member | source | states |
|---|---|---|
| `Registry.Added` | src/hr/fer/zemris/local/AbstractLocalizationProvider.java:21-25 | adding keeps the old list as a prefix and always leaves `l` registered. The list grows by one exactly when `l` was absent, so a present `l` leaves it unchanged and an absent one is appended at the end. No other listener is added, and absence of duplicates is preserved |
| `Registry.Removed` | src/hr/fer/zemris/local/AbstractLocalizationProvider.java:28-30 | removing an absent listener leaves the list as it was. Removing a registered one shortens the list by exactly one |
| `Registry.RemovedSplits` | src/hr/fer/zemris/local/AbstractLocalizationProvider.java:28-30 | removal by identity deletes exactly the first occurrence. Everything before it and everything after it keeps its relative order |
| `Registry.RemovedMembers` | src/hr/fer/zemris/local/AbstractLocalizationProvider.java:28-30 | removal adds no listener and drops no listener other than the one removed |
| `Registry.RemovedNoDuplicates` | src/hr/fer/zemris/local/AbstractLocalizationProvider.java:15-30 | on a list without duplicates, the removed listener is gone afterwards and the list still has no duplicates |
| `Registry.AddThenRemove` | src/hr/fer/zemris/local/AbstractLocalizationProvider.java:21-30 | registering an absent listener and then removing it restores the original list |
| `Registry.ApplyKeepsNoDuplicates` | src/hr/fer/zemris/local/AbstractLocalizationProvider.java:15-30 | no sequence of additions and removals makes a listener appear twice |
| `Registry.AtMostOnce` | src/hr/fer/zemris/local/AbstractLocalizationProvider.java:21-25 | in a list without duplicates every listener occurs at most once, so that provider's own fan-out invokes it at most once |
| `Bundles.Placeholder` | src/hr/fer/zemris/local/LocalizationProvider.java:53-54 | the missing-key text is the key wrapped in one `?` on each side |
| `Bundles.PlaceholderIsNotUnknownEncoding` | src/hr/fer/zemris/local/LocalizationProvider.java:50-54 | the missing-key fallback never equals the decoding-failure sentinel `unknown encoding` |
| `Bundles.PlaceholderInjective` | src/hr/fer/zemris/local/LocalizationProvider.java:53-54 | different missing keys give different placeholders, so the key can be read back |
| `Bundles.EqualsIgnoreCaseIsEquivalence` | src/hr/fer/zemris/local/LocalizationProvider.java:66 | the case-insensitive comparison of the language guard is reflexive, symmetric and transitive |
| `Bundles.GuardIgnoresStoredSpelling` | src/hr/fer/zemris/local/LocalizationProvider.java:66-70 | the tag is stored as given, not case-normalised. This does not matter to later guards: a tag is ignored against one spelling of the stored language exactly when it is ignored against any other spelling |
| `Bundles.CaseExamples` | src/hr/fer/zemris/local/LocalizationProvider.java:66 | scenario support, not a general property: three concrete comparisons that the `Notepad` scenarios rely on. `EN`/`en` and `hR`/`Hr` compare equal ignoring case; `en`/`hr` do not. The general claims are in `EqualsIgnoreCaseIsEquivalence` and `GuardIgnoresStoredSpelling` |
| `Local.Provider.GetString` | src/hr/fer/zemris/local/ILocalizationProvider.java:18 | any provider, root or bridge, answers every key exactly as the root provider it ends at |
| `Local.Response` | src/hr/fer/zemris/local/swing/LocalizedComponent.java:23 | a component's listener pushes into its own sink the translation of its key, read from its provider at notification time. Any other callback just runs |
| `Local.LocalizationProvider.constructor` | src/hr/fer/zemris/local/LocalizationProvider.java:34-36 | a new provider has language `en`, the bundle loaded for `en`, no listeners, and satisfies the invariant |
| `Local.LocalizationProvider.GetString` | src/hr/fer/zemris/local/LocalizationProvider.java:45-57 | the lookup is total and reads only the bundle. No bundle, a missing key or a non-text value gives `?key?`. A text value gives its decoding, or `unknown encoding` when decoding fails |
| `Local.LocalizationProvider.AddLocalizationListener` | src/hr/fer/zemris/local/AbstractLocalizationProvider.java:21-25 | the root's list becomes `Added(old list, l)`. Adding a callback, or a component bound to the root, to a ready root leaves it ready, so `Fire` and `SetLanguage` stay callable |
| `Local.LocalizationProvider.RemoveLocalizationListener` | src/hr/fer/zemris/local/AbstractLocalizationProvider.java:28-30 | the root's list becomes `Removed(old list, l)`. Removing any listener from a ready root leaves it ready |
| `Local.LocalizationProvider.Fire` | src/hr/fer/zemris/local/AbstractLocalizationProvider.java:35-37 | fire changes nothing. It returns the notifications of every registered listener in list order, one listener after the other. A bridge's forwarding listener contributes that bridge's whole re-broadcast |
| `Local.LocalizationProvider.SetLanguage` | src/hr/fer/zemris/local/LocalizationProvider.java:65-75 | a tag equal to the current one ignoring case changes nothing and notifies nobody. Otherwise the tag is stored verbatim and then the bundle is loaded. On failure, the bundle is kept, nobody is notified and the error is reported. On success, exactly one fire runs after both assignments, in the new language |
| `Local.Singleton.constructor` | src/hr/fer/zemris/local/LocalizationProvider.java:26-36 | the class initialiser creates one fresh provider in the default language with no listeners |
| `Local.Singleton.GetInstance` | src/hr/fer/zemris/local/LocalizationProvider.java:82-84 | getInstance returns the one instance. It reads no mutable state, so every call returns the same provider |
| `Local.LocalizationProviderBridge.constructor` | src/hr/fer/zemris/local/LocalizationProviderBridge.java:23-25 | a new bridge has the given parent and no listeners. It is disconnected and its forwarding listener is not registered on the parent |
| `Local.LocalizationProviderBridge.GetString` | src/hr/fer/zemris/local/LocalizationProviderBridge.java:28-30 | the bridge answers every key as its parent does, connected or not. It reads neither the flag nor its own listeners |
| `Local.LocalizationProviderBridge.AddLocalizationListener` | src/hr/fer/zemris/local/AbstractLocalizationProvider.java:21-25 | the bridge's list becomes `Added(old list, l)`. Adding a callback, or a component bound to this bridge, to a valid bridge leaves it valid |
| `Local.LocalizationProviderBridge.RemoveLocalizationListener` | src/hr/fer/zemris/local/AbstractLocalizationProvider.java:28-30 | the bridge's list becomes `Removed(old list, l)`. Removing any listener from a valid bridge leaves it valid |
| `Local.LocalizationProviderBridge.Fire` | src/hr/fer/zemris/local/LocalizationProviderBridge.java:12-13 | the forwarding listener re-broadcasts to the bridge's own listeners in list order and changes nothing |
| `Local.LocalizationProviderBridge.Connect` | src/hr/fer/zemris/local/LocalizationProviderBridge.java:35-41 | from disconnected: sets the flag and appends the single forwarding listener to the parent's list. When already connected: nothing changes. The invariant (registered on the parent exactly while connected) is kept on both paths |
| `Local.LocalizationProviderBridge.Disconnect` | src/hr/fer/zemris/local/LocalizationProviderBridge.java:46-52 | from connected: clears the flag and removes the forwarding listener from the parent, keeping the others' order. When already disconnected: nothing changes. The invariant is kept |
| `Local.LocalizedComponent.Of` | src/hr/fer/zemris/local/swing/LocalizedComponent.java:12-31 | a component records its key, provider and sink (the abstract `change`) |
| `Local.LocalizedComponent.Create` | src/hr/fer/zemris/local/swing/LocalizedComponent.java:20-24 | construction first pushes the provider's current translation of the key into the sink. It then appends exactly one fresh listener to the provider's list. Language, bundle and the bridge's connection flag are unchanged |
| `Propagation.BridgeEventsInOrder` | src/hr/fer/zemris/local/AbstractLocalizationProvider.java:35-37 | a bridge's fire produces one notification per registered listener: the i-th notification is the i-th listener's |
| `Propagation.BridgeDelivers` | src/hr/fer/zemris/local/LocalizationProviderBridge.java:12-13 | a bridge's fire gives a component registered on it exactly one push, carrying the root's current translation of its key. It gives any other component none |
| `Propagation.ListenerDelivers` | src/hr/fer/zemris/local/AbstractLocalizationProvider.java:35-37 | a single listener of the root gives a component one push of its current translation when it is that component's own listener, or the forwarding listener of the bridge the component is registered on. Otherwise it gives nothing |
| `Propagation.ReachedSplit` | src/hr/fer/zemris/local/AbstractLocalizationProvider.java:21-25 | in a list without duplicates, a component is reached through the list plus one appended listener exactly when it is reached through the list or through the new listener, and never both ways |
| `Propagation.RootDelivers` | src/hr/fer/zemris/local/AbstractLocalizationProvider.java:35-37 | over a prefix of the root's list, a component receives one push of its current translation if it is reached through that prefix, and nothing otherwise |
| `Propagation.FireDelivers` | src/hr/fer/zemris/local/swing/LocalizedComponent.java:23 | one fire of the root gives every reached component exactly one push, with the translation evaluated at fire time. Unreached components get nothing |
| `Propagation.BridgeGating` | src/hr/fer/zemris/local/LocalizationProviderBridge.java:35-52 | a component bound to a bridge gets exactly one push per root fire while the bridge is connected, and none while it is disconnected |
| `Propagation.DirectBinding` | src/hr/fer/zemris/local/swing/LocalizedComponent.java:23 | a component bound to the root itself gets exactly one push per fire |
| `Propagation.SingleRegistration` | src/hr/fer/zemris/local/LocalizationProviderBridge.java:35-52 | a bridge is registered on its parent once while connected and never while disconnected. Connecting twice leaves one registration, disconnecting twice leaves none |
| `Propagation.BridgeCalls` | src/hr/fer/zemris/local/LocalizationProviderBridge.java:12-13 | a bridge's fire runs each callback registered on it exactly once and any other callback never |
| `Propagation.ListenerCalls` | src/hr/fer/zemris/local/AbstractLocalizationProvider.java:35-37 | a single listener of the root runs a callback once when it is that callback or the forwarding listener of a bridge holding it, and never otherwise |
| `Propagation.RootCalls` | src/hr/fer/zemris/local/AbstractLocalizationProvider.java:35-37 | when at most one root listener leads to a callback, a fire over the root's list runs the callback once if that listener is in the list and leads there, and never otherwise |
| `Propagation.GatedCallback` | src/hr/fer/zemris/local/LocalizationProviderBridge.java:35-52 | a callback on a bridge, such as the window's tab-title refresher, runs exactly once per root fire while the bridge is connected and never while it is disconnected |
| `Notepad.OnWindowEvent` | src/hr/fer/zemris/local/FormLocalizationProvider.java:25-39 | opening the window connects the bridge and closing it disconnects it, with the parent's list updated as connect and disconnect say |
| `Notepad.WindowLifecycle` | src/hr/fer/zemris/local/FormLocalizationProvider.java:25-39 | for a new bridge and any sequence of window events, the parent's list is its old contents plus the bridge's forwarding listener exactly while the window is open. Opening and closing repeatedly leaks no registration |
| `Notepad.ToggleLanguage` | src/hr/fer/zemris/notepad/JNotepad.java:466-470 | the toggle advances the index cyclically over `en`, `hr`. Afterwards the provider's language equals the selected tag ignoring case. The call is ignored exactly when the selected tag equals the old language ignoring case. It switches exactly when it is not ignored and the tag's bundle loads; only then is the bundle replaced and are listeners notified |
| `Notepad.SingleBinding` | src/hr/fer/zemris/local/LocalizationProviderBridge.java:12-13 | with one connected bridge holding one component, a root fire is a single push of that component's current translation |
| `Notepad.StartNotepad` | src/hr/fer/zemris/notepad/JNotepad.java:59 | at start-up the window's bridge wraps the singleton and is disconnected. A menu bound through it already shows `Hello` |
| `Notepad.SwitchToCroatian` | src/hr/fer/zemris/notepad/JNotepad.java:436-441 | with the window's bridge connected, selecting `hr` pushes `Bok` into a label bound through the bridge exactly once |
| `Notepad.OpenAndSwitch` | src/hr/fer/zemris/local/FormLocalizationProvider.java:28-31 | opening the window registers its bridge's forwarding listener as the root's only listener, and a following switch to `hr` pushes `Bok` once |
| `Notepad.WhileOpen` | src/hr/fer/zemris/notepad/JNotepad.java:436-441 | with the window open, switching to `hr` pushes `Bok` into the menu exactly once, and selecting `HR` afterwards is ignored |
| `Notepad.WhileClosed` | src/hr/fer/zemris/notepad/JNotepad.java:444-449 | with the window closed, switching back to `en` notifies nobody |
| `Notepad.Session` | src/hr/fer/zemris/notepad/JNotepad.java:59 | the whole run: `Hello` at binding, `Bok` once after switching to `hr`, nothing for `HR`, nothing after the window closes |
| `Notepad.MissingLanguage` | src/hr/fer/zemris/local/LocalizationProvider.java:70-72 | a tag without a bundle is stored anyway and the old table stays in use. A later request for it in another case is ignored |

## Left out

- Bridge parent: the constructor accepts any `ILocalizationProvider`, but the program only
  ever wraps the singleton (`JNotepad.java:59`). The model fixes a bridge's parent to the
  root provider, so a bridge over a bridge is not modelled. This keeps a fire at most two
  levels deep.
- `ILocalizationProvider` and `ILocalizationListener` are the `Provider` and `Listener`
  datatypes. Dispatch is by cases instead of by interface.
- Listener callbacks that add or remove listeners during a fire are not modelled.
  `ArrayList.forEach` would throw `ConcurrentModificationException` in that case. Every
  listener behaviour in the model (bridge re-broadcast, sink push, other callback) leaves
  all lists untouched. `Custom` callbacks, such as the tab-title refresher at
  `JNotepad.java:166`, are opaque: only the fact that they ran is recorded.
- The `change` sinks of `LJMenu`, `LJToolBar`, `LJFileChooser` and `LocalizableAction`
  are only the `Sink` tag of a component. Widget state is not modelled; the trace records
  what each sink received.
- `ResourceBundle.getBundle`, `Locale.forLanguageTag` and the ISO-8859-1 to UTF-8
  re-decoding are the opaque parameters `load` and `decode`. Parent-bundle lookup is
  assumed folded into the loaded table.
- `equalsIgnoreCase` is ASCII case folding. Unicode case tables are not modelled.
- `Local.Singleton`: one `Singleton` object stands for one run of the class initialiser,
  and `GetInstance` returns its instance. Dafny has no private constructor, so two
  `Singleton` objects, or a direct `new LocalizationProvider`, would give two roots.
  Uniqueness of the root holds only by convention: every scenario builds exactly one root,
  through `Singleton`.
- Listeners that throw are not modelled. In Java such a listener stops `forEach`, the
  remaining listeners are not notified, and `setLanguage` passes the exception on after
  both fields were assigned. In the model every `Custom` callback completes.
- `Local.LocalizationProvider.constructor`: requires a bundle for `en`. Without one, the
  Java class initialiser throws and no instance exists; the model does not represent that
  failed initialisation.
- A null key or null language argument is not modelled, because strings here are never
  null.
- Garbage collection and dangling listeners are not modelled.
- `Local.LocalizationProvider.AddLocalizationListener`: promises to keep the invariant only
  for callbacks and components bound to the root. A bridge's forwarding listener is
  registered only by that bridge's `connect`, whose contract restores both invariants. The
  listener is private to the bridge, so no other caller can add it.
- `Local.LocalizationProviderBridge.AddLocalizationListener`: promises to keep the invariant
  only for callbacks and components bound to that bridge. Bridges are never stacked in the
  program, so a bridge never holds a forwarding listener.
- The rest of `JNotepad.java`, all of `JNotepadFile.java`, and the Swing wiring of
  `FormLocalizationProvider.java` beyond its two window events: menus, tabs, file I/O,
  dialogs, clipboard actions and case toggling are outside the localization layer.
