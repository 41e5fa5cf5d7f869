# Signal registration tracker

A Dafny model of the handler classes in `utils.js`:

- `BasicHandler` is a registration tracker. It keeps a label-keyed store of things that were set up and must later be torn down.
- `GlobalSignalsHandler` is its variant for signal connections. Each entry is the pair of an object and the handler id that the object's `connect` returned. Releasing an entry disconnects that id on that object.

The model proves three groups of properties:

- Tracking: `addWithLabel` files one entry per item, in argument order, after the label's existing entries, and creates the label's sequence when it is absent. `add` is `addWithLabel` under the label `"generic"`.
- Removal: `removeWithLabel` releases a label's entries once each, in stored order, and deletes the label. For an absent label it does nothing. `destroy` releases everything exactly once, and a second `destroy` changes nothing.
- Conservation: across any sequence of calls, every entry ever created is either still stored or has been released, and never both or twice. Every stored entry is a live connection, and every released one has been disconnected. This holds for each handler even when several handlers share one host.

Files:

- `signals.dfy` (module `Signals`): the host's signal system as far as the handlers use it. `SignalHost` holds a map of live connections and a counter of handler ids that are never reused.
- `tracker.dfy` (module `Tracker`): the storage discipline, on values and independent of what an entry is:
  - `Append` is the storage update made by `addWithLabel`;
  - `Concat` gives the releases a teardown makes, in visiting order;
  - `Conserved` is the conservation invariant, with lemmas that each update keeps it.
- `handler.dfy` (module `Handler`): the class `GlobalSignalsHandler`. It holds the storage as a `map` field, the host, and two ghost logs: every entry `_create` returned, and every entry passed to `_remove`, in order. Its methods have the source's loops.
- `prototype_lookup.dfy` (module `PrototypeLookup`): `addWithLabel` and `removeWithLabel` as written, including their behaviour on labels that a plain JavaScript object inherits. See Findings.

The base class and its one variant are merged into one class, because `utils.js` defines only this variant. `Create` and `Remove` are the variant's `_create` and `_remove`, and the base class's loops call them.

## Model

| member | source | states |
|---|---|---|
| Signals.SignalHost.Connect | utils.js:132 | `connect` returns a non-zero id never handed out before; exactly that connection, bound to the signal and callback, is added |
| Signals.SignalHost.Disconnect | utils.js:138 | `disconnect(id)` cancels exactly that object's connection with that id and nothing else |
| Tracker.Append | utils.js:85-93 | the label is present afterwards; its sequence is the old one (empty if absent) followed by exactly the new entries; every other label keeps its sequence |
| Tracker.AppendConserves | utils.js:85-93 | storing fresh, distinct entries under a label keeps created = released + stored, with no duplicates |
| Tracker.RemoveConserves | utils.js:95-102 | releasing all of a label's entries and deleting the label keeps created = released + stored |
| Tracker.VisitNext | utils.js:80-83 | visiting one more unvisited label adds its whole sequence to the releases and removes it from what is left |
| Tracker.TeardownVisitsAll | utils.js:80-83 | a teardown that emptied the storage visited each label exactly once, and released exactly the stored entries |
| Tracker.ConcatSound | utils.js:80-83 | the releases of a teardown are duplicate-free, and an entry is released iff it was stored under a visited label |
| Tracker.Conservation | utils.js:66-102 | for any enumeration of the labels, the created entries are a permutation of the released ones followed by the stored ones |
| Tracker.TeardownReleasesEachOnce | utils.js:80-83 | with nothing stored, every created entry was released exactly once and nothing else was released |
| Handler.AddStepTracked | utils.js:91 | connecting a fresh id and pushing it onto a label keeps the handler invariant: conserved, stored entries live, released entries disconnected |
| Handler.RemoveStepTracked | utils.js:95-102 | disconnecting all of a label's entries and deleting the label keeps the handler invariant |
| Handler.ConnectionsKeys | utils.js:90-92 | the connections an `addWithLabel` call makes are on exactly its new entries |
| Handler.ConnectionsAt | utils.js:128-135 | each new entry is bound to the signal and callback of the item it was created for |
| Handler.AddLoopStep | utils.js:90-92 | one loop iteration advances the call by exactly one item: the entry is pushed last and connected, on that item's object |
| Handler.TeardownStep | utils.js:80-83 | removing one more label advances a teardown: its entries are appended to the releases and their connections are cancelled |
| Handler.GlobalSignalsHandler.constructor | utils.js:69-71 | `_init` starts with empty storage and nothing created or released |
| Handler.GlobalSignalsHandler.Create | utils.js:128-135 | `_create` returns `[object, id]` for a fresh id from `connect`; the new connection carries the item's signal and callback |
| Handler.GlobalSignalsHandler.Remove | utils.js:137-139 | `_remove` disconnects the stored id on the stored object, and only that connection |
| Handler.GlobalSignalsHandler.CreateAndStore | utils.js:91 | the created entry is pushed onto the end of the label's sequence; nothing else in storage changes |
| Handler.GlobalSignalsHandler.EnsureLabel | utils.js:86-87 | an absent label gets an empty sequence; a present one keeps its sequence |
| Handler.GlobalSignalsHandler.AddWithLabel | utils.js:85-93 | storage becomes `Append(old, label, added)` with one fresh entry per item, in order and on the item's object; the new ids were never handed out before and the host's id counter only grows; exactly those connections are added to the host; the invariant is kept |
| Handler.GlobalSignalsHandler.Add | utils.js:73-78 | the same result as `AddWithLabel` under the label `"generic"` |
| Handler.GlobalSignalsHandler.RemoveWithLabel | utils.js:95-102 | the label's entries are released once each, in stored order, and disconnected; the label is absent afterwards; for an absent label nothing changes |
| Handler.GlobalSignalsHandler.Destroy | utils.js:80-83 | each label is visited once; the releases are the labels' sequences in visiting order; storage ends empty; exactly the stored connections are cancelled; every created entry has been released exactly once; on empty storage (a second `destroy`) nothing changes |
| PrototypeLookup.AddAsWritten | utils.js:85-93 | as written, the call throws iff the label is unstored, inherited and has items; it then leaves the first entry created but unstored; on an unstored inherited label with no items the storage is unchanged, with no sequence created; in every other case the storage is `Append`'s |
| PrototypeLookup.AgreesOffPrototype | utils.js:85-93 | off inherited names, the code as written equals the intended update `Tracker.Append` |
| PrototypeLookup.InheritedLabelLeaks | utils.js:86-91 | on an inherited, unstored label, the code as written breaks created = released + stored: a connection leaks |
| PrototypeLookup.InheritedLabelGetsNoSequence | utils.js:86-87 | with no items, an unstored inherited label gets no sequence as written, while the intended update creates an empty one |
| PrototypeLookup.ToStringLeaks | utils.js:86-91 | `addWithLabel("toString", item)` on a fresh handler connects the item and stores nothing |
| PrototypeLookup.RemoveAsWritten | utils.js:95-102 | as written, the call throws iff the label is unstored and names an inherited function of non-zero arity; otherwise it releases the label's entries in order and deletes it |
| PrototypeLookup.RemoveAgreesOffPrototype | utils.js:95-102 | off those names, the code as written releases the label's entries and deletes it, and is a no-op on an absent label |
| PrototypeLookup.ConstructorRemoveThrows | utils.js:95-98 | `removeWithLabel("constructor")` on a handler that never stored that label throws instead of doing nothing |

## Left out

- `getSettings` and `initTranslations` are not part of this model. They only look up schema files and bind a gettext domain through host APIs.
- The `Lang.Class` machinery and the base class's `_create`/`_remove` placeholders that throw "no implementation" are not modelled. `utils.js` defines only the signals variant.
- Signals.SignalHost.Connect: never fails. Errors a real host raises, such as an unknown signal name or a destroyed object, are not modelled, and so neither are exceptions that stop a loop part-way through.
- Handler.GlobalSignalsHandler.Destroy: the order in which `for ... in` visits labels is left open. It is a nondeterministic choice, and the ghost result `order` names the order taken.
- Items are modelled as a datatype of object, signal name and callback. An argument that is not such a three-element array is not modelled.
- `add` forwards its arguments with the array generics `Array.concat` and `Array.slice`. They are modelled as passing the same item list.
- Callbacks that run during `connect` or `disconnect` and re-enter the handler are not modelled.
- PrototypeLookup.InheritedLength: lists only the standard properties of the object prototype. Engine-specific extras, such as `toSource` in older SpiderMonkey releases, are not included.
- Handler.GlobalSignalsHandler.EnsureLabel: creates an empty sequence for every unstored label. For a label inherited from the object prototype, the code as written creates none; that behaviour is `PrototypeLookup.AddAsWritten`.
- Handler.GlobalSignalsHandler.AddWithLabel: models the intended behaviour on labels inherited from the object prototype. The code as written is `PrototypeLookup.AddAsWritten`.
- Handler.GlobalSignalsHandler.RemoveWithLabel: on a host shared by several handlers, assumes that no other handler stores the same connection. Ids are never reused, so two handlers never create the same entry; a connection made outside any handler, or entries copied between handlers, are not modelled.
- Handler.GlobalSignalsHandler.RemoveWithLabel: models the intended no-op on an unstored label. The code as written is `PrototypeLookup.RemoveAsWritten`.

## Findings

| source | as written | input that shows it | evidently intended | confidence | as-written member | corrected member |
|---|---|---|---|---|---|---|
| utils.js:86-91 | `_storage[label] == undefined` also finds inherited prototype properties, so no sequence is created. `_create` then connects the first item, and `.push` on the inherited function throws. With no items nothing throws, but the label still gets no sequence. | `addWithLabel("toString", [obj, "clicked", cb])` on a fresh handler | a new label gets its own sequence, empty when there are no items; every connection made is stored and later disconnected | not executed; depends on callers choosing such a label | PrototypeLookup.InheritedLabelLeaks | Tracker.AppendConserves |
| utils.js:95-98 | `if (_storage[label])` is true for an inherited function, and the loop runs up to its `length`. `_remove(undefined)` then throws on `undefined[0]`. | `removeWithLabel("constructor")` on a handler that never used that label | removing an unknown label is a no-op | not executed; depends on callers choosing such a label | PrototypeLookup.ConstructorRemoveThrows | Handler.GlobalSignalsHandler.RemoveWithLabel |
