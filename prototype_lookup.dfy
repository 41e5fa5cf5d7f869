/** `addWithLabel` as written, with `_storage` a plain object. A lookup
    `_storage[label]` finds the label's own sequence or, failing that, a
    property inherited from the object prototype (ECMAScript, section 19.1.3,
    "Properties of the Object Prototype Object", and Annex B.2.2). For an
    inherited name the `== undefined` test is false, so no sequence is
    created, and `push` on the inherited value is not a function: the first
    item is connected by `_create`, then the call throws before that entry
    is stored. The connection is never stored, so no later `removeWithLabel`
    or `destroy` disconnects it. `removeWithLabel` on such a name finds the
    inherited value truthy and loops up to its `length`: for an inherited
    function of non-zero arity the first `_remove` receives `undefined` and
    throws, where an unknown label was meant to be a no-op. */
module PrototypeLookup {
  import Tracker

  /** Names every plain object inherits from the object prototype, with
      the `length` each inherited value reports (a function's declared
      arity; `__proto__` is the prototype itself, whose missing `length`
      stops a loop as 0 does). */
  const InheritedLength: map<string, nat> := map[
    "constructor" := 1, "hasOwnProperty" := 1, "isPrototypeOf" := 1,
    "propertyIsEnumerable" := 1, "toLocaleString" := 0, "toString" := 0,
    "valueOf" := 0, "__defineGetter__" := 2, "__defineSetter__" := 2,
    "__lookupGetter__" := 1, "__lookupSetter__" := 1, "__proto__" := 0
  ]

  /** Labels the `_storage[label]` lookup finds without any being stored. */
  const InheritedNames: set<string> := InheritedLength.Keys

  /** How a call ends: normally with the new storage, or with an exception,
      the storage at that point and the entries created but not stored. */
  datatype Outcome<E> =
    | Completed(st: Tracker.Storage<E>)
    | Threw(st: Tracker.Storage<E>, leaked: seq<E>)

  /** `addWithLabel(label, ...)` as written. `made` lists the entries the
      item's `_create` calls would return, in order; only those actually
      created appear in the outcome. */
  function AddAsWritten<E>(st: Tracker.Storage<E>, lbl: string, made: seq<E>): (r: Outcome<E>)
    ensures r.Completed? <==> lbl in st || lbl !in InheritedNames || made == []
    ensures r.Threw? ==> r.st == st && r.leaked == made[..1]
    ensures r.Completed? && (lbl in st || lbl !in InheritedNames) ==> r.st == Tracker.Append(st, lbl, made)
    ensures r.Completed? && lbl !in st && lbl in InheritedNames ==> r.st == st
  {
    if lbl in st then Completed(st[lbl := st[lbl] + made])
    else if lbl !in InheritedNames then Completed(st[lbl := made])
    else if made == [] then Completed(st)
    else Threw(st, [made[0]])
  }

  /** On a label that is stored or not inherited, the code as written does
      what the intended storage update `Tracker.Append` does. */
  lemma AgreesOffPrototype<E>(st: Tracker.Storage<E>, lbl: string, made: seq<E>)
    requires lbl in st || lbl !in InheritedNames
    ensures AddAsWritten(st, lbl, made) == Completed(Tracker.Append(st, lbl, made))
  {
  }

  /** On an inherited, unstored label with at least one item, the first
      entry is created and never stored: the conservation invariant
      (created = released + stored) breaks, whatever state it held in. */
  lemma InheritedLabelLeaks<E(!new)>(created: seq<E>, released: seq<E>, st: Tracker.Storage<E>,
                                      lbl: string, made: seq<E>)
    requires Tracker.Conserved(created, released, st)
    requires lbl in InheritedNames && lbl !in st && made != [] && made[0] !in created
    ensures AddAsWritten(st, lbl, made).Threw?
    ensures !Tracker.Conserved(created + AddAsWritten(st, lbl, made).leaked, released, AddAsWritten(st, lbl, made).st)
  {
    var e := made[0];
    assert e !in released;
    assert !Tracker.Holds(st, e);
    assert e in created + [e];
  }

  /** The smallest instance: on a fresh handler, `addWithLabel("toString",
      item)` connects the item and stores nothing. */
  lemma ToStringLeaks(e: nat)
    ensures AddAsWritten(map[], "toString", [e]) == Threw(map[], [e])
    ensures !Tracker.Conserved([e], [], map[])
  {
    assert e in [e];
  }

  /** With no items, an unstored inherited label gets no sequence, where the
      intended update would create an empty one. */
  lemma InheritedLabelGetsNoSequence<E>(st: Tracker.Storage<E>, lbl: string)
    requires lbl in InheritedNames && lbl !in st
    ensures AddAsWritten(st, lbl, []) == Completed(st)
    ensures lbl !in AddAsWritten(st, lbl, []).st
    ensures lbl in Tracker.Append(st, lbl, []) && Tracker.Append(st, lbl, [])[lbl] == []
  {
  }

  /** How `removeWithLabel` ends: normally, with the new storage and the
      entries released in order, or with an exception. */
  datatype Removal<E> =
    | Removed(st: Tracker.Storage<E>, released: seq<E>)
    | RemoveThrew(st: Tracker.Storage<E>)

  /** `removeWithLabel(label)` as written. */
  function RemoveAsWritten<E>(st: Tracker.Storage<E>, lbl: string): (r: Removal<E>)
    ensures r.RemoveThrew? <==> lbl !in st && lbl in InheritedLength && InheritedLength[lbl] > 0
    ensures r.RemoveThrew? ==> r.st == st
    ensures r.Removed? ==> r.st == st - {lbl} && r.released == Tracker.Bucket(st, lbl)
  {
    if lbl in st then Removed(st - {lbl}, st[lbl])
    else if lbl in InheritedLength && InheritedLength[lbl] > 0 then RemoveThrew(st)
    else Removed(st, [])
  }

  /** Off the prototype's function names, the code as written releases the
      label's entries in order and deletes it, and leaves the storage
      unchanged when the label is absent. */
  lemma RemoveAgreesOffPrototype<E>(st: Tracker.Storage<E>, lbl: string)
    requires lbl in st || lbl !in InheritedNames || InheritedLength[lbl] == 0
    ensures RemoveAsWritten(st, lbl) == Removed(st - {lbl}, Tracker.Bucket(st, lbl))
    ensures lbl !in st ==> RemoveAsWritten(st, lbl) == Removed(st, [])
  {
  }

  /** Removing the never-added label "constructor" throws instead of doing
      nothing, whatever else is stored. */
  lemma ConstructorRemoveThrows<E>(st: Tracker.Storage<E>)
    requires "constructor" !in st
    ensures RemoveAsWritten(st, "constructor") == RemoveThrew(st)
  {
  }
}
