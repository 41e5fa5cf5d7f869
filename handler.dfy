/** `GlobalSignalsHandler`: a registration tracker whose entries are signal
    connections. The label-keyed storage and its loops are `BasicHandler`'s;
    `Create` and `Remove` are the signals variant's `_create` and `_remove`.
    Two ghost logs record every entry ever created and every entry released,
    in order, so that "nothing leaks and nothing is released twice" can be
    stated as an object invariant. */
module Handler {
  import opened Signals
  import Tracker

  /** One argument of `add`/`addWithLabel` for this variant: the object, the
      signal name and the callback. */
  datatype Item = Item(obj: ObjectRef, event: string, callback: Callback)

  /** The handler's invariant over its logs, its storage and the host: the
      logs and storage are conserved (every created entry is stored or
      released, once), ids the host hands out later are fresh with respect to
      everything created, a stored entry is a live connection and a released
      one is not. */
  ghost predicate Tracked(created: seq<Subscription>, released: seq<Subscription>,
                          st: Tracker.Storage<Subscription>, live: map<Subscription, Binding>, nextId: nat)
  {
    && Tracker.Conserved(created, released, st)
    && (forall e :: e in created ==> e.id < nextId)
    && (forall e :: Tracker.Holds(st, e) ==> e in live)
    && (forall e :: e in released ==> e !in live)
  }

  /** Connecting a fresh id and storing it under a present label keeps the
      invariant. */
  lemma AddStepTracked(created: seq<Subscription>, released: seq<Subscription>,
                       st: Tracker.Storage<Subscription>, live: map<Subscription, Binding>, nextId: nat,
                       lbl: string, e: Subscription, b: Binding, nextId': nat)
    requires Tracked(created, released, st, live, nextId)
    requires nextId <= e.id < nextId'
    ensures Tracked(created + [e], released, Tracker.Append(st, lbl, [e]), live[e := b], nextId')
  {
    var st' := Tracker.Append(st, lbl, [e]);
    assert Tracker.Conserved(created + [e], released, st') by {
      assert e !in created;
      assert Tracker.NoDup([e]);
      Tracker.AppendConserves(created, released, st, lbl, [e]);
    }
    assert forall x :: x in created + [e] ==> x.id < nextId';
    assert forall x :: Tracker.Holds(st', x) ==> x in live[e := b] by {
      forall x | Tracker.Holds(st', x) ensures x in live[e := b] {
        var l :| l in st' && x in st'[l];
        Tracker.InAppend(st, lbl, [e], l, x);
        if x != e {
          assert Tracker.Holds(st, x);
        }
      }
    }
    assert forall x :: x in released ==> x !in live[e := b] by {
      forall x | x in released ensures x !in live[e := b] {
        assert x in created;
      }
    }
  }

  /** Disconnecting every entry of a stored label and deleting the label
      keeps the invariant. */
  lemma RemoveStepTracked(created: seq<Subscription>, released: seq<Subscription>,
                          st: Tracker.Storage<Subscription>, live: map<Subscription, Binding>, nextId: nat,
                          lbl: string)
    requires Tracked(created, released, st, live, nextId)
    requires lbl in st
    ensures Tracked(created, released + st[lbl], st - {lbl}, live - (set e | e in st[lbl]), nextId)
  {
    Tracker.RemoveConserves(created, released, st, lbl);
    var st' := st - {lbl};
    forall x | Tracker.Holds(st', x) ensures x in live && x !in st[lbl] {
      var l :| l in st' && x in st'[l];
      assert x in st[l] && Tracker.Holds(st, x);
    }
    forall x | x in st[lbl] ensures Tracker.Holds(st, x) {
    }
  }

  /** The connections made for `items`, in order, given the entries their
      `connect` calls produced. */
  function Connections(added: seq<Subscription>, items: seq<Item>): map<Subscription, Binding>
    requires |added| == |items|
  {
    if added == [] then map[]
    else
      var n := |added| - 1;
      Connections(added[..n], items[..n])[added[n] := Binding(items[n].event, items[n].callback)]
  }

  /** The connections of a call are made on exactly its new entries. */
  lemma {:induction false} ConnectionsKeys(added: seq<Subscription>, items: seq<Item>)
    requires |added| == |items|
    ensures forall s :: s in Connections(added, items) <==> s in added
  {
    if added != [] {
      var n := |added| - 1;
      ConnectionsKeys(added[..n], items[..n]);
      assert added == added[..n] + [added[n]];
    }
  }

  /** Each new entry is bound to the signal and callback of the item it was
      created for. */
  lemma {:induction false} ConnectionsAt(added: seq<Subscription>, items: seq<Item>, k: nat)
    requires |added| == |items| && Tracker.NoDup(added) && k < |added|
    ensures added[k] in Connections(added, items)
    ensures Connections(added, items)[added[k]] == Binding(items[k].event, items[k].callback)
  {
    var n := |added| - 1;
    assert Connections(added, items)
        == Connections(added[..n], items[..n])[added[n] := Binding(items[n].event, items[n].callback)];
    if k < n {
      assert added == added[..n] + [added[n]];
      Tracker.NoDupSplit(added[..n], [added[n]]);
      assert added[..n][k] == added[k] && items[..n][k] == items[k];
      assert added[k] in added[..n];
      ConnectionsAt(added[..n], items[..n], k);
    }
  }

  /** How far an `addWithLabel` call has got, on values: `added` holds the
      entries made so far, one per leading item and on that item's object,
      none of them a connection that was live before; they follow the
      label's old entries in storage, extend the log of created entries, and
      are exactly the connections added to the host. */
  ghost predicate AddProgress(oldSt: Tracker.Storage<Subscription>, oldLive: map<Subscription, Binding>,
                              oldCreated: seq<Subscription>, lbl: string, items: seq<Item>,
                              added: seq<Subscription>, st: Tracker.Storage<Subscription>,
                              live: map<Subscription, Binding>, created: seq<Subscription>)
  {
    && |added| <= |items|
    && st == oldSt[lbl := Tracker.Bucket(oldSt, lbl) + added]
    && created == oldCreated + added
    && (forall k :: 0 <= k < |added| ==> added[k].obj == items[k].obj)
    && (forall e :: e in added ==> e !in oldLive)
    && live == oldLive + Connections(added, items[..|added|])
  }

  /** One iteration of `addWithLabel`'s loop: pushing a fresh entry made
      for the next item, and connecting it, advance the call by that item. */
  lemma AddLoopStep(oldSt: Tracker.Storage<Subscription>, oldLive: map<Subscription, Binding>,
                    oldCreated: seq<Subscription>, lbl: string, items: seq<Item>,
                    added: seq<Subscription>, st: Tracker.Storage<Subscription>,
                    live: map<Subscription, Binding>, created: seq<Subscription>, e: Subscription)
    requires AddProgress(oldSt, oldLive, oldCreated, lbl, items, added, st, live, created)
    requires |added| < |items| && e.obj == items[|added|].obj && e !in live
    ensures lbl in st
    ensures AddProgress(oldSt, oldLive, oldCreated, lbl, items, added + [e], st[lbl := st[lbl] + [e]],
                        live[e := Binding(items[|added|].event, items[|added|].callback)], created + [e])
  {
    var i := |added|;
    assert Tracker.Bucket(oldSt, lbl) + added + [e] == Tracker.Bucket(oldSt, lbl) + (added + [e]);
    assert (added + [e])[..i] == added && items[..i + 1][..i] == items[..i];
    forall k | 0 <= k < i + 1 ensures (added + [e])[k].obj == items[k].obj {
      if k < i {
        assert (added + [e])[k] == added[k];
      }
    }
  }

  /** How far a teardown has got, on values: the labels in `order` were
      each visited once and are gone from storage, their entries were
      released in visiting order, and exactly those connections were
      cancelled. */
  ghost predicate TeardownProgress(oldSt: Tracker.Storage<Subscription>, oldReleased: seq<Subscription>,
                                   oldLive: map<Subscription, Binding>, order: seq<string>,
                                   st: Tracker.Storage<Subscription>, released: seq<Subscription>,
                                   live: map<Subscription, Binding>)
  {
    && Tracker.NoDup(order)
    && (forall l :: l in order ==> l in oldSt)
    && st == oldSt - (set l | l in order)
    && released == oldReleased + Tracker.Concat(oldSt, order)
    && live == oldLive - (set e | e in Tracker.Concat(oldSt, order))
  }

  /** Removing one more stored label advances a teardown by that label. */
  lemma TeardownStep(oldSt: Tracker.Storage<Subscription>, oldReleased: seq<Subscription>,
                     oldLive: map<Subscription, Binding>, order: seq<string>,
                     st: Tracker.Storage<Subscription>, released: seq<Subscription>,
                     live: map<Subscription, Binding>, lbl: string)
    requires TeardownProgress(oldSt, oldReleased, oldLive, order, st, released, live)
    requires lbl in st
    ensures TeardownProgress(oldSt, oldReleased, oldLive, order + [lbl], st - {lbl},
                             released + Tracker.Bucket(st, lbl),
                             live - (set e | e in Tracker.Bucket(st, lbl)))
  {
    Tracker.VisitNext(oldSt, order, lbl);
    var c := Tracker.Concat(oldSt, order);
    assert (set e | e in c + oldSt[lbl]) == (set e | e in c) + (set e | e in oldSt[lbl]);
  }

  class GlobalSignalsHandler {
    /** `_storage`: label to the `[object, id]` entries created under it. */
    var storage: Tracker.Storage<Subscription>
    /** The host whose objects the entries are connected on. */
    const host: SignalHost
    /** Every entry `Create` returned, in order. */
    ghost var created: seq<Subscription>
    /** Every entry passed to `Remove`, in order. */
    ghost var released: seq<Subscription>

    ghost predicate Valid()
      reads this, host
    {
      host.Valid() && Tracked(created, released, storage, host.live, host.nextId)
    }

    /** `_init`: an empty storage. */
    constructor (host: SignalHost)
      requires host.Valid()
      ensures Valid() && this.host == host
      ensures storage == map[] && created == [] && released == []
    {
      this.host := host;
      storage := map[];
      created := [];
      released := [];
    }

    /** `_create`: connect the callback to the signal on the object and
        return the pair of the object and the id `connect` returned. */
    method Create(item: Item) returns (e: Subscription)
      requires host.Valid()
      modifies this`created, host
      ensures host.Valid()
      ensures e.obj == item.obj && old(host.nextId) <= e.id < host.nextId
      ensures e !in old(host.live)
      ensures host.live == old(host.live)[e := Binding(item.event, item.callback)]
      ensures created == old(created) + [e]
    {
      var id := host.Connect(item.obj, item.event, item.callback);
      e := Subscription(item.obj, id);
      created := created + [e];
    }

    /** `_remove`: disconnect that id on that same object. */
    method Remove(e: Subscription)
      requires host.Valid()
      modifies this`released, host
      ensures host.Valid() && host.nextId == old(host.nextId)
      ensures host.live == old(host.live) - {e}
      ensures released == old(released) + [e]
    {
      host.Disconnect(e.obj, e.id);
      released := released + [e];
    }

    /** One step of `addWithLabel`'s loop: create an entry for the item and
        push it onto the label's sequence. */
    method CreateAndStore(lbl: string, item: Item) returns (e: Subscription)
      requires Valid() && lbl in storage
      modifies this, host
      ensures Valid()
      ensures storage == old(storage)[lbl := old(storage)[lbl] + [e]]
      ensures created == old(created) + [e] && released == old(released)
      ensures e.obj == item.obj && old(host.nextId) <= e.id < host.nextId
      ensures e !in old(host.live)
      ensures host.live == old(host.live)[e := Binding(item.event, item.callback)]
    {
      ghost var before, live, next := created, host.live, host.nextId;
      e := Create(item);
      AddStepTracked(before, released, storage, live, next, lbl, e, Binding(item.event, item.callback), host.nextId);
      storage := storage[lbl := storage[lbl] + [e]];
    }

    /** `addWithLabel`: create the label's sequence if it is absent, then
        create one entry per item, in argument order, appending each after
        the entries already stored. `added` names the new entries. */
    method AddWithLabel(lbl: string, items: seq<Item>) returns (ghost added: seq<Subscription>)
      requires Valid()
      modifies this, host
      ensures Valid()
      ensures storage == Tracker.Append(old(storage), lbl, added)
      ensures created == old(created) + added && released == old(released)
      ensures |added| == |items|
      ensures forall k :: 0 <= k < |items| ==> added[k].obj == items[k].obj
      ensures forall e :: e in added ==> e !in old(host.live)
      ensures old(host.nextId) <= host.nextId
      ensures forall e :: e in added ==> old(host.nextId) <= e.id < host.nextId
      ensures host.live == old(host.live) + Connections(added, items)
    {
      EnsureLabel(lbl);
      added := [];
      assert AddProgress(old(storage), old(host.live), old(created), lbl, items, added, storage, host.live, created) by {
        assert Tracker.Bucket(old(storage), lbl) + [] == Tracker.Bucket(old(storage), lbl);
        assert host.live == old(host.live) + map[];
      }
      for i := 0 to |items|
        invariant Valid() && released == old(released) && |added| == i
        invariant old(host.nextId) <= host.nextId
        invariant forall e :: e in added ==> old(host.nextId) <= e.id < host.nextId
        invariant AddProgress(old(storage), old(host.live), old(created), lbl, items, added, storage, host.live, created)
      {
        ghost var st, live, before := storage, host.live, created;
        var e := CreateAndStore(lbl, items[i]);
        AddLoopStep(old(storage), old(host.live), old(created), lbl, items, added, st, live, before, e);
        added := added + [e];
      }
      assert items[..|items|] == items;
    }

    /** The first half of `addWithLabel`: the label's sequence is created,
        empty, when the label is absent. */
    method EnsureLabel(lbl: string)
      requires Valid()
      modifies this`storage
      ensures Valid()
      ensures storage == old(storage)[lbl := Tracker.Bucket(old(storage), lbl)]
      ensures lbl !in old(storage) ==> storage[lbl] == []
    {
      if lbl !in storage {
        Tracker.AppendConserves(created, released, storage, lbl, []);
        storage := storage[lbl := []];
        forall x | Tracker.Holds(storage, x) ensures Tracker.Holds(old(storage), x) {
          var l :| l in storage && x in storage[l];
          assert l != lbl;
        }
      }
    }

  /** `add`: `addWithLabel` under the label "generic". */
    method Add(items: seq<Item>) returns (ghost added: seq<Subscription>)
      requires Valid()
      modifies this, host
      ensures Valid()
      ensures storage == Tracker.Append(old(storage), Tracker.GenericLabel, added)
      ensures created == old(created) + added && released == old(released)
      ensures |added| == |items|
      ensures forall k :: 0 <= k < |items| ==> added[k].obj == items[k].obj
      ensures forall e :: e in added ==> e !in old(host.live)
      ensures old(host.nextId) <= host.nextId
      ensures forall e :: e in added ==> old(host.nextId) <= e.id < host.nextId
      ensures host.live == old(host.live) + Connections(added, items)
    {
      added := AddWithLabel(Tracker.GenericLabel, items);
    }

    /** `removeWithLabel`: if the label is stored, remove each of its entries
        in stored order, then delete the label; otherwise do nothing. */
    method RemoveWithLabel(lbl: string)
      requires Valid()
      modifies this, host
      ensures Valid()
      ensures storage == old(storage) - {lbl}
      ensures created == old(created)
      ensures released == old(released) + Tracker.Bucket(old(storage), lbl)
      ensures host.live == old(host.live) - (set e | e in Tracker.Bucket(old(storage), lbl))
      ensures host.nextId == old(host.nextId)
      ensures lbl !in old(storage) ==> storage == old(storage) && released == old(released)
    {
      if lbl in storage {
        var i := 0;
        while i < |storage[lbl]|
          invariant storage == old(storage) && created == old(created)
          invariant lbl in storage && 0 <= i <= |storage[lbl]|
          invariant released == old(released) + storage[lbl][..i]
          invariant host.Valid() && host.nextId == old(host.nextId)
          invariant host.live == old(host.live) - (set e | e in storage[lbl][..i])
        {
          Remove(storage[lbl][i]);
          assert storage[lbl][..i + 1] == storage[lbl][..i] + [storage[lbl][i]];
          i := i + 1;
        }
        assert storage[lbl][..i] == storage[lbl];
        RemoveStepTracked(created, old(released), storage, old(host.live), host.nextId, lbl);
        storage := storage - {lbl};
      }
    }

    /** `destroy`: remove every label. The labels are visited in an order
        the source leaves to the host; `order` names the one taken. */
    method Destroy() returns (ghost order: seq<string>)
      requires Valid()
      modifies this, host
      ensures Valid() && storage == map[] && host.nextId == old(host.nextId)
      ensures Tracker.EnumeratesOnce(order, old(storage).Keys)
      ensures created == old(created)
      ensures released == old(released) + Tracker.Concat(old(storage), order)
      ensures forall s :: s in host.live <==> s in old(host.live) && !Tracker.Holds(old(storage), s)
      ensures forall s :: s in host.live ==> host.live[s] == old(host.live)[s]
      ensures multiset(released) == multiset(created)
      ensures forall e :: e in created ==> multiset(released)[e] == 1
    {
      order := [];
      assert old(host.live) - (set e | e in Tracker.Concat(old(storage), order)) == old(host.live);
      while storage.Keys != {}
        invariant Valid() && created == old(created) && host.nextId == old(host.nextId)
        invariant TeardownProgress(old(storage), old(released), old(host.live), order, storage, released, host.live)
        decreases storage.Keys
      {
        var lbl :| lbl in storage;
        TeardownStep(old(storage), old(released), old(host.live), order, storage, released, host.live, lbl);
        RemoveWithLabel(lbl);
        order := order + [lbl];
      }
      assert storage == map[] by {
        assert forall l :: l !in storage;
      }
      Tracker.TeardownVisitsAll(old(storage), order);
      Tracker.TeardownReleasesEachOnce(created, released);
    }
  }

  /** A typical use: two signals connected under one label, then the label
      removed. */
  method UiScenario(obj: ObjectRef, clicked: Callback, closed: Callback) {
    var host := new SignalHost();
    var handler := new GlobalSignalsHandler(host);
    var items := [Item(obj, "clicked", clicked), Item(obj, "closed", closed)];
    ghost var added := handler.AddWithLabel("ui", items);
    assert handler.created == added;
    Tracker.NoDupSplit([], added);
    ConnectionsAt(added, items, 0);
    ConnectionsAt(added, items, 1);
    assert added[0] in host.live && added[1] in host.live;
    assert host.live[added[0]] == Binding("clicked", clicked);
    assert handler.storage["ui"] == added;
    handler.RemoveWithLabel("ui");
    assert added[0] !in host.live && added[1] !in host.live;
    assert "ui" !in handler.storage;
  }

  /** A second `destroy` finds nothing stored and changes nothing. */
  method DestroyTwice(handler: GlobalSignalsHandler)
    requires handler.Valid()
    modifies handler, handler.host
  {
    ghost var _ := handler.Destroy();
    ghost var released, live := handler.released, handler.host.live;
    ghost var order := handler.Destroy();
    assert order == [];
    assert handler.released == released && handler.host.live == live;
  }

  /** Two handlers sharing one host stay valid through each other's calls:
      ids handed to one are never ids the other has stored or released. */
  method SharedHostScenario(obj: ObjectRef, cb: Callback) {
    var host := new SignalHost();
    var a := new GlobalSignalsHandler(host);
    var b := new GlobalSignalsHandler(host);
    ghost var addedB := b.AddWithLabel("m", [Item(obj, "changed", cb)]);
    b.RemoveWithLabel("m");
    ghost var addedA := a.AddWithLabel("l", [Item(obj, "changed", cb)]);
    assert a.Valid() && b.Valid();
  }
}
