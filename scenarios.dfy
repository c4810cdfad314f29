// The scenarios of the listener's test suite, each replayed on a fresh set of
// emitters and a fresh listener (its beforeEach), with the spies' assertions
// stated on the call record the scenario returns: calledOnce and calledTwice
// are call counts, notCalled a count of zero, calledWith a call with exactly
// those arguments. Every handler id stands for its own spy, so distinct spies
// are distinct ids; likewise for distinct emitters.
//
// Each scenario method runs the registry's operations and follows the state
// through their contracts; the companion lemma works out, on the model's
// functions alone, the record those contracts add up to.

module ListenerTests {
  import opened Bindings
  import opened Tables
  import opened Registry

  // ---------------------------------------------------------------------------
  // The model's functions on one- and two-element sequences

  lemma EntriesOnSingleOn(b: Binding, e: EmitterId)
    requires b.emitter == e
    ensures EntriesOn([b], e) == [b.EntryOf()]
  {
    assert [b][1..] == [];
  }

  lemma EntriesOnSingleOff(b: Binding, e: EmitterId)
    requires b.emitter != e
    ensures EntriesOn([b], e) == []
  {
    assert [b][1..] == [];
  }

  lemma EntriesOnPair(b: Binding, b2: Binding, e: EmitterId)
    ensures EntriesOn([b, b2], e) == EntriesOn([b], e) + EntriesOn([b2], e)
  {
    assert [b, b2] == [b] + [b2];
    EntriesOnAppend([b], [b2], e);
  }

  lemma DropFiringSingleFires(b: Binding, e: EmitterId, n: EventName)
    requires Fires(b, e, n)
    ensures DropFiring([b], e, n) == []
  {
    assert [b][1..] == [];
  }

  lemma KeepSingleSelected(b: Binding, sel: Selector)
    requires Matches(b, sel)
    ensures Keep([b], sel) == []
  {
    assert [b][1..] == [];
  }

  lemma KeepFirstOfTwo(bA: Binding, bB: Binding, sel: Selector)
    requires !Matches(bA, sel) && Matches(bB, sel)
    ensures Keep([bA, bB], sel) == [bA]
  {
    assert [bA, bB][1..] == [bB];
    KeepSingleSelected(bB, sel);
  }

  lemma DeliveriesSingleHeard(row: Entry, n: EventName, args: seq<int>)
    requires row.event == n
    ensures Deliveries([row], n, args) == [Call(row.callback.handler, args)]
  {
    assert [row][..0] == [];
  }

  lemma DeliveriesSingleUnheard(row: Entry, n: EventName, args: seq<int>)
    requires row.event != n
    ensures Deliveries([row], n, args) == []
  {
    assert [row][..0] == [];
  }

  lemma DeliveriesPair(row: Entry, row2: Entry, n: EventName, args: seq<int>)
    ensures Deliveries([row, row2], n, args) == Deliveries([row], n, args) + Deliveries([row2], n, args)
  {
    assert [row, row2] == [row] + [row2];
    DeliveriesAppend([row], [row2], n, args);
  }

  lemma CallCountSingle(c: Call, h: HandlerId)
    ensures CallCount([c], h) == if c.handler == h then 1 else 0
  {
    assert [c][..0] == [];
  }

  lemma CallCountsTwiceOnce(h: HandlerId, h2: HandlerId)
    requires h != h2
    ensures CallCount([Call(h, []), Call(h2, []), Call(h, [])], h) == 2
    ensures CallCount([Call(h, []), Call(h2, []), Call(h, [])], h2) == 1
  {
    var c, c2 := Call(h, []), Call(h2, []);
    assert [c, c2, c] == [c] + [c2] + [c];
    CallCountAppend([c] + [c2], [c], h);
    CallCountAppend([c], [c2], h);
    CallCountAppend([c] + [c2], [c], h2);
    CallCountAppend([c], [c2], h2);
    CallCountSingle(c, h);
    CallCountSingle(c, h2);
    CallCountSingle(c2, h);
    CallCountSingle(c2, h2);
  }

  // ---------------------------------------------------------------------------
  // listenTo

  lemma ListenForEventsLog(e: EmitterId, h: HandlerId)
    ensures var b1 := [Binding(e, "test", h, Direct(h))];
      Deliveries(EntriesOn(b1, e), "test", []) + Deliveries(EntriesOn(DropFiring(b1, e, "test"), e), "test", [])
        == [Call(h, []), Call(h, [])]
    ensures CallCount([Call(h, []), Call(h, [])], h) == 2
  {
    var b := Binding(e, "test", h, Direct(h));
    DropFiringNone([b], e, "test");
    EntriesOnSingleOn(b, e);
    DeliveriesSingleHeard(b.EntryOf(), "test", []);
    CallCountSingle(Call(h, []), h);
    CallCountAppend([Call(h, [])], [Call(h, [])], h);
    assert [Call(h, [])] + [Call(h, [])] == [Call(h, []), Call(h, [])];
  }

  /** Two emits reach a persistent handler twice. */
  method ListenForEvents(e: EmitterId, h: HandlerId) returns (calls: seq<Call>)
    ensures calls == [Call(h, []), Call(h, [])]
    ensures CallCount(calls, h) == 2
  {
    var emitters := new Emitters();
    var listener := new EventListener(emitters);
    listener.ListenTo(e, "test", h);
    ghost var b1 := listener.bindings;
    assert b1 == [Binding(e, "test", h, Direct(h))];
    assert emitters.Table(e) == EntriesOn(b1, e);
    emitters.Emit(listener, e, "test", []);
    ghost var c1 := emitters.calls;
    assert c1 == Deliveries(EntriesOn(b1, e), "test", []);
    ghost var b2 := listener.bindings;
    assert emitters.Table(e) == EntriesOn(b2, e);
    emitters.Emit(listener, e, "test", []);
    calls := emitters.calls;
    assert calls == c1 + Deliveries(EntriesOn(b2, e), "test", []);
    ListenForEventsLog(e, h);
  }

  lemma PassOnParametersLog(e: EmitterId, h: HandlerId)
    ensures Deliveries(EntriesOn([Binding(e, "test", h, Direct(h))], e), "test", [1, 2, 3]) == [Call(h, [1, 2, 3])]
    ensures CallCount([Call(h, [1, 2, 3])], h) == 1
  {
    var b := Binding(e, "test", h, Direct(h));
    EntriesOnSingleOn(b, e);
    DeliveriesSingleHeard(b.EntryOf(), "test", [1, 2, 3]);
    CallCountSingle(Call(h, [1, 2, 3]), h);
  }

  /** The handler receives the emitted arguments unchanged. */
  method PassOnParameters(e: EmitterId, h: HandlerId) returns (calls: seq<Call>)
    ensures calls == [Call(h, [1, 2, 3])]
    ensures CallCount(calls, h) == 1 && Call(h, [1, 2, 3]) in calls
  {
    var emitters := new Emitters();
    var listener := new EventListener(emitters);
    listener.ListenTo(e, "test", h);
    ghost var b1 := listener.bindings;
    assert b1 == [Binding(e, "test", h, Direct(h))];
    assert emitters.Table(e) == EntriesOn(b1, e);
    emitters.Emit(listener, e, "test", [1, 2, 3]);
    calls := emitters.calls;
    assert calls == Deliveries(EntriesOn(b1, e), "test", [1, 2, 3]);
    PassOnParametersLog(e, h);
  }

  lemma StopListeningForEventsLog(e: EmitterId, h: HandlerId)
    ensures var b1 := [Binding(e, "test", h, Direct(h))];
      var b3 := Keep(DropFiring(b1, e, "test"), Everything);
      Deliveries(EntriesOn(b1, e), "test", []) + Deliveries(EntriesOn(b3, e), "test", []) == [Call(h, [])]
    ensures CallCount([Call(h, [])], h) == 1
  {
    var b := Binding(e, "test", h, Direct(h));
    DropFiringNone([b], e, "test");
    KeepSingleSelected(b, Everything);
    EntriesOnSingleOn(b, e);
    DeliveriesSingleHeard(b.EntryOf(), "test", []);
    CallCountSingle(Call(h, []), h);
  }

  /** After stopListening() the second emit reaches nobody. */
  method StopListeningForEvents(e: EmitterId, h: HandlerId) returns (calls: seq<Call>)
    ensures calls == [Call(h, [])]
    ensures CallCount(calls, h) == 1
  {
    var emitters := new Emitters();
    var listener := new EventListener(emitters);
    listener.ListenTo(e, "test", h);
    ghost var b1 := listener.bindings;
    assert b1 == [Binding(e, "test", h, Direct(h))];
    assert emitters.Table(e) == EntriesOn(b1, e);
    emitters.Emit(listener, e, "test", []);
    ghost var c1 := emitters.calls;
    assert c1 == Deliveries(EntriesOn(b1, e), "test", []);
    listener.StopListening(Everything);
    ghost var b3 := listener.bindings;
    assert b3 == Keep(DropFiring(b1, e, "test"), Everything);
    assert emitters.Table(e) == EntriesOn(b3, e);
    emitters.Emit(listener, e, "test", []);
    calls := emitters.calls;
    assert calls == c1 + Deliveries(EntriesOn(b3, e), "test", []);
    StopListeningForEventsLog(e, h);
  }

  lemma StopForEmitterLog(e: EmitterId, e2: EmitterId, h: HandlerId, h2: HandlerId)
    requires e != e2
    ensures var b1 := [Binding(e, "test", h, Direct(h)), Binding(e2, "test", h2, Direct(h2))];
      var b4 := Keep(DropFiring(DropFiring(b1, e, "test"), e2, "test"), OnEmitter(e2));
      Deliveries(EntriesOn(b1, e), "test", []) + Deliveries(EntriesOn(DropFiring(b1, e, "test"), e2), "test", [])
      + Deliveries(EntriesOn(b4, e), "test", []) + Deliveries(EntriesOn(DropFiring(b4, e, "test"), e2), "test", [])
        == [Call(h, []), Call(h2, []), Call(h, [])]
  {
    var bA := Binding(e, "test", h, Direct(h));
    var bB := Binding(e2, "test", h2, Direct(h2));
    StopForEmitterBindings(bA, bB, e, e2);
    DeliveriesSingleHeard(bA.EntryOf(), "test", []);
    DeliveriesSingleHeard(bB.EntryOf(), "test", []);
    assert [Call(h, []), Call(h2, []), Call(h, [])] == [Call(h, [])] + [Call(h2, [])] + [Call(h, [])] + [];
  }

  lemma StopForEmitterBindings(bA: Binding, bB: Binding, e: EmitterId, e2: EmitterId)
    requires bA.emitter == e && bB.emitter == e2 && e != e2
    requires !bA.Once() && !bB.Once()
    ensures DropFiring([bA, bB], e, "test") == [bA, bB] && DropFiring([bA, bB], e2, "test") == [bA, bB]
    ensures Keep([bA, bB], OnEmitter(e2)) == [bA] && DropFiring([bA], e, "test") == [bA]
    ensures EntriesOn([bA, bB], e) == [bA.EntryOf()] && EntriesOn([bA, bB], e2) == [bB.EntryOf()]
    ensures EntriesOn([bA], e) == [bA.EntryOf()] && EntriesOn([bA], e2) == []
  {
    DropFiringNone([bA, bB], e, "test");
    DropFiringNone([bA, bB], e2, "test");
    KeepFirstOfTwo(bA, bB, OnEmitter(e2));
    DropFiringNone([bA], e, "test");
    EntriesOnPair(bA, bB, e);
    EntriesOnPair(bA, bB, e2);
    EntriesOnSingleOn(bA, e);
    EntriesOnSingleOff(bB, e);
    EntriesOnSingleOff(bA, e2);
    EntriesOnSingleOn(bB, e2);
  }

  /** stopListening(e2) silences only the subscription on e2. */
  method StopForEmitter(e: EmitterId, e2: EmitterId, h: HandlerId, h2: HandlerId) returns (calls: seq<Call>)
    requires e != e2 && h != h2
    ensures calls == [Call(h, []), Call(h2, []), Call(h, [])]
    ensures CallCount(calls, h) == 2 && CallCount(calls, h2) == 1
  {
    var emitters := new Emitters();
    var listener := new EventListener(emitters);
    listener.ListenTo(e, "test", h);
    listener.ListenTo(e2, "test", h2);
    ghost var b1 := listener.bindings;
    assert b1 == [Binding(e, "test", h, Direct(h)), Binding(e2, "test", h2, Direct(h2))];
    assert emitters.Table(e) == EntriesOn(b1, e);
    emitters.Emit(listener, e, "test", []);
    ghost var c1 := emitters.calls;
    assert c1 == Deliveries(EntriesOn(b1, e), "test", []);
    ghost var b2 := listener.bindings;
    assert emitters.Table(e2) == EntriesOn(b2, e2);
    emitters.Emit(listener, e2, "test", []);
    ghost var c2 := emitters.calls;
    assert c2 == c1 + Deliveries(EntriesOn(b2, e2), "test", []);
    listener.StopListening(OnEmitter(e2));
    ghost var b4 := listener.bindings;
    assert b4 == Keep(DropFiring(b2, e2, "test"), OnEmitter(e2));
    assert emitters.Table(e) == EntriesOn(b4, e);
    emitters.Emit(listener, e, "test", []);
    ghost var c3 := emitters.calls;
    assert c3 == c2 + Deliveries(EntriesOn(b4, e), "test", []);
    ghost var b5 := listener.bindings;
    assert emitters.Table(e2) == EntriesOn(b5, e2);
    emitters.Emit(listener, e2, "test", []);
    calls := emitters.calls;
    assert calls == c3 + Deliveries(EntriesOn(b5, e2), "test", []);
    StopForEmitterLog(e, e2, h, h2);
    CallCountsTwiceOnce(h, h2);
  }

  lemma StopForEventLog(e: EmitterId, h: HandlerId, h2: HandlerId)
    ensures var b1 := [Binding(e, "test", h, Direct(h)), Binding(e, "other", h2, Direct(h2))];
      var b4 := Keep(DropFiring(DropFiring(b1, e, "test"), e, "other"), OnEvent(e, "other"));
      Deliveries(EntriesOn(b1, e), "test", []) + Deliveries(EntriesOn(DropFiring(b1, e, "test"), e), "other", [])
      + Deliveries(EntriesOn(b4, e), "test", []) + Deliveries(EntriesOn(DropFiring(b4, e, "test"), e), "other", [])
        == [Call(h, []), Call(h2, []), Call(h, [])]
  {
    var bA := Binding(e, "test", h, Direct(h));
    var bB := Binding(e, "other", h2, Direct(h2));
    var b1 := [bA, bB];
    assert "test" != "other" by { assert "test"[0] != "other"[0]; }
    DropFiringNone(b1, e, "test");
    DropFiringNone(b1, e, "other");
    KeepFirstOfTwo(bA, bB, OnEvent(e, "other"));
    DropFiringNone([bA], e, "test");
    EntriesOnPair(bA, bB, e);
    EntriesOnSingleOn(bA, e);
    EntriesOnSingleOn(bB, e);
    var rA, rB := bA.EntryOf(), bB.EntryOf();
    assert EntriesOn(b1, e) == [rA, rB];
    DeliveriesPair(rA, rB, "test", []);
    DeliveriesPair(rA, rB, "other", []);
    DeliveriesSingleHeard(rA, "test", []);
    DeliveriesSingleUnheard(rB, "test", []);
    DeliveriesSingleUnheard(rA, "other", []);
    DeliveriesSingleHeard(rB, "other", []);
    assert [Call(h, []), Call(h2, []), Call(h, [])] == [Call(h, [])] + [Call(h2, [])] + [Call(h, [])] + [];
  }

  /** stopListening(e, "other") silences only the subscription to that event. */
  method StopForEvent(e: EmitterId, h: HandlerId, h2: HandlerId) returns (calls: seq<Call>)
    requires h != h2
    ensures calls == [Call(h, []), Call(h2, []), Call(h, [])]
    ensures CallCount(calls, h) == 2 && CallCount(calls, h2) == 1
  {
    var emitters := new Emitters();
    var listener := new EventListener(emitters);
    listener.ListenTo(e, "test", h);
    listener.ListenTo(e, "other", h2);
    ghost var b1 := listener.bindings;
    assert b1 == [Binding(e, "test", h, Direct(h)), Binding(e, "other", h2, Direct(h2))];
    assert emitters.Table(e) == EntriesOn(b1, e);
    emitters.Emit(listener, e, "test", []);
    ghost var c1 := emitters.calls;
    assert c1 == Deliveries(EntriesOn(b1, e), "test", []);
    ghost var b2 := listener.bindings;
    assert emitters.Table(e) == EntriesOn(b2, e);
    emitters.Emit(listener, e, "other", []);
    ghost var c2 := emitters.calls;
    assert c2 == c1 + Deliveries(EntriesOn(b2, e), "other", []);
    listener.StopListening(OnEvent(e, "other"));
    ghost var b4 := listener.bindings;
    assert b4 == Keep(DropFiring(b2, e, "other"), OnEvent(e, "other"));
    assert emitters.Table(e) == EntriesOn(b4, e);
    emitters.Emit(listener, e, "test", []);
    ghost var c3 := emitters.calls;
    assert c3 == c2 + Deliveries(EntriesOn(b4, e), "test", []);
    ghost var b5 := listener.bindings;
    assert emitters.Table(e) == EntriesOn(b5, e);
    emitters.Emit(listener, e, "other", []);
    calls := emitters.calls;
    assert calls == c3 + Deliveries(EntriesOn(b5, e), "other", []);
    StopForEventLog(e, h, h2);
    CallCountsTwiceOnce(h, h2);
  }

  lemma StopForHandlerLog(e: EmitterId, h: HandlerId, h2: HandlerId)
    requires h != h2
    ensures var b1 := [Binding(e, "test", h, Direct(h)), Binding(e, "test", h2, Direct(h2))];
      var b3 := Keep(DropFiring(b1, e, "test"), OnHandler(e, "test", h2));
      Deliveries(EntriesOn(b1, e), "test", []) + Deliveries(EntriesOn(b3, e), "test", [])
        == [Call(h, []), Call(h2, []), Call(h, [])]
  {
    var bA := Binding(e, "test", h, Direct(h));
    var bB := Binding(e, "test", h2, Direct(h2));
    var b1 := [bA, bB];
    DropFiringNone(b1, e, "test");
    KeepFirstOfTwo(bA, bB, OnHandler(e, "test", h2));
    EntriesOnPair(bA, bB, e);
    EntriesOnSingleOn(bA, e);
    EntriesOnSingleOn(bB, e);
    var rA, rB := bA.EntryOf(), bB.EntryOf();
    assert EntriesOn(b1, e) == [rA, rB];
    DeliveriesPair(rA, rB, "test", []);
    DeliveriesSingleHeard(rA, "test", []);
    DeliveriesSingleHeard(rB, "test", []);
    assert [Call(h, []), Call(h2, []), Call(h, [])] == [Call(h, []), Call(h2, [])] + [Call(h, [])];
  }

  /** stopListening(e, "test", h2) silences h2 and leaves h subscribed. */
  method StopForHandler(e: EmitterId, h: HandlerId, h2: HandlerId) returns (calls: seq<Call>)
    requires h != h2
    ensures calls == [Call(h, []), Call(h2, []), Call(h, [])]
    ensures CallCount(calls, h) == 2 && CallCount(calls, h2) == 1
  {
    var emitters := new Emitters();
    var listener := new EventListener(emitters);
    listener.ListenTo(e, "test", h);
    listener.ListenTo(e, "test", h2);
    ghost var b1 := listener.bindings;
    assert b1 == [Binding(e, "test", h, Direct(h)), Binding(e, "test", h2, Direct(h2))];
    assert emitters.Table(e) == EntriesOn(b1, e);
    emitters.Emit(listener, e, "test", []);
    ghost var c1 := emitters.calls;
    assert c1 == Deliveries(EntriesOn(b1, e), "test", []);
    listener.StopListening(OnHandler(e, "test", h2));
    ghost var b3 := listener.bindings;
    assert b3 == Keep(DropFiring(b1, e, "test"), OnHandler(e, "test", h2));
    assert emitters.Table(e) == EntriesOn(b3, e);
    emitters.Emit(listener, e, "test", []);
    calls := emitters.calls;
    assert calls == c1 + Deliveries(EntriesOn(b3, e), "test", []);
    StopForHandlerLog(e, h, h2);
    CallCountsTwiceOnce(h, h2);
  }

  // ---------------------------------------------------------------------------
  // listenToOnce

  /** A lone once subscription to (e, n): the first emit(n) on e calls its
      handler, and retires the binding. */
  lemma LoneOnce(e: EmitterId, n: EventName, h: HandlerId, serial: nat, args: seq<int>)
    ensures var b := Binding(e, n, h, OnceWrapper(serial, e, n, h));
      && Deliveries(EntriesOn([b], e), n, args) == [Call(h, args)]
      && DropFiring([b], e, n) == []
  {
    var b := Binding(e, n, h, OnceWrapper(serial, e, n, h));
    EntriesOnSingleOn(b, e);
    DeliveriesSingleHeard(b.EntryOf(), n, args);
    DropFiringSingleFires(b, e, n);
  }

  /** The handler is called on the first emit, after which nothing is left
      subscribed and the emitter's table is empty. */
  method ListenOnce(e: EmitterId, h: HandlerId) returns (calls: seq<Call>, bindings: seq<Binding>, table: seq<Entry>)
    ensures calls == [Call(h, [])] && CallCount(calls, h) == 1
    ensures bindings == [] && table == []
  {
    var emitters := new Emitters();
    var listener := new EventListener(emitters);
    listener.ListenToOnce(e, "test", h);
    ghost var b1 := listener.bindings;
    assert b1 == [Binding(e, "test", h, OnceWrapper(0, e, "test", h))];
    assert emitters.Table(e) == EntriesOn(b1, e);
    emitters.Emit(listener, e, "test", []);
    calls := emitters.calls;
    assert calls == Deliveries(EntriesOn(b1, e), "test", []);
    bindings := listener.bindings;
    assert bindings == DropFiring(b1, e, "test");
    LoneOnce(e, "test", h, 0, []);
    table := emitters.Table(e);
    assert table == EntriesOn(bindings, e);
    CallCountSingle(Call(h, []), h);
  }

  /** The wrapper passes the emitted arguments on to the handler. */
  method PassOnParametersOnce(e: EmitterId, h: HandlerId) returns (calls: seq<Call>)
    ensures calls == [Call(h, [1, 2, 3])]
    ensures CallCount(calls, h) == 1 && Call(h, [1, 2, 3]) in calls
  {
    var emitters := new Emitters();
    var listener := new EventListener(emitters);
    listener.ListenToOnce(e, "test", h);
    ghost var b1 := listener.bindings;
    assert b1 == [Binding(e, "test", h, OnceWrapper(0, e, "test", h))];
    assert emitters.Table(e) == EntriesOn(b1, e);
    emitters.Emit(listener, e, "test", [1, 2, 3]);
    calls := emitters.calls;
    assert calls == Deliveries(EntriesOn(b1, e), "test", [1, 2, 3]);
    LoneOnce(e, "test", h, 0, [1, 2, 3]);
    CallCountSingle(Call(h, [1, 2, 3]), h);
  }

  /** stopListening() before the emit: the handler is never called. */
  method StopListeningOnce(e: EmitterId, h: HandlerId) returns (calls: seq<Call>)
    ensures calls == [] && CallCount(calls, h) == 0
  {
    var emitters := new Emitters();
    var listener := new EventListener(emitters);
    listener.ListenToOnce(e, "test", h);
    ghost var b1 := listener.bindings;
    assert b1 == [Binding(e, "test", h, OnceWrapper(0, e, "test", h))];
    listener.StopListening(Everything);
    ghost var b2 := listener.bindings;
    assert b2 == Keep(b1, Everything);
    KeepSingleSelected(b1[0], Everything);
    assert emitters.Table(e) == EntriesOn(b2, e);
    emitters.Emit(listener, e, "test", []);
    calls := emitters.calls;
    assert calls == Deliveries(EntriesOn(b2, e), "test", []);
  }

  /** Two once subscriptions, h's on (e, "test") first, of which sel removes
      only the second: an emit of "test" on e then calls h once and retires its
      binding, so a later emit on any emitter finds nothing left. */
  lemma OnceLog(e: EmitterId, h: HandlerId, bB: Binding, sel: Selector, e2: EmitterId, h2: HandlerId)
    requires !Matches(Binding(e, "test", h, OnceWrapper(0, e, "test", h)), sel) && Matches(bB, sel)
    requires h != h2
    ensures var b2 := Keep([Binding(e, "test", h, OnceWrapper(0, e, "test", h)), bB], sel);
      && Deliveries(EntriesOn(b2, e), "test", []) == [Call(h, [])]
      && EntriesOn(DropFiring(b2, e, "test"), e2) == []
    ensures CallCount([Call(h, [])], h) == 1 && CallCount([Call(h, [])], h2) == 0
  {
    KeepFirstOfTwo(Binding(e, "test", h, OnceWrapper(0, e, "test", h)), bB, sel);
    LoneOnce(e, "test", h, 0, []);
    CallCountSingle(Call(h, []), h);
    CallCountSingle(Call(h, []), h2);
  }

  /** stopListening(e2) before the emits: only the subscription on e fires. */
  method StopOnceForEmitter(e: EmitterId, e2: EmitterId, h: HandlerId, h2: HandlerId) returns (calls: seq<Call>)
    requires e != e2 && h != h2
    ensures calls == [Call(h, [])]
    ensures CallCount(calls, h) == 1 && CallCount(calls, h2) == 0
  {
    var emitters := new Emitters();
    var listener := new EventListener(emitters);
    listener.ListenToOnce(e, "test", h);
    listener.ListenToOnce(e2, "test", h2);
    ghost var bB := Binding(e2, "test", h2, OnceWrapper(1, e2, "test", h2));
    ghost var b1 := listener.bindings;
    assert b1 == [Binding(e, "test", h, OnceWrapper(0, e, "test", h)), bB];
    listener.StopListening(OnEmitter(e2));
    ghost var b2 := listener.bindings;
    assert b2 == Keep(b1, OnEmitter(e2));
    assert emitters.Table(e) == EntriesOn(b2, e);
    emitters.Emit(listener, e, "test", []);
    ghost var c1 := emitters.calls;
    assert c1 == Deliveries(EntriesOn(b2, e), "test", []);
    ghost var b3 := listener.bindings;
    assert b3 == DropFiring(b2, e, "test");
    assert emitters.Table(e2) == EntriesOn(b3, e2);
    emitters.Emit(listener, e2, "test", []);
    calls := emitters.calls;
    assert calls == c1 + Deliveries(EntriesOn(b3, e2), "test", []);
    OnceLog(e, h, bB, OnEmitter(e2), e2, h2);
  }

  /** stopListening(e, "other") before the emits: only the "test" subscription fires. */
  method StopOnceForEvent(e: EmitterId, h: HandlerId, h2: HandlerId) returns (calls: seq<Call>)
    requires h != h2
    ensures calls == [Call(h, [])]
    ensures CallCount(calls, h) == 1 && CallCount(calls, h2) == 0
  {
    var emitters := new Emitters();
    var listener := new EventListener(emitters);
    listener.ListenToOnce(e, "test", h);
    listener.ListenToOnce(e, "other", h2);
    ghost var bB := Binding(e, "other", h2, OnceWrapper(1, e, "other", h2));
    ghost var b1 := listener.bindings;
    assert b1 == [Binding(e, "test", h, OnceWrapper(0, e, "test", h)), bB];
    listener.StopListening(OnEvent(e, "other"));
    ghost var b2 := listener.bindings;
    assert b2 == Keep(b1, OnEvent(e, "other"));
    assert emitters.Table(e) == EntriesOn(b2, e);
    emitters.Emit(listener, e, "test", []);
    ghost var c1 := emitters.calls;
    assert c1 == Deliveries(EntriesOn(b2, e), "test", []);
    ghost var b3 := listener.bindings;
    assert b3 == DropFiring(b2, e, "test");
    assert emitters.Table(e) == EntriesOn(b3, e);
    emitters.Emit(listener, e, "other", []);
    calls := emitters.calls;
    assert calls == c1 + Deliveries(EntriesOn(b3, e), "other", []);
    assert "test" != "other" by { assert "test"[0] != "other"[0]; }
    OnceLog(e, h, bB, OnEvent(e, "other"), e, h2);
  }

  /** stopListening(e, "test", h2) before the emit: only h is called. */
  method StopOnceForHandler(e: EmitterId, h: HandlerId, h2: HandlerId) returns (calls: seq<Call>)
    requires h != h2
    ensures calls == [Call(h, [])]
    ensures CallCount(calls, h) == 1 && CallCount(calls, h2) == 0
  {
    var emitters := new Emitters();
    var listener := new EventListener(emitters);
    listener.ListenToOnce(e, "test", h);
    listener.ListenToOnce(e, "test", h2);
    ghost var bB := Binding(e, "test", h2, OnceWrapper(1, e, "test", h2));
    ghost var b1 := listener.bindings;
    assert b1 == [Binding(e, "test", h, OnceWrapper(0, e, "test", h)), bB];
    listener.StopListening(OnHandler(e, "test", h2));
    ghost var b2 := listener.bindings;
    assert b2 == Keep(b1, OnHandler(e, "test", h2));
    assert emitters.Table(e) == EntriesOn(b2, e);
    emitters.Emit(listener, e, "test", []);
    calls := emitters.calls;
    assert calls == Deliveries(EntriesOn(b2, e), "test", []);
    OnceLog(e, h, bB, OnHandler(e, "test", h2), e, h2);
  }
}
