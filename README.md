# node-events-listener: the EventListener subscription registry

An `EventListener` remembers every subscription it makes on Node
`EventEmitter`s so that it can undo them later:

- `listenTo(emitter, event, handler)` registers `handler` on the emitter and
  records a binding;
- `listenToOnce(emitter, event, handler)` registers a fresh wrapper instead;
  the first time the wrapper fires it calls `handler`, then removes itself
  from the emitter and from the listener;
- `stopListening()`, `stopListening(emitter)`, `stopListening(emitter, event)`
  and `stopListening(emitter, event, handler)` remove every binding the
  arguments select, matching on the handler the caller passed (never on the
  wrapper), and deregister from the emitter exactly the callback that was
  registered for it.

The behaviour is the one the package's test suite, `test/test.js`, pins down.
The model has three layers:

- `Bindings` (bindings.dfy): the values. A `Callback` is either the caller's
  handler (`Direct`) or the s-th once wrapper, a closure over emitter, event
  and handler (`OnceWrapper`). A `Binding` is (emitter, event, original
  handler, dispatch callback); `Once()` is derived from the dispatch callback.
  A `Selector` gives the four shapes of `stopListening`. `Keep`, `DropFiring`
  and `Without` are the filters that stopListening, an emit and a wrapper's
  self-removal apply to the binding list; `EntriesOn` is the table that a
  binding list puts on one emitter.
- `Tables` (tables.dfy): one emitter's ordered handler table. `on` appends a
  row; `off` (Node's `removeListener`) drops the most recently added equal
  row; `emit` walks a snapshot of the table and records one call per row for
  the event (`Deliveries`). Handlers and emitters are opaque ids, compared by
  identity; the emitted arguments are a `seq<int>`.
- `Registry` (registry.dfy): the state that changes in place. `Emitters` holds
  every emitter's table and the record of calls the handlers receive, which
  stands for the sinon spies. `EventListener` holds the binding list and a
  counter numbering the wrappers it has built. `EventListener.Valid()` says
  the two agree: every table is exactly the rows of the bindings on that
  emitter, in binding order. `ListenTo`, `ListenToOnce`, `StopListening` and
  `Emit` keep `Valid()` and state their new state outright. The helpers of the
  two walks keep a progress invariant instead (`Walked` for emit's walk,
  `Unsubscribed` for stopListening's). `Forget` and `Deliver` keep neither:
  they state the change they make directly. `Forget` drops a binding, and the
  emitter's table follows only when `Deliver` removes the row right after;
  `Step`, which calls `Deliver`, re-establishes `Walked`. `Emit` is a loop
  over the snapshot in which a once wrapper removes its own binding and row.
- `ListenerTests` (scenarios.dfy): the twelve scenarios of the test suite,
  each run on fresh emitters and a fresh listener. Each method's postcondition
  is the exact call record and the spies' call counts. Each companion `...Log`
  lemma works the record out on the model's functions.

## Model

| member | source | states |
|---|---|---|
| Bindings.Selects | test/test.js:31 | a selector covers only subscriptions that agree with every argument given to stopListening: the emitter, then the event, then the handler |
| Bindings.Matches | test/test.js:143 | a binding is matched by its original handler, so a once binding is found through the handler its wrapper closes over |
| Bindings.SelectorsNest | test/test.js:45 | the four shapes nest: what stopListening(e, n, h) covers, stopListening(e, n) covers; what that covers, stopListening(e) covers; stopListening() covers everything |
| Bindings.Keep | test/test.js:28-34 | the bindings left by stopListening(sel) are exactly the old ones that sel does not match |
| Bindings.DropFiring | test/test.js:90-94 | after an emit of event n on emitter e, the bindings left are exactly the old ones that are not once bindings on (e, n) |
| Bindings.Without | test/test.js:90-94 | a fired wrapper's self-removal keeps exactly the bindings whose dispatch callback is not among the spent wrappers |
| Bindings.EntriesOn | test/test.js:14-19 | every binding on emitter e has its row (event, dispatch callback) in e's table |
| Bindings.KeepShrinks | test/test.js:28-34 | stopListening never duplicates a binding: the kept multiset is contained in the old one |
| Bindings.DropFiringShrinks | test/test.js:90-94 | an emit never duplicates a binding either |
| Bindings.WrapperEntriesOn | test/test.js:90-94 | a wrapper row in e's table closes over e and over the row's own event |
| Bindings.WrapperEntryCount | test/test.js:90-94 | a wrapper row occurs in the table exactly as often as its binding occurs in the registry |
| Bindings.SelectedRowNotKept | test/test.js:67-78 | the row of a binding that the selector matches is not the row of any binding it spares |
| Bindings.WithoutMore | test/test.js:90-94 | removing the wrappers one after another equals removing them all at once |
| Bindings.WithoutNothing | test/test.js:90-94 | removing no wrapper changes nothing |
| Bindings.WithoutIsDropFiring | test/test.js:90-94 | when the spent wrappers are exactly those of the firing bindings, self-removal equals DropFiring |
| Bindings.KeepIdempotent | test/test.js:28-34 | stopListening twice with the same arguments removes nothing the second time |
| Bindings.KeepNoMatch | test/test.js:36-50 | stopListening with a selector that matches no binding leaves the registry as it was (the stopListening tests never exercise this no-op case) |
| Bindings.DropFiringNone | test/test.js:14-19 | an emit that fires no once binding leaves the registry unchanged |
| Bindings.DropFiringSpares | test/test.js:14-19 | an emit keeps every copy of every binding it does not fire, so duplicate listenTo bindings all survive, even an emit that retires once bindings |
| Bindings.StopSilences | test/test.js:28-34 | after stopListening(sel), no binding that sel covers remains, for every emitter, event and handler |
| Bindings.StopSpares | test/test.js:36-50 | after stopListening(sel), the number of bindings sel does not cover is unchanged |
| Tables.RemoveLast | test/test.js:28-34 | off shortens the table by one exactly when the row is present, and otherwise leaves its length |
| Tables.StripOnce | test/test.js:90-94 | the table an emit of n leaves holds exactly the old rows that are not wrapper rows for n, and is no longer than before |
| Tables.CallCount | test/test.js:14-19 | a spy's callCount is at most the length of the call record |
| Tables.CallCountAppend | test/test.js:14-19 | a spy's callCount over a record split in two is the sum of the counts over the parts, so each emit adds its own calls |
| Tables.CallCountZero | test/test.js:103-108 | a spy's callCount is zero (notCalled) exactly when no recorded call is of that handler |
| Tables.Deliveries | test/test.js:21-26 | an emit makes at most one call per row, and every call carries the emitted arguments |
| Tables.FiredIn | test/test.js:90-94 | the wrappers that fire on emit(n) are exactly the wrapper callbacks with a row for n |
| Tables.LastIndexOf | test/test.js:28-34 | removeListener's backward search returns the last position of the row, or -1 exactly when it is absent |
| Tables.RemoveLastMultiset | test/test.js:28-34 | off removes exactly one occurrence of the row, or nothing when it is absent |
| Tables.RemoveLastSplit | test/test.js:67-78 | off drops the last equal row and keeps every other row in place |
| Tables.RemoveLastAbsent | test/test.js:36-50 | off of an absent row leaves the table unchanged (the tests never call off for an absent row) |
| Tables.RemoveAt | test/test.js:28-34 | cutting the table at the position LastIndexOf finds is the same as RemoveLast |
| Tables.DeliveriesCount | test/test.js:14-19 | an emit calls handler h once per row for the event that invokes h |
| Tables.RowsAreBindings | test/test.js:14-19 | the rows on e for n that invoke h are counted by the bindings of h to (e, n) |
| Tables.EmitCallsPerBinding | test/test.js:14-19 | each emit(n) on e calls h exactly once per live binding of h to (e, n) |
| Tables.EntriesAfterFiring | test/test.js:90-94 | after the once bindings on (e, n) fire, e's table loses exactly their rows and no other table changes |
| Registry.Emitters.constructor | test/test.js:8-12 | fresh emitters: every table is empty and nothing has been called |
| Registry.Emitters.On | test/test.js:15 | on appends one row to the emitter's table and leaves every other table and the call record alone |
| Registry.Emitters.Off | test/test.js:31 | off drops the last equal row of the emitter's table and leaves everything else alone |
| Registry.Emitters.Emit | test/test.js:16-17 | emit adds the calls of its table snapshot in order, retires the once bindings on (e, n) with their rows, and keeps registry and tables in step |
| Registry.Emitters.Finish | test/test.js:90-94 | once the walk covers the snapshot, the registry has lost exactly the firing bindings and e's table exactly their rows |
| Registry.Emitters.Step | test/test.js:16-17 | one row of the walk: the walk's progress invariant moves one row forward, and no other table changes |
| Registry.Emitters.Deliver | test/test.js:92 | a row for the event records a call of its handler; a wrapper row also removes its binding and its table row |
| Registry.Emitters.WrapperRowIsUnique | test/test.js:90-94 | a wrapper row in the snapshot occurs nowhere after its position, so its self-removal drops that very row |
| Registry.Emitters.FiredAreFiring | test/test.js:90-94 | the wrappers met on the walk are the dispatch callbacks of exactly the firing once bindings |
| Registry.Emitters.EntriesAfterFiringAll | test/test.js:90-94 | for every emitter, the rows left after the firing are those of the bindings left |
| Registry.EventListener.RowsRegistered | test/test.js:28-34 | in a registry that agrees with the tables (`Valid`: every table is the rows of the bindings on it), every binding's row is in its emitter's table |
| Registry.EventListener.constructor | test/test.js:10 | a new listener has no bindings, has built no wrappers, and agrees with the (empty) tables |
| Registry.EventListener.ListenTo | test/test.js:15 | appends the binding (e, n, h, h), adds its row to e's table, and makes no call |
| Registry.EventListener.ListenToOnce | test/test.js:91 | appends a binding whose dispatch is a fresh wrapper over (e, n, h), adds its row, and numbers the next wrapper |
| Registry.EventListener.Record | test/test.js:15 | registering a consistent binding appends it and its row while registry and tables stay in step |
| Registry.EventListener.StopListening | test/test.js:31 | the bindings become Keep(old bindings, sel), the tables follow them, and no call is made |
| Registry.EventListener.Deregister | test/test.js:45 | the backward walk of off calls leaves each table holding exactly the rows of the kept bindings |
| Registry.EventListener.KeepStaysValid | test/test.js:74 | what stopListening keeps is still consistent, numbered below the counter and free of duplicate wrappers |
| Registry.EventListener.StopAt | test/test.js:60 | one step of the backward walk: binding i is deregistered or kept and the walk's invariant moves one place back |
| Registry.EventListener.StopStep | test/test.js:74 | removing the last equal row of a selected binding leaves exactly the rows of the bindings before it and the kept ones after it |
| Registry.EventListener.Forget | test/test.js:92 | a fired wrapper removes from the registry exactly the binding built for it |
| ListenerTests.ListenForEventsLog | test/test.js:14-19 | two emits of "test" on a listenTo binding give the record [h, h] |
| ListenerTests.ListenForEvents | test/test.js:14-19 | the handler is called exactly twice (calledTwice) |
| ListenerTests.PassOnParametersLog | test/test.js:21-26 | one emit with 1, 2, 3 gives the record [h(1, 2, 3)] |
| ListenerTests.PassOnParameters | test/test.js:21-26 | the handler is called once, and with exactly 1, 2, 3 (calledOnce, calledWith) |
| ListenerTests.StopListeningForEventsLog | test/test.js:28-34 | emit, stopListening(), emit gives the record [h] |
| ListenerTests.StopListeningForEvents | test/test.js:28-34 | the handler is called exactly once (calledOnce) |
| ListenerTests.StopForEmitterLog | test/test.js:36-50 | emits on both emitters around stopListening(emitter2) give the record [h, h2, h] |
| ListenerTests.StopForEmitterBindings | test/test.js:36-50 | stopListening(emitter2) keeps only the binding on the first emitter, and emits retire neither persistent binding |
| ListenerTests.StopForEmitter | test/test.js:36-50 | h is called twice and h2 once (calledTwice, calledOnce) |
| ListenerTests.StopForEventLog | test/test.js:52-65 | emits of "test" and "other" around stopListening(emitter, "other") give the record [h, h2, h] |
| ListenerTests.StopForEvent | test/test.js:52-65 | h is called twice and h2 once |
| ListenerTests.StopForHandlerLog | test/test.js:67-78 | emits around stopListening(emitter, "test", h2) give the record [h, h2, h] |
| ListenerTests.StopForHandler | test/test.js:67-78 | h is called twice and h2 once |
| ListenerTests.LoneOnce | test/test.js:90-94 | a lone once binding is called once by the first emit and is then gone |
| ListenerTests.ListenOnce | test/test.js:90-94 | the handler is called once; afterwards the listener has no binding and the emitter's table is empty |
| ListenerTests.PassOnParametersOnce | test/test.js:96-101 | the wrapper passes 1, 2, 3 to the handler, which is called once |
| ListenerTests.StopListeningOnce | test/test.js:103-108 | stopListening() before the emit: the handler is never called (notCalled) |
| ListenerTests.OnceLog | test/test.js:110-135 | for any selector that spares the once binding (e, 'test', h) and catches the second one: the first emit calls h alone, nothing on the second emitter is left to fire, so h is called once and h2 never |
| ListenerTests.StopOnceForEmitter | test/test.js:110-122 | stopListening(emitter2) before the emits: h is called once and h2 never |
| ListenerTests.StopOnceForEvent | test/test.js:124-135 | stopListening(emitter, "other") before the emits: h is called once and h2 never |
| ListenerTests.StopOnceForHandler | test/test.js:137-147 | stopListening(emitter, "test", h2) finds h2's wrapper by the original handler: h is called once and h2 never |

## Left out

- The implementation module that the tests load (`require('..')`, test/test.js:3) is not part of this model. Its behaviour is modelled from what the tests assert, not from its code.
- Node's `events` module beyond ordered `on`, `removeListener` and `emit` is left out: `newListener`/`removeListener` events, the max-listeners warning, the special `'error'` event, handlers that re-enter `emit`, and handlers that change a table during dispatch other than a once wrapper removing its own row (which the model captures through `Emit`'s snapshot); no spy does either.
- `removeListener` removes the most recently added equal row, as Node does. The tests only need "one matching row".
- sinon spies and the mocha harness are replaced by the call record `Emitters.calls`. A spy's `callCount` is `CallCount`, and `calledWith` is modelled as membership of the exact call. sinon's `calledWith` also accepts a call whose arguments only begin with the given ones, so the model's statement is the stronger one.
- JavaScript's variadic, dynamically typed arguments are modelled as a `seq<int>`.
- Argument validation and error paths are left out: the tests exercise none.
- Concurrency is left out: JavaScript runs the tests on one thread, and nothing in them is concurrent.
- Registry.EventListener.constructor: requires every emitter table to be empty. `Valid()` ties each table to this one listener's bindings, so one listener per scene is modelled, as in every test. Rows registered by other parties on the same emitters are not modelled.
- Registry.Emitters.Emit: takes the listener as a parameter. The only callbacks that act when called are that listener's once wrappers; a plain handler only has its call recorded.
