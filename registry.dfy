// The EventListener registry and the emitters it subscribes to.
//
// Emitters stands for every EventEmitter of a scene, each with its own ordered
// handler table, plus the record of calls the handlers receive (what the spies
// observe). EventListener keeps the bindings it made and is the only party
// that registers or deregisters callbacks on the emitters, so its binding list
// and the emitters' tables stay in step: that is EventListener.Valid().

module Registry {
  import opened Bindings
  import opened Tables

  class Emitters {
    var tables: map<EmitterId, seq<Entry>>
    var calls: seq<Call>

    /** The handler table of emitter e; an emitter nobody subscribed to has an empty one. */
    function Table(e: EmitterId): seq<Entry>
      reads this
    {
      if e in tables then tables[e] else []
    }

    constructor ()
      ensures calls == []
      ensures forall x :: Table(x) == []
    {
      tables := map[];
      calls := [];
    }

    /** emitter.on(n, cb): append a row; duplicates are kept. */
    method On(e: EmitterId, n: EventName, cb: Callback)
      modifies this
      ensures calls == old(calls)
      ensures forall x :: Table(x) == if x == e then old(Table(x)) + [Entry(n, cb)] else old(Table(x))
    {
      tables := tables[e := Table(e) + [Entry(n, cb)]];
    }

    /** emitter.removeListener(n, cb): drop the most recent row equal to (n, cb), if any. */
    method Off(e: EmitterId, n: EventName, cb: Callback)
      modifies this
      ensures calls == old(calls)
      ensures forall x :: Table(x) == if x == e then RemoveLast(old(Table(x)), Entry(n, cb)) else old(Table(x))
    {
      var t := Table(e);
      var i := LastIndexOf(t, Entry(n, cb));
      RemoveAt(t, Entry(n, cb), i);
      if 0 <= i {
        tables := tables[e := t[..i] + t[i + 1..]];
      }
    }

    /** emitter.emit(n, ...args): walk a snapshot of e's table in order and call
        every row for n with args. A plain handler is recorded as called; a once
        wrapper of `listener` records a call of its handler and then removes its
        own binding from the listener and its own row from the table. */
    method Emit(listener: EventListener, e: EmitterId, n: EventName, args: seq<int>)
      requires listener.emitters == this && listener.Valid()
      modifies this, listener
      ensures listener.Valid()
      ensures calls == old(calls) + Deliveries(old(Table(e)), n, args)
      ensures listener.bindings == DropFiring(old(listener.bindings), e, n)
      ensures listener.nextSerial == old(listener.nextSerial)
      ensures forall x :: Table(x) == if x == e then StripOnce(old(Table(x)), n) else old(Table(x))
    {
      ghost var before := listener.bindings;
      var snapshot := Table(e);
      ghost var fired: set<Callback> := {};
      WithoutNothing(before);
      var i := 0;
      assert snapshot[..i] == [] && snapshot[i..] == snapshot;
      assert Deliveries(snapshot[..i], n, args) == [] && StripOnce(snapshot[..i], n) == [];
      while i < |snapshot|
        invariant AllConsistent(before) && OnceUnique(before) && snapshot == EntriesOn(before, e)
        invariant listener.emitters == this && listener.nextSerial == old(listener.nextSerial)
        invariant Walked(listener, e, n, args, old(calls), before, snapshot, i, fired)
        invariant forall x :: x != e ==> Table(x) == old(Table(x))
        invariant forall b :: b in before && b.Once() ==> b.dispatch.serial < listener.nextSerial
      {
        fired := Step(listener, e, n, args, old(calls), before, snapshot, i, fired);
        i := i + 1;
      }
      Finish(listener, e, n, args, old(calls), before, snapshot, fired);
    }

    /** Once the walk has covered the whole snapshot: the registry has lost exactly
        the once bindings on (e, n), e's table exactly their rows, and the two agree. */
    lemma Finish(listener: EventListener, e: EmitterId, n: EventName, args: seq<int>,
                 calls0: seq<Call>, before: seq<Binding>, snapshot: seq<Entry>, fired: set<Callback>)
      requires listener.emitters == this
      requires AllConsistent(before) && OnceUnique(before) && snapshot == EntriesOn(before, e)
      requires forall b :: b in before && b.Once() ==> b.dispatch.serial < listener.nextSerial
      requires Walked(listener, e, n, args, calls0, before, snapshot, |snapshot|, fired)
      requires forall x :: x != e ==> Table(x) == EntriesOn(before, x)
      ensures listener.Valid()
      ensures calls == calls0 + Deliveries(snapshot, n, args)
      ensures listener.bindings == DropFiring(before, e, n)
      ensures Table(e) == StripOnce(snapshot, n)
    {
      assert snapshot[..|snapshot|] == snapshot;
      assert snapshot[|snapshot|..] == [];
      assert StripOnce(snapshot, n) + [] == StripOnce(snapshot, n);
      FiredAreFiring(before, e, n);
      WithoutIsDropFiring(before, fired, e, n);
      DropFiringShrinks(before, e, n);
      EntriesAfterFiringAll(before, e, n);
    }

    /** How far Emit's walk over the snapshot has got: the first i rows are delivered,
        their wrappers have removed their rows and bindings, the other rows wait. */
    ghost predicate Walked(listener: EventListener, e: EmitterId, n: EventName, args: seq<int>,
                           calls0: seq<Call>, before: seq<Binding>, snapshot: seq<Entry>, i: int, fired: set<Callback>)
      reads this, listener
    {
      && 0 <= i <= |snapshot|
      && calls == calls0 + Deliveries(snapshot[..i], n, args)
      && Table(e) == StripOnce(snapshot[..i], n) + snapshot[i..]
      && fired == FiredIn(snapshot[..i], n)
      && listener.bindings == Without(before, fired)
    }

    /** One turn of Emit's walk. */
    method Step(listener: EventListener, e: EmitterId, n: EventName, args: seq<int>,
                ghost calls0: seq<Call>, ghost before: seq<Binding>, snapshot: seq<Entry>, i: int,
                ghost fired: set<Callback>)
      returns (ghost fired': set<Callback>)
      requires AllConsistent(before) && OnceUnique(before) && snapshot == EntriesOn(before, e)
      requires Walked(listener, e, n, args, calls0, before, snapshot, i, fired) && i < |snapshot|
      modifies this, listener
      ensures Walked(listener, e, n, args, calls0, before, snapshot, i + 1, fired')
      ensures forall x :: x != e ==> Table(x) == old(Table(x))
      ensures listener.nextSerial == old(listener.nextSerial)
    {
      var row := snapshot[i];
      EmitStep(snapshot, i, n, args);
      CallsStep(calls0, snapshot, i, n, args);
      fired' := fired;
      if row.event == n && row.callback.OnceWrapper? {
        WrapperRowIsUnique(before, e, snapshot, i);
        WithoutMore(before, fired, row.callback);
        RemoveLastSplit(StripOnce(snapshot[..i], n), row, snapshot[i + 1..]);
        fired' := fired + {row.callback};
      }
      Deliver(listener, e, n, args, row);
    }

    /** Emit's treatment of one row of the snapshot. */
    method Deliver(listener: EventListener, e: EmitterId, n: EventName, args: seq<int>, row: Entry)
      requires row.event == n && row.callback.OnceWrapper? ==> row.callback.emitter == e && row.callback.event == n
      modifies this, listener
      ensures calls == old(calls) + (if row.event == n then [Call(row.callback.handler, args)] else [])
      ensures listener.bindings
           == if row.event == n && row.callback.OnceWrapper? then Without(old(listener.bindings), {row.callback})
              else old(listener.bindings)
      ensures forall x :: Table(x) == (if x == e && row.event == n && row.callback.OnceWrapper?
                                       then RemoveLast(old(Table(x)), row) else old(Table(x)))
      ensures listener.nextSerial == old(listener.nextSerial)
    {
      if row.event == n {
        calls := calls + [Call(row.callback.handler, args)];
        if row.callback.OnceWrapper? {
          var w := row.callback;
          listener.Forget(w);
          Off(w.emitter, w.event, w);
        }
      }
    }

    /** The call record after one more row, as Deliver leaves it. */
    static lemma CallsStep(prior: seq<Call>, snapshot: seq<Entry>, i: int, n: EventName, args: seq<int>)
      requires 0 <= i < |snapshot|
      ensures prior + Deliveries(snapshot[..i], n, args)
                + (if snapshot[i].event == n then [Call(snapshot[i].callback.handler, args)] else [])
           == prior + Deliveries(snapshot[..i + 1], n, args)
    {
      assert snapshot[..i + 1][..i] == snapshot[..i];
      AppendAssoc(prior, Deliveries(snapshot[..i], n, args),
                  if snapshot[i].event == n then [Call(snapshot[i].callback.handler, args)] else []);
    }

    /** How the walk's three running values grow by one row. */
    static lemma EmitStep(snapshot: seq<Entry>, i: int, n: EventName, args: seq<int>)
      requires 0 <= i < |snapshot|
      ensures Deliveries(snapshot[..i + 1], n, args)
           == Deliveries(snapshot[..i], n, args)
              + (if snapshot[i].event == n then [Call(snapshot[i].callback.handler, args)] else [])
      ensures FiredIn(snapshot[..i + 1], n)
           == if snapshot[i].event == n && snapshot[i].callback.OnceWrapper?
              then FiredIn(snapshot[..i], n) + {snapshot[i].callback}
              else FiredIn(snapshot[..i], n)
      ensures StripOnce(snapshot[..i + 1], n) + snapshot[i + 1..]
           == if snapshot[i].event == n && snapshot[i].callback.OnceWrapper?
              then StripOnce(snapshot[..i], n) + snapshot[i + 1..]
              else StripOnce(snapshot[..i], n) + snapshot[i..]
      ensures StripOnce(snapshot[..i], n) + snapshot[i..]
           == StripOnce(snapshot[..i], n) + [snapshot[i]] + snapshot[i + 1..]
    {
      var row := snapshot[i];
      var done := StripOnce(snapshot[..i], n);
      assert snapshot[..i + 1][..i] == snapshot[..i];
      assert snapshot[i..] == [row] + snapshot[i + 1..];
      AppendAssoc(done, [row], snapshot[i + 1..]);
      if !(row.event == n && row.callback.OnceWrapper?) {
        assert StripOnce(snapshot[..i + 1], n) == done + [row];
      } else {
        assert StripOnce(snapshot[..i + 1], n) == done + [];
        assert done + [] == done;
      }
    }

    /** The row snapshot[i] of a once wrapper lies on e, carries its own event and
        occurs nowhere after position i. */
    static lemma WrapperRowIsUnique(bs: seq<Binding>, e: EmitterId, snapshot: seq<Entry>, i: int)
      requires AllConsistent(bs) && OnceUnique(bs)
      requires snapshot == EntriesOn(bs, e) && 0 <= i < |snapshot|
      requires snapshot[i].callback.OnceWrapper?
      ensures snapshot[i].callback.emitter == e && snapshot[i].callback.event == snapshot[i].event
      ensures snapshot[i] !in snapshot[i + 1..]
    {
      var row := snapshot[i];
      var w := row.callback;
      WrapperEntriesOn(bs, e, row);
      WrapperEntryCount(bs, e, w);
      var b := Binding(e, w.event, w.handler, w);
      assert row == Entry(w.event, w);
      assert multiset(snapshot)[row] >= 1;
      assert b in bs && b.Once();
      assert snapshot == snapshot[..i] + [row] + snapshot[i + 1..];
      assert multiset(snapshot)[row] == multiset(snapshot[..i])[row] + 1 + multiset(snapshot[i + 1..])[row];
    }

    /** The wrappers met while walking e's table for n are the dispatch callbacks
        of exactly the once bindings on (e, n). */
    static lemma FiredAreFiring(bs: seq<Binding>, e: EmitterId, n: EventName)
      requires AllConsistent(bs)
      ensures forall b :: b in bs ==> (b.dispatch in FiredIn(EntriesOn(bs, e), n) <==> Fires(b, e, n))
    {
      forall b | b in bs
        ensures b.dispatch in FiredIn(EntriesOn(bs, e), n) <==> Fires(b, e, n)
      {
        assert b.Consistent();
        if b.dispatch in FiredIn(EntriesOn(bs, e), n) {
          WrapperEntriesOn(bs, e, Entry(n, b.dispatch));
        }
      }
    }

    static lemma EntriesAfterFiringAll(bs: seq<Binding>, e: EmitterId, n: EventName)
      ensures forall x :: EntriesOn(DropFiring(bs, e, n), x)
                       == if x == e then StripOnce(EntriesOn(bs, x), n) else EntriesOn(bs, x)
    {
      forall x
        ensures EntriesOn(DropFiring(bs, e, n), x)
             == if x == e then StripOnce(EntriesOn(bs, x), n) else EntriesOn(bs, x)
      {
        EntriesAfterFiring(bs, e, n, x);
      }
    }
  }

  /** Regrouping a concatenation; stated once so the steps above can cite it. */
  lemma AppendAssoc<T>(a: seq<T>, b: seq<T>, c: seq<T>)
    ensures a + b + c == a + (b + c)
  {
  }

  /** Every once binding occurs once: its wrapper was built for it alone. */
  ghost predicate OnceUnique(bs: seq<Binding>) {
    forall b :: b in bs && b.Once() ==> multiset(bs)[b] == 1
  }

  class EventListener {
    const emitters: Emitters
    var bindings: seq<Binding>
    /** How many once wrappers this listener has built; numbers the next one. */
    var nextSerial: nat

    /** The registry and the emitters agree: each emitter's table is exactly the
        rows of the bindings on it, in binding order; every dispatch callback
        belongs to its binding; every wrapper is unique to one binding. */
    ghost predicate Valid()
      reads this, emitters
    {
      && AllConsistent(bindings)
      && (forall b :: b in bindings && b.Once() ==> b.dispatch.serial < nextSerial)
      && OnceUnique(bindings)
      && (forall x :: emitters.Table(x) == EntriesOn(bindings, x))
    }

    /** In a valid registry, every binding's row is in its emitter's table. */
    lemma RowsRegistered()
      requires Valid()
      ensures forall b :: b in bindings ==> b.EntryOf() in emitters.Table(b.emitter)
    { }

    constructor (emitters: Emitters)
      requires forall x :: emitters.Table(x) == []
      ensures this.emitters == emitters
      ensures Valid() && bindings == [] && nextSerial == 0
    {
      this.emitters := emitters;
      bindings := [];
      nextSerial := 0;
    }

    /** listenTo(e, n, h): register h itself on e for n and record the binding. */
    method ListenTo(e: EmitterId, n: EventName, h: HandlerId)
      requires Valid()
      modifies this, emitters
      ensures Valid()
      ensures bindings == old(bindings) + [Binding(e, n, h, Direct(h))]
      ensures nextSerial == old(nextSerial) && emitters.calls == old(emitters.calls)
      ensures forall x :: emitters.Table(x)
                       == if x == e then old(emitters.Table(x)) + [Entry(n, Direct(h))] else old(emitters.Table(x))
    {
      Record(Binding(e, n, h, Direct(h)));
    }

    /** listenToOnce(e, n, h): register a fresh wrapper around h on e for n and
        record the binding under the original handler h. */
    method ListenToOnce(e: EmitterId, n: EventName, h: HandlerId)
      requires Valid()
      modifies this, emitters
      ensures Valid()
      ensures bindings == old(bindings) + [Binding(e, n, h, OnceWrapper(old(nextSerial), e, n, h))]
      ensures nextSerial == old(nextSerial) + 1 && emitters.calls == old(emitters.calls)
      ensures forall x :: emitters.Table(x)
                       == if x == e then old(emitters.Table(x)) + [Entry(n, OnceWrapper(old(nextSerial), e, n, h))]
                          else old(emitters.Table(x))
    {
      var w := OnceWrapper(nextSerial, e, n, h);
      nextSerial := nextSerial + 1;
      Record(Binding(e, n, h, w));
    }

    /** The part common to both: on(), then append the binding. */
    method Record(b: Binding)
      requires Valid() && b.Consistent()
      requires b.Once() ==> b.dispatch.serial < nextSerial && b !in bindings
      modifies this, emitters
      ensures Valid()
      ensures bindings == old(bindings) + [b]
      ensures nextSerial == old(nextSerial) && emitters.calls == old(emitters.calls)
      ensures forall x :: emitters.Table(x)
                       == if x == b.emitter then old(emitters.Table(x)) + [b.EntryOf()] else old(emitters.Table(x))
    {
      emitters.On(b.emitter, b.event, b.dispatch);
      ghost var before := bindings;
      bindings := bindings + [b];
      forall x
        ensures EntriesOn(bindings, x) == EntriesOn(before, x) + (if x == b.emitter then [b.EntryOf()] else [])
      {
        EntriesOnAppend(before, [b], x);
      }
      assert multiset(bindings) == multiset(before) + multiset{b};
    }

    /** stopListening(sel): deregister the exact dispatch callback of every
        binding that sel selects and keep the others, in order. The order of the
        removeListener calls does not change the resulting tables, since equal
        rows belong to bindings with the same emitter, event and handler, which
        sel selects alike; the walk from the last binding to the first is the
        order in which that is easiest to prove, because each removeListener,
        which drops the most recent equal row, then drops the row of the
        binding at hand. */
    method StopListening(sel: Selector)
      requires Valid()
      modifies this, emitters
      ensures Valid()
      ensures bindings == Keep(old(bindings), sel)
      ensures nextSerial == old(nextSerial) && emitters.calls == old(emitters.calls)
    {
      var kept := Deregister(bindings, sel);
      KeepStaysValid(bindings, sel, nextSerial);
      bindings := kept;
    }

    /** The walk of stopListening over the bindings all, which the tables
        currently hold: off() for each selected one, from the last to the first. */
    method Deregister(all: seq<Binding>, sel: Selector) returns (kept: seq<Binding>)
      requires AllConsistent(all) && forall x :: emitters.Table(x) == EntriesOn(all, x)
      modifies emitters
      ensures kept == Keep(all, sel)
      ensures forall x :: emitters.Table(x) == EntriesOn(kept, x)
      ensures emitters.calls == old(emitters.calls)
    {
      kept := [];
      var i := |all|;
      assert all[..i] + kept == all && all[i..] == [];
      while 0 < i
        invariant Unsubscribed(all, sel, i, kept)
        invariant emitters.calls == old(emitters.calls)
      {
        kept := StopAt(all, sel, i - 1, kept);
        i := i - 1;
      }
      assert all[..0] + kept == kept && all[0..] == all;
    }

    /** What stopListening keeps is still consistent, numbered and unique. */
    static lemma KeepStaysValid(all: seq<Binding>, sel: Selector, serial: nat)
      requires AllConsistent(all) && OnceUnique(all)
      requires forall b :: b in all && b.Once() ==> b.dispatch.serial < serial
      ensures AllConsistent(Keep(all, sel)) && OnceUnique(Keep(all, sel))
      ensures forall b :: b in Keep(all, sel) && b.Once() ==> b.dispatch.serial < serial
    {
      KeepShrinks(all, sel);
    }

    /** How far stopListening's backward walk has got: the bindings from position
        i on are sorted into kept ones and deregistered ones, and each table holds
        the rows of the bindings before i and of the kept ones. */
    ghost predicate Unsubscribed(all: seq<Binding>, sel: Selector, i: int, kept: seq<Binding>)
      reads emitters
    {
      && 0 <= i <= |all|
      && kept == Keep(all[i..], sel)
      && forall x :: emitters.Table(x) == EntriesOn(all[..i] + kept, x)
    }

    /** One turn of the walk: binding all[i] is deregistered or kept. */
    method StopAt(all: seq<Binding>, sel: Selector, i: int, kept: seq<Binding>) returns (kept': seq<Binding>)
      requires AllConsistent(all) && 0 <= i < |all|
      requires Unsubscribed(all, sel, i + 1, kept)
      modifies emitters
      ensures Unsubscribed(all, sel, i, kept')
      ensures emitters.calls == old(emitters.calls)
    {
      var b := all[i];
      KeepStep(all, i, sel);
      assert all[..i + 1] == all[..i] + [b];
      if Matches(b, sel) {
        assert b in all;
        assert forall k :: k in kept ==> k in all[i + 1..];
        StopStep(all[..i], b, kept, sel);
        emitters.Off(b.emitter, b.event, b.dispatch);
        kept' := kept;
        assert forall x :: emitters.Table(x) == EntriesOn(all[..i] + kept', x);
      } else {
        AppendAssoc(all[..i], [b], kept);
        kept' := [b] + kept;
      }
    }

    /** One step of Keep from position i; stated so that StopAt can cite it. */
    static lemma KeepStep(all: seq<Binding>, i: int, sel: Selector)
      requires 0 <= i < |all|
      ensures Keep(all[i..], sel) == (if Matches(all[i], sel) then [] else [all[i]]) + Keep(all[i + 1..], sel)
    {
    }

    /** Deregistering the row of a selected binding b leaves each table holding
        the rows of the bindings before b and of the unselected ones after it. */
    static lemma StopStep(pre: seq<Binding>, b: Binding, kept: seq<Binding>, sel: Selector)
      requires AllConsistent(kept) && b.Consistent() && Matches(b, sel)
      requires forall k :: k in kept ==> !Matches(k, sel)
      ensures forall x :: EntriesOn(pre + kept, x)
                       == (if x == b.emitter then RemoveLast(EntriesOn(pre + [b] + kept, x), b.EntryOf())
                           else EntriesOn(pre + [b] + kept, x))
    {
      forall x
        ensures EntriesOn(pre + kept, x)
             == if x == b.emitter then RemoveLast(EntriesOn(pre + [b] + kept, x), b.EntryOf())
                else EntriesOn(pre + [b] + kept, x)
      {
        EntriesOnAppend(pre + [b], kept, x);
        EntriesOnAppend(pre, [b], x);
        EntriesOnAppend(pre, kept, x);
        assert EntriesOn([b], x) == if x == b.emitter then [b.EntryOf()] else [];
        if x == b.emitter {
          SelectedRowNotKept(kept, b, sel);
          RemoveLastSplit(EntriesOn(pre, x), b.EntryOf(), EntriesOn(kept, x));
        } else {
          assert EntriesOn(pre, x) + [] == EntriesOn(pre, x);
        }
      }
    }

    /** The self-removal of a fired once wrapper w: drop the binding it was built for. */
    method Forget(w: Callback)
      modifies this
      ensures bindings == Without(old(bindings), {w})
      ensures nextSerial == old(nextSerial)
    {
      bindings := Without(bindings, {w});
    }
  }
}
