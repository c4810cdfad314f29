// The values an EventListener keeps: the callbacks it hands to emitters and
// the bindings it records, with the filters that select bindings for removal.

module Bindings {

  /** Emitters and handlers are compared by identity only: opaque ids. */
  type EmitterId = nat
  type HandlerId = nat
  type EventName = string

  /** A function object held in an emitter's handler table.
      `Direct(h)` is the caller's own handler h (what listenTo registers);
      `OnceWrapper(s, e, n, h)` is the s-th wrapper built by listenToOnce, a
      closure over the emitter e, the event n and the handler h it calls. */
  datatype Callback =
    | Direct(handler: HandlerId)
    | OnceWrapper(serial: nat, emitter: EmitterId, event: EventName, handler: HandlerId)

  /** One row of an emitter's handler table. */
  datatype Entry = Entry(event: EventName, callback: Callback)

  /** One subscription recorded by the listener: the emitter, the event, the
      handler the caller passed, and the callback actually given to the emitter. */
  datatype Binding = Binding(emitter: EmitterId, event: EventName, handler: HandlerId, dispatch: Callback)
  {
    /** A binding made by listenToOnce. */
    predicate Once() { dispatch.OnceWrapper? }

    /** The row this binding puts into its emitter's table. */
    function EntryOf(): Entry { Entry(event, dispatch) }

    /** The dispatch callback is the handler itself, or a wrapper that closes
        over exactly this binding's emitter, event and handler. */
    predicate Consistent() {
      match dispatch
      case Direct(h) => h == handler
      case OnceWrapper(_, e, n, h) => e == emitter && n == event && h == handler
    }
  }

  /** The four shapes of stopListening, from the most general to the most specific:
      stopListening(), stopListening(e), stopListening(e, n), stopListening(e, n, h). */
  datatype Selector =
    | Everything
    | OnEmitter(emitter: EmitterId)
    | OnEvent(emitter: EmitterId, event: EventName)
    | OnHandler(emitter: EmitterId, event: EventName, handler: HandlerId)

  /** Whether the selector covers subscriptions of handler h to event n on emitter e:
      a selector covers only what agrees with every argument it was given. */
  predicate Selects(sel: Selector, e: EmitterId, n: EventName, h: HandlerId)
    ensures Selects(sel, e, n, h) ==> sel.Everything? || sel.emitter == e
    ensures Selects(sel, e, n, h) && (sel.OnEvent? || sel.OnHandler?) ==> sel.event == n
    ensures Selects(sel, e, n, h) && sel.OnHandler? ==> sel.handler == h
  {
    match sel
    case Everything => true
    case OnEmitter(e') => e == e'
    case OnEvent(e', n') => e == e' && n == n'
    case OnHandler(e', n', h') => e == e' && n == n' && h == h'
  }

  /** Bindings are selected by their ORIGINAL handler, never by the wrapper: a
      once binding is found through the handler its wrapper closes over. */
  predicate Matches(b: Binding, sel: Selector)
    ensures b.Consistent() && b.Once()
            ==> (Matches(b, sel) <==> Selects(sel, b.dispatch.emitter, b.dispatch.event, b.dispatch.handler))
  {
    Selects(sel, b.emitter, b.event, b.handler)
  }

  /** The bindings that survive stopListening(sel), in their original order. */
  function Keep(bs: seq<Binding>, sel: Selector): (r: seq<Binding>)
    ensures forall b :: b in r <==> b in bs && !Matches(b, sel)
  {
    if bs == [] then []
    else
      assert bs == [bs[0]] + bs[1..];
      (if Matches(bs[0], sel) then [] else [bs[0]]) + Keep(bs[1..], sel)
  }

  /** A once binding on emitter e for event n: it fires when e emits n. */
  predicate Fires(b: Binding, e: EmitterId, n: EventName) {
    b.Once() && b.emitter == e && b.event == n
  }

  /** The bindings left once every once binding on (e, n) has fired. */
  function DropFiring(bs: seq<Binding>, e: EmitterId, n: EventName): (r: seq<Binding>)
    ensures forall b :: b in r <==> b in bs && !Fires(b, e, n)
  {
    if bs == [] then []
    else
      assert bs == [bs[0]] + bs[1..];
      (if Fires(bs[0], e, n) then [] else [bs[0]]) + DropFiring(bs[1..], e, n)
  }

  /** The bindings whose dispatch callback is not one of `spent`: what a once
      wrapper leaves behind when it removes its own binding. */
  function Without(bs: seq<Binding>, spent: set<Callback>): (r: seq<Binding>)
    ensures forall b :: b in r <==> b in bs && b.dispatch !in spent
  {
    if bs == [] then []
    else
      assert bs == [bs[0]] + bs[1..];
      (if bs[0].dispatch in spent then [] else [bs[0]]) + Without(bs[1..], spent)
  }

  /** The rows that the bindings put into emitter e's table, in binding order. */
  function EntriesOn(bs: seq<Binding>, e: EmitterId): (t: seq<Entry>)
    ensures forall b :: b in bs && b.emitter == e ==> b.EntryOf() in t
  {
    if bs == [] then []
    else
      assert forall b :: b in bs ==> b == bs[0] || b in bs[1..];
      (if bs[0].emitter == e then [bs[0].EntryOf()] else []) + EntriesOn(bs[1..], e)
  }

  /** How many bindings subscribe handler h to event n on emitter e. */
  function BoundCount(bs: seq<Binding>, e: EmitterId, n: EventName, h: HandlerId): nat {
    if bs == [] then 0
    else
      (if bs[0].emitter == e && bs[0].event == n && bs[0].handler == h then 1 else 0)
      + BoundCount(bs[1..], e, n, h)
  }

  predicate AllConsistent(bs: seq<Binding>) {
    forall b :: b in bs ==> b.Consistent()
  }

  // ---------------------------------------------------------------------------
  // Lemmas about the filters

  /** stopListening never duplicates a binding: each occurs at most as often as before. */
  lemma {:induction false} KeepShrinks(bs: seq<Binding>, sel: Selector)
    ensures multiset(Keep(bs, sel)) <= multiset(bs)
  {
    if bs != [] {
      assert bs == [bs[0]] + bs[1..];
      KeepShrinks(bs[1..], sel);
    }
  }

  /** Neither does an emit that retires once bindings. */
  lemma {:induction false} DropFiringShrinks(bs: seq<Binding>, e: EmitterId, n: EventName)
    ensures multiset(DropFiring(bs, e, n)) <= multiset(bs)
  {
    if bs != [] {
      assert bs == [bs[0]] + bs[1..];
      DropFiringShrinks(bs[1..], e, n);
    }
  }

  lemma {:induction false} EntriesOnAppend(a: seq<Binding>, c: seq<Binding>, e: EmitterId)
    ensures EntriesOn(a + c, e) == EntriesOn(a, e) + EntriesOn(c, e)
  {
    if a == [] {
      assert a + c == c;
    } else {
      assert (a + c)[1..] == a[1..] + c;
      EntriesOnAppend(a[1..], c, e);
    }
  }

  /** A table row that carries a wrapper names the emitter it lies on and its own event. */
  lemma {:induction false} WrapperEntriesOn(bs: seq<Binding>, e: EmitterId, x: Entry)
    requires AllConsistent(bs)
    requires x in EntriesOn(bs, e) && x.callback.OnceWrapper?
    ensures x.callback.emitter == e && x.callback.event == x.event
  {
    assert bs[0] in bs;
    if bs[0].emitter == e && x == bs[0].EntryOf() {
      assert bs[0].Consistent();
    } else {
      assert forall b :: b in bs[1..] ==> b in bs;
      WrapperEntriesOn(bs[1..], e, x);
    }
  }

  /** A wrapper row occurs in the table as often as its binding occurs in the registry. */
  lemma {:induction false} WrapperEntryCount(bs: seq<Binding>, e: EmitterId, w: Callback)
    requires AllConsistent(bs)
    requires w.OnceWrapper? && w.emitter == e
    ensures multiset(EntriesOn(bs, e))[Entry(w.event, w)]
         == multiset(bs)[Binding(e, w.event, w.handler, w)]
  {
    if bs != [] {
      assert bs == [bs[0]] + bs[1..];
      assert bs[0].Consistent();
      assert forall b :: b in bs[1..] ==> b in bs;
      WrapperEntryCount(bs[1..], e, w);
      var head := if bs[0].emitter == e then [bs[0].EntryOf()] else [];
      assert EntriesOn(bs, e) == head + EntriesOn(bs[1..], e);
      assert (bs[0].emitter == e && bs[0].EntryOf() == Entry(w.event, w))
         <==> bs[0] == Binding(e, w.event, w.handler, w);
    }
  }

  /** The row of a selected binding cannot be among the rows of unselected bindings:
      equal rows mean equal emitter, event and (original) handler. */
  lemma {:induction false} SelectedRowNotKept(ks: seq<Binding>, b: Binding, sel: Selector)
    requires AllConsistent(ks) && b.Consistent() && Matches(b, sel)
    requires forall k :: k in ks ==> !Matches(k, sel)
    ensures b.EntryOf() !in EntriesOn(ks, b.emitter)
  {
    if ks != [] {
      assert ks[0] in ks;
      SelectedRowNotKept(ks[1..], b, sel);
    }
  }

  /** Removing one callback after a set of callbacks is removing both at once. */
  lemma {:induction false} WithoutMore(bs: seq<Binding>, spent: set<Callback>, w: Callback)
    ensures Without(Without(bs, spent), {w}) == Without(bs, spent + {w})
  {
    if bs != [] {
      WithoutMore(bs[1..], spent, w);
      var head := if bs[0].dispatch in spent then [] else [bs[0]];
      assert Without(bs, spent) == head + Without(bs[1..], spent);
      assert Without(bs, spent)[..|head|] == head;
      assert Without(bs, spent)[|head|..] == Without(bs[1..], spent);
      if head == [] {
        assert Without(bs, spent) == Without(bs[1..], spent);
      } else {
        assert Without(bs, spent)[1..] == Without(bs[1..], spent);
      }
    }
  }

  lemma {:induction false} WithoutNothing(bs: seq<Binding>)
    ensures Without(bs, {}) == bs
  {
    if bs != [] {
      WithoutNothing(bs[1..]);
      assert bs == [bs[0]] + bs[1..];
    }
  }

  /** Removing by dispatch callback removes exactly the firing bindings when the
      two criteria agree on every binding. */
  lemma {:induction false} WithoutIsDropFiring(bs: seq<Binding>, spent: set<Callback>, e: EmitterId, n: EventName)
    requires forall b :: b in bs ==> (b.dispatch in spent <==> Fires(b, e, n))
    ensures Without(bs, spent) == DropFiring(bs, e, n)
  {
    if bs != [] {
      assert bs[0] in bs;
      WithoutIsDropFiring(bs[1..], spent, e, n);
    }
  }

  /** stopListening is idempotent: a second call with the same arguments removes nothing. */
  lemma {:induction false} KeepIdempotent(bs: seq<Binding>, sel: Selector)
    ensures Keep(Keep(bs, sel), sel) == Keep(bs, sel)
  {
    if bs != [] {
      KeepIdempotent(bs[1..], sel);
      var head := if Matches(bs[0], sel) then [] else [bs[0]];
      assert Keep(bs, sel) == head + Keep(bs[1..], sel);
      if head == [] {
        assert Keep(bs, sel) == Keep(bs[1..], sel);
      } else {
        assert Keep(bs, sel)[1..] == Keep(bs[1..], sel);
      }
    }
  }

  /** stopListening with a selector that matches nothing leaves the registry as it was. */
  lemma {:induction false} KeepNoMatch(bs: seq<Binding>, sel: Selector)
    requires forall b :: b in bs ==> !Matches(b, sel)
    ensures Keep(bs, sel) == bs
  {
    if bs != [] {
      assert bs[0] in bs;
      KeepNoMatch(bs[1..], sel);
      assert bs == [bs[0]] + bs[1..];
    }
  }

  /** An emit that fires none of the bindings leaves the registry as it was. */
  lemma {:induction false} DropFiringNone(bs: seq<Binding>, e: EmitterId, n: EventName)
    requires forall b :: b in bs ==> !Fires(b, e, n)
    ensures DropFiring(bs, e, n) == bs
  {
    if bs != [] {
      assert bs[0] in bs;
      DropFiringNone(bs[1..], e, n);
      assert bs == [bs[0]] + bs[1..];
    }
  }

  /** An emit keeps every copy of each binding it does not fire: duplicate
      listenTo subscriptions all survive, even an emit that retires once bindings. */
  lemma {:induction false} DropFiringSpares(bs: seq<Binding>, e: EmitterId, n: EventName, b: Binding)
    requires !Fires(b, e, n)
    ensures multiset(DropFiring(bs, e, n))[b] == multiset(bs)[b]
  {
    if bs != [] {
      assert bs == [bs[0]] + bs[1..];
      DropFiringSpares(bs[1..], e, n, b);
    }
  }

  /** The nesting of stopListening's four shapes: each more specific selector
      covers a part of what the more general one covers. */
  lemma SelectorsNest(e: EmitterId, n: EventName, h: HandlerId, e': EmitterId, n': EventName, h': HandlerId)
    ensures Selects(OnHandler(e, n, h), e', n', h') ==> Selects(OnEvent(e, n), e', n', h')
    ensures Selects(OnEvent(e, n), e', n', h') ==> Selects(OnEmitter(e), e', n', h')
    ensures Selects(Everything, e', n', h')
  {
  }

  /** After stopListening(sel), no subscription that sel covers is left. */
  lemma {:induction false} StopSilences(bs: seq<Binding>, sel: Selector, e: EmitterId, n: EventName, h: HandlerId)
    requires Selects(sel, e, n, h)
    ensures BoundCount(Keep(bs, sel), e, n, h) == 0
  {
    if bs != [] {
      StopSilences(bs[1..], sel, e, n, h);
      assert Keep(bs, sel) == (if Matches(bs[0], sel) then [] else [bs[0]]) + Keep(bs[1..], sel);
      BoundCountAppend(if Matches(bs[0], sel) then [] else [bs[0]], Keep(bs[1..], sel), e, n, h);
    }
  }

  /** After stopListening(sel), every subscription that sel does not cover is untouched. */
  lemma {:induction false} StopSpares(bs: seq<Binding>, sel: Selector, e: EmitterId, n: EventName, h: HandlerId)
    requires !Selects(sel, e, n, h)
    ensures BoundCount(Keep(bs, sel), e, n, h) == BoundCount(bs, e, n, h)
  {
    if bs != [] {
      StopSpares(bs[1..], sel, e, n, h);
      BoundCountAppend(if Matches(bs[0], sel) then [] else [bs[0]], Keep(bs[1..], sel), e, n, h);
    }
  }

  lemma {:induction false} BoundCountAppend(a: seq<Binding>, c: seq<Binding>, e: EmitterId, n: EventName, h: HandlerId)
    ensures BoundCount(a + c, e, n, h) == BoundCount(a, e, n, h) + BoundCount(c, e, n, h)
  {
    if a == [] {
      assert a + c == c;
    } else {
      assert (a + c)[1..] == a[1..] + c;
      BoundCountAppend(a[1..], c, e, n, h);
    }
  }
}
