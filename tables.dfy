// An emitter's handler table as an ordered sequence of rows, what on, off and
// emit do to it, and the record of calls that the handlers receive.

module Tables {
  import opened Bindings

  /** One invocation of an original handler with the emitted arguments. */
  datatype Call = Call(handler: HandlerId, args: seq<int>)

  /** The table after off(x): the most recently added row equal to x is
      dropped, as Node's removeListener does; an absent x changes nothing. */
  function RemoveLast(t: seq<Entry>, x: Entry): (r: seq<Entry>)
    ensures |r| == if x in t then |t| - 1 else |t|
  {
    if t == [] then []
    else if t[|t| - 1] == x then t[..|t| - 1]
    else
      assert t == t[..|t| - 1] + [t[|t| - 1]];
      RemoveLast(t[..|t| - 1], x) + [t[|t| - 1]]
  }

  /** The table once every wrapper row for event n has removed itself. */
  function StripOnce(t: seq<Entry>, n: EventName): (r: seq<Entry>)
    ensures |r| <= |t|
    ensures forall x :: x in r <==> x in t && !(x.event == n && x.callback.OnceWrapper?)
  {
    if t == [] then []
    else
      var last := t[|t| - 1];
      assert t == t[..|t| - 1] + [last];
      StripOnce(t[..|t| - 1], n) + (if last.event == n && last.callback.OnceWrapper? then [] else [last])
  }

  /** The calls that emit(n, args) makes when it walks the table t in order:
      one call of the original handler per row for n. */
  function Deliveries(t: seq<Entry>, n: EventName, args: seq<int>): (r: seq<Call>)
    ensures |r| <= |t|
    ensures forall c :: c in r ==> c.args == args
  {
    if t == [] then []
    else
      var last := t[|t| - 1];
      Deliveries(t[..|t| - 1], n, args) + (if last.event == n then [Call(last.callback.handler, args)] else [])
  }

  /** The wrappers among the rows of t for event n: those that fire on emit(n). */
  function FiredIn(t: seq<Entry>, n: EventName): (ws: set<Callback>)
    ensures forall w :: w in ws <==> w.OnceWrapper? && Entry(n, w) in t
  {
    if t == [] then {}
    else
      var last := t[|t| - 1];
      assert t == t[..|t| - 1] + [last];
      FiredIn(t[..|t| - 1], n) + (if last.event == n && last.callback.OnceWrapper? then {last.callback} else {})
  }

  /** How many times handler h appears in the call record (a spy's callCount). */
  function CallCount(calls: seq<Call>, h: HandlerId): (c: nat)
    ensures c <= |calls|
  {
    if calls == [] then 0
    else CallCount(calls[..|calls| - 1], h) + (if calls[|calls| - 1].handler == h then 1 else 0)
  }

  /** How many rows of t for event n invoke handler h. */
  function RowCount(t: seq<Entry>, n: EventName, h: HandlerId): nat {
    if t == [] then 0
    else
      RowCount(t[..|t| - 1], n, h)
      + (if t[|t| - 1].event == n && t[|t| - 1].callback.handler == h then 1 else 0)
  }

  /** The position of the last row equal to x, or -1: the search of removeListener. */
  method LastIndexOf(t: seq<Entry>, x: Entry) returns (i: int)
    ensures -1 <= i < |t|
    ensures 0 <= i ==> t[i] == x && x !in t[i + 1..]
    ensures i < 0 ==> x !in t
  {
    i := |t| - 1;
    while 0 <= i && t[i] != x
      invariant -1 <= i < |t|
      invariant x !in t[i + 1..]
    {
      assert t[i..] == [t[i]] + t[i + 1..];
      i := i - 1;
    }
  }

  // ---------------------------------------------------------------------------
  // Lemmas

  /** off removes exactly one occurrence of the row, or nothing when it is absent. */
  lemma {:induction false} RemoveLastMultiset(t: seq<Entry>, x: Entry)
    ensures multiset(RemoveLast(t, x)) == multiset(t) - multiset{x}
  {
    if t != [] {
      var init := t[..|t| - 1];
      assert t == init + [t[|t| - 1]];
      if t[|t| - 1] != x {
        RemoveLastMultiset(init, x);
      }
    }
  }

  /** The row dropped by off is the last one: everything before it stays in place. */
  lemma {:induction false} RemoveLastSplit(a: seq<Entry>, x: Entry, c: seq<Entry>)
    requires x !in c
    ensures RemoveLast(a + [x] + c, x) == a + c
  {
    if c == [] {
      assert a + [x] + c == a + [x];
      assert (a + [x])[..|a|] == a;
    } else {
      var c' := c[..|c| - 1];
      assert c == c' + [c[|c| - 1]];
      assert a + [x] + c == (a + [x] + c') + [c[|c| - 1]];
      RemoveLastSplit(a, x, c');
      assert (a + [x] + c)[..|a + [x] + c| - 1] == a + [x] + c';
      assert a + c == (a + c') + [c[|c| - 1]];
    }
  }

  lemma {:induction false} RemoveLastAbsent(t: seq<Entry>, x: Entry)
    requires x !in t
    ensures RemoveLast(t, x) == t
  {
    if t != [] {
      var init := t[..|t| - 1];
      assert t == init + [t[|t| - 1]];
      RemoveLastAbsent(init, x);
    }
  }

  /** What LastIndexOf finds is exactly the row RemoveLast drops. */
  lemma RemoveAt(t: seq<Entry>, x: Entry, i: int)
    requires -1 <= i < |t|
    requires 0 <= i ==> t[i] == x && x !in t[i + 1..]
    requires i < 0 ==> x !in t
    ensures RemoveLast(t, x) == if 0 <= i then t[..i] + t[i + 1..] else t
  {
    if 0 <= i {
      assert t == t[..i] + [x] + t[i + 1..];
      RemoveLastSplit(t[..i], x, t[i + 1..]);
    } else {
      RemoveLastAbsent(t, x);
    }
  }

  lemma {:induction false} StripOnceAppend(a: seq<Entry>, c: seq<Entry>, n: EventName)
    ensures StripOnce(a + c, n) == StripOnce(a, n) + StripOnce(c, n)
  {
    if c == [] {
      assert a + c == a;
    } else {
      var c' := c[..|c| - 1];
      assert (a + c)[..|a + c| - 1] == a + c';
      StripOnceAppend(a, c', n);
    }
  }

  lemma {:induction false} DeliveriesAppend(a: seq<Entry>, c: seq<Entry>, n: EventName, args: seq<int>)
    ensures Deliveries(a + c, n, args) == Deliveries(a, n, args) + Deliveries(c, n, args)
  {
    if c == [] {
      assert a + c == a;
    } else {
      var c' := c[..|c| - 1];
      assert (a + c)[..|a + c| - 1] == a + c';
      DeliveriesAppend(a, c', n, args);
    }
  }

  lemma {:induction false} CallCountAppend(a: seq<Call>, c: seq<Call>, h: HandlerId)
    ensures CallCount(a + c, h) == CallCount(a, h) + CallCount(c, h)
  {
    if c == [] {
      assert a + c == a;
    } else {
      var c' := c[..|c| - 1];
      assert (a + c)[..|a + c| - 1] == a + c';
      CallCountAppend(a, c', h);
    }
  }

  /** A spy is notCalled exactly when no recorded call is of its handler. */
  lemma {:induction false} CallCountZero(calls: seq<Call>, h: HandlerId)
    ensures CallCount(calls, h) == 0 <==> forall k :: k in calls ==> k.handler != h
  {
    if calls != [] {
      var init := calls[..|calls| - 1];
      assert calls == init + [calls[|calls| - 1]];
      CallCountZero(init, h);
    }
  }

  lemma {:induction false} RowCountAppend(a: seq<Entry>, c: seq<Entry>, n: EventName, h: HandlerId)
    ensures RowCount(a + c, n, h) == RowCount(a, n, h) + RowCount(c, n, h)
  {
    if c == [] {
      assert a + c == a;
    } else {
      var c' := c[..|c| - 1];
      assert (a + c)[..|a + c| - 1] == a + c';
      RowCountAppend(a, c', n, h);
    }
  }

  /** emit(n) calls each handler once per row for n that invokes it. */
  lemma {:induction false} DeliveriesCount(t: seq<Entry>, n: EventName, args: seq<int>, h: HandlerId)
    ensures CallCount(Deliveries(t, n, args), h) == RowCount(t, n, h)
  {
    if t != [] {
      var init := t[..|t| - 1];
      DeliveriesCount(init, n, args, h);
      var last := t[|t| - 1];
      CallCountAppend(Deliveries(init, n, args), if last.event == n then [Call(last.callback.handler, args)] else [], h);
      assert CallCount([Call(last.callback.handler, args)], h)
          == CallCount([], h) + (if last.callback.handler == h then 1 else 0);
    }
  }

  /** The rows on emitter e for event n that invoke h are the bindings of h to (e, n). */
  lemma {:induction false} RowsAreBindings(bs: seq<Binding>, e: EmitterId, n: EventName, h: HandlerId)
    requires AllConsistent(bs)
    ensures RowCount(EntriesOn(bs, e), n, h) == BoundCount(bs, e, n, h)
  {
    if bs != [] {
      assert bs[0] in bs;
      assert bs[0].Consistent();
      assert forall b :: b in bs[1..] ==> b in bs;
      RowsAreBindings(bs[1..], e, n, h);
      var head := if bs[0].emitter == e then [bs[0].EntryOf()] else [];
      RowCountAppend(head, EntriesOn(bs[1..], e), n, h);
      if head != [] {
        assert RowCount(head, n, h) == RowCount([], n, h)
          + (if head[0].event == n && head[0].callback.handler == h then 1 else 0);
      }
    }
  }

  /** Each emit(n) on e calls h exactly once per live binding of h to (e, n). */
  lemma EmitCallsPerBinding(bs: seq<Binding>, e: EmitterId, n: EventName, args: seq<int>, h: HandlerId)
    requires AllConsistent(bs)
    ensures CallCount(Deliveries(EntriesOn(bs, e), n, args), h) == BoundCount(bs, e, n, h)
  {
    DeliveriesCount(EntriesOn(bs, e), n, args, h);
    RowsAreBindings(bs, e, n, h);
  }

  /** The wrapper rows for n vanish from a table exactly when their once bindings fire. */
  lemma {:induction false} EntriesAfterFiring(bs: seq<Binding>, e: EmitterId, n: EventName, x: EmitterId)
    ensures EntriesOn(DropFiring(bs, e, n), x)
         == if x == e then StripOnce(EntriesOn(bs, x), n) else EntriesOn(bs, x)
  {
    if bs != [] {
      EntriesAfterFiring(bs[1..], e, n, x);
      var b := bs[0];
      var kept := if Fires(b, e, n) then [] else [b];
      assert DropFiring(bs, e, n) == kept + DropFiring(bs[1..], e, n);
      EntriesOnAppend(kept, DropFiring(bs[1..], e, n), x);
      var head := if b.emitter == x then [b.EntryOf()] else [];
      assert EntriesOn(bs, x) == head + EntriesOn(bs[1..], x);
      assert EntriesOn(kept, x) == if Fires(b, e, n) || b.emitter != x then [] else [b.EntryOf()];
      if x == e {
        StripOnceAppend(head, EntriesOn(bs[1..], x), n);
        assert StripOnce(head, n) == EntriesOn(kept, x) by {
          if head != [] {
            assert head[..0] == [];
          }
        }
      }
    }
  }
}
