/**
 * `Emitter`: a map from event name to the `Set` of its handlers. A `Set`
 * iterates in insertion order and holds each handler once, so a channel is a
 * sequence without duplicates; adding a handler that is already there keeps
 * its place.
 */
module Events {

  predicate NoDup<H(==)>(s: seq<H>)
  {
    forall i, j :: 0 <= i < j < |s| ==> s[i] != s[j]
  }

  /** `set.add(h)`. */
  function Added<H(==,!new)>(s: seq<H>, h: H): (r: seq<H>)
    ensures forall x :: x in r <==> x in s || x == h
    ensures NoDup(s) ==> NoDup(r)
    ensures h in s ==> r == s
    ensures h !in s ==> |r| == |s| + 1 && r[..|s|] == s && r[|s|] == h
  {
    if h in s then s else s + [h]
  }

  /** `set.delete(h)`: the other handlers keep their order. */
  function Removed<H(==,!new)>(s: seq<H>, h: H): (r: seq<H>)
    ensures forall x :: x in r <==> x in s && x != h
    ensures |r| <= |s|
    ensures NoDup(s) ==> NoDup(r)
    ensures h !in s ==> r == s
    decreases |s|
  {
    if s == [] then []
    else if s[0] == h then Removed(s[1..], h)
    else
      var t := Removed(s[1..], h);
      assert NoDup(s) ==> forall k :: 0 <= k < |s[1..]| ==> s[1..][k] != s[0];
      assert NoDup(s) ==> NoDup(s[1..]) && s[0] !in t;
      assert NoDup(s) ==> forall k :: 0 <= k < |t| ==> ([s[0]] + t)[k + 1] == t[k] != s[0];
      [s[0]] + t
  }

  /** Removing a handler that was just added restores the set. */
  lemma {:induction false} RemovedUndoesAdded<H(!new)>(s: seq<H>, h: H)
    requires h !in s
    ensures Removed(Added(s, h), h) == s
    decreases |s|
  {
    if s == [] {
      assert Added(s, h) == [h];
    } else {
      var a := s + [h];
      assert a[1..] == s[1..] + [h];
      calc {
        Removed(Added(s, h), h);
        Removed(a, h);
        [s[0]] + Removed(s[1..] + [h], h);
        { assert Added(s[1..], h) == s[1..] + [h];
          RemovedUndoesAdded(s[1..], h); }
        [s[0]] + s[1..];
        s;
      }
    }
  }

  /** Every channel present has at least one handler, none twice. */
  ghost predicate WellFormed<H>(events: map<string, seq<H>>)
  {
    forall e :: e in events ==> events[e] != [] && NoDup(events[e])
  }

  /** The handlers of channel `e`, in insertion order; none for a missing channel. */
  function Channel<H>(events: map<string, seq<H>>, e: string): seq<H>
  {
    if e in events then events[e] else []
  }

  /** The registry after `on(e, h)`. */
  function AfterOn<H(==,!new)>(events: map<string, seq<H>>, e: string, h: H): (r: map<string, seq<H>>)
    ensures WellFormed(events) ==> WellFormed(r)
    ensures h in Channel(r, e)
    ensures forall x :: x in Channel(r, e) <==> x in Channel(events, e) || x == h
    ensures forall e' :: e' != e ==> Channel(r, e') == Channel(events, e')
  {
    events[e := Added(Channel(events, e), h)]
  }

  /** The registry after `off(e, h)`: the channel goes when its last handler does. */
  function AfterOff<H(==,!new)>(events: map<string, seq<H>>, e: string, h: H): (r: map<string, seq<H>>)
    ensures WellFormed(events) ==> WellFormed(r)
    ensures h !in Channel(r, e)
    ensures Channel(r, e) == Removed(Channel(events, e), h)
    ensures forall e' :: e' != e ==> Channel(r, e') == Channel(events, e')
    ensures e in r <==> e in events && Removed(events[e], h) != []
    ensures WellFormed(events) && (e !in events || h !in events[e]) ==> r == events
  {
    if e !in events then events
    else
      var rest := Removed(events[e], h);
      assert h !in events[e] ==> events[e := rest] == events;
      if rest == [] then events - {e} else events[e := rest]
  }

  /** `off` after `on` of a new handler restores the registry exactly. */
  lemma OffUndoesOn<H(!new)>(events: map<string, seq<H>>, e: string, h: H)
    requires WellFormed(events) && h !in Channel(events, e)
    ensures AfterOff(AfterOn(events, e, h), e, h) == events
  {
    RemovedUndoesAdded(Channel(events, e), h);
    if e !in events {
      assert Removed([h], h) == [];
      assert AfterOn(events, e, h) - {e} == events;
    } else {
      assert events[e := events[e]] == events;
    }
  }

  /** The function `on` returns: it calls `off(event, handler)`. */
  datatype Subscription<H> = Subscription(event: string, handler: H)

  class Emitter<H(==,!new)> {
    /** `_events`: event name to its handler set. */
    var events: map<string, seq<H>>

    ghost predicate Valid()
      reads this
    {
      WellFormed(events)
    }

    constructor ()
      ensures Valid() && events == map[]
    {
      events := map[];
    }

    /** `on(event, handler)`: creates the channel if missing, adds the handler once. */
    method On(event: string, handler: H) returns (off: Subscription<H>)
      requires Valid()
      modifies this
      ensures Valid()
      ensures events == AfterOn(old(events), event, handler)
      ensures off == Subscription(event, handler)
    {
      if event !in events {
        events := events[event := []];
      }
      events := events[event := Added(events[event], handler)];
      off := Subscription(event, handler);
    }

    /** `off(event, handler)`. */
    method Off(event: string, handler: H)
      requires Valid()
      modifies this
      ensures Valid()
      ensures events == AfterOff(old(events), event, handler)
    {
      if event !in events {
        return;
      }
      var rest := Removed(events[event], handler);
      events := events[event := rest];
      if |rest| == 0 {
        events := events - {event};
      }
    }

    /** Calling the function returned by `on`. */
    method Unsubscribe(off: Subscription<H>)
      requires Valid()
      modifies this
      ensures Valid()
      ensures events == AfterOff(old(events), off.event, off.handler)
    {
      Off(off.event, off.handler);
    }

    /** `emit(event, payload)`: the handlers called, in the order they are called. */
    method Emit(event: string) returns (invoked: seq<H>)
      requires Valid()
      ensures invoked == Channel(events, event)
      ensures NoDup(invoked)
      ensures event !in events ==> invoked == []
    {
      invoked := [];
      if event !in events {
        return;
      }
      var handlers := events[event];
      for i := 0 to |handlers|
        invariant invoked == handlers[..i]
      {
        invoked := invoked + [handlers[i]];
      }
    }

    /** `clear()`: every channel goes. */
    method Clear()
      requires Valid()
      modifies this
      ensures Valid() && events == map[]
      ensures forall e :: Channel(events, e) == []
    {
      events := map[];
    }
  }
}
