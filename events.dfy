/**
 * core/events.py: the publish/subscribe hub. `subscribers` maps an event
 * name to its callbacks in subscription order; a name is present only
 * while it has callbacks, and no callback is listed twice.
 *
 * Callbacks are compared by identity in the source; here a callback is a
 * handle, and what calling it does is reduced to whether it raises.
 */
module Events {
  import opened Seqs

  /** A subscribed callable, identified by a handle. */
  type Callback = nat

  /** The position of the first occurrence of `x`: what `list.remove` looks for. */
  function IndexOf(s: seq<Callback>, x: Callback): (i: nat)
    requires x in s
    ensures i < |s| && s[i] == x && x !in s[..i]
  {
    if s[0] == x then 0
    else
      var j := IndexOf(s[1..], x);
      assert s[..j + 1] == [s[0]] + s[1..][..j];
      j + 1
  }

  /** Python's `list.remove(x)`: drop the first occurrence of `x`, keeping the rest in order. */
  function RemoveFirst(s: seq<Callback>, x: Callback): (r: seq<Callback>)
    requires x in s
    ensures |r| == |s| - 1
  {
    var i := IndexOf(s, x);
    s[..i] + s[i + 1..]
  }

  /** In a list without repeats, removing `x` leaves exactly the other callbacks, still without repeats. */
  lemma RemoveFirstDistinct(s: seq<Callback>, x: Callback)
    requires x in s && Distinct(s)
    ensures var r := RemoveFirst(s, x);
      Distinct(r) && (forall y :: y in r <==> y in s && y != x)
  {
    var i := IndexOf(s, x);
    var r := RemoveFirst(s, x);
    assert forall t :: 0 <= t < |r| ==> r[t] == s[if t < i then t else t + 1];
    forall y | y in s && y != x ensures y in r {
      var t :| 0 <= t < |s| && s[t] == y;
      if t < i { assert r[t] == y; } else { assert r[t - 1] == y; }
    }
  }

  /** Removing a callback that was just appended to a list lacking it gives back that list. */
  lemma RemoveFirstLast(s: seq<Callback>, x: Callback)
    requires x !in s
    ensures RemoveFirst(s + [x], x) == s
  {
    var t := s + [x];
    assert t[..|s|] == s;
    assert IndexOf(t, x) == |s|;
  }

  /** The hub's invariant: every listed event has callbacks, none of them twice. */
  predicate WellFormed(subs: map<string, seq<Callback>>) {
    forall e :: e in subs ==> subs[e] != [] && Distinct(subs[e])
  }

  /** The callbacks of `event`, empty when it has none. */
  function Listeners(subs: map<string, seq<Callback>>, event: string): seq<Callback> {
    if event in subs then subs[event] else []
  }

  /** The subscription map after `subscribe(event, callback)`: the callback appended unless already listed. */
  function Subscribed(subs: map<string, seq<Callback>>, event: string, callback: Callback): map<string, seq<Callback>>
  {
    var l := Listeners(subs, event);
    subs[event := if callback in l then l else l + [callback]]
  }

  /** The subscription map after `unsubscribe(event, callback)`; the event disappears with its last callback. */
  function Unsubscribed(subs: map<string, seq<Callback>>, event: string, callback: Callback): map<string, seq<Callback>>
  {
    if event in subs && callback in subs[event] then
      var l := RemoveFirst(subs[event], callback);
      if l == [] then subs - {event} else subs[event := l]
    else subs
  }

  /**
   * Subscribing keeps the invariant, lists the callback exactly once at the
   * end of the event's list (or where it already was), and touches no
   * other event.
   */
  lemma SubscribedSpec(subs: map<string, seq<Callback>>, event: string, callback: Callback)
    requires WellFormed(subs)
    ensures var s := Subscribed(subs, event, callback);
      WellFormed(s)
      && event in s && callback in s[event]
      && (callback in Listeners(subs, event) ==> s == subs)
      && (callback !in Listeners(subs, event) ==> s[event] == Listeners(subs, event) + [callback])
      && (forall e :: e != event ==> (e in s <==> e in subs) && (e in subs ==> s[e] == subs[e]))
  {
    var l := Listeners(subs, event);
    if callback !in l {
      var n := l + [callback];
      forall a, b | 0 <= a < b < |n| ensures n[a] != n[b] {
        if b == |l| { assert n[a] == l[a]; }
      }
    }
  }

  /** Subscribing twice is subscribing once. */
  lemma SubscribedIdempotent(subs: map<string, seq<Callback>>, event: string, callback: Callback)
    ensures Subscribed(Subscribed(subs, event, callback), event, callback) == Subscribed(subs, event, callback)
  {
    var l := Listeners(subs, event);
    if callback !in l {
      assert callback in (l + [callback]);
    }
  }

  /**
   * Unsubscribing keeps the invariant, leaves the callback off the
   * event's list, and touches no other event; an event or a callback that
   * is not subscribed changes nothing.
   */
  lemma UnsubscribedSpec(subs: map<string, seq<Callback>>, event: string, callback: Callback)
    requires WellFormed(subs)
    ensures var s := Unsubscribed(subs, event, callback);
      WellFormed(s)
      && callback !in Listeners(s, event)
      && (forall c :: c in Listeners(s, event) <==> c in Listeners(subs, event) && c != callback)
      && (callback !in Listeners(subs, event) ==> s == subs)
      && (forall e :: e != event ==> (e in s <==> e in subs) && (e in subs ==> s[e] == subs[e]))
  {
    if event in subs && callback in subs[event] {
      RemoveFirstDistinct(subs[event], callback);
    }
  }

  /** Unsubscribing a callback that was just subscribed (and was not before) restores the map. */
  lemma SubscribeThenUnsubscribe(subs: map<string, seq<Callback>>, event: string, callback: Callback)
    requires WellFormed(subs) && callback !in Listeners(subs, event)
    ensures Unsubscribed(Subscribed(subs, event, callback), event, callback) == subs
  {
    var l := Listeners(subs, event);
    var s := Subscribed(subs, event, callback);
    assert s[event] == l + [callback];
    RemoveFirstLast(l, callback);
    if l == [] {
      assert event !in subs;
      assert s - {event} == subs;
    } else {
      assert s[event := l] == subs;
    }
  }

  /** What one `publish` does: the callbacks called, in order, and those among them that raised. */
  datatype Delivery = Delivery(called: seq<Callback>, failed: seq<Callback>)

  /** The callbacks of `cbs` that raise, in order: the errors `publish` logs. */
  function Failures(cbs: seq<Callback>, raises: Callback -> bool): (r: seq<Callback>)
    ensures |r| <= |cbs|
    ensures forall c :: c in r <==> c in cbs && raises(c)
  {
    if cbs == [] then []
    else
      var init := cbs[..|cbs| - 1];
      var last := cbs[|cbs| - 1];
      assert forall c :: c in cbs <==> c in init || c == last;
      Failures(init, raises) + (if raises(last) then [last] else [])
  }

  class EventManager {
    /** `self.subscribers`: event name -> callbacks in subscription order. */
    var subscribers: map<string, seq<Callback>>

    /** `__init__`: no subscriptions. */
    constructor()
      ensures subscribers == map[]
    {
      subscribers := map[];
    }

    /** `subscribe`: create the event's list on first use; append the callback unless already listed. */
    method Subscribe(event: string, callback: Callback)
      modifies this
      ensures subscribers == Subscribed(old(subscribers), event, callback)
    {
      if event !in subscribers {
        subscribers := subscribers[event := []];
      }
      if callback !in subscribers[event] {
        subscribers := subscribers[event := subscribers[event] + [callback]];
      }
    }

    /** `unsubscribe`: remove a listed callback, and the event itself once its list is empty. */
    method Unsubscribe(event: string, callback: Callback)
      modifies this
      ensures subscribers == Unsubscribed(old(subscribers), event, callback)
    {
      if event in subscribers && callback in subscribers[event] {
        subscribers := subscribers[event := RemoveFirst(subscribers[event], callback)];
        if subscribers[event] == [] {
          subscribers := subscribers - {event};
        }
      }
    }

    /**
     * `publish`: call the event's callbacks in subscription order; one that
     * raises is logged and the rest still run. An event with no
     * subscribers calls nothing.
     */
    method Publish(event: string, raises: Callback -> bool) returns (d: Delivery)
      ensures d.called == Listeners(subscribers, event)
      ensures d.failed == Failures(d.called, raises)
    {
      if event !in subscribers {
        return Delivery([], []);
      }
      var cbs := subscribers[event];
      var called := [];
      var failed := [];
      for k := 0 to |cbs|
        invariant called == cbs[..k]
        invariant failed == Failures(called, raises)
      {
        var cb := cbs[k];
        assert (called + [cb])[..k] == called;
        if raises(cb) {
          failed := failed + [cb];
        }
        called := called + [cb];
      }
      assert cbs[..|cbs|] == cbs;
      return Delivery(called, failed);
    }

    /** `clear_all_subscribers`: forget every subscription. */
    method ClearAllSubscribers()
      modifies this
      ensures subscribers == map[]
    {
      subscribers := map[];
    }

    /** `clear_event`: forget the subscriptions of one event only. */
    method ClearEvent(event: string)
      modifies this
      ensures subscribers == old(subscribers) - {event}
    {
      if event in subscribers {
        subscribers := subscribers - {event};
      }
    }
  }

  /** Clearing an event keeps the invariant and leaves it with no listeners. */
  lemma ClearedEventSpec(subs: map<string, seq<Callback>>, event: string)
    requires WellFormed(subs)
    ensures WellFormed(subs - {event}) && Listeners(subs - {event}, event) == []
  {
  }

  /** The class attribute `_instance` behind `EventManager.instance()`. */
  class EventHub {
    var instance: EventManager?

    constructor()
      ensures instance == null
    {
      instance := null;
    }

    /** `instance()`: create the manager on first use, then always hand back that same object. */
    method Instance() returns (m: EventManager)
      modifies this
      ensures old(instance) != null ==> m == old(instance)
      ensures old(instance) == null ==> fresh(m) && m.subscribers == map[]
      ensures instance == m
    {
      if instance == null {
        instance := new EventManager();
      }
      m := instance;
    }
  }
}
