/** The subscriber registry: subscriptions that may come and go while the callbacks of one key are being called. */
module SubscriberSet {
  import opened Wrappers
  import opened Subscriptions
  import opened SlotHistory

  class SubscriberSet<K(!new, ==), C> {
    var subscribers: map<K, Option<map<nat, C>>>
    var droppedSubscribers: set<(K, nat)>
    var nextSubscriberId: nat
    var active: set<nat>
    var keyOf: map<nat, K>

    ghost function State(): State<K, C>
      reads this
    {
      Subscriptions.State.State(subscribers, droppedSubscribers, nextSubscriberId, active, keyOf)
    }

    ghost predicate Valid()
      reads this
    {
      Sound(State(), None)
    }

    constructor ()
      ensures Valid() && State() == Subscriptions.State.State(map[], {}, 0, {}, map[])
    {
      subscribers, droppedSubscribers, nextSubscriberId, active, keyOf := map[], {}, 0, {}, map[];
    }

    /** Registers a callback, inert until activated; the id is new. */
    method Insert(key: K, callback: C) returns (id: nat)
      modifies this
      ensures State() == DoInsert(old(State()), key, callback) && id == old(nextSubscriberId)
      ensures Slot(State(), key) == Slot(old(State()), key)[id := callback] && nextSubscriberId == id + 1
      ensures forall k :: k != key ==> Slot(State(), k) == Slot(old(State()), k)
      ensures active == old(active) && droppedSubscribers == old(droppedSubscribers)
      ensures old(Valid()) ==> Valid()
    {
      ghost var before := State();
      InsertMeans(before, key, callback);
      id := nextSubscriberId;
      nextSubscriberId := nextSubscriberId + 1;
      var m: map<nat, C> := if key in subscribers && subscribers[key].Some? then subscribers[key].value else map[];
      subscribers := subscribers[key := Some(m[id := callback])];
      keyOf := keyOf[id := key];
      if Sound(before, None) {
        InsertKeepsSound(before, None, key, callback);
      }
    }

    /** What dropping a subscription handle does. */
    method Unsubscribe(key: K, id: nat)
      modifies this
      ensures State() == DoUnsubscribe(old(State()), key, id)
      ensures if key in old(subscribers) && old(subscribers)[key].None?
              then droppedSubscribers == old(droppedSubscribers) + {(key, id)} && subscribers == old(subscribers)
              else Slot(State(), key) == Slot(old(State()), key) - {id} && droppedSubscribers == old(droppedSubscribers)
      ensures forall k :: k != key ==> Slot(State(), k) == Slot(old(State()), k)
      ensures active == old(active) && nextSubscriberId == old(nextSubscriberId) && keyOf == old(keyOf)
      ensures old(Valid()) && id in keyOf && keyOf[id] == key ==> Valid()
    {
      UnsubscribeMeans(State(), key, id);
      if Sound(State(), None) && id in keyOf && keyOf[id] == key {
        UnsubscribeKeepsSound(State(), None, key, id);
      }
      if key !in subscribers {
        return;
      }
      if subscribers[key].Some? {
        var m := subscribers[key].value - {id};
        subscribers := subscribers[key := Some(m)];
        if m == map[] {
          subscribers := subscribers - {key};
        }
        return;
      }
      droppedSubscribers := droppedSubscribers + {(key, id)};
    }

    /** Takes a key out of the registry and returns its active callbacks in id order. */
    method Remove(key: K) returns (callbacks: seq<C>, ghost ids: seq<nat>)
      requires Valid()
      modifies this
      ensures Valid() && State() == old(State()).(subscribers := old(subscribers) - {key})
      ensures forall id :: id in ids <==> id in Slot(old(State()), key) && id in active
      ensures forall i, j :: 0 <= i < j < |ids| ==> ids[i] < ids[j]
      ensures |callbacks| == |ids| && forall i :: 0 <= i < |ids| ==> callbacks[i] == Slot(old(State()), key)[ids[i]]
    {
      RemoveKeepsSound(State(), None, key);
      var m := TakeOut(key);
      callbacks, ids := ActiveOf(m, AscendingKeys(m, nextSubscriberId));
    }

    /** A slot whose subscribers are being visited has none to give. */
    method TakeOut(key: K) returns (m: map<nat, C>)
      modifies this
      ensures State() == old(State()).(subscribers := old(subscribers) - {key}) && m == Slot(old(State()), key)
    {
      m := if key in subscribers && subscribers[key].Some? then subscribers[key].value else map[];
      subscribers := subscribers - {key};
    }

    method ActiveOf(m: map<nat, C>, all: seq<nat>) returns (callbacks: seq<C>, ghost ids: seq<nat>)
      requires forall id :: id in all ==> id in m
      requires forall i, j :: 0 <= i < j < |all| ==> all[i] < all[j]
      ensures forall id :: id in ids <==> id in all && id in active
      ensures forall i, j :: 0 <= i < j < |ids| ==> ids[i] < ids[j]
      ensures |callbacks| == |ids| && forall i :: 0 <= i < |ids| ==> ids[i] in m && callbacks[i] == m[ids[i]]
    {
      callbacks, ids := [], [];
      for i := 0 to |all|
        invariant forall id :: id in ids <==> id in all[..i] && id in active
        invariant forall k, l :: 0 <= k < l < |ids| ==> ids[k] < ids[l]
        invariant |callbacks| == |ids| && forall k :: 0 <= k < |ids| ==> ids[k] in m && callbacks[k] == m[ids[k]]
      {
        assert forall id :: id in all[..i + 1] <==> id in all[..i] || id == all[i];
        assert all[i] in all;
        assert forall k :: 0 <= k < |ids| ==> ids[k] in ids;
        if all[i] in active {
          callbacks, ids := callbacks + [m[all[i]]], ids + [all[i]];
        }
      }
      assert all[..|all|] == all;
    }

    /** One operation performed by a callback. */
    method Perform(op: Op<K, C>) returns (ghost events: seq<Event<K, C>>)
      modifies this
      ensures (State(), events) == DoOp(old(State()), op)
    {
      events := DoOp(State(), op).1;
      match op
      case Insert(key, callback) =>
        var _ := Insert(key, callback);
      case Drop(id) =>
        if id in keyOf {
          Unsubscribe(keyOf[id], id);
        }
      case Activate(id) =>
        if id in keyOf {
          active := active + {id};
        }
      case Remove(key) =>
        var _ := TakeOut(key);
    }

    method PerformAll(ops: seq<Op<K, C>>) returns (ghost events: seq<Event<K, C>>)
      modifies this
      ensures (State(), events) == DoAll(old(State()), ops)
    {
      events := [];
      for i := 0 to |ops|
        invariant (State(), events) == DoAll(old(State()), ops[..i])
      {
        assert ops[..i + 1][..i] == ops[..i];
        var event := Perform(ops[i]);
        events := events + event;
      }
      assert ops[..|ops|] == ops;
    }

    /** Calls the active subscribers of a key; they may insert, drop, activate and remove meanwhile. */
    method Retain(key: K, script: Script<K, C>) returns (called: seq<nat>)
      requires Valid()
      modifies this
      ensures State() == Retained(old(State()), key, script).state && called == Retained(old(State()), key, script).called
      ensures forall k :: k != key ==> Slot(State(), k) == SlotAfter(k, Retained(old(State()), key, script).trace, Slot(old(State()), k))
      ensures Valid()
    {
      forall k | k != key
        ensures Slot(Retained(State(), key, script).state, k) == SlotAfter(k, Retained(State(), key, script).trace, Slot(State(), k))
      {
        RetainElsewhere(State(), key, script, k);
      }
      if Visitable(State(), key) {
        RetainExact(State(), key, script);
      }
      called := [];
      if key !in subscribers || subscribers[key].None? {
        return;
      }
      var m := subscribers[key].value;
      subscribers := subscribers[key := None];
      var ids := AscendingKeys(m, nextSubscriberId);
      var kept;
      ghost var p := Visit(State(), ids, script);
      called, kept := CallEach(ids, script);
      MergeBack(key, m, kept, p);
    }

    method CallEach(ids: seq<nat>, script: Script<K, C>) returns (called: seq<nat>, kept: set<nat>)
      modifies this
      ensures var p := Visit(old(State()), ids, script); State() == p.state && called == p.called && kept == p.kept
    {
      called, kept := [], {};
      for i := 0 to |ids|
        invariant var p := Visit(old(State()), ids[..i], script); State() == p.state && called == p.called && kept == p.kept
      {
        assert ids[..i + 1][..i] == ids[..i];
        var id := ids[i];
        if id in active {
          var (ops, keep) := script(id);
          var _ := PerformAll(ops);
          called := called + [id];
          if keep {
            kept := kept + {id};
          }
        } else {
          kept := kept + {id};
        }
      }
      assert ids[..|ids|] == ids;
    }

    /** Adds the new subscribers to the kept ones and forgets the handles dropped meanwhile. */
    method MergeBack(key: K, m: map<nat, C>, kept: set<nat>, ghost p: Pass<K, C>)
      requires p.state == State() && p.kept == kept
      modifies this
      ensures State() == Merged(p, key, m)
    {
      var all: map<nat, C> := map id | id in m && id in kept :: m[id];
      if key in subscribers {
        var added := subscribers[key];
        subscribers := subscribers - {key};
        if added.Some? {
          all := all + added.value;
        }
      }
      var gone := set d | d in droppedSubscribers :: d.1;
      droppedSubscribers := {};
      all := all - gone;
      ghost var merged := ((map id | id in m && id in kept :: m[id]) + Slot(p.state, key)) - gone;
      assert all == merged;
      assert old(subscribers) - {key} == subscribers;
      assert old(subscribers)[key := Some(all)] == subscribers[key := Some(all)];
      if all != map[] {
        subscribers := subscribers[key := Some(all)];
      }
    }
  }
}
