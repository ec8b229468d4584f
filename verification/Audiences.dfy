/** Whom each effect reaches, registry by registry and effect by effect, and what it leaves registered. */
module Audiences {
  import opened Wrappers
  import opened Subscriptions
  import opened SlotHistory
  import opened Effects

  /** Called are subscribers of the slot that are wanted, in the order of their ids: all that were active, and none never activated. */
  ghost predicate Reaches(called: seq<nat>, registry: Registry, key: nat, wanted: Handler -> bool, trace: seq<Event<nat, Handler>>) {
    && (forall i, j :: 0 <= i < j < |called| ==> called[i] < called[j])
    && (forall id :: id in called ==>
          && id in Slot(registry, key) && wanted(Slot(registry, key)[id])
          && (id in registry.active || Activated(id) in trace))
    && (forall id :: id in Slot(registry, key) && wanted(Slot(registry, key)[id]) && id in registry.active ==> id in called)
  }

  /** What the pass leaves: of the subscribers not dropped in it those that were not called or want to stay; other keys as their own events say. */
  ghost predicate Leaves(after: Registry, before: Registry, key: nat, called: seq<nat>, stays: nat -> bool, trace: seq<Event<nat, Handler>>) {
    && (forall id :: id in Slot(before, key) && Dropped(key, id) !in trace ==> (id in Slot(after, key) <==> (id in called ==> stays(id))))
    && (forall k :: k != key ==> Slot(after, k) == SlotAfter(k, trace, Slot(before, k)))
  }

  lemma ReachesAudience(r: Registries, effect: Effect, calls: Calls, channel: Channel, key: nat)
    requires Audience(effect) == Some((channel, key)) && Sound(r.Of(channel), None)
    ensures Reaches(Reached(r, effect, calls), r.Of(channel), key, (h: Handler) => Hears(effect, h), PassFor(r, effect, calls).trace)
  {
    CalledAreAudience(r, effect, calls);
  }

  /** A subscriber that is not dropped in a pass is there afterwards iff it was kept. */
  lemma StaysIffKept(s: Registry, key: nat, script: Script<nat, Handler>, id: nat)
    requires Sound(s, None) && Visitable(s, key) && id in Slot(s, key)
    requires Dropped(key, id) !in Retained(s, key, script).trace
    ensures id in Slot(Retained(s, key, script).state, key) <==> id in Retained(s, key, script).kept
  {
    RetainExact(s, key, script);
    EarlyDropsAreDrops(key, Retained(s, key, script).trace);
    NewIdsAreFresh(s, key, script);
  }

  lemma PassLeaves(s: Registry, key: nat, script: Script<nat, Handler>)
    requires Sound(s, None)
    ensures var p := Retained(s, key, script);
            forall id :: id in Slot(s, key) && Dropped(key, id) !in p.trace ==>
              (id in Slot(p.state, key) <==> (id in p.called ==> script(id).1))
  {
    if Visitable(s, key) {
      var p, slot := Retained(s, key, script), Slot(s, key);
      RemoveKeepsSound(s, None, key);
      VisitMeans(Taken(s, key), AscendingKeys(slot, s.nextId), script);
      forall id | id in slot && Dropped(key, id) !in p.trace
        ensures id in Slot(p.state, key) <==> (id in p.called ==> script(id).1)
      {
        StaysIffKept(s, key, script, id);
      }
    }
  }

  lemma LeavesAudience(r: Registries, effect: Effect, turn: Turn, channel: Channel, key: nat)
    requires Audience(effect) == Some((channel, key)) && Sound(r.Of(channel), None)
    ensures Leaves(Applied(r, effect, turn).Of(channel), r.Of(channel), key, Reached(r, effect, turn.calls),
                   (id: nat) => Stays(effect, turn.calls, id), PassFor(r, effect, turn.calls).trace)
  {
    var s, slot := r.Of(channel), Slot(r.Of(channel), key);
    var script := Hearing(effect, slot, turn.calls, channel);
    PassLeaves(s, key, script);
    HearersMembers(effect, slot, PassFor(r, effect, turn.calls).called);
    forall k | k != key ensures Slot(PassFor(r, effect, turn.calls).state, k) == SlotAfter(k, PassFor(r, effect, turn.calls).trace, Slot(s, k)) {
      RetainElsewhere(s, key, script, k);
    }
  }

  /** A change of an entity reaches its observers; each stays if it says so. */
  lemma NotifyReachesObservers(r: Registries, e: EntityId, turn: Turn)
    requires Sound(r.changes, None)
    ensures var called, trace := Reached(r, Notify(e), turn.calls), PassFor(r, Notify(e), turn.calls).trace;
            && Reaches(called, r.changes, e, (h: Handler) => true, trace)
            && Leaves(Applied(r, Notify(e), turn).changes, r.changes, e, called, (id: nat) => turn.calls(id).1, trace)
  {
    ReachesAudience(r, Notify(e), turn.calls, Changes, e);
    LeavesAudience(r, Notify(e), turn, Changes, e);
  }

  /** An event reaches the listeners of its source for its type; each stays if it says so. */
  lemma EmitReachesListeners(r: Registries, e: EntityId, t: TypeId, event: nat, turn: Turn)
    requires Sound(r.events, None)
    ensures var effect := Emit(e, t, event);
            var called, trace := Reached(r, effect, turn.calls), PassFor(r, effect, turn.calls).trace;
            && Reaches(called, r.events, e, (h: Handler) => h.eventType == t, trace)
            && Leaves(Applied(r, effect, turn).events, r.events, e, called, (id: nat) => turn.calls(id).1, trace)
  {
    ReachesAudience(r, Emit(e, t, event), turn.calls, Events, e);
    LeavesAudience(r, Emit(e, t, event), turn, Events, e);
  }

  /** A change of a global reaches the observers of its type; each stays if it says so. */
  lemma GlobalReachesObservers(r: Registries, t: TypeId, turn: Turn)
    requires Sound(r.globals, None)
    ensures var effect := NotifyGlobalObservers(t);
            var called, trace := Reached(r, effect, turn.calls), PassFor(r, effect, turn.calls).trace;
            && Reaches(called, r.globals, t, (h: Handler) => true, trace)
            && Leaves(Applied(r, effect, turn).globals, r.globals, t, called, (id: nat) => turn.calls(id).1, trace)
  {
    ReachesAudience(r, NotifyGlobalObservers(t), turn.calls, Globals, t);
    LeavesAudience(r, NotifyGlobalObservers(t), turn, Globals, t);
  }

  /** A new entity reaches the observers of its type, and all of them stay. */
  lemma CreationReachesObservers(r: Registries, e: EntityId, t: TypeId, turn: Turn)
    requires Sound(r.creations, None)
    ensures var effect := EntityCreated(e, t);
            var called, trace := Reached(r, effect, turn.calls), PassFor(r, effect, turn.calls).trace;
            && Reaches(called, r.creations, t, (h: Handler) => true, trace)
            && Leaves(Applied(r, effect, turn).creations, r.creations, t, called, (id: nat) => true, trace)
  {
    ReachesAudience(r, EntityCreated(e, t), turn.calls, Creations, t);
    LeavesAudience(r, EntityCreated(e, t), turn, Creations, t);
  }

  /** Refreshing windows and deferred callbacks reach nobody; a deferred callback does what it does, refreshing nothing. */
  lemma OthersReachNobody(r: Registries, callback: nat, turn: Turn)
    ensures Reached(r, RefreshWindows, turn.calls) == [] && Reached(r, Defer(callback), turn.calls) == []
    ensures Applied(r, RefreshWindows, turn) == r
    ensures Applied(r, Defer(callback), turn) == After(r, turn.deferred)
  {
    AfterNothing(r);
  }

  /** The observers of other entities stay registered, unless a callback touches them. */
  lemma OtherObserversStay(r: Registries, e: EntityId, turn: Turn, other: EntityId)
    requires Sound(r.changes, None) && other != e
    requires forall id :: id in Slot(r.changes, e) ==> Spares(r.changes, other, OpsOf(turn.calls(id).0, Changes))
    ensures Slot(Applied(r, Notify(e), turn).changes, other) == Slot(r.changes, other)
  {
    var slot := Slot(r.changes, e);
    UntouchedKeyKeepsSlot(r.changes, e, Hearing(Notify(e), slot, turn.calls, Changes), other);
  }

  /** Actions reach each registry in the order they are done: none is skipped, and updates within updates count. */
  lemma ActionsReachRegistries(r: Registries, op: Op<nat, Handler>, body: seq<Action>, a: seq<Action>, b: seq<Action>)
    ensures After(r, [Register(Changes, op)]) == r.(changes := DoOp(r.changes, op).0)
    ensures After(r, [Register(Events, op)]) == r.(events := DoOp(r.events, op).0)
    ensures After(r, [Register(Globals, op)]) == r.(globals := DoOp(r.globals, op).0)
    ensures After(r, [Register(Creations, op)]) == r.(creations := DoOp(r.creations, op).0)
    ensures After(r, [Update(body)]) == After(r, body) && After(r, []) == r
    ensures After(r, a + b) == After(After(r, a), b)
  {
    AfterOne(r, Changes, op);
    AfterOne(r, Events, op);
    AfterOne(r, Globals, op);
    AfterOne(r, Creations, op);
    AfterUpdate(r, body);
    AfterNothing(r);
    AfterInTurn(r, a, b);
  }
}
