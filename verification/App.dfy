/** The application's effect loop and the index of windows interested in entities. */
module App {
  import opened Wrappers
  import opened Subscriptions
  import opened Effects

  ghost function Count(queue: seq<Effect>, e: Effect): nat {
    multiset(queue)[e]
  }

  /** The pending sets are exactly the emitters and types of the queued notify effects, each queued once. */
  ghost predicate Deduplicated(queue: seq<Effect>, notifications: set<EntityId>, globals: set<TypeId>) {
    && (forall e: EntityId :: Count(queue, Notify(e)) == if e in notifications then 1 else 0)
    && (forall t: TypeId :: Count(queue, NotifyGlobalObservers(t)) == if t in globals then 1 else 0)
  }

  lemma PushCount(queue: seq<Effect>, e: Effect, f: Effect)
    ensures Count(queue + [e], f) == Count(queue, f) + if e == f then 1 else 0
  {
  }

  lemma PopCount(queue: seq<Effect>, f: Effect)
    requires queue != []
    ensures Count(queue[1..], f) == Count(queue, f) - if queue[0] == f then 1 else 0
  {
    assert queue == [queue[0]] + queue[1..];
  }

  /** The index and its mirror agree: a window tracks an entity iff the entity lists an invalidator for the window. */
  ghost predicate Mirrored(tracked: map<WindowId, set<EntityId>>, index: map<EntityId, map<WindowId, nat>>) {
    forall w, e :: w in Row(index, e) <==> w in tracked && e in tracked[w]
  }

  class App {
    var pendingEffects: seq<Effect>
    var pendingNotifications: set<EntityId>
    var pendingGlobalNotifications: set<TypeId>
    var pendingUpdates: nat
    var flushingEffects: bool
    var trackedEntities: map<WindowId, set<EntityId>>
    var windowInvalidatorsByEntity: map<EntityId, map<WindowId, nat>>
    var dirtyViews: map<nat, set<EntityId>>
    var drawing: set<nat>
    var registries: Registries
    ghost var visiting: Option<(Channel, nat)>
    ghost var accepted: seq<Effect>
    ghost var applied: seq<Effect>

    /**
      * Queued once each, applied first in first out; the index of interested windows and its mirror agree; the
      * registries are sound, and subscribers are called in the flush only.
      */
    ghost predicate Valid()
      reads this
    {
      && Queued() && Mirrored(trackedEntities, windowInvalidatorsByEntity)
      && AllSound(registries, visiting) && (visiting.Some? ==> flushingEffects)
    }

    ghost predicate Queued()
      reads this
    {
      && Deduplicated(pendingEffects, pendingNotifications, pendingGlobalNotifications)
      && accepted == applied + pendingEffects
    }

    constructor ()
      ensures Valid() && pendingUpdates == 0 && !flushingEffects && pendingEffects == []
      ensures trackedEntities == map[] && windowInvalidatorsByEntity == map[] && dirtyViews == map[]
      ensures var none := State(map[], {}, 0, {}, map[]); registries == Registries(none, none, none, none)
    {
      pendingEffects, pendingNotifications, pendingGlobalNotifications := [], {}, {};
      pendingUpdates, flushingEffects := 0, false;
      trackedEntities, windowInvalidatorsByEntity := map[], map[];
      dirtyViews, drawing := map[], {};
      registries, visiting := Registries(NO_SUBSCRIBERS, NO_SUBSCRIBERS, NO_SUBSCRIBERS, NO_SUBSCRIBERS), None;
      accepted, applied := [], [];
    }

    method Enqueue(effect: Effect)
      requires accepted == applied + pendingEffects
      modifies this`pendingEffects, this`accepted
      ensures pendingEffects == old(pendingEffects) + [effect] && accepted == old(accepted) + [effect]
      ensures accepted == applied + pendingEffects
      ensures forall f :: Count(pendingEffects, f) == Count(old(pendingEffects), f) + if f == effect then 1 else 0
    {
      forall f ensures Count(pendingEffects + [effect], f) == Count(pendingEffects, f) + if effect == f then 1 else 0 {
        PushCount(pendingEffects, effect, f);
      }
      pendingEffects := pendingEffects + [effect];
      accepted := accepted + [effect];
    }

    /** Queues an effect unless the same notification is already waiting; either way it is waiting now. */
    method PushEffect(effect: Effect)
      requires Queued()
      modifies this`pendingEffects, this`pendingNotifications, this`pendingGlobalNotifications, this`accepted
      ensures Queued() && effect in pendingEffects
      ensures if (effect.Notify? || effect.NotifyGlobalObservers?) && effect in old(pendingEffects)
              then pendingEffects == old(pendingEffects) && accepted == old(accepted)
              else pendingEffects == old(pendingEffects) + [effect] && accepted == old(accepted) + [effect]
    {
      assert effect in pendingEffects <==> Count(pendingEffects, effect) > 0;
      match effect {
        case Notify(emitter) =>
          if emitter in pendingNotifications {
            return;
          }
          pendingNotifications := pendingNotifications + {emitter};
        case NotifyGlobalObservers(globalType) =>
          if globalType in pendingGlobalNotifications {
            return;
          }
          pendingGlobalNotifications := pendingGlobalNotifications + {globalType};
        case _ =>
      }
      Enqueue(effect);
    }

    /** A change of an entity: observers are queued directly, or through every interested window that is not drawing. */
    method NotifyChange(entity: EntityId)
      requires Valid()
      modifies this`pendingEffects, this`pendingNotifications, this`accepted, this`windowInvalidatorsByEntity, this`dirtyViews,
               this`pendingGlobalNotifications
      ensures Valid() && pendingGlobalNotifications == old(pendingGlobalNotifications)
      ensures var rows := Row(old(windowInvalidatorsByEntity), entity);
              && dirtyViews == MarkAll(old(dirtyViews), rows.Values, entity)
              && (if Notify(entity) in old(pendingEffects) || (rows != map[] && rows.Values <= drawing)
                  then pendingEffects == old(pendingEffects) && accepted == old(accepted)
                  else pendingEffects == old(pendingEffects) + [Notify(entity)] && accepted == old(accepted) + [Notify(entity)])
      ensures windowInvalidatorsByEntity == old(windowInvalidatorsByEntity)[entity := Row(old(windowInvalidatorsByEntity), entity)]
    {
      var rows := if entity in windowInvalidatorsByEntity then windowInvalidatorsByEntity[entity] else map[];
      SameRowsMirror(trackedEntities, windowInvalidatorsByEntity, entity);
      assert windowInvalidatorsByEntity[entity := map[]][entity := rows] == windowInvalidatorsByEntity[entity := rows];
      windowInvalidatorsByEntity := windowInvalidatorsByEntity[entity := map[]];
      QueueOrInvalidate(rows, entity);
      windowInvalidatorsByEntity := windowInvalidatorsByEntity[entity := rows];
    }

    method QueueOrInvalidate(rows: map<WindowId, nat>, entity: EntityId)
      requires Queued()
      modifies this`pendingEffects, this`pendingNotifications, this`accepted, this`dirtyViews, this`pendingGlobalNotifications
      ensures Queued() && pendingGlobalNotifications == old(pendingGlobalNotifications)
      ensures dirtyViews == MarkAll(old(dirtyViews), rows.Values, entity)
      ensures if Notify(entity) in old(pendingEffects) || (rows != map[] && rows.Values <= drawing)
              then pendingEffects == old(pendingEffects) && accepted == old(accepted)
              else pendingEffects == old(pendingEffects) + [Notify(entity)] && accepted == old(accepted) + [Notify(entity)]
    {
      assert Notify(entity) in pendingEffects <==> Count(pendingEffects, Notify(entity)) > 0;
      if rows == map[] {
        if entity !in pendingNotifications {
          pendingNotifications := pendingNotifications + {entity};
          Enqueue(Notify(entity));
        }
      } else {
        InvalidateAll(rows.Values, entity);
      }
    }

    /** Marks the view dirty for each invalidator, in no particular order. */
    method InvalidateAll(invalidators: set<nat>, entity: EntityId)
      requires Queued()
      modifies this`pendingEffects, this`pendingNotifications, this`pendingGlobalNotifications, this`accepted, this`dirtyViews
      ensures Queued() && pendingGlobalNotifications == old(pendingGlobalNotifications)
      ensures dirtyViews == MarkAll(old(dirtyViews), invalidators, entity)
      ensures if Notify(entity) in old(pendingEffects) || invalidators <= drawing
              then pendingEffects == old(pendingEffects) && accepted == old(accepted)
              else pendingEffects == old(pendingEffects) + [Notify(entity)] && accepted == old(accepted) + [Notify(entity)]
    {
      var rest := invalidators;
      ghost var done: set<nat> := {};
      ghost var awake := false;
      assert pendingEffects + [] == pendingEffects && accepted + [] == accepted;
      MarkNone(dirtyViews, entity);
      while rest != {}
        invariant Queued() && Parted(invalidators, done, rest) && pendingGlobalNotifications == old(pendingGlobalNotifications)
        invariant dirtyViews == MarkAll(old(dirtyViews), done, entity)
        invariant awake <==> SomeAwake(done, drawing)
        invariant pendingEffects == old(pendingEffects) + Extra(old(pendingEffects), entity, awake)
        invariant accepted == old(accepted) + Extra(old(pendingEffects), entity, awake)
        decreases |rest|
      {
        var i :| i in rest;
        ExtraOneMore(old(pendingEffects), old(accepted), entity, awake, i !in drawing);
        awake := awake || i !in drawing;
        PartOneMore(invalidators, done, rest, i, drawing);
        MarkOneMore(old(dirtyViews), done, entity, i);
        rest, done := rest - {i}, done + {i};
        InvalidateView(i, entity);
      }
      AllParted(invalidators, done, drawing);
    }

    /** Marks the view dirty for one invalidator and, unless its window is drawing, queues the entity's notification. */
    method InvalidateView(i: nat, entity: EntityId)
      requires Queued()
      modifies this`pendingEffects, this`pendingNotifications, this`pendingGlobalNotifications, this`accepted, this`dirtyViews
      ensures Queued() && pendingGlobalNotifications == old(pendingGlobalNotifications)
      ensures dirtyViews == old(dirtyViews)[i := Dirty(old(dirtyViews), i) + {entity}]
      ensures pendingEffects == old(pendingEffects) + Extra(old(pendingEffects), entity, i !in drawing)
      ensures accepted == old(accepted) + Extra(old(pendingEffects), entity, i !in drawing)
    {
      dirtyViews := dirtyViews[i := (if i in dirtyViews then dirtyViews[i] else {}) + {entity}];
      if i !in drawing {
        PushEffect(Notify(entity));
      }
    }

    /** Inside an update or the flush: nothing run now may flush. */
    ghost predicate Busy()
      reads this
    {
      flushingEffects || pendingUpdates >= 1
    }

    method StartUpdate()
      modifies this`pendingUpdates
      ensures pendingUpdates == old(pendingUpdates) + 1
    {
      pendingUpdates := pendingUpdates + 1;
    }

    /**
      * Only the end of the outermost update flushes, and when the flush returns nothing is queued and nothing unapplied.
      * `turns` is what happens in each turn of the flush; it is followed for at most `limit` turns.
      */
    method FinishUpdate(turns: nat -> Turn, limit: nat) returns (finished: bool)
      requires Valid() && pendingUpdates >= 1
      modifies this
      ensures Valid() && visiting == old(visiting) && old(accepted) <= accepted
      ensures finished ==> pendingUpdates == old(pendingUpdates) - 1 && flushingEffects == old(flushingEffects)
      ensures if !old(flushingEffects) && old(pendingUpdates) == 1
              then if finished then pendingEffects == [] && applied == accepted
                   else flushingEffects && pendingUpdates == 1 && |applied| == |old(applied)| + limit
              else && finished && applied == old(applied) && accepted == old(accepted)
                   && pendingEffects == old(pendingEffects) && registries == old(registries)
      ensures (forall i :: Silent(turns(i))) && limit > |old(pendingEffects)| ==> finished
      decreases if !flushingEffects && pendingUpdates == 1 then 3 else 0, 0, 1
    {
      if !flushingEffects && pendingUpdates == 1 {
        flushingEffects := true;
        finished := FlushEffects(turns, limit);
        if !finished {
          return;
        }
        flushingEffects := false;
      }
      pendingUpdates := pendingUpdates - 1;
      finished := true;
    }

    /**
      * Applies effects in the order they were queued until none is left. A flush may go on for ever; whatever number of
      * turns one watches, each has applied the next effect. Once callbacks are silent it ends with the queue.
      */
    method FlushEffects(turns: nat -> Turn, limit: nat) returns (finished: bool)
      requires Valid() && flushingEffects && visiting.None?
      modifies this
      ensures Valid() && flushingEffects && visiting.None? && pendingUpdates == old(pendingUpdates)
      ensures old(accepted) <= accepted && old(applied) <= applied
      ensures finished ==> pendingEffects == [] && applied == accepted && pendingNotifications == {} && pendingGlobalNotifications == {}
      ensures !finished ==> |applied| == |old(applied)| + limit
      ensures (forall i :: Silent(turns(i))) && limit > |old(pendingEffects)| ==> finished
      decreases 2, 0, 0
    {
      for i := 0 to limit
        invariant Valid() && flushingEffects && visiting.None? && pendingUpdates == old(pendingUpdates)
        invariant old(accepted) <= accepted && old(applied) <= applied && |applied| == |old(applied)| + i
        invariant (forall k :: Silent(turns(k))) ==> |pendingEffects| == |old(pendingEffects)| - i
      {
        finished := TakeTurn(turns(i));
        if finished {
          return;
        }
      }
      finished := false;
    }

    /** Releases entities and then applies the next effect, unless none is left; nothing else happens to the registries. */
    method TakeTurn(turn: Turn) returns (finished: bool)
      requires Valid() && flushingEffects && visiting.None?
      modifies this
      ensures Valid() && flushingEffects && visiting.None? && pendingUpdates == old(pendingUpdates)
      ensures old(accepted) <= accepted
      ensures var released := After(old(registries), turn.releasing);
              if finished
              then && pendingEffects == [] && pendingNotifications == {} && pendingGlobalNotifications == {}
                   && applied == old(applied) && registries == released
              else && |applied| == |old(applied)| + 1 && old(applied) <= applied
                   && registries == Applied(released, applied[|old(applied)|], turn)
      ensures old(pendingEffects) != [] ==> !finished && applied[|old(applied)|] == old(pendingEffects)[0]
      ensures Silent(turn) ==> if finished then old(pendingEffects) == [] else |pendingEffects| == |old(pendingEffects)| - 1
      decreases 1, 0, 3
    {
      Run(turn.releasing);
      if pendingEffects == [] {
        NothingPending(pendingNotifications, pendingGlobalNotifications);
        return true;
      }
      var _ := ApplyFirst(turn);
      finished := false;
    }

    /**
      * Takes the first effect and calls exactly its audience; a notification may be queued again from the moment its
      * callbacks start.
      */
    method ApplyFirst(turn: Turn) returns (called: seq<nat>)
      requires Valid() && flushingEffects && visiting.None? && pendingEffects != []
      modifies this
      ensures Valid() && flushingEffects && visiting.None? && pendingUpdates == old(pendingUpdates)
      ensures applied == old(applied) + [old(pendingEffects)[0]] && old(accepted) <= accepted
      ensures called == Reached(old(registries), old(pendingEffects)[0], turn.calls)
      ensures registries == Applied(old(registries), old(pendingEffects)[0], turn)
      ensures Silent(turn) ==> pendingEffects == old(pendingEffects)[1..]
      decreases 1, 0, 2
    {
      var effect := TakeFirst();
      if Audience(effect).Some? {
        called := CallAudience(effect, turn);
      } else {
        called := [];
        Run(if effect.Defer? then turn.deferred else []);
      }
    }

    /** Takes an effect out of the queue; its notification is then no longer pending. */
    method TakeFirst() returns (effect: Effect)
      requires Queued() && pendingEffects != []
      modifies this`pendingEffects, this`pendingNotifications, this`pendingGlobalNotifications, this`applied
      ensures Queued() && effect == old(pendingEffects)[0]
      ensures pendingEffects == old(pendingEffects)[1..] && applied == old(applied) + [effect]
    {
      effect := pendingEffects[0];
      forall f ensures Count(pendingEffects[1..], f) == Count(pendingEffects, f) - if effect == f then 1 else 0 {
        PopCount(pendingEffects, f);
      }
      pendingEffects, applied := pendingEffects[1..], applied + [effect];
      match effect {
        case Notify(emitter) =>
          pendingNotifications := pendingNotifications - {emitter};
        case NotifyGlobalObservers(globalType) =>
          pendingGlobalNotifications := pendingGlobalNotifications - {globalType};
        case _ =>
      }
    }

    /** A pass over the subscribers an effect is for: takes their slot, calls the active ones in turn, and merges back. */
    method CallAudience(effect: Effect, turn: Turn) returns (called: seq<nat>)
      requires Valid() && flushingEffects && visiting.None? && Audience(effect).Some?
      modifies this
      ensures Valid() && flushingEffects && visiting.None? && pendingUpdates == old(pendingUpdates)
      ensures applied == old(applied) && old(accepted) <= accepted
      ensures called == Called(old(registries), effect, turn.calls)
      ensures registries == Applied(old(registries), effect, turn)
      ensures Silent(turn) ==> pendingEffects == old(pendingEffects)
      decreases 1, 0, 1
    {
      var (channel, key) := Audience(effect).value;
      ghost var before := registries;
      AppliedKeepsSound(before, effect, turn);
      var registry := registries.Of(channel);
      if key !in registry.subscribers || registry.subscribers[key].None? {
        NoAudience(before, effect, turn);
        return [];
      }
      var slot := registry.subscribers[key].value;
      var ids := AscendingKeys(slot, registry.nextId);
      TakeSlot(channel, key);
      var kept;
      called, kept := CallEach(effect, turn, channel, key, slot, ids, before);
      VisitingEnds(before, registries, effect, turn, slot, ids, called, kept);
      MergeBack(channel, Merged(Pass(registries.Of(channel), [], called, kept), key, slot));
    }

    method TakeSlot(channel: Channel, key: nat)
      requires Valid() && flushingEffects && visiting.None? && Visitable(registries.Of(channel), key)
      modifies this`registries, this`visiting
      ensures Valid() && visiting == Some((channel, key))
      ensures registries == old(registries).With(channel, Taken(old(registries).Of(channel), key))
    {
      TakenKeepsSound(registries, channel, key);
      registries, visiting := registries.With(channel, Taken(registries.Of(channel), key)), Some((channel, key));
    }

    method MergeBack(channel: Channel, merged: Registry)
      requires Valid() && AllSound(registries.With(channel, merged), None)
      modifies this`registries, this`visiting
      ensures Valid() && visiting.None? && registries == old(registries).With(channel, merged)
    {
      registries, visiting := registries.With(channel, merged), None;
    }

    /** The callbacks of a pass, one after the other. */
    method CallEach(effect: Effect, turn: Turn, channel: Channel, key: nat, slot: map<nat, Handler>, ids: seq<nat>,
                    ghost before: Registries)
      returns (called: seq<nat>, kept: set<nat>)
      requires Valid() && flushingEffects && visiting == Some((channel, key))
      requires registries == before.With(channel, Taken(before.Of(channel), key))
      requires forall id :: id in ids ==> id in slot
      modifies this
      ensures Valid() && flushingEffects && visiting == old(visiting) && pendingUpdates == old(pendingUpdates)
      ensures applied == old(applied) && old(accepted) <= accepted
      ensures Visiting(before, registries, effect, turn.calls, channel, key, slot, ids, called, kept)
      ensures Silent(turn) ==> pendingEffects == old(pendingEffects)
      decreases 1, 0, 0
    {
      called, kept := [], {};
      VisitingStarts(before, effect, turn.calls, channel, key, slot);
      for i := 0 to |ids|
        invariant Valid() && flushingEffects && visiting == old(visiting) && pendingUpdates == old(pendingUpdates)
        invariant applied == old(applied) && old(accepted) <= accepted
        invariant Visiting(before, registries, effect, turn.calls, channel, key, slot, ids[..i], called, kept)
        invariant Silent(turn) ==> pendingEffects == old(pendingEffects)
      {
        var id := ids[i];
        assert ids[..i + 1] == ids[..i] + [id];
        if id in registries.Of(channel).active && Hears(effect, slot[id]) {
          CallOne(before, registries, effect, turn.calls, channel, key, slot, ids[..i], called, kept, id);
          var (actions, _) := turn.calls(id);
          Run(actions);
          called := called + [id];
          kept := if Stays(effect, turn.calls, id) then kept + {id} else kept;
        } else {
          SkipOne(before, registries, effect, turn.calls, channel, key, slot, ids[..i], called, kept, id);
          kept := kept + {id};
        }
      }
      assert ids[..|ids|] == ids;
    }

    /** What callbacks and application code do while nothing may flush. */
    method Run(actions: seq<Action>)
      requires Valid() && Busy()
      modifies this
      ensures Valid() && visiting == old(visiting) && pendingUpdates == old(pendingUpdates) && flushingEffects == old(flushingEffects)
      ensures applied == old(applied) && old(accepted) <= accepted
      ensures registries == After(old(registries), actions)
      ensures Queues(old(pendingEffects), pendingEffects, old(accepted), accepted, actions)
      ensures actions == [] ==> pendingEffects == old(pendingEffects)
      decreases 0, Size(actions), 1
    {
      AfterNothing(registries);
      QueuesNothing(pendingEffects, accepted);
      if actions != [] {
        ghost var queue0, accepted0 := pendingEffects, accepted;
        AfterInTurn(registries, [actions[0]], actions[1..]);
        assert [actions[0]] + actions[1..] == actions;
        Perform(actions[0]);
        ghost var queue1, accepted1 := pendingEffects, accepted;
        Run(actions[1..]);
        QueuesInTurn(queue0, queue1, pendingEffects, accepted0, accepted1, accepted, actions[0], actions[1..]);
      }
    }

    method Perform(action: Action)
      requires Valid() && Busy()
      modifies this
      ensures Valid() && visiting == old(visiting) && pendingUpdates == old(pendingUpdates) && flushingEffects == old(flushingEffects)
      ensures applied == old(applied) && old(accepted) <= accepted
      ensures registries == After(old(registries), [action])
      ensures Queues(old(pendingEffects), pendingEffects, old(accepted), accepted, [action])
      decreases 0, ActionSize(action), 0
    {
      match action {
        case Register(channel, op) =>
          QueuesUnchanged(pendingEffects, accepted, action);
          ChangeRegistry(channel, op);
        case Update(body) =>
          AfterUpdate(registries, body);
          NestedUpdate(body);
          QueuesUpdate(old(pendingEffects), pendingEffects, old(accepted), accepted, body);
        case _ =>
          AfterOther(registries, action);
          Record(action);
      }
    }

    /** What only adds to the queue or to the index. */
    method Record(action: Action)
      requires Valid() && !action.Register? && !action.Update?
      modifies this`pendingEffects, this`pendingNotifications, this`pendingGlobalNotifications, this`accepted,
               this`dirtyViews, this`trackedEntities, this`windowInvalidatorsByEntity
      ensures Valid() && Queues(old(pendingEffects), pendingEffects, old(accepted), accepted, [action])
      ensures action.NotifyEntity? ==>
                var rows := Row(old(windowInvalidatorsByEntity), action.entity);
                rows == map[] || !(rows.Values <= drawing) ==> Notify(action.entity) in pendingEffects
      ensures action.Track? ==> trackedEntities == old(trackedEntities)[action.window := action.entities]
    {
      match action {
        case Push(effect) => RecordPush(effect);
        case NotifyEntity(entity) => RecordNotify(entity);
        case Refresh => RecordRefresh();
        case Track(window, invalidator, entities) =>
          QueuesUnchanged(pendingEffects, accepted, action);
          RecordEntitiesAccessed(window, invalidator, entities);
      }
    }

    method RecordPush(effect: Effect)
      requires Valid()
      modifies this`pendingEffects, this`pendingNotifications, this`pendingGlobalNotifications, this`accepted
      ensures Valid() && Queues(old(pendingEffects), pendingEffects, old(accepted), accepted, [Push(effect)])
    {
      PushQueues(pendingEffects, accepted, effect);
      PushEffect(effect);
    }

    method RecordRefresh()
      requires Valid()
      modifies this`pendingEffects, this`accepted
      ensures Valid() && Queues(old(pendingEffects), pendingEffects, old(accepted), accepted, [Refresh])
    {
      RefreshQueues(pendingEffects, accepted);
      Enqueue(RefreshWindows);
    }

    method RecordNotify(entity: EntityId)
      requires Valid()
      modifies this`pendingEffects, this`pendingNotifications, this`pendingGlobalNotifications, this`accepted,
               this`dirtyViews, this`windowInvalidatorsByEntity
      ensures Valid() && Queues(old(pendingEffects), pendingEffects, old(accepted), accepted, [NotifyEntity(entity)])
      ensures var rows := Row(old(windowInvalidatorsByEntity), entity);
              rows == map[] || !(rows.Values <= drawing) ==> Notify(entity) in pendingEffects
    {
      NotifyQueues(pendingEffects, accepted, entity);
      QueuesUnchanged(pendingEffects, accepted, NotifyEntity(entity));
      NotifyChange(entity);
    }

    /** An update within an update or the flush does not flush. */
    method NestedUpdate(body: seq<Action>)
      requires Valid() && Busy()
      modifies this
      ensures Valid() && visiting == old(visiting) && pendingUpdates == old(pendingUpdates) && flushingEffects == old(flushingEffects)
      ensures applied == old(applied) && old(accepted) <= accepted
      ensures registries == After(old(registries), body)
      ensures Queues(old(pendingEffects), pendingEffects, old(accepted), accepted, body)
      decreases 0, Size(body), 2
    {
      StartUpdate();
      Run(body);
      var _ := FinishUpdate(NoTurns, 0);
    }

    /** One operation on one registry, also in the middle of a pass. */
    method ChangeRegistry(channel: Channel, op: Op<nat, Handler>)
      requires Valid()
      modifies this`registries
      ensures Valid() && registries == After(old(registries), [Register(channel, op)])
    {
      AfterOne(registries, channel, op);
      AfterKeepsSound(registries, visiting, [Register(channel, op)]);
      registries := registries.With(channel, DoOp(registries.Of(channel), op).0);
    }

    /** One top-level or nested update. */
    method UpdateApp(actions: seq<Action>, turns: nat -> Turn, limit: nat) returns (finished: bool)
      requires Valid()
      modifies this
      ensures Valid() && old(accepted) <= accepted && visiting == old(visiting)
      ensures exists queued :: old(accepted) <= queued <= accepted && Plain(queued) == Plain(old(accepted)) + Asked(actions)
      ensures finished ==> pendingUpdates == old(pendingUpdates) && flushingEffects == old(flushingEffects)
      ensures if !old(flushingEffects) && old(pendingUpdates) == 0
              then if finished then pendingEffects == [] && applied == accepted
                   else flushingEffects && |applied| == |old(applied)| + limit
              else finished && applied == old(applied)
    {
      StartUpdate();
      Run(actions);
      assert old(accepted) <= accepted && Plain(accepted) == Plain(old(accepted)) + Asked(actions);
      finished := FinishUpdate(turns, limit);
    }

    /** Replaces one window's row of the index and nothing else. */
    method RecordEntitiesAccessed(window: WindowId, invalidator: nat, entities: set<EntityId>)
      requires Valid()
      modifies this`trackedEntities, this`windowInvalidatorsByEntity
      ensures Valid() && trackedEntities == old(trackedEntities)[window := entities]
      ensures forall e :: e in entities ==> window in Row(windowInvalidatorsByEntity, e) && Row(windowInvalidatorsByEntity, e)[window] == invalidator
      ensures forall e :: Row(windowInvalidatorsByEntity, e) - {window} == Row(old(windowInvalidatorsByEntity), e) - {window}
    {
      ghost var before := windowInvalidatorsByEntity;
      var tracked := if window in trackedEntities then trackedEntities[window] else {};
      RemoveWindow(window, tracked);
      AddWindow(window, invalidator, entities);
      ReplacedRowMirrors(trackedEntities, before, windowInvalidatorsByEntity, window, invalidator, entities);
      trackedEntities := trackedEntities[window := entities];
    }

    method RemoveWindow(window: WindowId, entities: set<EntityId>)
      modifies this`windowInvalidatorsByEntity
      ensures forall e :: Row(windowInvalidatorsByEntity, e) ==
                if e in entities then Row(old(windowInvalidatorsByEntity), e) - {window} else Row(old(windowInvalidatorsByEntity), e)
    {
      var rest := entities;
      while rest != {}
        invariant rest <= entities
        invariant forall e :: Row(windowInvalidatorsByEntity, e) ==
                    if e in entities - rest then Row(old(windowInvalidatorsByEntity), e) - {window} else Row(old(windowInvalidatorsByEntity), e)
        decreases |rest|
      {
        var e :| e in rest;
        rest := rest - {e};
        if e in windowInvalidatorsByEntity {
          windowInvalidatorsByEntity := windowInvalidatorsByEntity[e := windowInvalidatorsByEntity[e] - {window}];
        }
      }
    }

    method AddWindow(window: WindowId, invalidator: nat, entities: set<EntityId>)
      modifies this`windowInvalidatorsByEntity
      ensures forall e :: Row(windowInvalidatorsByEntity, e) ==
                if e in entities then Row(old(windowInvalidatorsByEntity), e)[window := invalidator] else Row(old(windowInvalidatorsByEntity), e)
    {
      var rest := entities;
      while rest != {}
        invariant rest <= entities
        invariant forall e :: Row(windowInvalidatorsByEntity, e) ==
                    if e in entities - rest then Row(old(windowInvalidatorsByEntity), e)[window := invalidator] else Row(old(windowInvalidatorsByEntity), e)
        decreases |rest|
      {
        var e :| e in rest;
        rest := rest - {e};
        var row := if e in windowInvalidatorsByEntity then windowInvalidatorsByEntity[e] else map[];
        windowInvalidatorsByEntity := windowInvalidatorsByEntity[e := row[window := invalidator]];
      }
    }
  }

  ghost function Dirty(dirtyViews: map<nat, set<EntityId>>, invalidator: nat): set<EntityId> {
    if invalidator in dirtyViews then dirtyViews[invalidator] else {}
  }

  /** The view is dirty for each of the invalidators; nothing else changes. */
  ghost function MarkAll(dirtyViews: map<nat, set<EntityId>>, invalidators: set<nat>, entity: EntityId): (r: map<nat, set<EntityId>>)
    ensures forall i :: Dirty(r, i) == if i in invalidators then Dirty(dirtyViews, i) + {entity} else Dirty(dirtyViews, i)
  {
    map i | i in dirtyViews.Keys + invalidators :: if i in invalidators then Dirty(dirtyViews, i) + {entity} else dirtyViews[i]
  }

  lemma MarkNone(dirtyViews: map<nat, set<EntityId>>, entity: EntityId)
    ensures MarkAll(dirtyViews, {}, entity) == dirtyViews
  {
  }

  lemma MarkOneMore(dirtyViews: map<nat, set<EntityId>>, marked: set<nat>, entity: EntityId, i: nat)
    ensures var r := MarkAll(dirtyViews, marked, entity); r[i := Dirty(r, i) + {entity}] == MarkAll(dirtyViews, marked + {i}, entity)
  {
  }

  /** What waking the observers of an entity adds to the queue: nothing if its notification is waiting already. */
  ghost function Extra(queue: seq<Effect>, entity: EntityId, awake: bool): seq<Effect> {
    if Notify(entity) in queue || !awake then [] else [Notify(entity)]
  }

  lemma ExtraOneMore(queue: seq<Effect>, accepted: seq<Effect>, entity: EntityId, awake: bool, more: bool)
    ensures var x, y := Extra(queue, entity, awake), Extra(queue, entity, awake || more);
            var z := Extra(queue + x, entity, more);
            queue + x + z == queue + y && accepted + x + z == accepted + y
  {
    assert queue + [] == queue;
    assert accepted + [Notify(entity)] + [] == accepted + [Notify(entity)];
  }

  ghost predicate Parted(all: set<nat>, done: set<nat>, rest: set<nat>) {
    forall i :: i in all <==> i in done || i in rest
  }

  ghost predicate SomeAwake(s: set<nat>, drawing: set<nat>) {
    exists i :: i in s && i !in drawing
  }

  lemma PartOneMore(all: set<nat>, done: set<nat>, rest: set<nat>, i: nat, drawing: set<nat>)
    requires Parted(all, done, rest) && i in rest
    ensures Parted(all, done + {i}, rest - {i})
    ensures SomeAwake(done + {i}, drawing) <==> SomeAwake(done, drawing) || i !in drawing
  {
    if SomeAwake(done, drawing) {
      var j :| j in done && j !in drawing;
      assert j in done + {i};
    } else {
      assert i in done + {i};
    }
  }

  lemma AllParted(all: set<nat>, done: set<nat>, drawing: set<nat>)
    requires Parted(all, done, {})
    ensures done == all && (SomeAwake(done, drawing) <==> !(all <= drawing))
  {
    assert forall i :: i in all <==> i in done;
  }

  lemma QueuesUnchanged(queue: seq<Effect>, accepted: seq<Effect>, action: Action)
    ensures action.Register? || action.Track? || action.NotifyEntity? ==> Queues(queue, queue, accepted, accepted, [action])
  {
    OneAction(action);
    assert queue + [] == queue && accepted + [] == accepted;
    assert Plain(accepted) + [] == Plain(accepted);
    if action.Register? || action.Track? || action.NotifyEntity? {
      QueuesOne(queue, accepted, action, []);
    }
  }

  lemma PushQueues(queue: seq<Effect>, accepted: seq<Effect>, effect: Effect)
    ensures Queues(queue, queue + [effect], accepted, accepted + [effect], [Push(effect)])
    ensures IsNotification(effect) && effect in queue ==> Queues(queue, queue, accepted, accepted, [Push(effect)])
  {
    OneAction(Push(effect));
    PlainOneMore(accepted, effect);
    assert queue + [] == queue && accepted + [] == accepted && Plain(accepted) + [] == Plain(accepted);
    QueuesOne(queue, accepted, Push(effect), [effect]);
    if IsNotification(effect) && effect in queue {
      QueuesOne(queue, accepted, Push(effect), []);
    }
  }

  lemma NotifyQueues(queue: seq<Effect>, accepted: seq<Effect>, entity: EntityId)
    ensures Queues(queue, queue + [Notify(entity)], accepted, accepted + [Notify(entity)], [NotifyEntity(entity)])
  {
    OneAction(NotifyEntity(entity));
    PlainOneMore(accepted, Notify(entity));
    assert Plain(accepted) + [] == Plain(accepted);
    QueuesOne(queue, accepted, NotifyEntity(entity), [Notify(entity)]);
  }

  lemma RefreshQueues(queue: seq<Effect>, accepted: seq<Effect>)
    ensures Queues(queue, queue + [RefreshWindows], accepted, accepted + [RefreshWindows], [Refresh])
  {
    OneAction(Refresh);
    PlainOneMore(accepted, RefreshWindows);
    QueuesOne(queue, accepted, Refresh, [RefreshWindows]);
  }

  ghost function Row(index: map<EntityId, map<WindowId, nat>>, entity: EntityId): map<WindowId, nat> {
    if entity in index then index[entity] else map[]
  }

  lemma NothingPending(notifications: set<EntityId>, globals: set<TypeId>)
    requires Deduplicated([], notifications, globals)
    ensures notifications == {} && globals == {}
  {
    forall e ensures e !in notifications {
      assert Count([], Notify(e)) == 0;
    }
    forall t ensures t !in globals {
      assert Count([], NotifyGlobalObservers(t)) == 0;
    }
  }

  /** Taking a window out of the rows it was in and putting it into others is what the mirror does. */
  lemma ReplacedRowMirrors(tracked: map<WindowId, set<EntityId>>, index: map<EntityId, map<WindowId, nat>>,
                           index': map<EntityId, map<WindowId, nat>>, window: WindowId, invalidator: nat, entities: set<EntityId>)
    requires Mirrored(tracked, index)
    requires forall e :: Row(index', e) == ReplacedRow(tracked, Row(index, e), e, window, invalidator, entities)
    ensures Mirrored(tracked[window := entities], index')
    ensures forall e :: e in entities ==> window in Row(index', e) && Row(index', e)[window] == invalidator
    ensures forall e :: Row(index', e) - {window} == Row(index, e) - {window}
  {
    forall w, e ensures w in Row(index', e) <==> w in tracked[window := entities] && e in tracked[window := entities][w] {
      assert w in Row(index, e) <==> w in tracked && e in tracked[w];
    }
  }

  ghost function ReplacedRow(tracked: map<WindowId, set<EntityId>>, row: map<WindowId, nat>, e: EntityId,
                             window: WindowId, invalidator: nat, entities: set<EntityId>): map<WindowId, nat> {
    var without := if window in tracked && e in tracked[window] then row - {window} else row;
    if e in entities then without[window := invalidator] else without
  }

  /** Writing an entity's own row back changes nothing that the mirror sees. */
  lemma SameRowsMirror(tracked: map<WindowId, set<EntityId>>, index: map<EntityId, map<WindowId, nat>>, entity: EntityId)
    requires Mirrored(tracked, index)
    ensures Mirrored(tracked, index[entity := Row(index, entity)])
  {
    var index' := index[entity := Row(index, entity)];
    assert forall e :: Row(index', e) == Row(index, e);
    forall w, e ensures w in Row(index', e) <==> w in tracked && e in tracked[w] {
      assert w in Row(index, e) <==> w in tracked && e in tracked[w];
    }
  }
}
