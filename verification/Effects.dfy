/** What effects are, whom they are for, and what calling that audience does to the registries of subscribers. */
module Effects {
  import opened Wrappers
  import opened Subscriptions

  type EntityId = nat
  type WindowId = nat
  type TypeId = nat

  datatype Effect =
    | Notify(emitter: EntityId)
    | Emit(source: EntityId, eventType: TypeId, event: nat)
    | RefreshWindows
    | NotifyGlobalObservers(globalType: TypeId)
    | Defer(callback: nat)
    | EntityCreated(entity: EntityId, entityType: TypeId)

  /** The four registries whose subscribers the effect loop calls. */
  datatype Channel = Changes | Events | Globals | Creations

  /** An event listener is for one type of event; for the other subscribers the type means nothing. */
  datatype Handler = Handler(eventType: TypeId)

  type Registry = State<nat, Handler>

  datatype Registries = Registries(changes: Registry, events: Registry, globals: Registry, creations: Registry) {
    function Of(channel: Channel): Registry {
      match channel
      case Changes => changes
      case Events => events
      case Globals => globals
      case Creations => creations
    }

    function With(channel: Channel, registry: Registry): (r: Registries)
      ensures r.Of(channel) == registry && forall c :: c != channel ==> r.Of(c) == Of(c)
    {
      match channel
      case Changes => this.(changes := registry)
      case Events => this.(events := registry)
      case Globals => this.(globals := registry)
      case Creations => this.(creations := registry)
    }
  }

  const NO_SUBSCRIBERS: Registry := State(map[], {}, 0, {}, map[])

  /** What application code and callbacks may do; an update may contain updates. */
  datatype Action =
    | Push(effect: Effect) | NotifyEntity(entity: EntityId) | Refresh
    | Track(window: WindowId, invalidator: nat, entities: set<EntityId>)
    | Register(channel: Channel, op: Op<nat, Handler>) | Update(body: seq<Action>)

  /** What each subscriber does when called, and whether it wants to stay. */
  type Calls = nat -> (seq<Action>, bool)

  /** One turn of the flush loop: what releasing entities does, what subscribers do, and what a deferred callback does. */
  datatype Turn = Turn(releasing: seq<Action>, calls: Calls, deferred: seq<Action>)

  /** Whose subscribers an effect is for. */
  function Audience(effect: Effect): Option<(Channel, nat)> {
    match effect
    case Notify(emitter) => Some((Changes, emitter))
    case Emit(source, _, _) => Some((Events, source))
    case NotifyGlobalObservers(globalType) => Some((Globals, globalType))
    case EntityCreated(_, entityType) => Some((Creations, entityType))
    case _ => None
  }

  predicate Hears(effect: Effect, handler: Handler) {
    effect.Emit? ==> handler.eventType == effect.eventType
  }

  /** Observers of creations always stay. */
  predicate Stays(effect: Effect, calls: Calls, id: nat) {
    effect.EntityCreated? || calls(id).1
  }

  ghost predicate Silent(turn: Turn) {
    turn.releasing == [] && turn.deferred == [] && forall id :: turn.calls(id).0 == []
  }

  /** The operations on one registry that some actions come to, in order. */
  ghost function OpsOf(actions: seq<Action>, channel: Channel): seq<Op<nat, Handler>> {
    if actions == [] then [] else OpsOfOne(actions[0], channel) + OpsOf(actions[1..], channel)
  }

  ghost function OpsOfOne(action: Action, channel: Channel): seq<Op<nat, Handler>> {
    match action
    case Register(c, op) => if c == channel then [op] else []
    case Update(body) => OpsOf(body, channel)
    case _ => []
  }

  /** The actions with every update opened. */
  ghost function Flat(actions: seq<Action>): seq<Action> {
    if actions == [] then [] else FlatOne(actions[0]) + Flat(actions[1..])
  }

  ghost function FlatOne(action: Action): seq<Action> {
    match action
    case Update(body) => Flat(body)
    case other => [other]
  }

  /** Notifications wait at most once; any other effect is queued as often as it is asked for. */
  predicate IsNotification(effect: Effect) {
    effect.Notify? || effect.NotifyGlobalObservers?
  }

  ghost function Plain(effects: seq<Effect>): seq<Effect> {
    if effects == [] then []
    else
      var n := |effects| - 1;
      if IsNotification(effects[n]) then Plain(effects[..n]) else Plain(effects[..n]) + [effects[n]]
  }

  lemma PlainOneMore(effects: seq<Effect>, e: Effect)
    ensures Plain(effects + [e]) == if IsNotification(e) then Plain(effects) else Plain(effects) + [e]
  {
    assert (effects + [e])[..|effects|] == effects;
  }

  /** The effects other than notifications that some actions ask for, in order. */
  ghost function Asked(actions: seq<Action>): seq<Effect> {
    if actions == [] then [] else AskedByOne(actions[0]) + Asked(actions[1..])
  }

  ghost function AskedByOne(action: Action): seq<Effect> {
    match action
    case Push(effect) => if IsNotification(effect) then [] else [effect]
    case Refresh => [RefreshWindows]
    case Update(body) => Asked(body)
    case _ => []
  }

  lemma OneAction(action: Action)
    ensures Flat([action]) == FlatOne(action) && Asked([action]) == AskedByOne(action)
  {
    assert [action][1..] == [] && Flat([]) == [] && Asked([]) == [];
    assert FlatOne(action) + [] == FlatOne(action) && AskedByOne(action) + [] == AskedByOne(action);
  }

  /** The effect is pushed, or otherwise asked for, by one of the actions. */
  ghost predicate Sought(effect: Effect, actions: seq<Action>) {
    || Push(effect) in Flat(actions)
    || (effect.RefreshWindows? && Refresh in Flat(actions))
    || (effect.Notify? && NotifyEntity(effect.emitter) in Flat(actions))
  }

  /** What becomes of the queue while actions are performed and nothing is applied: all that is pushed waits, and nothing else is added. */
  ghost predicate Queues(queue: seq<Effect>, queue': seq<Effect>, accepted: seq<Effect>, accepted': seq<Effect>, actions: seq<Action>) {
    && queue <= queue' && accepted <= accepted' && Plain(accepted') == Plain(accepted) + Asked(actions)
    && AllWait(queue', actions) && NothingElse(queue, queue', actions)
  }

  ghost predicate AllWait(queue: seq<Effect>, actions: seq<Action>) {
    forall e :: Push(e) in Flat(actions) ==> e in queue
  }

  ghost predicate NothingElse(queue: seq<Effect>, queue': seq<Effect>, actions: seq<Action>) {
    forall e :: e in queue' ==> e in queue || Sought(e, actions)
  }

  lemma QueuesNothing(queue: seq<Effect>, accepted: seq<Effect>)
    ensures Queues(queue, queue, accepted, accepted, [])
  {
    assert Plain(accepted) + [] == Plain(accepted);
  }

  /** First one action, then others. */
  lemma QueuesInTurn(q0: seq<Effect>, q1: seq<Effect>, q2: seq<Effect>, a0: seq<Effect>, a1: seq<Effect>, a2: seq<Effect>,
                     first: Action, rest: seq<Action>)
    requires Queues(q0, q1, a0, a1, [first]) && Queues(q1, q2, a1, a2, rest)
    ensures Queues(q0, q2, a0, a2, [first] + rest)
  {
    OneAction(first);
    assert ([first] + rest)[1..] == rest;
    assert Plain(a0) + Asked([first]) + Asked(rest) == Plain(a0) + (Asked([first]) + Asked(rest));
    SoughtInTurn(q0, q1, q2, first, rest);
  }

  lemma SoughtInTurn(q0: seq<Effect>, q1: seq<Effect>, q2: seq<Effect>, first: Action, rest: seq<Action>)
    requires q1 <= q2 && AllWait(q1, [first]) && AllWait(q2, rest) && NothingElse(q0, q1, [first]) && NothingElse(q1, q2, rest)
    ensures AllWait(q2, [first] + rest) && NothingElse(q0, q2, [first] + rest)
  {
    OneAction(first);
    assert ([first] + rest)[1..] == rest;
    var flat := Flat([first] + rest);
    assert forall a :: a in flat <==> a in Flat([first]) || a in Flat(rest);
  }

  lemma QueuesUpdate(queue: seq<Effect>, queue': seq<Effect>, accepted: seq<Effect>, accepted': seq<Effect>, body: seq<Action>)
    requires Queues(queue, queue', accepted, accepted', body)
    ensures Queues(queue, queue', accepted, accepted', [Update(body)])
  {
    OneAction(Update(body));
  }

  /** An action that queues `more`, if anything. */
  lemma QueuesOne(queue: seq<Effect>, accepted: seq<Effect>, action: Action, more: seq<Effect>)
    requires !action.Update? && Plain(accepted + more) == Plain(accepted) + AskedByOne(action)
    requires action.Push? ==> action.effect in queue + more
    requires forall e :: e in more ==> Sought(e, [action])
    ensures Queues(queue, queue + more, accepted, accepted + more, [action])
  {
    OneAction(action);
  }

  function Size(actions: seq<Action>): nat {
    if actions == [] then 0 else ActionSize(actions[0]) + Size(actions[1..])
  }

  function ActionSize(action: Action): nat {
    match action
    case Update(body) => 1 + Size(body)
    case _ => 1
  }

  // ---------------------------------------------------------------- actions and the registries

  /** Two sets of registries with the same subscribers in each channel are the same. */
  lemma SameRegistries(r: Registries, r': Registries)
    requires forall c: Channel :: r.Of(c) == r'.Of(c)
    ensures r == r'
  {
    assert r.Of(Changes) == r'.Of(Changes) && r.Of(Events) == r'.Of(Events);
    assert r.Of(Globals) == r'.Of(Globals) && r.Of(Creations) == r'.Of(Creations);
  }

  ghost function AfterIn(registry: Registry, actions: seq<Action>, channel: Channel): Registry {
    DoAll(registry, OpsOf(actions, channel)).0
  }

  /** The registries after some actions. */
  ghost function After(r: Registries, actions: seq<Action>): (r': Registries)
    ensures forall c: Channel :: r'.Of(c) == AfterIn(r.Of(c), actions, c)
  {
    Registries(AfterIn(r.changes, actions, Changes), AfterIn(r.events, actions, Events),
               AfterIn(r.globals, actions, Globals), AfterIn(r.creations, actions, Creations))
  }

  lemma {:induction false} OpsInTurn(a: seq<Action>, b: seq<Action>, channel: Channel)
    ensures OpsOf(a + b, channel) == OpsOf(a, channel) + OpsOf(b, channel)
    decreases |a|
  {
    if a == [] {
      assert a + b == b;
    } else {
      assert (a + b)[1..] == a[1..] + b;
      OpsInTurn(a[1..], b, channel);
    }
  }

  lemma AfterInTurn(r: Registries, a: seq<Action>, b: seq<Action>)
    ensures After(r, a + b) == After(After(r, a), b)
  {
    forall c: Channel ensures After(r, a + b).Of(c) == After(After(r, a), b).Of(c) {
      OpsInTurn(a, b, c);
      DoAllInTurn(r.Of(c), OpsOf(a, c), OpsOf(b, c));
    }
    SameRegistries(After(r, a + b), After(After(r, a), b));
  }

  lemma OpsOfSingle(action: Action, channel: Channel)
    ensures OpsOf([action], channel) == OpsOfOne(action, channel)
  {
    assert [action][1..] == [] && OpsOf([], channel) == [];
  }

  lemma AfterUpdate(r: Registries, body: seq<Action>)
    ensures After(r, [Update(body)]) == After(r, body)
  {
    forall c: Channel ensures After(r, [Update(body)]).Of(c) == After(r, body).Of(c) {
      OpsOfSingle(Update(body), c);
    }
    SameRegistries(After(r, [Update(body)]), After(r, body));
  }

  lemma AfterNothing(r: Registries)
    ensures After(r, []) == r
  {
    SameRegistries(After(r, []), r);
  }

  lemma AfterOther(r: Registries, action: Action)
    requires !action.Register? && !action.Update?
    ensures After(r, [action]) == r
  {
    forall c: Channel ensures After(r, [action]).Of(c) == r.Of(c) {
      OpsOfSingle(action, c);
    }
    SameRegistries(After(r, [action]), r);
  }

  lemma AfterOne(r: Registries, channel: Channel, op: Op<nat, Handler>)
    ensures After(r, [Register(channel, op)]) == r.With(channel, DoOp(r.Of(channel), op).0)
  {
    forall c: Channel ensures After(r, [Register(channel, op)]).Of(c) == r.With(channel, DoOp(r.Of(channel), op).0).Of(c) {
      OpsOfSingle(Register(channel, op), c);
      DoAllOne(r.Of(channel), op);
    }
    SameRegistries(After(r, [Register(channel, op)]), r.With(channel, DoOp(r.Of(channel), op).0));
  }

  // ---------------------------------------------------------------- the pass over an audience

  /** How the subscribers of a slot behave in the pass for an effect: those that do not hear it stay and do nothing. */
  ghost function Hearing(effect: Effect, slot: map<nat, Handler>, calls: Calls, channel: Channel): Script<nat, Handler> {
    (id: nat) => if id in slot && Hears(effect, slot[id]) then (OpsOf(calls(id).0, channel), Stays(effect, calls, id)) else ([], true)
  }

  /** All that some subscribers do, one after the other. */
  ghost function Said(ids: seq<nat>, calls: Calls): seq<Action> {
    if ids == [] then [] else Said(ids[..|ids| - 1], calls) + calls(ids[|ids| - 1]).0
  }

  /** Those of some subscribers that an effect is meant for. */
  ghost function Hearers(effect: Effect, slot: map<nat, Handler>, ids: seq<nat>): seq<nat> {
    if ids == [] then []
    else
      var n := |ids| - 1;
      Hearers(effect, slot, ids[..n]) + if ids[n] in slot && Hears(effect, slot[ids[n]]) then [ids[n]] else []
  }

  /** The pass an effect causes over its audience. */
  ghost function PassFor(r: Registries, effect: Effect, calls: Calls): Pass<nat, Handler>
    requires Audience(effect).Some?
  {
    var (c, key) := Audience(effect).value;
    Retained(r.Of(c), key, Hearing(effect, Slot(r.Of(c), key), calls, c))
  }

  /** The subscribers called: those visited that are active by then and hear the effect. */
  ghost function Called(r: Registries, effect: Effect, calls: Calls): seq<nat>
    requires Audience(effect).Some?
  {
    var (c, key) := Audience(effect).value;
    Hearers(effect, Slot(r.Of(c), key), PassFor(r, effect, calls).called)
  }

  lemma {:induction false} HearersMembers(effect: Effect, slot: map<nat, Handler>, ids: seq<nat>)
    ensures forall id :: id in Hearers(effect, slot, ids) <==> id in ids && id in slot && Hears(effect, slot[id])
    decreases |ids|
  {
    if ids != [] {
      var n := |ids| - 1;
      HearersMembers(effect, slot, ids[..n]);
      assert ids == ids[..n] + [ids[n]];
    }
  }

  ghost predicate Ascending(ids: seq<nat>) {
    forall i, j :: 0 <= i < j < |ids| ==> ids[i] < ids[j]
  }

  lemma AscendingAppend(s: seq<nat>, x: nat)
    requires Ascending(s) && forall y :: y in s ==> y < x
    ensures Ascending(s + [x])
  {
    assert forall i :: 0 <= i < |s| ==> s[i] in s;
  }

  lemma {:induction false} HearersAscend(effect: Effect, slot: map<nat, Handler>, ids: seq<nat>)
    requires Ascending(ids)
    ensures Ascending(Hearers(effect, slot, ids))
    decreases |ids|
  {
    if ids != [] {
      var n := |ids| - 1;
      var rest := Hearers(effect, slot, ids[..n]);
      HearersAscend(effect, slot, ids[..n]);
      HearersMembers(effect, slot, ids[..n]);
      AscendingAppend(rest, ids[n]);
      assert rest + [] == rest;
    }
  }

  /**
    * An effect calls, in the order in which they registered, subscribers of its own key that hear it: each that is active
    * beforehand, and none that is neither that nor activated meanwhile.
    */
  lemma CalledAreAudience(r: Registries, effect: Effect, calls: Calls)
    requires Audience(effect).Some? && Sound(r.Of(Audience(effect).value.0), None)
    ensures Ascending(Called(r, effect, calls))
    ensures var (c, key) := Audience(effect).value; var slot := Slot(r.Of(c), key); var called := Called(r, effect, calls);
            && (forall id :: id in called ==>
                  && id in slot && Hears(effect, slot[id])
                  && (id in r.Of(c).active || Activated(id) in PassFor(r, effect, calls).trace))
            && (forall id :: id in slot && Hears(effect, slot[id]) && id in r.Of(c).active ==> id in called)
  {
    var (c, key) := Audience(effect).value;
    var s := r.Of(c);
    var slot := Slot(s, key);
    if Visitable(s, key) {
      var ids, script := AscendingKeys(slot, s.nextId), Hearing(effect, slot, calls, c);
      RemoveKeepsSound(s, None, key);
      VisitMeans(Taken(s, key), ids, script);
      HearersMembers(effect, slot, Visit(Taken(s, key), ids, script).called);
      HearersAscend(effect, slot, Visit(Taken(s, key), ids, script).called);
      CalledOfVisit(Taken(s, key), ids, script);
    }
  }

  lemma CalledOfVisit(s: Registry, ids: seq<nat>, script: Script<nat, Handler>)
    requires forall i, j :: 0 <= i < j < |ids| ==> ids[i] < ids[j]
    ensures var p := Visit(s, ids, script);
            && (forall id :: id in p.called ==> id in s.active || Activated(id) in p.trace)
            && (forall id :: id in ids && id in s.active ==> id in p.called)
  {
    var p := Visit(s, ids, script);
    VisitMeans(s, ids, script);
    forall id | id in ids && (id in p.called || id in s.active)
      ensures if id in p.called then id in s.active || Activated(id) in p.trace else id !in s.active
    {
      var i :| 0 <= i < |ids| && ids[i] == id;
      CalledIffActive(s, ids, script, i);
      TraceGrows(s, ids, i, script);
    }
  }

  lemma {:induction false} TraceGrows(s: Registry, ids: seq<nat>, i: nat, script: Script<nat, Handler>)
    requires i <= |ids|
    ensures Visit(s, ids[..i], script).trace <= Visit(s, ids, script).trace
    decreases |ids|
  {
    if i < |ids| {
      assert ids[..|ids| - 1][..i] == ids[..i];
      TraceGrows(s, ids[..|ids| - 1], i, script);
    } else {
      assert ids[..i] == ids;
    }
  }

  /** Whom an effect calls, if it is for anybody. */
  ghost function Reached(r: Registries, effect: Effect, calls: Calls): seq<nat> {
    if Audience(effect).Some? then Called(r, effect, calls) else []
  }

  /** The registries after an effect: that of its audience as the pass leaves it, the others as what was said leaves them. */
  ghost function Applied(r: Registries, effect: Effect, turn: Turn): Registries {
    if Audience(effect).Some? then
      After(r, Said(Called(r, effect, turn.calls), turn.calls)).With(Audience(effect).value.0, PassFor(r, effect, turn.calls).state)
    else After(r, if effect.Defer? then turn.deferred else [])
  }

  /** Each registry is sound; `visiting` is the slot whose subscribers are being called, if any. */
  ghost predicate AllSound(r: Registries, visiting: Option<(Channel, nat)>) {
    forall c: Channel :: SoundIn(r, visiting, c)
  }

  ghost predicate SoundIn(r: Registries, visiting: Option<(Channel, nat)>, channel: Channel) {
    Sound(r.Of(channel), VisitingIn(visiting, channel))
  }

  ghost function VisitingIn(visiting: Option<(Channel, nat)>, channel: Channel): Option<nat> {
    if visiting.Some? && visiting.value.0 == channel then Some(visiting.value.1) else None
  }

  lemma AfterKeepsSound(r: Registries, visiting: Option<(Channel, nat)>, actions: seq<Action>)
    requires AllSound(r, visiting)
    ensures AllSound(After(r, actions), visiting)
  {
    forall c: Channel ensures SoundIn(After(r, actions), visiting, c) {
      assert SoundIn(r, visiting, c);
      AllKeepSound(r.Of(c), VisitingIn(visiting, c), OpsOf(actions, c));
    }
  }

  lemma TakenKeepsSound(r: Registries, channel: Channel, key: nat)
    requires AllSound(r, None) && Visitable(r.Of(channel), key)
    ensures AllSound(r.With(channel, Taken(r.Of(channel), key)), Some((channel, key)))
  {
    var taken := r.With(channel, Taken(r.Of(channel), key));
    forall c: Channel ensures SoundIn(taken, Some((channel, key)), c) {
      assert SoundIn(r, None, c);
      if c == channel {
        PassingStarts(r.Of(channel), key);
      }
    }
  }

  /** After a turn all registries are sound and none is being visited. */
  lemma AppliedKeepsSound(r: Registries, effect: Effect, turn: Turn)
    requires AllSound(r, None)
    ensures AllSound(Applied(r, effect, turn), None)
  {
    if Audience(effect).Some? {
      var (channel, key) := Audience(effect).value;
      var said := Said(Called(r, effect, turn.calls), turn.calls);
      AfterKeepsSound(r, None, said);
      assert SoundIn(r, None, channel);
      PassKeepsSound(r.Of(channel), key, Hearing(effect, Slot(r.Of(channel), key), turn.calls, channel));
      forall c: Channel ensures SoundIn(Applied(r, effect, turn), None, c) {
        assert SoundIn(After(r, said), None, c);
      }
    } else {
      AfterKeepsSound(r, None, if effect.Defer? then turn.deferred else []);
    }
  }

  lemma PassKeepsSound(s: Registry, key: nat, script: Script<nat, Handler>)
    requires Sound(s, None)
    ensures Sound(Retained(s, key, script).state, None)
  {
    if Visitable(s, key) {
      RetainExact(s, key, script);
    }
  }

  /** How far a pass has come after the subscribers `ids`. */
  ghost predicate Visiting(r: Registries, now: Registries, effect: Effect, calls: Calls, channel: Channel, key: nat,
                           slot: map<nat, Handler>, ids: seq<nat>, called: seq<nat>, kept: set<nat>)
  {
    var p := Visit(Taken(r.Of(channel), key), ids, Hearing(effect, slot, calls, channel));
    && called == Hearers(effect, slot, p.called) && kept == p.kept
    && now == After(r, Said(called, calls)).With(channel, p.state)
  }

  lemma VisitingStarts(r: Registries, effect: Effect, calls: Calls, channel: Channel, key: nat, slot: map<nat, Handler>)
    ensures Visiting(r, r.With(channel, Taken(r.Of(channel), key)), effect, calls, channel, key, slot, [], [], {})
  {
    AfterNothing(r);
  }

  lemma SaidOneMore(ids: seq<nat>, id: nat, effect: Effect, slot: map<nat, Handler>, calls: Calls)
    requires id in slot
    ensures Said(ids + [id], calls) == Said(ids, calls) + calls(id).0
    ensures Hearers(effect, slot, ids + [id]) == Hearers(effect, slot, ids) + if Hears(effect, slot[id]) then [id] else []
  {
    assert (ids + [id])[..|ids|] == ids;
  }

  lemma VisitOneMore(s: Registry, ids: seq<nat>, id: nat, script: Script<nat, Handler>)
    ensures Visit(s, ids + [id], script) == VisitOne(Visit(s, ids, script), id, script)
  {
    assert (ids + [id])[..|ids|] == ids;
  }

  /** A subscriber that is not active, or does not hear the effect. */
  lemma SkipOne(r: Registries, now: Registries, effect: Effect, calls: Calls, channel: Channel, key: nat,
                slot: map<nat, Handler>, ids: seq<nat>, called: seq<nat>, kept: set<nat>, id: nat)
    requires Visiting(r, now, effect, calls, channel, key, slot, ids, called, kept) && id in slot
    requires id !in now.Of(channel).active || !Hears(effect, slot[id])
    ensures Visiting(r, now, effect, calls, channel, key, slot, ids + [id], called, kept + {id})
  {
    var taken, script := Taken(r.Of(channel), key), Hearing(effect, slot, calls, channel);
    var p := Visit(taken, ids, script);
    VisitOneMore(taken, ids, id, script);
    SaidOneMore(p.called, id, effect, slot, calls);
    if id in p.state.active {
      assert script(id) == ([], true) && DoAll(p.state, []) == (p.state, []);
    }
  }

  /** A subscriber that is called. */
  lemma CallOne(r: Registries, now: Registries, effect: Effect, calls: Calls, channel: Channel, key: nat,
                slot: map<nat, Handler>, ids: seq<nat>, called: seq<nat>, kept: set<nat>, id: nat)
    requires Visiting(r, now, effect, calls, channel, key, slot, ids, called, kept) && id in slot
    requires id in now.Of(channel).active && Hears(effect, slot[id])
    ensures Visiting(r, After(now, calls(id).0), effect, calls, channel, key, slot, ids + [id], called + [id],
                     if Stays(effect, calls, id) then kept + {id} else kept)
  {
    var taken, script := Taken(r.Of(channel), key), Hearing(effect, slot, calls, channel);
    var p := Visit(taken, ids, script);
    VisitOneMore(taken, ids, id, script);
    SaidOneMore(p.called, id, effect, slot, calls);
    SaidOneMore(called, id, effect, slot, calls);
    var q := VisitOne(p, id, script);
    var said := Said(called, calls);
    AfterInTurn(r, said, calls(id).0);
    WithThenAfter(After(r, said), channel, p.state, calls(id).0);
    assert q.state == AfterIn(p.state, calls(id).0, channel);
  }

  lemma WithThenAfter(r: Registries, channel: Channel, s: Registry, actions: seq<Action>)
    ensures After(r.With(channel, s), actions) == After(r, actions).With(channel, AfterIn(s, actions, channel))
  {
    SameRegistries(After(r.With(channel, s), actions), After(r, actions).With(channel, AfterIn(s, actions, channel)));
  }

  /** The pass is over: merging back gives what the effect comes to. */
  lemma VisitingEnds(r: Registries, now: Registries, effect: Effect, turn: Turn, slot: map<nat, Handler>, ids: seq<nat>,
                     called: seq<nat>, kept: set<nat>)
    requires Audience(effect).Some?
    requires var (c, key) := Audience(effect).value;
             && Visitable(r.Of(c), key) && slot == r.Of(c).subscribers[key].value && ids == AscendingKeys(slot, r.Of(c).nextId)
             && Visiting(r, now, effect, turn.calls, c, key, slot, ids, called, kept)
    ensures called == Called(r, effect, turn.calls)
    ensures var (c, key) := Audience(effect).value;
            now.With(c, Merged(Pass(now.Of(c), [], called, kept), key, slot)) == Applied(r, effect, turn)
  {
    var (c, key) := Audience(effect).value;
    var said := Said(called, turn.calls);
    var merged := Merged(Pass(now.Of(c), [], called, kept), key, slot);
    assert merged == PassFor(r, effect, turn.calls).state;
    SameRegistries(now.With(c, merged), After(r, said).With(c, merged));
  }

  /** An effect nobody subscribes to. */
  lemma NoAudience(r: Registries, effect: Effect, turn: Turn)
    requires Audience(effect).Some? && !Visitable(r.Of(Audience(effect).value.0), Audience(effect).value.1)
    ensures Called(r, effect, turn.calls) == [] && Applied(r, effect, turn) == r
  {
    AfterNothing(r);
    SameRegistries(Applied(r, effect, turn), r);
  }

  function NoTurns(i: nat): Turn {
    Turn([], (id: nat) => ([], true), [])
  }
}
