/** The subscriber registry as a value: what each operation does to it, also in the middle of a `retain` pass. */
module Subscriptions {
  import opened Wrappers

  /** `active` are the ids whose shared flag is set; `keyOf` is the emitter each subscription handle was made for. */
  datatype State<K(==), C> = State(
    subscribers: map<K, Option<map<nat, C>>>,
    dropped: set<(K, nat)>,
    nextId: nat,
    active: set<nat>,
    keyOf: map<nat, K>)

  /** What a callback may do to the registry it is called from. */
  datatype Op<K, C> = Insert(key: K, callback: C) | Drop(id: nat) | Activate(id: nat) | Remove(key: K)

  /** What an operation came to. */
  datatype Event<K, C> = Inserted(key: K, id: nat, callback: C) | Dropped(key: K, id: nat) | Activated(id: nat) | Removed(key: K)

  function Slot<K, C>(s: State<K, C>, key: K): map<nat, C> {
    if key in s.subscribers && s.subscribers[key].Some? then s.subscribers[key].value else map[]
  }

  function DoInsert<K, C>(s: State<K, C>, key: K, callback: C): State<K, C> {
    s.(subscribers := s.subscribers[key := Some(Slot(s, key)[s.nextId := callback])],
       nextId := s.nextId + 1,
       keyOf := s.keyOf[s.nextId := key])
  }

  /** Dropping a handle: out of its slot if that is there, remembered for later if the slot is being visited. */
  function DoUnsubscribe<K, C>(s: State<K, C>, key: K, id: nat): State<K, C> {
    if key !in s.subscribers then s
    else
      match s.subscribers[key]
      case Some(m) =>
        if m - {id} == map[] then s.(subscribers := s.subscribers - {key})
        else s.(subscribers := s.subscribers[key := Some(m - {id})])
      case None => s.(dropped := s.dropped + {(key, id)})
  }

  /** A handle can only be used once it exists. */
  function DoOp<K, C>(s: State<K, C>, op: Op<K, C>): (State<K, C>, seq<Event<K, C>>) {
    match op
    case Insert(key, callback) => (DoInsert(s, key, callback), [Inserted(key, s.nextId, callback)])
    case Drop(id) => if id in s.keyOf then (DoUnsubscribe(s, s.keyOf[id], id), [Dropped(s.keyOf[id], id)]) else (s, [])
    case Activate(id) => if id in s.keyOf then (s.(active := s.active + {id}), [Activated(id)]) else (s, [])
    case Remove(key) => (s.(subscribers := s.subscribers - {key}), [Removed(key)])
  }

  function DoAll<K, C>(s: State<K, C>, ops: seq<Op<K, C>>): (State<K, C>, seq<Event<K, C>>) {
    if ops == [] then (s, [])
    else
      var n := |ops| - 1;
      var (s1, events) := DoAll(s, ops[..n]);
      var (s2, event) := DoOp(s1, ops[n]);
      (s2, events + event)
  }

  lemma {:induction false} DoAllInTurn<K, C>(s: State<K, C>, a: seq<Op<K, C>>, b: seq<Op<K, C>>)
    ensures var (s1, events) := DoAll(s, a); var (s2, later) := DoAll(s1, b);
            DoAll(s, a + b) == (s2, events + later)
    decreases |b|
  {
    if b == [] {
      assert a + b == a && DoAll(s, a).1 + [] == DoAll(s, a).1;
    } else {
      var n := |b| - 1;
      assert (a + b)[..|a| + n] == a + b[..n];
      DoAllInTurn(s, a, b[..n]);
      var (s1, events) := DoAll(s, a);
      var (s2, later) := DoAll(s1, b[..n]);
      assert (events + later) + DoOp(s2, b[n]).1 == events + (later + DoOp(s2, b[n]).1);
    }
  }

  lemma DoAllOne<K, C>(s: State<K, C>, op: Op<K, C>)
    ensures DoAll(s, [op]) == DoOp(s, op)
  {
    assert [op][..0] == [] && DoAll(s, []) == (s, []);
    assert [] + DoOp(s, op).1 == DoOp(s, op).1;
  }

  /** A callback's behaviour in one pass, for each subscriber it is called for: its operations, and whether to keep it. */
  type Script<!K, !C> = nat -> (seq<Op<K, C>>, bool)

  datatype Pass<K(==), C> = Pass(state: State<K, C>, trace: seq<Event<K, C>>, called: seq<nat>, kept: set<nat>)

  function VisitOne<K, C>(p: Pass<K, C>, id: nat, script: Script<K, C>): Pass<K, C> {
    if id in p.state.active then
      var (s, events) := DoAll(p.state, script(id).0);
      Pass(s, p.trace + events, p.called + [id], if script(id).1 then p.kept + {id} else p.kept)
    else p.(kept := p.kept + {id})
  }

  function Visit<K, C>(s: State<K, C>, ids: seq<nat>, script: Script<K, C>): Pass<K, C> {
    if ids == [] then Pass(s, [], [], {})
    else VisitOne(Visit(s, ids[..|ids| - 1], script), ids[|ids| - 1], script)
  }

  /** The ids of a map below `n`, ascending. */
  function AscendingKeys<C>(m: map<nat, C>, n: nat): (ids: seq<nat>)
    ensures forall id :: id in ids <==> id in m && id < n
    ensures forall i, j :: 0 <= i < j < |ids| ==> ids[i] < ids[j]
  {
    if n == 0 then []
    else
      var rest := AscendingKeys(m, n - 1);
      assert forall i :: 0 <= i < |rest| ==> rest[i] in rest;
      if n - 1 in m then rest + [n - 1] else rest
  }

  /** Whether a pass over `key` visits anything. */
  predicate Visitable<K, C>(s: State<K, C>, key: K) {
    key in s.subscribers && s.subscribers[key].Some?
  }

  function Taken<K, C>(s: State<K, C>, key: K): State<K, C> {
    s.(subscribers := s.subscribers[key := None])
  }

  /** What a pass leaves behind: kept old ones, plus new ones, minus those remembered as dropped. */
  function Merged<K, C>(p: Pass<K, C>, key: K, earlier: map<nat, C>): State<K, C> {
    var kept := map id | id in earlier && id in p.kept :: earlier[id];
    var gone := set d | d in p.state.dropped :: d.1;
    var all := (kept + Slot(p.state, key)) - gone;
    p.state.(dropped := {},
             subscribers := if all == map[] then p.state.subscribers - {key} else p.state.subscribers[key := Some(all)])
  }

  function Retained<K, C>(s: State<K, C>, key: K, script: Script<K, C>): Pass<K, C> {
    if !Visitable(s, key) then Pass(s, [], [], {})
    else
      var m := s.subscribers[key].value;
      var p := Visit(Taken(s, key), AscendingKeys(m, s.nextId), script);
      p.(state := Merged(p, key, m))
  }

  // ---------------------------------------------------------------- invariants

  /** Ids are below the counter and filed under the key of their handle; `visiting` is the key of the running pass. */
  ghost predicate Sound<K, C>(s: State<K, C>, visiting: Option<K>) {
    && (forall id: nat :: id in s.keyOf <==> id < s.nextId)
    && (forall id :: id in s.active ==> id in s.keyOf)
    && Filed(s)
    && (forall k :: k in s.subscribers ==>
          (s.subscribers[k].None? ==> visiting == Some(k)) && (s.subscribers[k].Some? ==> s.subscribers[k].value != map[]))
    && (forall d :: d in s.dropped ==> visiting == Some(d.0) && d.1 in s.keyOf && s.keyOf[d.1] == d.0)
  }

  /** Subscribers are registered under the key of their handle. */
  ghost predicate Filed<K, C>(s: State<K, C>) {
    forall k, id :: k in s.subscribers && id in Slot(s, k) ==> id in s.keyOf && s.keyOf[id] == k
  }

  /** Losing subscribers, or whole slots, leaves the others where they belong. */
  lemma ShrinkKeepsFiled<K, C>(s: State<K, C>, s': State<K, C>)
    requires Filed(s) && s'.keyOf == s.keyOf
    requires forall k, id :: k in s'.subscribers && id in Slot(s', k) ==> k in s.subscribers && id in Slot(s, k)
    ensures Filed(s')
  {
  }

  ghost predicate Extends<K>(m: map<nat, K>, m': map<nat, K>) {
    forall id :: id in m ==> id in m' && m'[id] == m[id]
  }

  lemma InsertKeepsSound<K, C>(s: State<K, C>, visiting: Option<K>, key: K, callback: C)
    requires Sound(s, visiting)
    ensures Sound(DoInsert(s, key, callback), visiting) && Extends(s.keyOf, DoInsert(s, key, callback).keyOf)
  {
    var s' := DoInsert(s, key, callback);
    assert s.nextId in Slot(s', key);
    forall k, id | k in s'.subscribers && id in Slot(s', k) ensures id in s'.keyOf && s'.keyOf[id] == k {
      assert k != key || id != s.nextId ==> k in s.subscribers && id in Slot(s, k) && id in s.keyOf && id < s.nextId;
    }
  }

  lemma UnsubscribeKeepsSound<K, C>(s: State<K, C>, visiting: Option<K>, key: K, id: nat)
    requires Sound(s, visiting) && id in s.keyOf && s.keyOf[id] == key
    ensures Sound(DoUnsubscribe(s, key, id), visiting)
  {
    var s' := DoUnsubscribe(s, key, id);
    forall k, i | k in s'.subscribers && i in Slot(s', k) ensures k in s.subscribers && i in Slot(s, k) {
    }
    ShrinkKeepsFiled(s, s');
  }

  lemma RemoveKeepsSound<K, C>(s: State<K, C>, visiting: Option<K>, key: K)
    requires Sound(s, visiting)
    ensures Sound(s.(subscribers := s.subscribers - {key}), visiting)
    ensures forall id :: id in Slot(s, key) ==> id < s.nextId
  {
    var s' := s.(subscribers := s.subscribers - {key});
    assert forall k :: k in s'.subscribers ==> Slot(s', k) == Slot(s, k);
    forall id | id in Slot(s, key) ensures id < s.nextId {
      assert key in s.subscribers && id in s.keyOf;
    }
  }

  lemma OpKeepsSound<K, C>(s: State<K, C>, visiting: Option<K>, op: Op<K, C>)
    requires Sound(s, visiting)
    ensures Sound(DoOp(s, op).0, visiting) && s.nextId <= DoOp(s, op).0.nextId && Extends(s.keyOf, DoOp(s, op).0.keyOf)
  {
    match op
    case Insert(key, callback) => InsertKeepsSound(s, visiting, key, callback);
    case Drop(id) => if id in s.keyOf { UnsubscribeKeepsSound(s, visiting, s.keyOf[id], id); }
    case Activate(_) =>
    case Remove(key) => RemoveKeepsSound(s, visiting, key);
  }

  lemma {:induction false} AllKeepSound<K, C>(s: State<K, C>, visiting: Option<K>, ops: seq<Op<K, C>>)
    requires Sound(s, visiting)
    ensures Sound(DoAll(s, ops).0, visiting)
    decreases |ops|
  {
    if ops != [] {
      AllKeepSound(s, visiting, ops[..|ops| - 1]);
      OpKeepsSound(DoAll(s, ops[..|ops| - 1]).0, visiting, ops[|ops| - 1]);
    }
  }

  // ---------------------------------------------------------------- what a pass did to its key

  /** The events after which the slot no longer says that its subscribers are being visited. */
  ghost predicate Disturbs<K, C>(key: K, e: Event<K, C>) {
    (e.Inserted? || e.Removed?) && e.key == key
  }

  ghost predicate Disturbed<K, C>(key: K, trace: seq<Event<K, C>>) {
    exists i :: 0 <= i < |trace| && Disturbs(key, trace[i])
  }

  /** The handles of `key` dropped before anything was inserted under `key` or removed there. */
  ghost function EarlyDrops<K, C>(key: K, trace: seq<Event<K, C>>): set<nat> {
    if trace == [] then {}
    else
      var n := |trace| - 1;
      var rest := EarlyDrops(key, trace[..n]);
      if trace[n].Dropped? && trace[n].key == key && !Disturbed(key, trace[..n]) then rest + {trace[n].id} else rest
  }

  /** The subscribers inserted under `key` and neither dropped nor removed since. */
  ghost function NewAlive<K, C>(key: K, trace: seq<Event<K, C>>): map<nat, C> {
    if trace == [] then map[]
    else
      var n := |trace| - 1;
      AliveAfter(key, NewAlive(key, trace[..n]), trace[n])
  }

  ghost function AliveAfter<K, C>(key: K, alive: map<nat, C>, e: Event<K, C>): map<nat, C> {
    match e
    case Inserted(k, id, callback) => if k == key then alive[id := callback] else alive
    case Dropped(k, id) => if k == key then alive - {id} else alive
    case Activated(_) => alive
    case Removed(k) => if k == key then map[] else alive
  }

  /** How the trace of a pass over `key`, begun at id `n0`, shows in the state. */
  ghost predicate Passing<K(!new), C>(s: State<K, C>, key: K, n0: nat, trace: seq<Event<K, C>>) {
    && Sound(s, Some(key)) && n0 <= s.nextId
    && (if Disturbed(key, trace) then key in s.subscribers ==> s.subscribers[key].Some?
        else key in s.subscribers && s.subscribers[key] == None)
    && Slot(s, key) == NewAlive(key, trace)
    && s.dropped == (set id | id in EarlyDrops(key, trace) :: (key, id))
    && (forall id :: id in EarlyDrops(key, trace) ==> id < n0)
    && (forall id :: id in NewAlive(key, trace) ==> n0 <= id)
    && (forall id :: n0 <= id < s.nextId && id in s.keyOf && s.keyOf[id] == key ==> Disturbed(key, trace))
  }

  lemma DisturbedStep<K, C>(key: K, trace: seq<Event<K, C>>, e: Event<K, C>)
    ensures Disturbed(key, trace + [e]) <==> Disturbed(key, trace) || Disturbs(key, e)
  {
    var t := trace + [e];
    assert t[|trace|] == e && forall i :: 0 <= i < |trace| ==> t[i] == trace[i];
  }

  /** What one event more does to the summaries of a trace. */
  lemma TraceStep<K, C>(key: K, trace: seq<Event<K, C>>, e: Event<K, C>)
    ensures Disturbed(key, trace + [e]) <==> Disturbed(key, trace) || Disturbs(key, e)
    ensures EarlyDrops(key, trace + [e]) ==
              EarlyDrops(key, trace) + if e.Dropped? && e.key == key && !Disturbed(key, trace) then {e.id} else {}
    ensures NewAlive(key, trace + [e]) == AliveAfter(key, NewAlive(key, trace), e)
  {
    DisturbedStep(key, trace, e);
    assert (trace + [e])[..|trace|] == trace;
  }

  lemma InsertKeepsPassing<K(!new), C>(s: State<K, C>, key: K, n0: nat, trace: seq<Event<K, C>>, k: K, callback: C)
    requires Passing(s, key, n0, trace)
    ensures Passing(DoInsert(s, k, callback), key, n0, trace + [Inserted(k, s.nextId, callback)])
  {
    InsertKeepsSound(s, Some(key), k, callback);
    TraceStep(key, trace, Inserted(k, s.nextId, callback));
  }

  lemma DropKeepsPassing<K(!new), C>(s: State<K, C>, key: K, n0: nat, trace: seq<Event<K, C>>, id: nat)
    requires Passing(s, key, n0, trace) && id in s.keyOf
    ensures Passing(DoUnsubscribe(s, s.keyOf[id], id), key, n0, trace + [Dropped(s.keyOf[id], id)])
  {
    var k := s.keyOf[id];
    UnsubscribeKeepsSound(s, Some(key), k, id);
    TraceStep(key, trace, Dropped(k, id));
    DropFromSlot(s, key, k, id);
  }

  /** Dropping touches one slot only; the drop is remembered just while that slot is taken. */
  lemma DropFromSlot<K, C>(s: State<K, C>, key: K, k: K, id: nat)
    requires Sound(s, Some(key))
    ensures var s' := DoUnsubscribe(s, k, id);
            && Slot(s', key) == (if k == key then Slot(s, key) - {id} else Slot(s, key))
            && s'.dropped == s.dropped + (if k == key && key in s.subscribers && s.subscribers[key].None? then {(key, id)} else {})
            && (key in s'.subscribers ==> key in s.subscribers && s'.subscribers[key].Some? == s.subscribers[key].Some?)
            && (key in s.subscribers && s.subscribers[key].None? ==> key in s'.subscribers && s'.subscribers[key].None?)
  {
    assert Slot(s, key) == map[] ==> Slot(s, key) - {id} == map[];
  }

  lemma RemoveKeepsPassing<K(!new), C>(s: State<K, C>, key: K, n0: nat, trace: seq<Event<K, C>>, k: K)
    requires Passing(s, key, n0, trace)
    ensures Passing(s.(subscribers := s.subscribers - {k}), key, n0, trace + [Removed(k)])
  {
    RemoveKeepsSound(s, Some(key), k);
    TraceStep(key, trace, Removed(k));
  }

  lemma ActivateKeepsPassing<K(!new), C>(s: State<K, C>, key: K, n0: nat, trace: seq<Event<K, C>>, id: nat)
    requires Passing(s, key, n0, trace) && id in s.keyOf
    ensures Passing(s.(active := s.active + {id}), key, n0, trace + [Activated(id)])
  {
    TraceStep(key, trace, Activated(id));
    assert forall k :: Slot(s.(active := s.active + {id}), k) == Slot(s, k);
  }

  lemma OpKeepsPassing<K(!new), C>(s: State<K, C>, key: K, n0: nat, trace: seq<Event<K, C>>, op: Op<K, C>)
    requires Passing(s, key, n0, trace)
    ensures Passing(DoOp(s, op).0, key, n0, trace + DoOp(s, op).1)
  {
    assert trace + [] == trace;
    match op
    case Insert(k, callback) => InsertKeepsPassing(s, key, n0, trace, k, callback);
    case Drop(id) => if id in s.keyOf { DropKeepsPassing(s, key, n0, trace, id); }
    case Activate(id) => if id in s.keyOf { ActivateKeepsPassing(s, key, n0, trace, id); }
    case Remove(k) => RemoveKeepsPassing(s, key, n0, trace, k);
  }

  lemma {:induction false} AllKeepPassing<K(!new), C>(s: State<K, C>, key: K, n0: nat, trace: seq<Event<K, C>>, ops: seq<Op<K, C>>)
    requires Passing(s, key, n0, trace)
    ensures Passing(DoAll(s, ops).0, key, n0, trace + DoAll(s, ops).1) && Extends(s.keyOf, DoAll(s, ops).0.keyOf)
    decreases |ops|
  {
    if ops == [] {
      assert trace + [] == trace;
    } else {
      var n := |ops| - 1;
      AllKeepPassing(s, key, n0, trace, ops[..n]);
      var (s1, events) := DoAll(s, ops[..n]);
      OpKeepsPassing(s1, key, n0, trace + events, ops[n]);
      OpKeepsSound(s1, Some(key), ops[n]);
      assert trace + (events + DoOp(s1, ops[n]).1) == (trace + events) + DoOp(s1, ops[n]).1;
    }
  }

  lemma {:induction false} VisitKeepsPassing<K(!new), C>(s: State<K, C>, key: K, n0: nat, ids: seq<nat>, script: Script<K, C>)
    requires Passing(s, key, n0, [])
    ensures Passing(Visit(s, ids, script).state, key, n0, Visit(s, ids, script).trace)
    ensures Extends(s.keyOf, Visit(s, ids, script).state.keyOf)
    decreases |ids|
  {
    if ids != [] {
      var n := |ids| - 1;
      VisitKeepsPassing(s, key, n0, ids[..n], script);
      var p := Visit(s, ids[..n], script);
      AllKeepPassing(p.state, key, n0, p.trace, script(ids[n]).0);
    }
  }

  /** After a pass: the old subscribers that were kept and not dropped early, and the new ones not dropped since. */
  ghost function AfterPass<K, C>(key: K, before: map<nat, C>, p: Pass<K, C>): map<nat, C> {
    (map id | id in before && id in p.kept && id !in EarlyDrops(key, p.trace) :: before[id]) + NewAlive(key, p.trace)
  }

  /** The registered subscribers of the key after a pass, for every behaviour of the callbacks. */
  lemma RetainExact<K(!new), C>(s: State<K, C>, key: K, script: Script<K, C>)
    requires Sound(s, None) && Visitable(s, key)
    ensures var p := Retained(s, key, script);
            Sound(p.state, None) && Slot(p.state, key) == AfterPass(key, s.subscribers[key].value, p)
  {
    var m := s.subscribers[key].value;
    PassRuns(s, key, script);
    var p := Visit(Taken(s, key), AscendingKeys(m, s.nextId), script);
    MergedIsSound(p, key, m, s.nextId);
    MergedSlot(p, key, m, s.nextId);
  }

  lemma PassRuns<K(!new), C>(s: State<K, C>, key: K, script: Script<K, C>)
    requires Sound(s, None) && Visitable(s, key)
    ensures var m := s.subscribers[key].value; var p := Visit(Taken(s, key), AscendingKeys(m, s.nextId), script);
            && Passing(p.state, key, s.nextId, p.trace)
            && forall id :: id in m ==> id in p.state.keyOf && p.state.keyOf[id] == key && id < s.nextId
  {
    var m := s.subscribers[key].value;
    var taken := Taken(s, key);
    PassingStarts(s, key);
    var ids := AscendingKeys(m, s.nextId);
    VisitKeepsPassing(taken, key, s.nextId, ids, script);
    assert m == Slot(s, key);
    forall id | id in m ensures id in s.keyOf && s.keyOf[id] == key && id < s.nextId {
      assert id in Slot(s, key);
    }
  }

  lemma PassingStarts<K(!new), C>(s: State<K, C>, key: K)
    requires Sound(s, None) && Visitable(s, key)
    ensures Passing(Taken(s, key), key, s.nextId, [])
  {
    var taken := Taken(s, key);
    assert forall k :: k in taken.subscribers && k != key ==> Slot(taken, k) == Slot(s, k);
  }

  lemma MergedSlot<K(!new), C>(p: Pass<K, C>, key: K, m: map<nat, C>, n0: nat)
    requires Passing(p.state, key, n0, p.trace) && forall id :: id in m ==> id < n0
    ensures Slot(Merged(p, key, m), key) == AfterPass(key, m, p)
  {
    var early := EarlyDrops(key, p.trace);
    assert (set d | d in p.state.dropped :: d.1) == early by {
      assert forall id :: id in early ==> (key, id) in p.state.dropped;
    }
    WithoutEarly(m, p.kept, early, NewAlive(key, p.trace));
  }

  lemma WithoutEarly<C>(m: map<nat, C>, kept: set<nat>, early: set<nat>, alive: map<nat, C>)
    requires forall id :: id in early ==> id !in alive
    ensures ((map id | id in m && id in kept :: m[id]) + alive) - early == (map id | id in m && id in kept && id !in early :: m[id]) + alive
  {
  }

  lemma MergedIsSound<K(!new), C>(p: Pass<K, C>, key: K, m: map<nat, C>, n0: nat)
    requires Passing(p.state, key, n0, p.trace)
    requires forall id :: id in m ==> id in p.state.keyOf && p.state.keyOf[id] == key && id < n0
    ensures Sound(Merged(p, key, m), None)
  {
    MergedIsFiled(p, key, m);
  }

  lemma MergedIsFiled<K, C>(p: Pass<K, C>, key: K, m: map<nat, C>)
    requires Filed(p.state) && forall id :: id in m ==> id in p.state.keyOf && p.state.keyOf[id] == key
    ensures Filed(Merged(p, key, m))
  {
    var s' := Merged(p, key, m);
    forall k, id | k in s'.subscribers && id in Slot(s', k) ensures id in s'.keyOf && s'.keyOf[id] == k {
      if k != key {
        assert id in Slot(p.state, k);
      } else if id !in m {
        assert id in Slot(p.state, key);
        assert key in p.state.subscribers;
      }
    }
  }

  // ---------------------------------------------------------------- what the trace functions mean

  lemma {:induction false} EarlyDropsMean<K, C>(key: K, trace: seq<Event<K, C>>)
    ensures forall id :: id in EarlyDrops(key, trace) <==>
              exists i :: 0 <= i < |trace| && trace[i] == Dropped(key, id) && !Disturbed(key, trace[..i])
    decreases |trace|
  {
    if trace != [] {
      var n := |trace| - 1;
      EarlyDropsMean(key, trace[..n]);
      assert forall i :: 0 <= i < n ==> trace[..n][i] == trace[i] && trace[..n][..i] == trace[..i];
    }
  }

  /** Event `i` is the last in the trace that bears on subscriber `id` of `key`. */
  ghost predicate LastWord<K, C>(key: K, trace: seq<Event<K, C>>, i: nat, id: nat) {
    forall j :: i < j < |trace| ==> !BearsOn(key, trace[j], id)
  }

  ghost predicate BearsOn<K, C>(key: K, e: Event<K, C>, id: nat) {
    match e
    case Inserted(k, x, _) => k == key && x == id
    case Dropped(k, x) => k == key && x == id
    case Activated(_) => false
    case Removed(k) => k == key
  }

  /** A new subscriber is there, with its callback, iff the last that happened to it is its insertion. */
  lemma {:induction false} NewAliveMeans<K, C>(key: K, trace: seq<Event<K, C>>, id: nat, callback: C)
    ensures id in NewAlive(key, trace) && NewAlive(key, trace)[id] == callback <==>
              exists i :: 0 <= i < |trace| && trace[i] == Inserted(key, id, callback) && LastWord(key, trace, i, id)
    decreases |trace|
  {
    if trace != [] {
      var n := |trace| - 1;
      var rest, e := trace[..n], trace[n];
      NewAliveMeans(key, rest, id, callback);
      TraceStep(key, rest, e);
      assert trace == rest + [e] && forall i :: 0 <= i < n ==> rest[i] == trace[i];
      forall i: nat | i < n ensures LastWord(key, trace, i, id) <==> LastWord(key, rest, i, id) && !BearsOn(key, e, id) {
        LastWordStep(key, rest, e, i, id);
      }
      assert LastWord(key, trace, n, id);
    }
  }

  lemma LastWordStep<K, C>(key: K, trace: seq<Event<K, C>>, e: Event<K, C>, i: nat, id: nat)
    requires i < |trace|
    ensures LastWord(key, trace + [e], i, id) <==> LastWord(key, trace, i, id) && !BearsOn(key, e, id)
  {
    var t := trace + [e];
    assert t[|trace|] == e && forall j :: 0 <= j < |trace| ==> t[j] == trace[j];
  }

  /** Calls go in the order of `ids`; a subscriber stays unless it was called and declined. */
  lemma {:induction false} VisitMeans<K, C>(s: State<K, C>, ids: seq<nat>, script: Script<K, C>)
    requires forall i, j :: 0 <= i < j < |ids| ==> ids[i] < ids[j]
    ensures var p := Visit(s, ids, script);
            && (forall i, j :: 0 <= i < j < |p.called| ==> p.called[i] < p.called[j])
            && (forall id :: id in p.called ==> id in ids)
            && (forall id :: id in p.kept <==> id in ids && (id in p.called ==> script(id).1))
    decreases |ids|
  {
    if ids != [] {
      var n := |ids| - 1;
      VisitMeans(s, ids[..n], script);
      assert forall id :: id in ids <==> id in ids[..n] || id == ids[n];
      VisitOneMeans(Visit(s, ids[..n], script), ids[..n], ids[n], script);
    }
  }

  lemma VisitOneMeans<K, C>(q: Pass<K, C>, ids: seq<nat>, id: nat, script: Script<K, C>)
    requires forall x :: x in ids ==> x < id
    requires (forall i, j :: 0 <= i < j < |q.called| ==> q.called[i] < q.called[j]) && forall x :: x in q.called ==> x in ids
    requires forall x :: x in q.kept <==> x in ids && (x in q.called ==> script(x).1)
    ensures var p := VisitOne(q, id, script);
            && (forall i, j :: 0 <= i < j < |p.called| ==> p.called[i] < p.called[j])
            && (forall x :: x in p.called <==> x in q.called || (x == id && id in q.state.active))
            && (forall x :: x in p.kept <==> (x in ids || x == id) && (x in p.called ==> script(x).1))
  {
    assert forall i :: 0 <= i < |q.called| ==> q.called[i] in q.called;
  }

  lemma {:induction false} ActiveGrows<K, C>(s: State<K, C>, ops: seq<Op<K, C>>)
    ensures forall id :: id in DoAll(s, ops).0.active <==> id in s.active || Activated(id) in DoAll(s, ops).1
    decreases |ops|
  {
    if ops != [] {
      ActiveGrows(s, ops[..|ops| - 1]);
    }
  }

  lemma {:induction false} ActiveAfterVisit<K, C>(s: State<K, C>, ids: seq<nat>, script: Script<K, C>)
    ensures var p := Visit(s, ids, script); forall id :: id in p.state.active <==> id in s.active || Activated(id) in p.trace
    decreases |ids|
  {
    if ids != [] {
      var q := Visit(s, ids[..|ids| - 1], script);
      ActiveAfterVisit(s, ids[..|ids| - 1], script);
      ActiveGrows(q.state, script(ids[|ids| - 1]).0);
    }
  }

  /** Inactive subscribers are never called, active ones always are, and activation counts from the moment it happens. */
  lemma {:induction false} CalledIffActive<K, C>(s: State<K, C>, ids: seq<nat>, script: Script<K, C>, i: nat)
    requires forall i, j :: 0 <= i < j < |ids| ==> ids[i] < ids[j]
    requires i < |ids|
    ensures ids[i] in Visit(s, ids, script).called <==>
              ids[i] in s.active || Activated(ids[i]) in Visit(s, ids[..i], script).trace
    decreases |ids|
  {
    var n := |ids| - 1;
    var rest := ids[..n];
    var q := Visit(s, rest, script);
    if i < n {
      CalledIffActive(s, rest, script, i);
      assert rest[..i] == ids[..i];
    } else {
      VisitMeans(s, rest, script);
      ActiveAfterVisit(s, rest, script);
    }
  }

  /** What one would want: every drop during the pass counts. */
  ghost function IdealAfterPass<K, C>(key: K, before: map<nat, C>, p: Pass<K, C>): map<nat, C> {
    (map id | id in before && id in p.kept && Dropped(key, id) !in p.trace :: before[id]) + NewAlive(key, p.trace)
  }

  lemma IdealIffEarly<K, C>(key: K, m: map<nat, C>, p: Pass<K, C>)
    requires forall id :: id in m ==> id !in NewAlive(key, p.trace)
    requires forall id :: id in EarlyDrops(key, p.trace) ==> Dropped(key, id) in p.trace
    ensures AfterPass(key, m, p) == IdealAfterPass(key, m, p) <==>
              forall id :: id in m && id in p.kept && Dropped(key, id) in p.trace ==> id in EarlyDrops(key, p.trace)
  {
    var actual, ideal := AfterPass(key, m, p), IdealAfterPass(key, m, p);
    if actual == ideal {
      forall id | id in m && id in p.kept && Dropped(key, id) in p.trace ensures id in EarlyDrops(key, p.trace) {
        assert id !in ideal;
        assert id !in actual;
      }
    } else {
      assert forall id :: id in NewAlive(key, p.trace) ==> id in actual && id in ideal && actual[id] == ideal[id];
    }
  }

  /** The registry ends up as wanted iff no old subscriber that was kept is dropped only after an insertion under its key. */
  lemma DropsCountIffEarly<K(!new), C>(s: State<K, C>, key: K, script: Script<K, C>)
    requires Sound(s, None) && Visitable(s, key)
    ensures var p := Retained(s, key, script); var m := s.subscribers[key].value;
            Slot(p.state, key) == IdealAfterPass(key, m, p) <==>
              forall id :: id in m && id in p.kept && Dropped(key, id) in p.trace ==> id in EarlyDrops(key, p.trace)
  {
    var p := Retained(s, key, script);
    RetainExact(s, key, script);
    EarlyDropsAreDrops(key, p.trace);
    NewIdsAreFresh(s, key, script);
    IdealIffEarly(key, s.subscribers[key].value, p);
  }

  lemma EarlyDropsAreDrops<K, C>(key: K, trace: seq<Event<K, C>>)
    ensures forall id :: id in EarlyDrops(key, trace) ==> Dropped(key, id) in trace
  {
    EarlyDropsMean(key, trace);
  }

  lemma NewIdsAreFresh<K(!new), C>(s: State<K, C>, key: K, script: Script<K, C>)
    requires Sound(s, None) && Visitable(s, key)
    ensures forall id :: id in s.subscribers[key].value ==> id !in NewAlive(key, Retained(s, key, script).trace)
  {
    PassRuns(s, key, script);
  }

  /** No callback inserts or removes under the key being visited. */
  ghost predicate LeavesAlone<K, C>(key: K, ops: seq<Op<K, C>>) {
    forall op :: op in ops ==> (op.Insert? || op.Remove? ==> op.key != key)
  }

  lemma {:induction false} AllUndisturbed<K, C>(s: State<K, C>, key: K, ops: seq<Op<K, C>>)
    requires LeavesAlone(key, ops)
    ensures !Disturbed(key, DoAll(s, ops).1)
    decreases |ops|
  {
    if ops != [] {
      var n := |ops| - 1;
      assert forall op :: op in ops[..n] ==> op in ops;
      assert ops[n] in ops;
      AllUndisturbed(s, key, ops[..n]);
    }
  }

  lemma {:induction false} VisitUndisturbed<K, C>(s: State<K, C>, key: K, ids: seq<nat>, script: Script<K, C>)
    requires forall id :: id in ids ==> LeavesAlone(key, script(id).0)
    ensures !Disturbed(key, Visit(s, ids, script).trace)
    decreases |ids|
  {
    if ids != [] {
      var n := |ids| - 1;
      assert forall id :: id in ids[..n] ==> id in ids;
      assert ids[n] in ids;
      VisitUndisturbed(s, key, ids[..n], script);
      AllUndisturbed(Visit(s, ids[..n], script).state, key, script(ids[n]).0);
    }
  }

  /** Callbacks that neither insert nor remove under the key of the pass may drop what they like: every drop counts. */
  lemma DropsCountIfLeftAlone<K(!new), C>(s: State<K, C>, key: K, script: Script<K, C>)
    requires Sound(s, None) && Visitable(s, key)
    requires forall id :: id in s.subscribers[key].value ==> LeavesAlone(key, script(id).0)
    ensures var p := Retained(s, key, script); var m := s.subscribers[key].value;
            Slot(p.state, key) == map id | id in m && id in p.kept && Dropped(key, id) !in p.trace :: m[id]
  {
    var p, m := Retained(s, key, script), s.subscribers[key].value;
    VisitUndisturbed(Taken(s, key), key, AscendingKeys(m, s.nextId), script);
    NothingNew(key, p.trace);
    UndisturbedDropsAreEarly(key, p.trace);
    DropsCountIffEarly(s, key, script);
  }

  lemma UndisturbedDropsAreEarly<K, C>(key: K, trace: seq<Event<K, C>>)
    requires !Disturbed(key, trace)
    ensures forall id :: Dropped(key, id) in trace ==> id in EarlyDrops(key, trace)
  {
    EarlyDropsMean(key, trace);
    forall id | Dropped(key, id) in trace ensures id in EarlyDrops(key, trace) {
      var i :| 0 <= i < |trace| && trace[i] == Dropped(key, id);
      assert !Disturbed(key, trace[..i]);
    }
  }

  lemma {:induction false} NothingNew<K, C>(key: K, trace: seq<Event<K, C>>)
    requires !Disturbed(key, trace)
    ensures NewAlive(key, trace) == map[]
    decreases |trace|
  {
    if trace != [] {
      var rest := trace[..|trace| - 1];
      assert trace == rest + [trace[|trace| - 1]];
      DisturbedStep(key, rest, trace[|trace| - 1]);
      NothingNew(key, rest);
    }
  }

  /** A removal of the key in the middle of the pass does not reach the subscribers being visited. */
  lemma RemovalSparesVisited<K(!new), C>(s: State<K, C>, key: K, script: Script<K, C>, id: nat)
    requires Sound(s, None) && Visitable(s, key) && id in s.subscribers[key].value
    requires var p := Retained(s, key, script); id in p.kept && Dropped(key, id) !in p.trace
    ensures id in Slot(Retained(s, key, script).state, key)
  {
    RetainExact(s, key, script);
    EarlyDropsAreDrops(key, Retained(s, key, script).trace);
  }

  /** A pass started over a key whose subscribers are being visited does nothing. */
  lemma PassOverVisitedIsIdle<K, C>(s: State<K, C>, key: K, script: Script<K, C>)
    requires key in s.subscribers && s.subscribers[key].None?
    ensures Retained(s, key, script) == Pass(s, [], [], {})
  {
  }

  /**
    * A pass started over another key forgets the drops remembered for the key being visited: that slot is still taken
    * afterwards if no callback inserted or removed under the key, but nothing is remembered for it.
    */
  lemma {:induction false} InnerPassForgetsDrops<K, C>(s: State<K, C>, key: K, other: K, script: Script<K, C>)
    requires key in s.subscribers && s.subscribers[key].None? && key != other && Visitable(s, other)
    requires forall id :: LeavesAlone(key, script(id).0)
    ensures var s' := Retained(s, other, script).state;
            s'.dropped == {} && key in s'.subscribers && s'.subscribers[key].None?
  {
    StaysTaken(Taken(s, other), key, AscendingKeys(s.subscribers[other].value, s.nextId), script);
  }

  lemma {:induction false} StaysTaken<K, C>(s: State<K, C>, key: K, ids: seq<nat>, script: Script<K, C>)
    requires key in s.subscribers && s.subscribers[key].None? && forall id :: LeavesAlone(key, script(id).0)
    ensures var s' := Visit(s, ids, script).state; key in s'.subscribers && s'.subscribers[key].None?
    decreases |ids|
  {
    if ids != [] {
      StaysTaken(s, key, ids[..|ids| - 1], script);
      OpsLeaveTaken(Visit(s, ids[..|ids| - 1], script).state, key, script(ids[|ids| - 1]).0);
    }
  }

  lemma {:induction false} OpsLeaveTaken<K, C>(s: State<K, C>, key: K, ops: seq<Op<K, C>>)
    requires key in s.subscribers && s.subscribers[key].None? && LeavesAlone(key, ops)
    ensures var s' := DoAll(s, ops).0; key in s'.subscribers && s'.subscribers[key].None?
    decreases |ops|
  {
    if ops != [] {
      var n := |ops| - 1;
      assert forall op :: op in ops[..n] ==> op in ops;
      assert ops[n] in ops;
      OpsLeaveTaken(s, key, ops[..n]);
    }
  }

  ghost function LateState(key: nat): State<nat, char> {
    State(map[key := Some(map[0 := 'a', 1 := 'b'])], {}, 2, {0}, map[0 := key, 1 := key])
  }

  ghost function LateScript(key: nat): Script<nat, char> {
    (id: nat) => ([Insert(key, 'c'), Drop(1)], true)
  }

  lemma LateOps(key: nat)
    ensures var (s, events) := DoAll(Taken(LateState(key), key), [Insert(key, 'c'), Drop(1)]);
            && events == [Inserted(key, 2, 'c'), Dropped(key, 1)]
            && s.dropped == {} && s.active == {0} && s.subscribers == map[key := Some(map[2 := 'c'])]
  {
    var taken := Taken(LateState(key), key);
    DoTwo(taken, Insert(key, 'c'), Drop(1));
    assert Slot(taken, key) == map[] && taken.subscribers[key := Some(map[2 := 'c'])] == map[key := Some(map[2 := 'c'])];
    var m: map<nat, char> := map[2 := 'c'];
    assert m - {1} == m && 2 in m;
  }

  lemma LatePass(key: nat)
    ensures var p := Visit(Taken(LateState(key), key), [0, 1], LateScript(key));
            p.trace == [Inserted(key, 2, 'c'), Dropped(key, 1)] && p.kept == {0, 1} && p.state.dropped == {}
  {
    var taken, script := Taken(LateState(key), key), LateScript(key);
    LateOps(key);
    assert [0, 1][..1] == [0] && [0][..0] == [];
    assert Visit(taken, [0], script) == VisitOne(Visit(taken, [], script), 0, script);
    assert Visit(taken, [0, 1], script) == VisitOne(Visit(taken, [0], script), 1, script);
  }

  /** The failing family has members: subscriber 0 inserts under its own key and then drops subscriber 1, which stays. */
  lemma LateDropIsLost(key: nat)
    ensures Sound(LateState(key), None)
    ensures var p := Retained(LateState(key), key, LateScript(key));
            Visitable(LateState(key), key) && Dropped(key, 1) in p.trace && 1 in Slot(p.state, key)
  {
    LateStateIsSound(key);
    var m: map<nat, char> := map[0 := 'a', 1 := 'b'];
    TwoKeys(m);
    LatePass(key);
    var p := Visit(Taken(LateState(key), key), [0, 1], LateScript(key));
    assert p.trace[1] == Dropped(key, 1);
    StaysIfKept(p, key, m, 1);
  }

  lemma TwoKeys(m: map<nat, char>)
    requires m.Keys == {0, 1}
    ensures AscendingKeys(m, 2) == [0, 1]
  {
    assert 0 in m && 1 in m;
    assert AscendingKeys(m, 0) == [] && AscendingKeys(m, 1) == [0];
  }

  lemma StaysIfKept<K, C>(p: Pass<K, C>, key: K, m: map<nat, C>, id: nat)
    requires id in m && id in p.kept && p.state.dropped == {}
    ensures id in Slot(Merged(p, key, m), key)
  {
    var kept := map i | i in m && i in p.kept :: m[i];
    assert id in kept;
    var gone := set d | d in p.state.dropped :: d.1;
    assert gone == {};
    assert id in (kept + Slot(p.state, key)) - gone;
  }

  lemma LateStateIsSound(key: nat)
    ensures Sound(LateState(key), None)
  {
    var m: map<nat, char> := map[0 := 'a', 1 := 'b'];
    assert Slot(LateState(key), key) == m && 0 in m;
    forall id: nat ensures id in LateState(key).keyOf <==> id < 2 { }
  }

  lemma DoTwo<K, C>(s: State<K, C>, a: Op<K, C>, b: Op<K, C>)
    ensures var (s1, e1) := DoOp(s, a); var (s2, e2) := DoOp(s1, b);
            DoAll(s, [a, b]) == (s2, e1 + e2)
  {
    assert [a, b][..1] == [a] && [a][..0] == [];
    assert DoAll(s, []) == (s, []);
    assert [] + DoOp(s, a).1 == DoOp(s, a).1;
    assert DoAll(s, [a]) == DoOp(s, a);
  }
}
