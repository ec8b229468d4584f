/** What becomes of every slot of the registry, whatever is done to it: its own events decide, and nothing else. */
module SlotHistory {
  import opened Wrappers
  import opened Subscriptions

  /** A slot that was `before`, after the events of a trace under its key. */
  ghost function SlotAfter<K, C>(key: K, trace: seq<Event<K, C>>, before: map<nat, C>): map<nat, C> {
    if trace == [] then before
    else AliveAfter(key, SlotAfter(key, trace[..|trace| - 1], before), trace[|trace| - 1])
  }

  /**
    * A subscriber is there, with its callback, iff the last that happened to it is its insertion, or it was there
    * before and nothing happened to it.
    */
  lemma {:induction false} SlotAfterMeans<K, C>(key: K, trace: seq<Event<K, C>>, before: map<nat, C>, id: nat, callback: C)
    ensures id in SlotAfter(key, trace, before) && SlotAfter(key, trace, before)[id] == callback <==>
              || (exists i :: 0 <= i < |trace| && trace[i] == Inserted(key, id, callback) && LastWord(key, trace, i, id))
              || (id in before && before[id] == callback && forall i :: 0 <= i < |trace| ==> !BearsOn(key, trace[i], id))
    decreases |trace|
  {
    if trace != [] {
      var n := |trace| - 1;
      var rest, e := trace[..n], trace[n];
      SlotAfterMeans(key, rest, before, id, callback);
      assert trace == rest + [e] && forall i :: 0 <= i < n ==> rest[i] == trace[i];
      forall i: nat | i < n ensures LastWord(key, trace, i, id) <==> LastWord(key, rest, i, id) && !BearsOn(key, e, id) {
        LastWordStep(key, rest, e, i, id);
      }
      assert LastWord(key, trace, n, id);
    }
  }

  lemma {:induction false} SlotAfterInTurn<K, C>(key: K, a: seq<Event<K, C>>, b: seq<Event<K, C>>, before: map<nat, C>)
    ensures SlotAfter(key, a + b, before) == SlotAfter(key, b, SlotAfter(key, a, before))
    decreases |b|
  {
    if b == [] {
      assert a + b == a;
    } else {
      var n := |b| - 1;
      assert (a + b)[..|a| + n] == a + b[..n];
      SlotAfterInTurn(key, a, b[..n], before);
    }
  }

  lemma SlotAfterOne<K, C>(key: K, e: Event<K, C>, before: map<nat, C>)
    ensures SlotAfter(key, [e], before) == AliveAfter(key, before, e)
  {
    assert [e][..0] == [];
  }

  /** Dropping a handle of a slot that is not being visited. */
  lemma DropFromFreeSlot<K, C>(s: State<K, C>, key: K, k: K, id: nat)
    requires key in s.subscribers ==> s.subscribers[key].Some?
    ensures Slot(DoUnsubscribe(s, k, id), key) == if k == key then Slot(s, key) - {id} else Slot(s, key)
  {
    assert Slot(s, key) == map[] ==> Slot(s, key) - {id} == map[];
  }

  /** Registering touches one slot, and the subscriber is inert. */
  lemma InsertMeans<K, C>(s: State<K, C>, key: K, callback: C)
    ensures var s' := DoInsert(s, key, callback);
            && Slot(s', key) == Slot(s, key)[s.nextId := callback] && (forall k :: k != key ==> Slot(s', k) == Slot(s, k))
            && s'.nextId == s.nextId + 1 && s'.active == s.active && s'.dropped == s.dropped
  {
  }

  /** Dropping a handle touches one slot, or is remembered if that is being visited. */
  lemma UnsubscribeMeans<K, C>(s: State<K, C>, key: K, id: nat)
    ensures var s' := DoUnsubscribe(s, key, id);
            && (if key in s.subscribers && s.subscribers[key].None?
                then s' == s.(dropped := s.dropped + {(key, id)})
                else Slot(s', key) == Slot(s, key) - {id} && s'.dropped == s.dropped)
            && (forall k :: k != key ==> Slot(s', k) == Slot(s, k))
            && s'.active == s.active && s'.nextId == s.nextId && s'.keyOf == s.keyOf
  {
    assert Slot(s, key) == map[] ==> Slot(s, key) - {id} == map[];
  }

  lemma OpShowsInSlot<K, C>(s: State<K, C>, visiting: Option<K>, op: Op<K, C>, key: K)
    requires Sound(s, visiting) && visiting != Some(key)
    ensures Slot(DoOp(s, op).0, key) == SlotAfter(key, DoOp(s, op).1, Slot(s, key))
  {
    var (s', events) := DoOp(s, op);
    if events != [] {
      assert events == [events[0]];
      SlotAfterOne(key, events[0], Slot(s, key));
    }
    match op
    case Insert(k, callback) =>
    case Drop(id) => if id in s.keyOf { DropFromFreeSlot(s, key, s.keyOf[id], id); }
    case Activate(_) =>
    case Remove(k) =>
  }

  /** Any operations: each slot not being visited is what its own events make of it. */
  lemma {:induction false} AllShowInSlot<K, C>(s: State<K, C>, visiting: Option<K>, ops: seq<Op<K, C>>, key: K)
    requires Sound(s, visiting) && visiting != Some(key)
    ensures Slot(DoAll(s, ops).0, key) == SlotAfter(key, DoAll(s, ops).1, Slot(s, key))
    decreases |ops|
  {
    if ops != [] {
      var n := |ops| - 1;
      var (s1, events) := DoAll(s, ops[..n]);
      AllShowInSlot(s, visiting, ops[..n], key);
      AllKeepSound(s, visiting, ops[..n]);
      OpShowsInSlot(s1, visiting, ops[n], key);
      SlotAfterInTurn(key, events, DoOp(s1, ops[n]).1, Slot(s, key));
    }
  }

  /** What the subscribers called in a pass do, one after the other. */
  ghost function Performed<K, C>(called: seq<nat>, script: Script<K, C>): seq<Op<K, C>> {
    if called == [] then [] else Performed(called[..|called| - 1], script) + script(called[|called| - 1]).0
  }

  /** While a pass goes on the registry is as the operations of the subscribers called make it, all of them and in order. */
  lemma {:induction false} VisitPerforms<K, C>(s: State<K, C>, ids: seq<nat>, script: Script<K, C>)
    ensures var p := Visit(s, ids, script); (p.state, p.trace) == DoAll(s, Performed(p.called, script))
    decreases |ids|
  {
    if ids != [] {
      var n := |ids| - 1;
      VisitPerforms(s, ids[..n], script);
      var p := Visit(s, ids[..n], script);
      if ids[n] in p.state.active {
        assert (p.called + [ids[n]])[..|p.called|] == p.called;
        DoAllInTurn(s, Performed(p.called, script), script(ids[n]).0);
      }
    }
  }

  lemma MergedElsewhere<K, C>(p: Pass<K, C>, key: K, m: map<nat, C>, k: K)
    requires k != key
    ensures Slot(Merged(p, key, m), k) == Slot(p.state, k)
    ensures k in Merged(p, key, m).subscribers <==> k in p.state.subscribers
  {
  }

  lemma TakenElsewhere<K(!new), C>(s: State<K, C>, key: K, k: K)
    requires Sound(s, None) && Visitable(s, key) && k != key
    ensures Sound(Taken(s, key), Some(key)) && Slot(Taken(s, key), k) == Slot(s, k)
  {
    PassingStarts(s, key);
  }

  /**
    * A pass over one key leaves every other slot as the callbacks' operations under that other key make it; handles,
    * flags and the id counter are likewise as the callbacks leave them.
    */
  lemma RetainElsewhere<K(!new), C>(s: State<K, C>, key: K, script: Script<K, C>, k: K)
    requires Sound(s, None) && k != key
    ensures var p := Retained(s, key, script); Slot(p.state, k) == SlotAfter(k, p.trace, Slot(s, k))
  {
    if Visitable(s, key) {
      var m := s.subscribers[key].value;
      var ids, taken := AscendingKeys(m, s.nextId), Taken(s, key);
      TakenElsewhere(s, key, k);
      var p := Visit(taken, ids, script);
      VisitPerforms(taken, ids, script);
      AllShowInSlot(taken, Some(key), Performed(p.called, script), k);
      MergedElsewhere(p, key, m, k);
    }
  }

  /** The trace of a pass, and everything but the slots, is that of the operations performed by those called. */
  lemma RetainPerforms<K, C>(s: State<K, C>, key: K, script: Script<K, C>)
    requires Visitable(s, key)
    ensures var p := Retained(s, key, script); var (after, events) := DoAll(Taken(s, key), Performed(p.called, script));
            && p.trace == events && p.state.dropped == {}
            && p.state.active == after.active && p.state.nextId == after.nextId && p.state.keyOf == after.keyOf
  {
    VisitPerforms(Taken(s, key), AscendingKeys(s.subscribers[key].value, s.nextId), script);
  }

  /** Nothing in the trace bears on the key. */
  ghost predicate Spared<K, C>(key: K, trace: seq<Event<K, C>>) {
    forall e :: e in trace ==> e.Activated? || e.key != key
  }

  lemma {:induction false} SparedStays<K, C>(key: K, trace: seq<Event<K, C>>, before: map<nat, C>)
    requires Spared(key, trace)
    ensures SlotAfter(key, trace, before) == before
    decreases |trace|
  {
    if trace != [] {
      var n := |trace| - 1;
      assert trace[n] in trace && forall e :: e in trace[..n] ==> e in trace;
      SparedStays(key, trace[..n], before);
    }
  }

  /** Operations that neither insert nor remove under a key, and drop no handle made for it in `s0`. */
  ghost predicate Spares<K, C>(s0: State<K, C>, key: K, ops: seq<Op<K, C>>) {
    LeavesAlone(key, ops) && forall op :: op in ops && op.Drop? ==> op.id in s0.keyOf ==> s0.keyOf[op.id] != key
  }

  /** No handle was made for the key since `s0`. */
  ghost predicate NoneMade<K, C>(s0: State<K, C>, s: State<K, C>, key: K) {
    forall id :: id in s.keyOf && s.keyOf[id] == key ==> id in s0.keyOf && s0.keyOf[id] == key
  }

  lemma {:induction false} SparingOps<K, C>(s0: State<K, C>, s: State<K, C>, key: K, ops: seq<Op<K, C>>)
    requires Spares(s0, key, ops) && NoneMade(s0, s, key)
    ensures Spared(key, DoAll(s, ops).1) && NoneMade(s0, DoAll(s, ops).0, key)
    decreases |ops|
  {
    if ops != [] {
      var n := |ops| - 1;
      assert ops[n] in ops && forall op :: op in ops[..n] ==> op in ops;
      SparingOps(s0, s, key, ops[..n]);
      var (s1, events) := DoAll(s, ops[..n]);
      forall e | e in DoOp(s1, ops[n]).1 ensures e.Activated? || e.key != key {
      }
    }
  }

  lemma {:induction false} PerformedSpares<K, C>(s0: State<K, C>, key: K, called: seq<nat>, script: Script<K, C>)
    requires forall id :: id in called ==> Spares(s0, key, script(id).0)
    ensures Spares(s0, key, Performed(called, script))
    decreases |called|
  {
    if called != [] {
      var n := |called| - 1;
      assert called[n] in called && forall id :: id in called[..n] ==> id in called;
      PerformedSpares(s0, key, called[..n], script);
    }
  }

  /** A key that no callback inserts under, removes, or drops a handle of keeps its subscribers. */
  lemma UntouchedKeyKeepsSlot<K(!new), C>(s: State<K, C>, key: K, script: Script<K, C>, k: K)
    requires Sound(s, None) && k != key
    requires forall id :: id in Slot(s, key) ==> Spares(s, k, script(id).0)
    ensures Slot(Retained(s, key, script).state, k) == Slot(s, k)
  {
    RetainElsewhere(s, key, script, k);
    var p := Retained(s, key, script);
    if Visitable(s, key) {
      var ids := AscendingKeys(s.subscribers[key].value, s.nextId);
      VisitMeans(Taken(s, key), ids, script);
      PerformedSpares(s, k, p.called, script);
      RetainPerforms(s, key, script);
      SparingOps(s, Taken(s, key), k, Performed(p.called, script));
    }
    SparedStays(k, p.trace, Slot(s, k));
  }
}
