/** The keymap: bindings in the order they were added, with the loops that answer queries. */
module Keymap {
  import opened Wrappers
  import opened KeyBindings
  import opened Precedence

  /** The indices of `NoAction` bindings, and of the bindings of one action type, ascending. */
  ghost predicate IsIndexList(ixs: seq<nat>, bindings: seq<KeyBinding>, want: KeyBinding -> bool) {
    && (forall k, l :: 0 <= k < l < |ixs| ==> ixs[k] < ixs[l])
    && (forall ix: nat :: ix in ixs <==> ix < |bindings| && want(bindings[ix]))
  }

  ghost function IsType(typeId: nat): KeyBinding -> bool {
    (b: KeyBinding) => b.action.Act? && b.action.typeId == typeId
  }

  ghost function IsNoAction(): KeyBinding -> bool {
    (b: KeyBinding) => b.action.NoAction?
  }

  lemma AppendOther(ixs: seq<nat>, bindings: seq<KeyBinding>, want: KeyBinding -> bool, b: KeyBinding)
    requires IsIndexList(ixs, bindings, want)
    ensures IsIndexList(if want(b) then ixs + [|bindings|] else ixs, bindings + [b], want)
  {
    assert forall ix :: ix in ixs ==> ix < |bindings|;
    var ixs' := if want(b) then ixs + [|bindings|] else ixs;
    assert forall k :: 0 <= k < |ixs| ==> ixs[k] in ixs;
    forall ix: nat ensures ix in ixs' <==> ix < |bindings + [b]| && want((bindings + [b])[ix]) {
      assert ix in ixs' <==> ix in ixs || (want(b) && ix == |bindings|);
    }
  }

  ghost predicate Nullified(rules: Rules, bindings: seq<KeyBinding>, ix: nat)
    requires ix < |bindings|
  {
    exists n :: ix < n < |bindings| && bindings[n].action.NoAction? && Nullifies(rules, bindings[n], bindings[ix])
  }

  /** Taken away by a later `NoAction` with the same keystrokes: one without a predicate, or one whose predicate takes in the binding's. */
  lemma NullifiedMeans(rules: Rules, bindings: seq<KeyBinding>, ix: nat)
    requires ix < |bindings|
    ensures Nullified(rules, bindings, ix) <==>
              exists n :: ix < n < |bindings| && bindings[n].action == NoAction && bindings[n].keystrokes == bindings[ix].keystrokes
                && match bindings[n].contextPredicate
                   case None => true
                   case Some(p) => bindings[ix].contextPredicate.Some? && rules.isSuperset(p, bindings[ix].contextPredicate.value)
  {
  }

  ghost predicate Indexed(bindings: seq<KeyBinding>, noActions: seq<nat>, byType: map<nat, seq<nat>>) {
    && IsIndexList(noActions, bindings, IsNoAction())
    && (forall t :: t in byType ==> IsIndexList(byType[t], bindings, IsType(t)))
    && (forall ix :: 0 <= ix < |bindings| && bindings[ix].action.Act? ==> bindings[ix].action.typeId in byType)
  }

  lemma AppendKeepsIndices(bindings: seq<KeyBinding>, noActions: seq<nat>, byType: map<nat, seq<nat>>, b: KeyBinding)
    requires Indexed(bindings, noActions, byType)
    ensures match b.action
            case NoAction => Indexed(bindings + [b], noActions + [|bindings|], byType)
            case Act(t, _) => Indexed(bindings + [b], noActions, byType[t := (if t in byType then byType[t] else []) + [|bindings|]])
  {
    AppendOther(noActions, bindings, IsNoAction(), b);
    forall t | t in byType ensures IsIndexList(if IsType(t)(b) then byType[t] + [|bindings|] else byType[t], bindings + [b], IsType(t)) {
      AppendOther(byType[t], bindings, IsType(t), b);
    }
    if b.action.Act? && b.action.typeId !in byType {
      AppendOther([], bindings, IsType(b.action.typeId), b);
    }
  }

  /** A later `NoAction` with the same keystrokes whose context takes in that of the binding. */
  predicate Nullifies(rules: Rules, n: KeyBinding, b: KeyBinding) {
    && n.keystrokes == b.keystrokes
    && (n.contextPredicate.None?
        || (b.contextPredicate.Some? && rules.isSuperset(n.contextPredicate.value, b.contextPredicate.value)))
  }

  /** Of some candidate indices those whose bindings are for the action and not taken away, in order, and the bindings. */
  ghost predicate Chosen(rules: Rules, bindings: seq<KeyBinding>, action: Action, candidates: seq<nat>,
                         found: seq<KeyBinding>, ixs: seq<nat>) {
    && (forall ix: nat :: ix in ixs <==>
          ix in candidates && ix < |bindings| && bindings[ix].action == action && !Nullified(rules, bindings, ix))
    && (forall k, l :: 0 <= k < l < |ixs| ==> ixs[k] < ixs[l])
    && |found| == |ixs| && forall k :: 0 <= k < |ixs| ==> ixs[k] < |bindings| && found[k] == bindings[ixs[k]]
  }

  lemma ChosenStep(rules: Rules, bindings: seq<KeyBinding>, action: Action, candidates: seq<nat>,
                   found: seq<KeyBinding>, ixs: seq<nat>, ix: nat)
    requires Chosen(rules, bindings, action, candidates, found, ixs) && ix < |bindings|
    requires forall x :: x in candidates ==> x < ix
    ensures if bindings[ix].action == action && !Nullified(rules, bindings, ix)
            then Chosen(rules, bindings, action, candidates + [ix], found + [bindings[ix]], ixs + [ix])
            else Chosen(rules, bindings, action, candidates + [ix], found, ixs)
  {
    assert forall k :: 0 <= k < |ixs| ==> ixs[k] in ixs;
  }

  class Keymap {
    const rules: Rules
    var bindings: seq<KeyBinding>
    var indicesByActionType: map<nat, seq<nat>>
    var noActionIndices: seq<nat>
    var version: nat

    ghost predicate Valid()
      reads this
    {
      Indexed(bindings, noActionIndices, indicesByActionType)
    }

    constructor (rules: Rules)
      ensures Valid() && bindings == [] && this.rules == rules
    {
      this.rules := rules;
      bindings, indicesByActionType, noActionIndices, version := [], map[], [], 0;
    }

    method AddBindings(more: seq<KeyBinding>)
      requires Valid()
      modifies this
      ensures Valid() && bindings == old(bindings) + more && version == old(version) + 1
    {
      for i := 0 to |more|
        invariant Valid() && bindings == old(bindings) + more[..i] && version == old(version)
      {
        AddBinding(more[i]);
        assert more[..i + 1] == more[..i] + [more[i]];
      }
      assert more[..|more|] == more;
      version := version + 1;
    }

    method AddBinding(b: KeyBinding)
      requires Valid()
      modifies this`bindings, this`indicesByActionType, this`noActionIndices
      ensures Valid() && bindings == old(bindings) + [b]
    {
      AppendKeepsIndices(bindings, noActionIndices, indicesByActionType, b);
      match b.action {
        case NoAction =>
          noActionIndices := noActionIndices + [|bindings|];
        case Act(t, _) =>
          var ixs := if t in indicesByActionType then indicesByActionType[t] else [];
          indicesByActionType := indicesByActionType[t := ixs + [|bindings|]];
      }
      bindings := bindings + [b];
    }

    /** The bindings for an input, by precedence, and whether a longer input could match more. */
    method BindingsForInput(input: seq<Keystroke>, contexts: seq<KeyContext>) returns (found: seq<KeyBinding>, pending: bool)
      ensures (found, pending) == Answer(Query(rules, bindings, input, contexts))
    {
      ghost var q := Query(rules, bindings, input, contexts);
      var matched, waiting := Scan(input, contexts);
      var ranked := SortByRank(matched);
      RankedUnique(ranked, Ranking(q, true, 0));
      var kept := CutAtDisabled(ranked);
      found := Pick(bindings, kept);
      pending := AnyAwaited(waiting, if kept == [] then None else Some(kept[0].ix));
      AwaitedMeans(q, waiting, FirstIx(kept));
    }

    /** The bindings one key press or more away from the input, by precedence. */
    method PossibleNextBindingsForInput(input: seq<Keystroke>, contexts: seq<KeyContext>)
      returns (next: seq<KeyBinding>, ghost found: seq<Found>)
      ensures var q := Query(rules, bindings, input, contexts);
              forall f :: f in found <==> Waits(q, f.ix, f.depth) && bindings[f.ix].action != NoAction
      ensures forall i, j :: 0 <= i < j < |found| ==>
                found[i].depth > found[j].depth || (found[i].depth == found[j].depth && found[i].ix > found[j].ix)
      ensures (forall f :: f in found ==> f.ix < |bindings|) && next == Pick(bindings, found)
    {
      var _, waiting := Scan(input, contexts);
      var doing: seq<Found> := [];
      for i := 0 to |waiting|
        invariant Descending(doing) && forall f :: f in doing <==> f in waiting[..i] && !bindings[f.ix].action.NoAction?
      {
        assert waiting[i] in waiting && forall f :: f in waiting[..i + 1] <==> f == waiting[i] || f in waiting[..i];
        if !bindings[waiting[i].ix].action.NoAction? {
          assert forall k :: 0 <= k < |doing| ==> doing[k] in doing;
          doing := doing + [waiting[i]];
        }
      }
      assert waiting[..|waiting|] == waiting;
      var ranked := SortByRank(doing);
      RankedMeans(ranked);
      forall f ensures f in doing <==> Waits(Query(rules, bindings, input, contexts), f.ix, f.depth) && bindings[f.ix].action != NoAction {
        FoundMeans(Query(rules, bindings, input, contexts), f);
      }
      next, found := Pick(bindings, ranked), ranked;
    }

    /** The bindings for an action in the order they were added, without those a later `NoAction` takes away. */
    method BindingsForAction(action: Action) returns (found: seq<KeyBinding>, ghost ixs: seq<nat>)
      requires Valid()
      ensures forall ix: nat :: ix in ixs <==>
                ix < |bindings| && action.Act? && bindings[ix].action == action && !Nullified(rules, bindings, ix)
      ensures (forall k, l :: 0 <= k < l < |ixs| ==> ixs[k] < ixs[l])
      ensures |found| == |ixs| && forall k :: 0 <= k < |ixs| ==> ixs[k] < |bindings| && found[k] == bindings[ixs[k]]
    {
      found, ixs := [], [];
      if action.NoAction? || action.typeId !in indicesByActionType {
        return;
      }
      var candidates := indicesByActionType[action.typeId];
      for i := 0 to |candidates|
        invariant Chosen(rules, bindings, action, candidates[..i], found, ixs)
      {
        var ix := candidates[i];
        assert ix in candidates && candidates[..i + 1] == candidates[..i] + [ix];
        ChosenStep(rules, bindings, action, candidates[..i], found, ixs, ix);
        if bindings[ix].action == action {
          var taken := IsTakenAway(ix);
          if !taken {
            found, ixs := found + [bindings[ix]], ixs + [ix];
          }
        }
      }
      assert candidates[..|candidates|] == candidates;
    }

    method IsTakenAway(ix: nat) returns (taken: bool)
      requires Valid() && ix < |bindings|
      ensures taken <==> Nullified(rules, bindings, ix)
    {
      taken := false;
      for i := 0 to |noActionIndices|
        invariant taken <==> exists n :: n in noActionIndices[..i] && ix < n < |bindings| && Nullifies(rules, bindings[n], bindings[ix])
      {
        var n := noActionIndices[i];
        assert n in noActionIndices && forall x :: x in noActionIndices[..i + 1] <==> x == n || x in noActionIndices[..i];
        if n > ix && Nullifies(rules, bindings[n], bindings[ix]) {
          taken := true;
        }
      }
      assert noActionIndices[..|noActionIndices|] == noActionIndices;
    }

    /** One pass from the last binding to the first, splitting exact and pending matches. */
    method Scan(input: seq<Keystroke>, contexts: seq<KeyContext>) returns (matched: seq<Found>, waiting: seq<Found>)
      ensures var q := Query(rules, bindings, input, contexts);
              Lists(q, true, matched, 0) && Lists(q, false, waiting, 0) && Descending(matched) && Descending(waiting)
    {
      ghost var q := Query(rules, bindings, input, contexts);
      matched, waiting := [], [];
      var ix := |bindings|;
      while ix > 0
        invariant 0 <= ix <= |bindings|
        invariant Lists(q, true, matched, ix) && Lists(q, false, waiting, ix)
        invariant Descending(matched) && Descending(waiting)
      {
        ix := ix - 1;
        var b := bindings[ix];
        var depth := BindingEnabled(rules, b, contexts);
        if depth.Some? {
          var pending := MatchKeystrokes(rules, b, input);
          if pending == Some(false) {
            matched := matched + [Found(depth.value, ix)];
          } else if pending == Some(true) {
            waiting := waiting + [Found(depth.value, ix)];
          }
        }
      }
    }

    /** Goes through the waiting bindings from the first to the last; a `NoAction` withdraws its keystrokes. */
    method AnyAwaited(waiting: seq<Found>, first: Option<nat>) returns (any: bool)
      requires forall f :: f in waiting ==> f.ix < |bindings|
      ensures any <==> exists k :: LastOfKeys(bindings, waiting, first, 0, k)
    {
      var pending: set<seq<Keystroke>> := {};
      var i := |waiting|;
      while i > 0
        invariant 0 <= i <= |waiting|
        invariant forall keys :: keys in pending <==>
                    exists k :: LastOfKeys(bindings, waiting, first, i, k) && KeysAt(bindings, waiting, k) == keys
      {
        ghost var before := pending;
        i := i - 1;
        assert waiting[i] in waiting;
        var b := bindings[waiting[i].ix];
        if !(first.Some? && first.value > waiting[i].ix) {
          if b.action.NoAction? {
            pending := pending - {b.keystrokes};
          } else {
            pending := pending + {b.keystrokes};
          }
        }
        forall keys ensures keys in pending <==>
            exists k :: LastOfKeys(bindings, waiting, first, i, k) && KeysAt(bindings, waiting, k) == keys
        {
          OneMoreWaiting(bindings, waiting, first, i, keys);
        }
      }
      any := pending != {};
      assert any ==> exists keys :: keys in pending;
      assert forall k :: LastOfKeys(bindings, waiting, first, 0, k) ==> KeysAt(bindings, waiting, k) in pending;
    }

    method CutAtDisabled(ranked: seq<Found>) returns (kept: seq<Found>)
      requires forall f :: f in ranked ==> f.ix < |bindings|
      ensures kept == Cut(bindings, ranked)
    {
      kept := [];
      var i := 0;
      assert ranked[0..] == ranked;
      while i < |ranked|
        invariant 0 <= i <= |ranked| && forall f :: f in ranked[i..] ==> f.ix < |bindings|
        invariant kept + Cut(bindings, ranked[i..]) == Cut(bindings, ranked)
      {
        assert ranked[i..][0] == ranked[i] && ranked[i..][1..] == ranked[i + 1..];
        assert ranked[i] in ranked;
        var b := bindings[ranked[i].ix];
        if b.action.NoAction? {
          if b.meta.None? || b.meta.value == 0 {
            break;
          }
        } else {
          kept := kept + [ranked[i]];
        }
        i := i + 1;
      }
    }
  }

  /** Entry `k` does something, counts, and no entry from `i` up to it is for the same keystrokes and counts. */
  ghost predicate LastOfKeys(bindings: seq<KeyBinding>, waiting: seq<Found>, first: Option<nat>, i: nat, k: nat) {
    && i <= k < |waiting| && (forall f :: f in waiting ==> f.ix < |bindings|)
    && Counts(first, waiting[k]) && !bindings[waiting[k].ix].action.NoAction?
    && forall l :: i <= l < k && Counts(first, waiting[l]) ==> KeysAt(bindings, waiting, l) != KeysAt(bindings, waiting, k)
  }

  ghost predicate Counts(first: Option<nat>, f: Found) {
    first.Some? ==> first.value <= f.ix
  }

  ghost function KeysAt(bindings: seq<KeyBinding>, waiting: seq<Found>, k: nat): seq<Keystroke>
    requires k < |waiting| && forall f :: f in waiting ==> f.ix < |bindings|
  {
    bindings[waiting[k].ix].keystrokes
  }

  ghost predicate Descending(s: seq<Found>) {
    forall i, j :: 0 <= i < j < |s| ==> s[i].ix > s[j].ix
  }

  lemma OneMoreWaiting(bindings: seq<KeyBinding>, waiting: seq<Found>, first: Option<nat>, i: nat, keys: seq<Keystroke>)
    requires i < |waiting| && forall f :: f in waiting ==> f.ix < |bindings|
    ensures (exists k :: LastOfKeys(bindings, waiting, first, i, k) && KeysAt(bindings, waiting, k) == keys) <==>
              if Counts(first, waiting[i]) && KeysAt(bindings, waiting, i) == keys
              then !bindings[waiting[i].ix].action.NoAction?
              else exists k :: LastOfKeys(bindings, waiting, first, i + 1, k) && KeysAt(bindings, waiting, k) == keys
  {
    assert waiting[i] in waiting;
    if Counts(first, waiting[i]) && KeysAt(bindings, waiting, i) == keys {
      if !bindings[waiting[i].ix].action.NoAction? {
        assert LastOfKeys(bindings, waiting, first, i, i);
      }
    } else {
      forall k | LastOfKeys(bindings, waiting, first, i + 1, k) && KeysAt(bindings, waiting, k) == keys
        ensures LastOfKeys(bindings, waiting, first, i, k)
      {
      }
      forall k | LastOfKeys(bindings, waiting, first, i, k) && KeysAt(bindings, waiting, k) == keys
        ensures LastOfKeys(bindings, waiting, first, i + 1, k)
      {
      }
    }
  }

  lemma AwaitedMeans(q: Query, waiting: seq<Found>, first: Option<nat>)
    requires Lists(q, false, waiting, 0) && Descending(waiting)
    ensures (exists k :: LastOfKeys(q.bindings, waiting, first, 0, k)) <==> AwaitsMore(q, first)
  {
    if k: nat :| LastOfKeys(q.bindings, waiting, first, 0, k) {
      var ix := waiting[k].ix;
      assert waiting[k] in waiting;
      forall j: nat | j > ix && q.Pending(j) ensures q.bindings[j].keystrokes != q.bindings[ix].keystrokes {
        var f := Found(q.Depth(j), j);
        assert IsFound(q, false, f) && f in waiting;
        var l :| 0 <= l < |waiting| && waiting[l] == f;
        assert l < k && KeysAt(q.bindings, waiting, l) == q.bindings[j].keystrokes;
      }
      assert TopPending(q, first, ix);
    }
    if AwaitsMore(q, first) {
      var ix: nat :| TopPending(q, first, ix) && !q.bindings[ix].action.NoAction?;
      var f := Found(q.Depth(ix), ix);
      assert IsFound(q, false, f) && f in waiting;
      var k :| 0 <= k < |waiting| && waiting[k] == f;
      forall l | 0 <= l < k && Counts(first, waiting[l])
        ensures KeysAt(q.bindings, waiting, l) != KeysAt(q.bindings, waiting, k)
      {
        assert waiting[l] in waiting && IsFound(q, false, waiting[l]);
      }
      assert LastOfKeys(q.bindings, waiting, first, 0, k);
    }
  }

  /** Sorting by depth and then by index, both descending. */
  method SortByRank(s: seq<Found>) returns (r: seq<Found>)
    requires Descending(s)
    ensures Ranked(r) && forall f :: f in r <==> f in s
  {
    r := [];
    for i := 0 to |s|
      invariant Ranked(r) && forall f :: f in r <==> f in s[..i]
    {
      assert forall f :: f in s[..i + 1] <==> f == s[i] || f in s[..i];
      forall f | f in r ensures f.ix != s[i].ix {
        var k :| 0 <= k < i && s[k] == f;
      }
      InsertKeepsRanked(r, s[i]);
      r := InsertRanked(r, s[i]);
    }
    assert s[..|s|] == s;
  }
}
