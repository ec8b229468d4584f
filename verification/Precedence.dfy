/** Which bindings answer an input, and in which order, said of bindings, depths and indices alone. */
module Precedence {
  import opened Wrappers
  import opened KeyBindings

  /** The depth at which a binding applies: that of its predicate, or the full depth without one. */
  ghost predicate AppliesAt(rules: Rules, b: KeyBinding, contexts: seq<KeyContext>, depth: nat) {
    match b.contextPredicate
    case None => depth == |contexts|
    case Some(p) => rules.depthOf(p, contexts) == Some(depth)
  }

  /** The keys typed are the first of the binding. */
  ghost predicate Begins(rules: Rules, b: KeyBinding, input: seq<Keystroke>) {
    |input| <= |b.keystrokes| && forall i :: 0 <= i < |input| ==> rules.shouldMatch(input[i], b.keystrokes[i])
  }

  ghost predicate Matches(q: Query, ix: nat, depth: nat) {
    && ix < |q.bindings| && AppliesAt(q.rules, q.bindings[ix], q.contexts, depth)
    && Begins(q.rules, q.bindings[ix], q.input) && |q.input| == |q.bindings[ix].keystrokes|
  }

  ghost predicate Waits(q: Query, ix: nat, depth: nat) {
    && ix < |q.bindings| && AppliesAt(q.rules, q.bindings[ix], q.contexts, depth)
    && Begins(q.rules, q.bindings[ix], q.input) && |q.input| < |q.bindings[ix].keystrokes|
  }

  /** Set by the user, or of unknown origin, to disable what it outranks. */
  ghost predicate SwitchesOff(b: KeyBinding) {
    b.action == NoAction && (b.meta == None || b.meta == Some(0))
  }

  /** Being found is matching (or waiting for more) at that depth. */
  lemma FoundMeans(q: Query, f: Found)
    ensures IsFound(q, true, f) <==> Matches(q, f.ix, f.depth)
    ensures IsFound(q, false, f) <==> Waits(q, f.ix, f.depth)
  {
  }

  /** Ranking is by depth, then by index, both descending. */
  lemma RankedMeans(s: seq<Found>)
    ensures Ranked(s) <==>
              forall i, j :: 0 <= i < j < |s| ==> s[i].depth > s[j].depth || (s[i].depth == s[j].depth && s[i].ix > s[j].ix)
  {
  }

  /**
    * The answers are the matches that do something and are deeper, or as deep and later, than every match that switches
    * off; they come deepest first, and latest first within a depth; what is returned are their bindings.
    */
  lemma AnswerMeans(q: Query)
    ensures forall f :: f in Answers(q) <==>
              && Matches(q, f.ix, f.depth) && q.bindings[f.ix].action != NoAction
              && forall ix: nat, d: nat :: Matches(q, ix, d) && SwitchesOff(q.bindings[ix]) ==> f.depth > d || (f.depth == d && f.ix > ix)
    ensures var s := Answers(q);
            forall i, j :: 0 <= i < j < |s| ==> s[i].depth > s[j].depth || (s[i].depth == s[j].depth && s[i].ix > s[j].ix)
    ensures |Answer(q).0| == |Answers(q)| && forall k :: 0 <= k < |Answers(q)| ==> Answer(q).0[k] == q.bindings[Answers(q)[k].ix]
  {
    AnswersMean(q);
    RankedMeans(Answers(q));
    forall f ensures f in Answers(q) <==>
              && Matches(q, f.ix, f.depth) && q.bindings[f.ix].action != NoAction
              && forall ix: nat, d: nat :: Matches(q, ix, d) && SwitchesOff(q.bindings[ix]) ==> f.depth > d || (f.depth == d && f.ix > ix)
    {
      FoundMeans(q, f);
      forall ix: nat, d: nat ensures IsFound(q, true, Found(d, ix)) <==> Matches(q, ix, d) { FoundMeans(q, Found(d, ix)); }
      if f in Answers(q) {
        forall ix: nat, d: nat | Matches(q, ix, d) && SwitchesOff(q.bindings[ix]) ensures f.depth > d || (f.depth == d && f.ix > ix) {
          assert IsFound(q, true, Found(d, ix)) && Disables(q.bindings[ix]);
        }
      } else if Matches(q, f.ix, f.depth) && q.bindings[f.ix].action != NoAction {
        var g :| IsFound(q, true, g) && Disables(q.bindings[g.ix]) && !Outranks(f, g);
        assert Matches(q, g.ix, g.depth) && SwitchesOff(q.bindings[g.ix]);
      }
    }
  }

  /** More is awaited iff some waiting binding that does something, not before the first answer, is the last for its keystrokes. */
  lemma AwaitsMeans(q: Query)
    ensures Answer(q).1 <==>
              exists ix: nat, d: nat ::
                && Waits(q, ix, d) && q.bindings[ix].action != NoAction && (Answers(q) != [] ==> Answers(q)[0].ix <= ix)
                && forall j: nat, e: nat :: j > ix && Waits(q, j, e) ==> q.bindings[j].keystrokes != q.bindings[ix].keystrokes
  {
    forall ix: nat ensures q.Pending(ix) <==> exists d: nat :: Waits(q, ix, d) {
      if q.Pending(ix) {
        FoundMeans(q, Found(q.Depth(ix), ix));
        assert Waits(q, ix, q.Depth(ix));
      }
      if d: nat :| Waits(q, ix, d) {
        FoundMeans(q, Found(d, ix));
      }
    }
    if Answer(q).1 {
      var ix: nat :| TopPending(q, FirstIx(Answers(q)), ix) && !q.bindings[ix].action.NoAction?;
      var d: nat :| Waits(q, ix, d);
      assert forall j: nat, e: nat :: j > ix && Waits(q, j, e) ==> q.Pending(j);
    }
    if ix: nat, d: nat :|
         && Waits(q, ix, d) && q.bindings[ix].action != NoAction && (Answers(q) != [] ==> Answers(q)[0].ix <= ix)
         && forall j: nat, e: nat :: j > ix && Waits(q, j, e) ==> q.bindings[j].keystrokes != q.bindings[ix].keystrokes
    {
      forall j: nat | j > ix && q.Pending(j) ensures q.bindings[j].keystrokes != q.bindings[ix].keystrokes {
        var e: nat :| Waits(q, j, e);
      }
      assert TopPending(q, FirstIx(Answers(q)), ix);
    }
  }

  /** No predicate applies deeper than the context stack is high. */
  ghost predicate DepthsWithin(q: Query) {
    forall p :: q.rules.depthOf(p, q.contexts).Some? ==> q.rules.depthOf(p, q.contexts).value <= |q.contexts|
  }

  /** A binding without a predicate applies in every context, and its answer precedes every answer added before it. */
  lemma NoPredicateComesFirst(q: Query, ix: nat)
    requires DepthsWithin(q) && ix < |q.bindings| && q.bindings[ix].contextPredicate == None
    ensures Begins(q.rules, q.bindings[ix], q.input) && |q.input| == |q.bindings[ix].keystrokes| ==> Matches(q, ix, |q.contexts|)
    ensures var s := Answers(q); forall i, j :: 0 <= i < |s| && 0 <= j < |s| && s[i].ix == ix && s[j].ix < ix ==> i < j
  {
    AnswerMeans(q);
    var s := Answers(q);
    forall i, j | 0 <= i < |s| && 0 <= j < |s| && s[i].ix == ix && s[j].ix < ix ensures i < j {
      assert s[i] in s && s[j] in s;
      assert Matches(q, s[i].ix, s[i].depth) && Matches(q, s[j].ix, s[j].depth);
    }
  }

  /** A match without a predicate that switches off removes everything added before it. */
  lemma NoPredicateSwitchesOff(q: Query, ix: nat)
    requires DepthsWithin(q) && ix < |q.bindings| && q.bindings[ix].contextPredicate == None && SwitchesOff(q.bindings[ix])
    requires Begins(q.rules, q.bindings[ix], q.input) && |q.input| == |q.bindings[ix].keystrokes|
    ensures forall f :: f in Answers(q) ==> f.ix > ix
  {
    AnswerMeans(q);
    assert Matches(q, ix, |q.contexts|);
    forall f | f in Answers(q) ensures f.ix > ix {
      assert Matches(q, f.ix, f.depth) && (f.depth > |q.contexts| || (f.depth == |q.contexts| && f.ix > ix));
    }
  }
}
