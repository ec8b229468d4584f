/** Key bindings and which of them answer an input: the precedence rules, stated without the loops. */
module KeyBindings {
  import opened Wrappers

  type Keystroke = nat
  type KeyContext = string
  type ContextPredicate = nat

  datatype Action = NoAction | Act(typeId: nat, argument: nat)

  datatype KeyBinding = KeyBinding(
    action: Action,
    keystrokes: seq<Keystroke>,
    contextPredicate: Option<ContextPredicate>,
    meta: Option<nat>)

  /** What is decided elsewhere: keystroke equality and the evaluation of context predicates. */
  datatype Rules = Rules(
    shouldMatch: (Keystroke, Keystroke) -> bool,
    depthOf: (ContextPredicate, seq<KeyContext>) -> Option<nat>,
    isSuperset: (ContextPredicate, ContextPredicate) -> bool)

  /** None if the typed keys do not fit, otherwise whether the binding still waits for more. */
  function MatchKeystrokes(rules: Rules, binding: KeyBinding, typed: seq<Keystroke>): Option<bool> {
    if |binding.keystrokes| < |typed| then None
    else if exists i :: 0 <= i < |typed| && !rules.shouldMatch(typed[i], binding.keystrokes[i]) then None
    else Some(|binding.keystrokes| > |typed|)
  }

  /** The deepest depth at which the binding applies; without a predicate, the full depth. */
  function BindingEnabled(rules: Rules, binding: KeyBinding, contexts: seq<KeyContext>): Option<nat> {
    if binding.contextPredicate.Some? then rules.depthOf(binding.contextPredicate.value, contexts) else Some(|contexts|)
  }

  /** One query against a list of bindings. */
  datatype Query = Query(rules: Rules, bindings: seq<KeyBinding>, input: seq<Keystroke>, contexts: seq<KeyContext>) {
    predicate Enabled(ix: nat)
      requires ix < |bindings|
    {
      BindingEnabled(rules, bindings[ix], contexts).Some?
    }

    function Depth(ix: nat): nat
      requires ix < |bindings| && Enabled(ix)
    {
      BindingEnabled(rules, bindings[ix], contexts).value
    }

    predicate Exact(ix: nat) {
      ix < |bindings| && Enabled(ix) && MatchKeystrokes(rules, bindings[ix], input) == Some(false)
    }

    predicate Pending(ix: nat) {
      ix < |bindings| && Enabled(ix) && MatchKeystrokes(rules, bindings[ix], input) == Some(true)
    }
  }

  /** A binding found for the input, with what ranks it. */
  datatype Found = Found(depth: nat, ix: nat)

  predicate Outranks(a: Found, b: Found) {
    a.depth > b.depth || (a.depth == b.depth && a.ix > b.ix)
  }

  ghost predicate Ranked(s: seq<Found>) {
    forall i, j :: 0 <= i < j < |s| ==> Outranks(s[i], s[j])
  }

  /** `found` is binding `ix` of the kind asked for (exact or pending), at its depth. */
  predicate IsFound(q: Query, exact: bool, f: Found) {
    (if exact then q.Exact(f.ix) else q.Pending(f.ix)) && f.depth == q.Depth(f.ix)
  }

  /** The bindings of one kind with index at least `from`. */
  ghost predicate Lists(q: Query, exact: bool, s: seq<Found>, from: nat) {
    forall f :: f in s <==> IsFound(q, exact, f) && f.ix >= from
  }

  function InsertRanked(s: seq<Found>, x: Found): (r: seq<Found>)
    ensures forall f :: f in r <==> f == x || f in s
  {
    if s == [] then [x]
    else if Outranks(x, s[0]) then
      assert forall f :: f in [x] + s <==> f == x || f in s;
      [x] + s
    else
      var rest := InsertRanked(s[1..], x);
      assert forall f :: f in s <==> f == s[0] || f in s[1..];
      assert forall f :: f in [s[0]] + rest <==> f == s[0] || f in rest;
      [s[0]] + rest
  }

  lemma {:induction false} InsertKeepsRanked(s: seq<Found>, x: Found)
    requires Ranked(s) && x !in s && forall f :: f in s ==> f.ix != x.ix
    ensures Ranked(InsertRanked(s, x))
  {
    if s != [] && !Outranks(x, s[0]) {
      assert forall f :: f in s[1..] ==> f in s;
      assert s[0] in s;
      InsertKeepsRanked(s[1..], x);
      var rest := InsertRanked(s[1..], x);
      forall j | 0 <= j < |rest| ensures Outranks(s[0], rest[j]) {
        assert rest[j] in rest;
      }
    }
  }

  /** A strictly ranked list is determined by what is in it. */
  lemma {:induction false} RankedUnique(s: seq<Found>, t: seq<Found>)
    requires Ranked(s) && Ranked(t) && forall f :: f in s <==> f in t
    ensures s == t
    decreases |s|
  {
    if t != [] {
      assert t[0] in t && t[0] in s;
    }
    if s != [] {
      assert s[0] in s && t != [];
      assert t[0] in t;
      assert s[0] == t[0];
      forall f ensures f in s[1..] <==> f in t[1..] {
        assert f in s[1..] ==> f in s && f != s[0];
        assert f in t[1..] ==> f in t && f != t[0];
        assert f in s <==> f == s[0] || f in s[1..];
        assert f in t <==> f == t[0] || f in t[1..];
      }
      RankedUnique(s[1..], t[1..]);
    }
  }

  /** All bindings of one kind, by rank. */
  ghost function Ranking(q: Query, exact: bool, from: nat): (s: seq<Found>)
    requires from <= |q.bindings|
    ensures Ranked(s) && Lists(q, exact, s, from)
    decreases |q.bindings| - from
  {
    if from == |q.bindings| then []
    else
      var rest := Ranking(q, exact, from + 1);
      if (if exact then q.Exact(from) else q.Pending(from)) then
        var x := Found(q.Depth(from), from);
        InsertKeepsRanked(rest, x);
        InsertRanked(rest, x)
      else rest
  }

  predicate Disables(b: KeyBinding) {
    b.action.NoAction? && (b.meta.None? || b.meta.value == 0)
  }

  /** The ranked matches up to the first user-level `NoAction`, without any other `NoAction`. */
  ghost function Cut(bindings: seq<KeyBinding>, ranked: seq<Found>): (kept: seq<Found>)
    requires forall f :: f in ranked ==> f.ix < |bindings|
    ensures forall f :: f in kept ==> f in ranked
  {
    if ranked == [] then []
    else
      assert ranked[0] in ranked && forall f :: f in ranked[1..] ==> f in ranked;
      var b := bindings[ranked[0].ix];
      if Disables(b) then []
      else if b.action.NoAction? then Cut(bindings, ranked[1..])
      else [ranked[0]] + Cut(bindings, ranked[1..])
  }

  /** Exactly the matches that do something and that no user-level `NoAction` outranks, still by rank. */
  lemma {:induction false} CutKeeps(bindings: seq<KeyBinding>, ranked: seq<Found>)
    requires Ranked(ranked) && forall f :: f in ranked ==> f.ix < |bindings|
    ensures Ranked(Cut(bindings, ranked))
    ensures forall f :: f in Cut(bindings, ranked) <==>
              f in ranked && !bindings[f.ix].action.NoAction?
              && forall g :: g in ranked && Disables(bindings[g.ix]) ==> Outranks(f, g)
    decreases |ranked|
  {
    if ranked != [] {
      var rest := ranked[1..];
      assert ranked[0] in ranked && forall f :: f in ranked <==> f == ranked[0] || f in rest;
      CutKeeps(bindings, rest);
      assert forall f :: f in rest ==> Outranks(ranked[0], f);
    }
  }

  /** No later pending binding waits for the same keystrokes as `ix`, and `ix` is not below `first`. */
  ghost predicate TopPending(q: Query, first: Option<nat>, ix: nat) {
    && q.Pending(ix) && (first.Some? ==> first.value <= ix)
    && forall j: nat :: j > ix && q.Pending(j) ==> q.bindings[j].keystrokes != q.bindings[ix].keystrokes
  }

  /** For some keystroke sequence the last pending binding does something. */
  ghost predicate AwaitsMore(q: Query, first: Option<nat>) {
    exists ix: nat :: TopPending(q, first, ix) && !q.bindings[ix].action.NoAction?
  }

  ghost function Answers(q: Query): (s: seq<Found>)
    ensures forall f :: f in s ==> f.ix < |q.bindings|
  {
    CutKeeps(q.bindings, Ranking(q, true, 0));
    Cut(q.bindings, Ranking(q, true, 0))
  }

  function Pick(bindings: seq<KeyBinding>, found: seq<Found>): (r: seq<KeyBinding>)
    requires forall f :: f in found ==> f.ix < |bindings|
    ensures |r| == |found| && forall k :: 0 <= k < |found| ==> r[k] == bindings[found[k].ix]
  {
    seq(|found|, i requires 0 <= i < |found| => assert found[i] in found; bindings[found[i].ix])
  }

  ghost function FirstIx(found: seq<Found>): Option<nat> {
    if found == [] then None else Some(found[0].ix)
  }

  /** The answer to a query: the bindings by precedence, and whether a longer input could match more. */
  ghost function Answer(q: Query): (seq<KeyBinding>, bool) {
    (Pick(q.bindings, Answers(q)), AwaitsMore(q, FirstIx(Answers(q))))
  }

  /** Which bindings answer, and in which order, without reference to how they are found. */
  lemma AnswersMean(q: Query)
    ensures Ranked(Answers(q))
    ensures forall f :: f in Answers(q) <==>
              IsFound(q, true, f) && !q.bindings[f.ix].action.NoAction?
              && forall g :: IsFound(q, true, g) && Disables(q.bindings[g.ix]) ==> Outranks(f, g)
  {
    CutKeeps(q.bindings, Ranking(q, true, 0));
  }
}
