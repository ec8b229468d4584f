/** Turning keystrokes into bindings: waiting for longer matches, and replaying what no longer can match. */
module KeyDispatch {
  import opened KeyBindings
  import opened DispatchTree
  import opened Keymap
  import P = DispatchPaths

  datatype Replay = Replay(keystroke: Keystroke, bindings: seq<KeyBinding>)

  datatype DispatchResult = DispatchResult(
    pending: seq<Keystroke>,
    pendingHasBinding: bool,
    bindings: seq<KeyBinding>,
    toReplay: seq<Replay>,
    contextStack: seq<KeyContext>)

  /** What the keymap answers to each input while a dispatch path is fixed. */
  type Lookup = seq<Keystroke> -> (seq<KeyBinding>, bool)

  /** `lookup` is what the keymap answers; there is exactly one such function. */
  ghost predicate Consults(lookup: Lookup, rules: Rules, bindings: seq<KeyBinding>, contexts: seq<KeyContext>) {
    forall input {:trigger Answer(Query(rules, bindings, input, contexts))} ::
      lookup(input) == Answer(Query(rules, bindings, input, contexts))
  }

  lemma LookupExists(rules: Rules, bindings: seq<KeyBinding>, contexts: seq<KeyContext>)
    ensures exists lookup :: Consults(lookup, rules, bindings, contexts)
  {
    var lookup: Lookup := (input: seq<Keystroke>) => Answer(Query(rules, bindings, input, contexts));
    assert Consults(lookup, rules, bindings, contexts);
  }

  /** The tree and keymap a key is dispatched with, as one lookup. */
  ghost predicate Dispatching(lookup: Lookup, tree: DispatchTree, keymap: Keymap, path: seq<nat>)
    reads tree, keymap
  {
    && (forall i :: i in path ==> i < |tree.nodes|)
    && Consults(lookup, keymap.rules, keymap.bindings, P.ContextsAlong(tree.nodes, path))
  }

  ghost predicate Bound(lookup: Lookup, input: seq<Keystroke>) {
    lookup(input).0 != []
  }

  /** The first `n` keys are the longest bound prefix, or one key if no prefix is bound. */
  ghost predicate IsSegment(lookup: Lookup, input: seq<Keystroke>, n: nat) {
    && 1 <= n <= |input|
    && (forall m :: n < m <= |input| ==> !Bound(lookup, input[..m]))
    && (Bound(lookup, input[..n]) || (n == 1 && !Bound(lookup, input[..1])))
  }

  lemma SegmentUnique(lookup: Lookup, input: seq<Keystroke>, n: nat, m: nat)
    requires IsSegment(lookup, input, n) && IsSegment(lookup, input, m)
    ensures n == m
  {
  }

  /** The keys are cut into consecutive segments, one per replay, and a remainder. */
  ghost predicate Segmented(lookup: Lookup, input: seq<Keystroke>, segments: seq<seq<Keystroke>>, replays: seq<Replay>, rest: seq<Keystroke>)
    decreases |segments|
  {
    if segments == [] then replays == [] && rest == input
    else
      && segments[0] <= input && IsSegment(lookup, input, |segments[0]|)
      && replays != [] && replays[0] == Replay(segments[0][|segments[0]| - 1], lookup(segments[0]).0)
      && Segmented(lookup, input[|segments[0]|..], segments[1..], replays[1..], rest)
  }

  ghost function Flatten(segments: seq<seq<Keystroke>>): seq<Keystroke> {
    if segments == [] then [] else segments[0] + Flatten(segments[1..])
  }

  /** No keystroke is lost, invented or moved, and there is one replay per segment. */
  lemma {:induction false} SegmentsConserve(lookup: Lookup, input: seq<Keystroke>, segments: seq<seq<Keystroke>>, replays: seq<Replay>, rest: seq<Keystroke>)
    requires Segmented(lookup, input, segments, replays, rest)
    ensures Flatten(segments) + rest == input && |replays| == |segments|
    ensures forall k :: 0 <= k < |segments| ==> segments[k] != []
    decreases |segments|
  {
    if segments != [] {
      var n := |segments[0]|;
      SegmentsConserve(lookup, input[n..], segments[1..], replays[1..], rest);
      assert input == segments[0] + input[n..];
      assert Flatten(segments) + rest == segments[0] + (Flatten(segments[1..]) + rest);
    }
  }

  /** A new key settles on `keys` when they may go on, are bound, or are the new key alone. */
  ghost predicate Settles(lookup: Lookup, keys: seq<Keystroke>) {
    lookup(keys).1 || Bound(lookup, keys) || |keys| == 1
  }

  /** Segments are given up only as long as what remains, with the new key, does not settle. */
  ghost predicate GivenUpOnlyIfStuck(lookup: Lookup, input: seq<Keystroke>, segments: seq<seq<Keystroke>>, key: Keystroke)
    decreases |segments|
  {
    segments != [] ==>
      && !Settles(lookup, input + [key])
      && segments[0] <= input
      && GivenUpOnlyIfStuck(lookup, input[|segments[0]|..], segments[1..], key)
  }

  ghost predicate IsOutcome(lookup: Lookup, keys: seq<Keystroke>, result: DispatchResult) {
    if lookup(keys).1 then
      result.pending == keys && result.bindings == [] && result.pendingHasBinding == Bound(lookup, keys)
    else
      result.pending == [] && result.bindings == lookup(keys).0 && !result.pendingHasBinding
  }

  lemma SegmentedConcat(lookup: Lookup, input: seq<Keystroke>, n: nat, segments: seq<seq<Keystroke>>, replays: seq<Replay>, rest: seq<Keystroke>)
    requires IsSegment(lookup, input, n) && Segmented(lookup, input[n..], segments, replays, rest)
    ensures Segmented(lookup, input, [input[..n]] + segments, [Replay(input[n - 1], lookup(input[..n]).0)] + replays, rest)
  {
    assert ([input[..n]] + segments)[1..] == segments;
    var r := Replay(input[n - 1], lookup(input[..n]).0);
    assert ([r] + replays)[1..] == replays;
  }

  /** These conditions leave no choice: the segments, the replays and the remainder are determined. */
  lemma {:induction false} OutcomeUnique(lookup: Lookup, input: seq<Keystroke>, key: Keystroke,
                                         s: seq<seq<Keystroke>>, t: seq<seq<Keystroke>>, p: seq<Replay>, q: seq<Replay>,
                                         u: seq<Keystroke>, v: seq<Keystroke>)
    requires Segmented(lookup, input, s, p, u) && GivenUpOnlyIfStuck(lookup, input, s, key) && Settles(lookup, u + [key])
    requires Segmented(lookup, input, t, q, v) && GivenUpOnlyIfStuck(lookup, input, t, key) && Settles(lookup, v + [key])
    ensures s == t && p == q && u == v
    decreases |s|
  {
    assert s == [] ==> u == input && p == [];
    assert t == [] ==> v == input && q == [];
    assert s != [] ==> !Settles(lookup, input + [key]);
    assert t != [] ==> !Settles(lookup, input + [key]);
    if s != [] {
      SegmentUnique(lookup, input, |s[0]|, |t[0]|);
      assert s[0] == input[..|s[0]|] == t[0];
      OutcomeUnique(lookup, input[|s[0]|..], key, s[1..], t[1..], p[1..], q[1..], u, v);
      assert s == [s[0]] + s[1..] && t == [t[0]] + t[1..] && p == [p[0]] + p[1..] && q == [q[0]] + q[1..];
    }
  }

  method BindingsForInput(tree: DispatchTree, keymap: Keymap, input: seq<Keystroke>, path: seq<nat>, ghost lookup: Lookup)
    returns (found: seq<KeyBinding>, pending: bool, contextStack: seq<KeyContext>)
    requires Dispatching(lookup, tree, keymap, path)
    ensures contextStack == P.ContextsAlong(tree.nodes, path)
    ensures found == lookup(input).0 && pending == lookup(input).1
  {
    contextStack := [];
    assert path[..0] == [];
    for k := 0 to |path|
      invariant forall i :: i in path[..k] ==> i in path
      invariant contextStack == P.ContextsAlong(tree.nodes, path[..k])
    {
      assert path[k] in path && path[..k + 1] == path[..k] + [path[k]];
      P.AlongLast(tree.nodes, path[..k], path[k]);
      if tree.nodes[path[k]].context.Some? {
        contextStack := contextStack + [tree.nodes[path[k]].context.value];
      }
    }
    assert path[..|path|] == path;
    found, pending := keymap.BindingsForInput(input, contextStack);
  }

  /** Processes a key after the pending ones; the segments witness what becomes of every key. */
  method DispatchKey(tree: DispatchTree, keymap: Keymap, input: seq<Keystroke>, key: Keystroke, path: seq<nat>, ghost lookup: Lookup)
    returns (result: DispatchResult, ghost segments: seq<seq<Keystroke>>, ghost rest: seq<Keystroke>)
    requires Dispatching(lookup, tree, keymap, path)
    ensures result.contextStack == P.ContextsAlong(tree.nodes, path)
    ensures Segmented(lookup, input, segments, result.toReplay, rest)
    ensures GivenUpOnlyIfStuck(lookup, input, segments, key)
    ensures Settles(lookup, rest + [key]) && IsOutcome(lookup, rest + [key], result)
    decreases |input|
  {
    var all := input + [key];
    var found, pending, contextStack := BindingsForInput(tree, keymap, all, path, lookup);
    segments, rest := [], input;
    if pending {
      return DispatchResult(all, found != [], [], [], contextStack), segments, rest;
    } else if found != [] {
      return DispatchResult([], false, found, [], contextStack), segments, rest;
    } else if |all| == 1 {
      return DispatchResult([], false, [], [], contextStack), segments, rest;
    }
    var suffix, replay := ReplayPrefix(tree, keymap, input, path, lookup);
    ghost var n := |input| - |suffix|;
    result, segments, rest := DispatchKey(tree, keymap, suffix, key, path, lookup);
    SegmentedConcat(lookup, input, n, segments, result.toReplay, rest);
    ghost var later := segments;
    segments := [input[..n]] + segments;
    assert segments[1..] == later;
    result := result.(toReplay := [replay] + result.toReplay);
  }

  /** After a timeout everything pending is replayed. */
  method FlushDispatch(tree: DispatchTree, keymap: Keymap, input: seq<Keystroke>, path: seq<nat>, ghost lookup: Lookup)
    returns (toReplay: seq<Replay>, ghost segments: seq<seq<Keystroke>>)
    requires input != [] && Dispatching(lookup, tree, keymap, path)
    ensures Segmented(lookup, input, segments, toReplay, [])
    decreases |input|
  {
    var suffix, replay := ReplayPrefix(tree, keymap, input, path, lookup);
    ghost var n := |input| - |suffix|;
    toReplay, segments := [], [];
    if suffix != [] {
      toReplay, segments := FlushDispatch(tree, keymap, suffix, path, lookup);
    }
    SegmentedConcat(lookup, input, n, segments, toReplay, []);
    toReplay, segments := [replay] + toReplay, [input[..n]] + segments;
  }

  lemma LongestIsSegment(lookup: Lookup, input: seq<Keystroke>, n: nat)
    requires 1 <= n <= |input| && Bound(lookup, input[..n])
    requires forall m :: n < m <= |input| ==> !Bound(lookup, input[..m])
    ensures IsSegment(lookup, input, n) && n == |input| - |input[n..]|
  {
  }

  lemma NoneIsSegment(lookup: Lookup, input: seq<Keystroke>)
    requires input != [] && forall m :: 0 < m <= |input| ==> !Bound(lookup, input[..m])
    ensures IsSegment(lookup, input, 1) && 1 == |input| - |input[1..]| && lookup(input[..1]).0 == []
  {
    assert !Bound(lookup, input[..1]);
  }

  /** Splits off the longest bound prefix, or one key, as a replay. */
  method ReplayPrefix(tree: DispatchTree, keymap: Keymap, input: seq<Keystroke>, path: seq<nat>, ghost lookup: Lookup)
    returns (suffix: seq<Keystroke>, replay: Replay)
    requires input != [] && Dispatching(lookup, tree, keymap, path)
    ensures |suffix| < |input| && suffix == input[|input| - |suffix|..]
    ensures var n := |input| - |suffix|;
            IsSegment(lookup, input, n) && replay == Replay(input[n - 1], lookup(input[..n]).0)
  {
    var last := |input|;
    while last > 0
      invariant 0 <= last <= |input|
      invariant forall m :: last < m <= |input| ==> !Bound(lookup, input[..m])
    {
      last := last - 1;
      var found, _, _ := BindingsForInput(tree, keymap, input[..last + 1], path, lookup);
      if found != [] {
        LongestIsSegment(lookup, input, last + 1);
        return input[last + 1..], Replay(input[last], found);
      }
    }
    NoneIsSegment(lookup, input);
    return input[1..], Replay(input[0], []);
  }
}
