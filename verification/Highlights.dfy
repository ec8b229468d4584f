/** Combining highlighted ranges: a lazy sweep over range endpoints against pointwise overlay. */
module Highlights {
  import opened Wrappers

  /** A half-open range of text positions. */
  datatype Range = Range(start: nat, end: nat) {
    predicate IsEmpty() { !(start < end) }
    predicate Contains(p: nat) { start <= p < end }
  }

  datatype Highlight<S> = Highlight(range: Range, style: S)

  /** A boundary of the range of highlight `id`. */
  datatype Endpoint = Endpoint(position: nat, id: nat, isStart: bool)

  /** The style algebra: nothing about it is assumed. */
  datatype Overlay<!S> = Overlay(base: S, apply: (S, S) -> S)

  /** The highlights with something to cover, in input order. */
  function NonEmpty<S(!new)>(hs: seq<Highlight<S>>): (r: seq<Highlight<S>>)
    ensures forall h :: h in r <==> h in hs && !h.range.IsEmpty()
  {
    if hs == [] then []
    else
      var n := |hs| - 1;
      var rest := NonEmpty(hs[..n]);
      assert forall h :: h in hs <==> h in hs[..n] || h == hs[n];
      if hs[n].range.IsEmpty() then rest else rest + [hs[n]]
  }

  /** Left fold, in input order, of the styles of the highlights that `active` selects among the first `n`. */
  function FoldActive<S(!new)>(o: Overlay<S>, hs: seq<Highlight<S>>, active: seq<bool>, n: nat): S
    requires n <= |hs| && n <= |active|
  {
    if n == 0 then o.base
    else
      var acc := FoldActive(o, hs, active, n - 1);
      if active[n - 1] then o.apply(acc, hs[n - 1].style) else acc
  }

  function Covering<S(!new)>(hs: seq<Highlight<S>>, p: nat): (r: seq<bool>)
    ensures |r| == |hs|
  {
    seq(|hs|, i requires 0 <= i < |hs| => hs[i].range.Contains(p))
  }

  /** Pointwise overlay: no style outside all ranges, otherwise the fold of exactly the covering highlights. */
  function StyleAt<S(!new)>(o: Overlay<S>, hs: seq<Highlight<S>>, p: nat): Option<S> {
    if forall i :: 0 <= i < |hs| ==> !hs[i].range.Contains(p) then None
    else Some(FoldActive(o, hs, Covering(hs, p), |hs|))
  }

  /** Without highlights there is no style; one more highlight is put on top of what was there, where it reaches. */
  lemma StyleAtMeans<S(!new)>(o: Overlay<S>, hs: seq<Highlight<S>>, h: Highlight<S>, p: nat)
    ensures StyleAt(o, [], p) == None
    ensures StyleAt(o, hs + [h], p) ==
              if h.range.start <= p < h.range.end
              then Some(o.apply(if StyleAt(o, hs, p).Some? then StyleAt(o, hs, p).value else o.base, h.style))
              else StyleAt(o, hs, p)
  {
    var more, n := hs + [h], |hs|;
    assert more[n] == h && forall i :: 0 <= i < n ==> more[i] == hs[i];
    FoldPrefix(o, more, Covering(more, p), hs, Covering(hs, p), n);
    if StyleAt(o, hs, p).None? {
      FoldNothing(o, hs, Covering(hs, p), n);
    }
    if exists i :: 0 <= i < n && hs[i].range.Contains(p) {
      var i :| 0 <= i < n && hs[i].range.Contains(p);
      assert more[i].range.Contains(p);
    }
  }

  lemma {:induction false} FoldNothing<S(!new)>(o: Overlay<S>, hs: seq<Highlight<S>>, active: seq<bool>, n: nat)
    requires n <= |hs| && n <= |active| && forall i :: 0 <= i < n ==> !active[i]
    ensures FoldActive(o, hs, active, n) == o.base
  {
    if n > 0 {
      FoldNothing(o, hs, active, n - 1);
    }
  }

  /** A style algebra that forgets nothing: putting a style on records it after what was there. */
  function Recording<S>(): Overlay<seq<S>> {
    Overlay([], (x: seq<S>, y: seq<S>) => x + y)
  }

  /** What is recorded at a position: the styles of the highlights over it, in input order. */
  function Stacked<S>(hs: seq<Highlight<seq<S>>>, p: nat): seq<S> {
    if hs == [] then []
    else
      var n := |hs| - 1;
      if hs[n].range.start <= p < hs[n].range.end then Stacked(hs[..n], p) + hs[n].style else Stacked(hs[..n], p)
  }

  ghost predicate Reached<S>(hs: seq<Highlight<S>>, p: nat) {
    exists i :: 0 <= i < |hs| && hs[i].range.start <= p < hs[i].range.end
  }

  /** The overlay of that algebra is exactly the covering styles in input order. */
  lemma {:induction false} OverlayIsInInputOrder<S(!new)>(hs: seq<Highlight<seq<S>>>, p: nat)
    ensures StyleAt(Recording(), hs, p) == if Reached(hs, p) then Some(Stacked(hs, p)) else None
  {
    if hs == [] {
      StyleAtMeans(Recording(), hs, Highlight(Range(0, 0), []), p);
    } else {
      var n := |hs| - 1;
      OverlayIsInInputOrder(hs[..n], p);
      assert hs == hs[..n] + [hs[n]];
      StyleAtMeans(Recording(), hs[..n], hs[n], p);
      NothingStacked(hs[..n], p);
      ReachedStep(hs, p);
    }
  }

  lemma ReachedStep<S>(hs: seq<Highlight<S>>, p: nat)
    requires hs != []
    ensures var n := |hs| - 1; Reached(hs, p) <==> Reached(hs[..n], p) || hs[n].range.start <= p < hs[n].range.end
  {
    assert forall i :: 0 <= i < |hs| - 1 ==> hs[..|hs| - 1][i] == hs[i];
  }

  lemma {:induction false} NothingStacked<S(!new)>(hs: seq<Highlight<seq<S>>>, p: nat)
    ensures !Reached(hs, p) ==> Stacked(hs, p) == []
  {
    if hs != [] {
      ReachedStep(hs, p);
      NothingStacked(hs[..|hs| - 1], p);
    }
  }

  lemma {:induction false} DroppingEmptyIsHarmless<S(!new)>(o: Overlay<S>, hs: seq<Highlight<S>>, p: nat)
    ensures StyleAt(o, NonEmpty(hs), p) == StyleAt(o, hs, p)
  {
    FoldsAgree(o, hs, p);
    var ne := NonEmpty(hs);
    forall i | 0 <= i < |ne| && ne[i].range.Contains(p) ensures exists k :: 0 <= k < |hs| && hs[k].range.Contains(p) {
      assert ne[i] in hs;
    }
    forall i | 0 <= i < |hs| && hs[i].range.Contains(p) ensures exists k :: 0 <= k < |ne| && ne[k].range.Contains(p) {
      assert hs[i] in ne;
    }
  }

  lemma {:induction false} FoldsAgree<S(!new)>(o: Overlay<S>, hs: seq<Highlight<S>>, p: nat)
    ensures FoldActive(o, NonEmpty(hs), Covering(NonEmpty(hs), p), |NonEmpty(hs)|) == FoldActive(o, hs, Covering(hs, p), |hs|)
  {
    if hs != [] {
      var n := |hs| - 1;
      FoldsAgree(o, hs[..n], p);
      FoldPrefix(o, hs, Covering(hs, p), hs[..n], Covering(hs[..n], p), n);
      if !hs[n].range.IsEmpty() {
        var ne, rest := NonEmpty(hs), NonEmpty(hs[..n]);
        FoldPrefix(o, ne, Covering(ne, p), rest, Covering(rest, p), |rest|);
      }
    }
  }

  lemma {:induction false} FoldPrefix<S(!new)>(o: Overlay<S>, hs: seq<Highlight<S>>, active: seq<bool>, hs': seq<Highlight<S>>, active': seq<bool>, n: nat)
    requires n <= |hs| && n <= |active| && n <= |hs'| && n <= |active'|
    requires forall i :: 0 <= i < n ==> hs[i] == hs'[i] && active[i] == active'[i]
    ensures FoldActive(o, hs, active, n) == FoldActive(o, hs', active', n)
  {
    if n > 0 {
      FoldPrefix(o, hs, active, hs', active', n - 1);
    }
  }

  /** The endpoints of all highlights: a start and an end each. */
  function Endpoints<S(!new)>(hs: seq<Highlight<S>>): (es: seq<Endpoint>)
    ensures |es| == 2 * |hs|
  {
    if hs == [] then []
    else
      var n := |hs| - 1;
      Endpoints(hs[..n]) + [Endpoint(hs[n].range.start, n, true), Endpoint(hs[n].range.end, n, false)]
  }

  ghost predicate SortedByPosition(es: seq<Endpoint>) {
    forall i, j :: 0 <= i < j < |es| ==> es[i].position <= es[j].position
  }

  function StartOf<S>(hs: seq<Highlight<S>>, id: nat): Endpoint
    requires id < |hs|
  {
    Endpoint(hs[id].range.start, id, true)
  }

  function EndOf<S>(hs: seq<Highlight<S>>, id: nat): Endpoint
    requires id < |hs|
  {
    Endpoint(hs[id].range.end, id, false)
  }

  ghost predicate Genuine<S>(hs: seq<Highlight<S>>, e: Endpoint) {
    e.id < |hs| && e == if e.isStart then StartOf(hs, e.id) else EndOf(hs, e.id)
  }

  lemma {:induction false} EndpointsMembers<S(!new)>(hs: seq<Highlight<S>>)
    ensures forall e :: e in Endpoints(hs) <==> Genuine(hs, e)
  {
    if hs != [] {
      var n := |hs| - 1;
      EndpointsMembers(hs[..n]);
      var es, rest := Endpoints(hs), Endpoints(hs[..n]);
      assert es == rest + [StartOf(hs, n), EndOf(hs, n)];
      forall e ensures e in es <==> Genuine(hs, e) {
        assert e in es <==> e in rest || e == StartOf(hs, n) || e == EndOf(hs, n);
        assert Genuine(hs[..n], e) <==> Genuine(hs, e) && e.id != n;
      }
    }
  }

  /** Endpoints of highlight `i` are where they should be and its style is active between them. */
  ghost predicate Tracked<S>(hs: seq<Highlight<S>>, behind: seq<Endpoint>, ahead: seq<Endpoint>, active: seq<bool>, i: nat)
    requires i < |hs| && i < |active|
  {
    && !hs[i].range.IsEmpty()
    && (StartOf(hs, i) in behind || StartOf(hs, i) in ahead)
    && (EndOf(hs, i) in behind || EndOf(hs, i) in ahead)
    && (active[i] <==> StartOf(hs, i) in behind && EndOf(hs, i) !in behind)
  }

  /** Behind the sweep line are the endpoints consumed, ahead those to come. */
  ghost predicate Swept<S>(hs: seq<Highlight<S>>, behind: seq<Endpoint>, ahead: seq<Endpoint>, active: seq<bool>, ix: nat) {
    && |active| == |hs|
    && (forall e :: e in behind ==> Genuine(hs, e) && e.position <= ix)
    && (forall e :: e in ahead ==> Genuine(hs, e) && ix <= e.position)
    && SortedByPosition(ahead)
    && (forall i :: 0 <= i < |hs| ==> Tracked(hs, behind, ahead, active, i))
  }

  predicate AnyActive(active: seq<bool>) {
    exists i :: 0 <= i < |active| && active[i]
  }

  /** Up to the next endpoint the active styles are exactly the covering ones. */
  lemma ActiveIsCovering<S(!new)>(o: Overlay<S>, hs: seq<Highlight<S>>, behind: seq<Endpoint>, ahead: seq<Endpoint>, active: seq<bool>, ix: nat, p: nat)
    requires Swept(hs, behind, ahead, active, ix) && ix <= p && (ahead != [] ==> p < ahead[0].position)
    ensures StyleAt(o, hs, p) == if AnyActive(active) then Some(FoldActive(o, hs, active, |hs|)) else None
  {
    assert forall e :: e in ahead ==> p < e.position;
    forall i | 0 <= i < |hs| ensures active[i] == hs[i].range.Contains(p) {
      assert Tracked(hs, behind, ahead, active, i);
    }
    assert active == Covering(hs, p);
  }

  ghost predicate Blank<S(!new)>(o: Overlay<S>, hs: seq<Highlight<S>>, from: nat, to: nat) {
    forall p :: from <= p < to ==> StyleAt(o, hs, p) == None
  }

  ghost predicate Uniform<S(!new)>(o: Overlay<S>, hs: seq<Highlight<S>>, from: nat, to: nat, style: S) {
    forall p :: from <= p < to ==> StyleAt(o, hs, p) == Some(style)
  }

  lemma StretchStyle<S(!new)>(o: Overlay<S>, hs: seq<Highlight<S>>, behind: seq<Endpoint>, ahead: seq<Endpoint>, active: seq<bool>, ix: nat)
    requires Swept(hs, behind, ahead, active, ix) && ahead != []
    ensures ix <= ahead[0].position && Swept(hs, behind, ahead, active, ahead[0].position)
    ensures if AnyActive(active) then Uniform(o, hs, ix, ahead[0].position, FoldActive(o, hs, active, |hs|))
            else Blank(o, hs, ix, ahead[0].position)
  {
    assert ahead[0] in ahead;
    forall p | ix <= p < ahead[0].position
      ensures StyleAt(o, hs, p) == if AnyActive(active) then Some(FoldActive(o, hs, active, |hs|)) else None
    {
      ActiveIsCovering(o, hs, behind, ahead, active, ix, p);
    }
  }

  lemma ConsumeOne<S(!new)>(hs: seq<Highlight<S>>, behind: seq<Endpoint>, ahead: seq<Endpoint>, active: seq<bool>, ix: nat)
    requires Swept(hs, behind, ahead, active, ix) && ahead != [] && ix == ahead[0].position
    ensures ahead[0].id < |active|
    ensures Swept(hs, behind + [ahead[0]], ahead[1..], active[ahead[0].id := ahead[0].isStart], ix)
  {
    var e := ahead[0];
    assert e in ahead;
    var behind', ahead', active' := behind + [e], ahead[1..], active[e.id := e.isStart];
    assert forall f :: f in ahead <==> f == e || f in ahead';
    assert forall f :: f in behind' <==> f == e || f in behind;
    assert Tracked(hs, behind, ahead, active, e.id);
    forall i | 0 <= i < |hs| ensures Tracked(hs, behind', ahead', active', i) {
      assert Tracked(hs, behind, ahead, active, i);
    }
  }

  lemma NothingAfterEnd<S(!new)>(o: Overlay<S>, hs: seq<Highlight<S>>, behind: seq<Endpoint>, active: seq<bool>, ix: nat)
    requires Swept(hs, behind, [], active, ix)
    ensures forall p: nat :: ix <= p ==> StyleAt(o, hs, p) == None
  {
    forall i | 0 <= i < |active| ensures !active[i] {
      assert Tracked(hs, behind, [], active, i);
    }
    forall p: nat | ix <= p ensures StyleAt(o, hs, p) == None {
      ActiveIsCovering(o, hs, behind, [], active, ix, p);
    }
  }

  lemma SameMembers<T>(s: seq<T>, t: seq<T>)
    requires multiset(s) == multiset(t)
    ensures forall e :: e in s <==> e in t
  {
    assert forall e :: e in s <==> e in multiset(s);
    assert forall e :: e in t <==> e in multiset(t);
  }

  lemma SweptInitially<S(!new)>(hs: seq<Highlight<S>>, sorted: seq<Endpoint>, active: seq<bool>)
    requires forall h :: h in hs ==> !h.range.IsEmpty()
    requires SortedByPosition(sorted) && multiset(sorted) == multiset(Endpoints(hs))
    requires |active| == |hs| && forall i :: 0 <= i < |active| ==> !active[i]
    ensures Swept(hs, [], sorted, active, 0)
  {
    EndpointsMembers(hs);
    SameMembers(sorted, Endpoints(hs));
    forall i | 0 <= i < |hs| ensures Tracked(hs, [], sorted, active, i) {
      assert hs[i] in hs;
      assert Genuine(hs, StartOf(hs, i)) && Genuine(hs, EndOf(hs, i));
    }
  }

  class Sweep<S(!new)> {
    const overlay: Overlay<S>
    const highlights: seq<Highlight<S>>
    var endpoints: seq<Endpoint>
    var stylesActive: seq<bool>
    var ix: nat
    ghost var consumed: seq<Endpoint>

    ghost predicate Valid()
      reads this
    {
      Swept(highlights, consumed, endpoints, stylesActive, ix)
    }

    /** `sorted` is any arrangement of the endpoints that an unstable sort by position may return. */
    constructor (overlay: Overlay<S>, highlights: seq<Highlight<S>>, sorted: seq<Endpoint>)
      requires forall h :: h in highlights ==> !h.range.IsEmpty()
      requires SortedByPosition(sorted) && multiset(sorted) == multiset(Endpoints(highlights))
      ensures Valid() && ix == 0 && this.highlights == highlights && this.overlay == overlay
    {
      this.overlay, this.highlights := overlay, highlights;
      endpoints, stylesActive, ix := sorted, seq(|highlights|, _ => false), 0;
      consumed := [];
      new;
      SweptInitially(highlights, sorted, stylesActive);
    }

    /** The next combined range, or none; everything the sweep line passes is accounted for. */
    method Next() returns (r: Option<(Range, S)>)
      requires Valid()
      modifies this`endpoints, this`stylesActive, this`ix, this`consumed
      ensures Valid() && old(ix) <= ix
      ensures match r
              case Some((range, style)) =>
                && old(ix) <= range.start < range.end == ix
                && Blank(overlay, highlights, old(ix), range.start)
                && Uniform(overlay, highlights, range.start, range.end, style)
                && endpoints != [] && endpoints[0].position == ix && |endpoints| <= |old(endpoints)|
                && (|endpoints| == |old(endpoints)| ==> endpoints == old(endpoints))
              case None => forall p: nat :: old(ix) <= p ==> StyleAt(overlay, highlights, p) == None
    {
      while endpoints != []
        invariant Valid() && old(ix) <= ix && |endpoints| <= |old(endpoints)|
        invariant |endpoints| == |old(endpoints)| ==> endpoints == old(endpoints)
        invariant Blank(overlay, highlights, old(ix), ix)
        decreases |endpoints|
      {
        var e := endpoints[0];
        var prev := ix;
        StretchStyle(overlay, highlights, consumed, endpoints, stylesActive, prev);
        ix := e.position;
        if ix > prev && AnyActive(stylesActive) {
          return Some((Range(prev, ix), FoldActive(overlay, highlights, stylesActive, |highlights|)));
        }
        ConsumeOne(highlights, consumed, endpoints, stylesActive, ix);
        stylesActive := stylesActive[e.id := e.isStart];
        endpoints, consumed := endpoints[1..], consumed + [e];
      }
      NothingAfterEnd(overlay, highlights, consumed, stylesActive, ix);
      r := None;
    }
  }

  /** Below `to`, the output is the overlay: sorted, disjoint, non-empty, covering what is covered, styled pointwise. */
  ghost predicate OverlayUpTo<S(!new)>(o: Overlay<S>, hs: seq<Highlight<S>>, out: seq<(Range, S)>, to: nat) {
    && (forall i :: 0 <= i < |out| ==> !out[i].0.IsEmpty() && out[i].0.end <= to)
    && (forall i, j :: 0 <= i < j < |out| ==> out[i].0.end <= out[j].0.start)
    && (forall i :: 0 <= i < |out| ==> Uniform(o, hs, out[i].0.start, out[i].0.end, out[i].1))
    && (forall p: nat :: p < to && !InSome(out, p) ==> StyleAt(o, hs, p) == None)
  }

  ghost predicate InSome<S>(out: seq<(Range, S)>, p: nat) {
    exists i :: 0 <= i < |out| && out[i].0.Contains(p)
  }

  /** The output is the overlay everywhere: a position is in a range iff it is covered, with the folded style. */
  ghost predicate IsOverlay<S(!new)>(o: Overlay<S>, hs: seq<Highlight<S>>, out: seq<(Range, S)>) {
    && (forall i :: 0 <= i < |out| ==> !out[i].0.IsEmpty())
    && (forall i, j :: 0 <= i < j < |out| ==> out[i].0.end <= out[j].0.start)
    && (forall i :: 0 <= i < |out| ==> Uniform(o, hs, out[i].0.start, out[i].0.end, out[i].1))
    && (forall p: nat :: !InSome(out, p) ==> StyleAt(o, hs, p) == None)
  }

  lemma OverlayGrows<S(!new)>(o: Overlay<S>, hs: seq<Highlight<S>>, out: seq<(Range, S)>, to: nat, r: (Range, S))
    requires OverlayUpTo(o, hs, out, to) && to <= r.0.start < r.0.end
    requires Blank(o, hs, to, r.0.start) && Uniform(o, hs, r.0.start, r.0.end, r.1)
    ensures OverlayUpTo(o, hs, out + [r], r.0.end)
  {
    var out' := out + [r];
    forall p: nat | p < r.0.end && !InSome(out', p) ensures StyleAt(o, hs, p) == None {
      assert out'[|out|] == r;
      assert forall i :: 0 <= i < |out| ==> out'[i] == out[i];
    }
  }

  /** The combined highlights of two lists, for every way an unstable sort may order equal positions. */
  method CombineHighlights<S(!new)>(o: Overlay<S>, a: seq<Highlight<S>>, b: seq<Highlight<S>>, sortByPosition: seq<Endpoint> -> seq<Endpoint>)
    returns (out: seq<(Range, S)>)
    requires forall es :: SortedByPosition(sortByPosition(es)) && multiset(sortByPosition(es)) == multiset(es)
    ensures IsOverlay(o, a + b, out)
  {
    var endpoints, highlights := Gather(a + b);
    var sweep := new Sweep(o, highlights, sortByPosition(endpoints));
    out := Collect(sweep);
    forall p ensures StyleAt(o, highlights, p) == StyleAt(o, a + b, p) {
      DroppingEmptyIsHarmless(o, a + b, p);
    }
  }

  method Gather<S(!new)>(all: seq<Highlight<S>>) returns (endpoints: seq<Endpoint>, highlights: seq<Highlight<S>>)
    ensures highlights == NonEmpty(all) && endpoints == Endpoints(highlights)
  {
    endpoints, highlights := [], [];
    for i := 0 to |all|
      invariant highlights == NonEmpty(all[..i]) && endpoints == Endpoints(highlights)
    {
      assert all[..i + 1][..i] == all[..i];
      if !all[i].range.IsEmpty() {
        var id := |highlights|;
        endpoints := endpoints + [Endpoint(all[i].range.start, id, true), Endpoint(all[i].range.end, id, false)];
        ghost var before := highlights;
        highlights := highlights + [all[i]];
        assert highlights[..id] == before;
      }
    }
    assert all[..|all|] == all;
  }

  /** What a consumer of the iterator gets. */
  method Collect<S(!new)>(sweep: Sweep<S>) returns (out: seq<(Range, S)>)
    requires sweep.Valid() && sweep.ix == 0
    modifies sweep
    ensures IsOverlay(sweep.overlay, sweep.highlights, out)
  {
    out := [];
    while true
      invariant sweep.Valid() && OverlayUpTo(sweep.overlay, sweep.highlights, out, sweep.ix)
      decreases |sweep.endpoints|, if sweep.endpoints == [] then 0 else sweep.endpoints[0].position - sweep.ix
    {
      ghost var ix := sweep.ix;
      var r := sweep.Next();
      if r.None? {
        return;
      }
      OverlayGrows(sweep.overlay, sweep.highlights, out, ix, r.value);
      out := out + [r.value];
    }
  }
}
