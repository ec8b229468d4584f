/** Ellipsis truncation of a line given as a list of item widths, what is then painted, and finding the line at an offset. */
module Truncation {
  import opened Wrappers

  datatype TruncateFrom = Start | End

  /** The advance of the first `n` items. */
  ghost function Advance(widths: seq<real>, n: nat): real
    requires n <= |widths|
  {
    if n == 0 then 0.0 else Advance(widths, n - 1) + widths[n - 1]
  }

  ghost predicate NonNegative(widths: seq<real>) {
    forall i :: 0 <= i < |widths| ==> widths[i] >= 0.0
  }

  lemma {:induction false} AdvanceGrows(widths: seq<real>, i: nat, j: nat)
    requires NonNegative(widths) && i <= j <= |widths|
    ensures Advance(widths, i) <= Advance(widths, j)
    decreases j
  {
    if i < j {
      AdvanceGrows(widths, i, j - 1);
    }
  }

  ghost predicate TooLong(widths: seq<real>, limit: real, n: nat)
    requires n <= |widths|
  {
    (Advance(widths, n).Floor as real) > limit
  }

  /** The first `n` items are the shortest prefix that, rounded down, exceeds the limit. */
  ghost predicate OverflowsAt(widths: seq<real>, limit: real, n: nat) {
    0 < n <= |widths| && TooLong(widths, limit, n) && forall m :: 0 < m < n ==> !TooLong(widths, limit, m)
  }

  ghost predicate Overflows(widths: seq<real>, limit: real) {
    exists n :: OverflowsAt(widths, limit, n)
  }

  /** `item` is the last of the first `n` items that still leaves room for the affix before it. */
  ghost predicate IsLastRoom(widths: seq<real>, affix: real, limit: real, n: nat, item: Option<nat>)
    requires n <= |widths|
  {
    match item
    case Some(i) => i < n && Advance(widths, i) + affix < limit && forall k :: i < k < n ==> Advance(widths, k) + affix >= limit
    case None => forall k :: 0 <= k < n ==> Advance(widths, k) + affix >= limit
  }

  /** `item` is the first item from which the rest of the line fits beside the affix. */
  ghost predicate IsFirstFit(widths: seq<real>, affix: real, limit: real, item: Option<nat>) {
    match item
    case Some(i) => i < |widths| && Rest(widths, i) + affix <= limit && forall k :: 0 <= k < i ==> Rest(widths, k) + affix > limit
    case None => forall k :: 0 <= k < |widths| ==> Rest(widths, k) + affix > limit
  }

  /** Cut at the last item with room up to where the line overflows; no cut if it does not. */
  ghost predicate IsEndCut(widths: seq<real>, affix: real, limit: real, item: Option<nat>) {
    && (forall n :: OverflowsAt(widths, limit, n) ==> IsLastRoom(widths, affix, limit, n, item))
    && (!Overflows(widths, limit) ==> item == None)
  }

  /** With widths that are not negative no later item has room either. */
  lemma NoRoomBeyond(widths: seq<real>, affix: real, limit: real, item: Option<nat>)
    requires NonNegative(widths) && affix >= 0.0 && Overflows(widths, limit) && IsEndCut(widths, affix, limit, item)
    ensures IsLastRoom(widths, affix, limit, |widths|, item)
  {
    var n: nat :| OverflowsAt(widths, limit, n);
    forall k | n <= k < |widths| ensures Advance(widths, k) + affix >= limit {
      AdvanceGrows(widths, n, k);
    }
  }

  ghost function Rest(widths: seq<real>, n: nat): real
    requires n <= |widths|
  {
    Advance(widths, |widths|) - Advance(widths, n)
  }

  /** What truncation decided for a line. */
  class Truncation {
    var from: TruncateFrom
    var item: Option<nat>
    var line: nat
    var startAdvance: real

    constructor ()
      ensures from == End && item == None && line == 0 && startAdvance == 0.0
    {
      from, item, line, startAdvance := End, None, 0, 0.0;
    }

    /** Decides where to cut line `lineClamp - 1` (the first if there is no clamp) of a layout. */
    method Update(lineClamp: Option<nat>, limit: real, affix: real, from: TruncateFrom, lines: seq<seq<real>>)
      requires lineClamp.Some? ==> lineClamp.value > 0
      modifies this
      ensures line == (if lineClamp.Some? then lineClamp.value else 1) - 1 && this.from == from
      ensures line >= |lines| ==> item == None && startAdvance == 0.0
      ensures line < |lines| && from.End? ==>
                && startAdvance == 0.0
                && IsEndCut(lines[line], affix, limit, item)
      ensures line < |lines| && from.Start? ==>
                && IsFirstFit(lines[line], affix, limit, item)
                && startAdvance == if item.Some? then Advance(lines[line], item.value) else 0.0
    {
      line := (if lineClamp.Some? then lineClamp.value else 1) - 1;
      this.from := from;
      item := None;
      startAdvance := 0.0;
      if line >= |lines| {
        return;
      }
      match from
      case End => CutEnd(lines[line], limit, affix);
      case Start => CutStart(lines[line], limit, affix);
    }

    method CutEnd(widths: seq<real>, limit: real, affix: real)
      requires item == None
      modifies this`item
      ensures IsEndCut(widths, affix, limit, item)
    {
      var width := 0.0;
      for i := 0 to |widths|
        invariant width == Advance(widths, i) && IsLastRoom(widths, affix, limit, i, item)
        invariant forall n :: 0 < n <= i ==> !TooLong(widths, limit, n)
      {
        if width + affix < limit {
          item := Some(i);
        }
        width := width + widths[i];
        if (width.Floor as real) > limit {
          assert OverflowsAt(widths, limit, i + 1);
          return;
        }
      }
      item := None;
    }

    method CutStart(widths: seq<real>, limit: real, affix: real)
      requires item == None && startAdvance == 0.0
      modifies this`item, this`startAdvance
      ensures IsFirstFit(widths, affix, limit, item)
      ensures startAdvance == if item.Some? then Advance(widths, item.value) else 0.0
    {
      var available := limit - affix;
      var total := Sum(widths);
      var skipped := 0.0;
      for i := 0 to |widths|
        invariant item == None && startAdvance == 0.0 && skipped == Advance(widths, i)
        invariant forall k :: 0 <= k < i ==> Rest(widths, k) + affix > limit
      {
        if total - skipped <= available {
          item, startAdvance := Some(i), skipped;
          return;
        }
        skipped := skipped + widths[i];
      }
    }

    static method Sum(widths: seq<real>) returns (total: real)
      ensures total == Advance(widths, |widths|)
    {
      total := 0.0;
      for i := 0 to |widths|
        invariant total == Advance(widths, i)
      {
        total := total + widths[i];
      }
    }

    /** Paints a line: which items, where they start, whether and where the affix goes, and how far the line reaches. */
    method Paint(widths: seq<real>, affix: real) returns (drawn: seq<nat>, affixAt: Option<real>, reach: real)
      requires item.Some? ==> item.value < |widths|
      ensures from.End? ==>
                && drawn == Indices(0, if item.Some? then item.value else |widths|)
                && affixAt == (if item.Some? then Some(Advance(widths, item.value)) else None)
                && reach == if item.Some? then Advance(widths, item.value) + affix else Advance(widths, |widths|)
      ensures from.Start? ==>
                && drawn == Indices(if item.Some? then item.value else 0, |widths|)
                && affixAt == (if item.Some? then Some(0.0) else None)
                && reach == affix - startAdvance + Advance(widths, |widths|)
    {
      var isStart := from.Start?;
      affixAt := if isStart && item.Some? then Some(0.0) else None;
      var origin := if isStart then affix - startAdvance else 0.0;
      var position, advance := origin, 0.0;
      drawn := [];
      var i := 0;
      while i < |widths|
        invariant 0 <= i <= |widths| && position == origin + Advance(widths, i)
        invariant !isStart ==> advance == Advance(widths, i) && drawn == Indices(0, i) && (item.Some? ==> i <= item.value) && affixAt == None
        invariant isStart ==> drawn == if item.Some? && i < item.value then [] else Indices(if item.Some? then item.value else 0, i)
        invariant isStart ==> affixAt == if item.Some? then Some(0.0) else None
      {
        if !isStart {
          if item == Some(i) {
            return drawn, Some(advance), position + affix;
          }
        }
        if !isStart || item.None? || i >= item.value {
          advance := advance + widths[i];
          drawn := drawn + [i];
        }
        position := position + widths[i];
        i := i + 1;
      }
      reach := position;
    }
  }

  function Indices(a: nat, b: nat): seq<nat> {
    seq(if a <= b then b - a else 0, i requires i >= 0 => a + i)
  }

  /** How far a line reaches when cut at the end: the kept items and the affix, or everything. */
  ghost function EndReach(widths: seq<real>, affix: real, item: Option<nat>): real
    requires item.Some? ==> item.value < |widths|
  {
    if item.Some? then Advance(widths, item.value) + affix else Advance(widths, |widths|)
  }

  /** How far a line reaches when cut at the start: the affix, always painted, and what is not skipped. */
  ghost function StartReach(widths: seq<real>, affix: real, item: Option<nat>): real
    requires item.Some? ==> item.value < |widths|
  {
    affix + if item.Some? then Rest(widths, item.value) else Advance(widths, |widths|)
  }

  /** With widths that are not negative a line overflows iff its whole width, rounded down, exceeds the limit. */
  lemma OverflowsIffTooLong(widths: seq<real>, limit: real)
    requires NonNegative(widths) && widths != []
    ensures Overflows(widths, limit) <==> TooLong(widths, limit, |widths|)
  {
    if Overflows(widths, limit) {
      var n: nat :| OverflowsAt(widths, limit, n);
      AdvanceGrows(widths, n, |widths|);
    } else if TooLong(widths, limit, |widths|) {
      FirstOverflow(widths, limit, |widths|);
    }
  }

  lemma {:induction false} FirstOverflow(widths: seq<real>, limit: real, n: nat)
    requires 0 < n <= |widths| && TooLong(widths, limit, n)
    ensures Overflows(widths, limit)
    decreases n
  {
    if m: nat :| 0 < m < n && TooLong(widths, limit, m) {
      FirstOverflow(widths, limit, m);
    } else {
      assert OverflowsAt(widths, limit, n);
    }
  }

  /** A line cut at the end fits iff the affix alone is below the limit, and then keeps as much as possible. */
  lemma CutLineFits(widths: seq<real>, affix: real, limit: real, item: Option<nat>)
    requires NonNegative(widths) && affix >= 0.0 && Overflows(widths, limit)
    requires IsEndCut(widths, affix, limit, item)
    ensures affix < limit <==> item.Some?
    ensures item.Some? ==> item.value < |widths|
    ensures EndReach(widths, affix, item) <= limit <==> affix < limit
    ensures item.Some? ==> EndReach(widths, affix, item) < limit
    ensures item.Some? ==> forall k :: item.value < k < |widths| ==> EndReach(widths, affix, Some(k)) >= limit
  {
    NoRoomBeyond(widths, affix, limit, item);
    var n: nat :| OverflowsAt(widths, limit, n);
    AdvanceGrows(widths, n, |widths|);
    assert Advance(widths, 0) == 0.0;
    if item.Some? {
      AdvanceGrows(widths, 0, item.value);
    }
  }

  /**
    * What is painted fits exactly when the affix alone is below the limit, for a line whose width rounded down exceeds it,
    * and exactly when the line fits whole otherwise; a line is cut iff it overflows and the affix leaves room.
    */
  lemma EndTruncationFits(widths: seq<real>, affix: real, limit: real, item: Option<nat>)
    requires NonNegative(widths) && affix >= 0.0 && IsEndCut(widths, affix, limit, item)
    ensures item.Some? ==> item.value < |widths| && EndReach(widths, affix, item) < limit
    ensures item.Some? <==> widths != [] && TooLong(widths, limit, |widths|) && affix < limit
    ensures EndReach(widths, affix, item) <= limit <==>
              if widths != [] && TooLong(widths, limit, |widths|) then affix < limit else Advance(widths, |widths|) <= limit
    ensures item.Some? ==> forall k :: item.value < k < |widths| ==> EndReach(widths, affix, Some(k)) >= limit
  {
    if widths != [] {
      OverflowsIffTooLong(widths, limit);
    }
    if Overflows(widths, limit) {
      CutLineFits(widths, affix, limit, item);
    }
  }

  /** A line wider than the limit by less than one unit is painted whole, although it does not fit. */
  lemma FractionIsNotCut(item: Option<nat>)
    requires IsEndCut([10.5], 1.0, 10.0, item)
    ensures item == None && EndReach([10.5], 1.0, item) > 10.0
  {
    assert Advance([10.5], 0) == 0.0 && Advance([10.5], 1) == 10.5;
    EndTruncationFits([10.5], 1.0, 10.0, item);
  }

  /** An affix as wide as the limit leaves an overflowing line uncut. */
  lemma WideAffixCutsNothing(item: Option<nat>)
    requires IsEndCut([8.0, 8.0], 10.0, 10.0, item)
    ensures item == None && EndReach([8.0, 8.0], 10.0, item) > 10.0
  {
    assert Advance([8.0, 8.0], 0) == 0.0 && Advance([8.0, 8.0], 1) == 8.0 && Advance([8.0, 8.0], 2) == 16.0;
    EndTruncationFits([8.0, 8.0], 10.0, 10.0, item);
  }

  /**
    * With the affix in front, what is painted fits exactly when the last item fits beside it, and then no cut further
    * left would fit. Items are skipped, or nothing fits, iff line and affix together are too wide, even if the line alone is not.
    */
  lemma StartTruncationFits(widths: seq<real>, affix: real, limit: real, item: Option<nat>)
    requires NonNegative(widths) && affix >= 0.0 && widths != [] && IsFirstFit(widths, affix, limit, item)
    ensures item.Some? ==> item.value < |widths|
    ensures item.Some? <==> widths[|widths| - 1] + affix <= limit
    ensures StartReach(widths, affix, item) <= limit <==> item.Some?
    ensures item.Some? ==> forall k :: 0 <= k < item.value ==> StartReach(widths, affix, Some(k)) > limit
    ensures item == Some(0) <==> Advance(widths, |widths|) + affix <= limit
    ensures Advance(widths, |widths|) <= limit && item != Some(0) <==> limit - affix < Advance(widths, |widths|) <= limit
  {
    var n := |widths| - 1;
    assert Rest(widths, n) == widths[n];
    assert Rest(widths, 0) == Advance(widths, |widths|);
    if item.Some? {
      AdvanceGrows(widths, item.value, n);
    }
  }

  /** A line that would fit whole loses its first item to the affix. */
  lemma FittingLineIsCut(item: Option<nat>)
    requires IsFirstFit([3.0, 3.0], 1.0, 6.0, item)
    ensures Advance([3.0, 3.0], 2) <= 6.0 && item == Some(1)
  {
    assert Advance([3.0, 3.0], 0) == 0.0 && Advance([3.0, 3.0], 1) == 3.0 && Advance([3.0, 3.0], 2) == 6.0;
    StartTruncationFits([3.0, 3.0], 1.0, 6.0, item);
  }

  /** Truncates one line and paints it: how far it reaches, and exactly when that is within the limit. */
  method TruncateAndPaint(widths: seq<real>, limit: real, affix: real, from: TruncateFrom) returns (drawn: seq<nat>, reach: real)
    requires NonNegative(widths) && affix >= 0.0
    ensures from.End? ==>
              (reach <= limit <==>
                if widths != [] && TooLong(widths, limit, |widths|) then affix < limit else Advance(widths, |widths|) <= limit)
    ensures from.Start? ==>
              (reach <= limit <==> if widths == [] then affix <= limit else widths[|widths| - 1] + affix <= limit)
    ensures exists i: nat :: i <= |widths| && drawn == if from.End? then Indices(0, i) else Indices(i, |widths|)
  {
    var truncation := new Truncation();
    truncation.Update(None, limit, affix, from, [widths]);
    ghost var item := truncation.item;
    if from.End? {
      EndTruncationFits(widths, affix, limit, item);
    } else if widths != [] {
      StartTruncationFits(widths, affix, limit, item);
    }
    assert item.Some? ==> item.value < |widths|;
    var affixAt;
    drawn, affixAt, reach := truncation.Paint(widths, affix);
    ghost var cut := if item.Some? then item.value else if from.End? then |widths| else 0;
    assert drawn == if from.End? then Indices(0, cut) else Indices(cut, |widths|);
  }

  /** Binary search for the line at an offset; a line is given by where its block begins and ends. */
  method LineForOffset(lines: seq<(real, real)>, offset: real) returns (line: Option<nat>)
    requires forall i, j :: 0 <= i < j < |lines| ==> lines[i].0 <= lines[j].0
    ensures line.None? <==> lines == [] && offset >= 0.0
    ensures lines != [] && offset >= 0.0 ==>
              && line.value < |lines|
              && (line.value > 0 ==> lines[line.value].0 <= offset)
              && forall j :: line.value < j < |lines| ==> offset < lines[j].0
    ensures offset < 0.0 ==> line == Some(0)
  {
    if offset < 0.0 {
      return Some(0);
    }
    var size := |lines|;
    if size == 0 {
      return None;
    }
    var base := 0;
    while size > 1
      invariant 1 <= size && base + size <= |lines|
      invariant base > 0 ==> lines[base].0 <= offset
      invariant forall j :: base + size <= j < |lines| ==> offset < lines[j].0
      decreases size
    {
      var half := size / 2;
      var mid := base + half;
      if !(offset < lines[mid].0) {
        base := mid;
      }
      size := size - half;
    }
    var isLess := !(offset < lines[base].0) && offset >= lines[base].1;
    var isEqual := !(offset < lines[base].0) && !isLess;
    line := Some(if isEqual then base else if isLess then base + 1 - 1 else if base == 0 then 0 else base - 1);
  }
}
