/**
 Row and Column distribution: how a Row splits its rectangle's height (and a
 Column its width) among its children. Fixed sizes are subtracted first, the
 remainder is shared out by weight with truncation toward zero, every length
 is clamped at 0, and the children are placed one after another from the
 parent's origin.
 */
module Layout {
  import opened Types
  import opened SceneGraph

  /** The size resolver of the source, `Size::resolve(parent, screen)`, supplied by the caller. */
  type Resolver = (Size, Dimension, Dimension) -> int

  /** The distribution axis: a Row distributes height (Vertical), a Column width (Horizontal). */
  datatype Axis = Vertical | Horizontal

  /** Where a rectangle starts along the axis. */
  function Origin(r: Rect, axis: Axis): int
  {
    if axis.Vertical? then r.y else r.x
  }

  /** How long a rectangle is along the axis. */
  function Extent(r: Rect, axis: Axis): int
  {
    if axis.Vertical? then r.h else r.w
  }

  /** The child rectangle at pos with length len along the axis, spanning the parent across it. */
  function Place(parent: Rect, axis: Axis, pos: int, len: int): (c: Rect)
    ensures Origin(c, axis) == pos && Extent(c, axis) == len
    ensures axis.Vertical? ==> c.x == parent.x && c.w == parent.w
    ensures axis.Horizontal? ==> c.y == parent.y && c.h == parent.h
  {
    if axis.Vertical? then NewRect(parent.x, pos, parent.w, len) else NewRect(pos, parent.y, len, parent.h)
  }

  function Max0(n: int): nat
  {
    if n < 0 then 0 else n
  }

  /** The `f32 as i32` cast on in-range values: the integer nearest x in the direction of 0. */
  function TruncTowardZero(x: real): (n: int)
    ensures 0.0 <= x ==> 0 <= n && n as real <= x < n as real + 1.0
    ensures x < 0.0 ==> n <= 0 && n as real - 1.0 < x <= n as real
  {
    if x >= 0.0 then x.Floor else -((-x).Floor)
  }

  function Sum(s: seq<int>): int
  {
    if |s| == 0 then 0 else s[0] + Sum(s[1..])
  }

  /** First pass: the resolved length of every entry, Weight entries included, added up. */
  function SumResolved(sizes: seq<Size>, parent: Dimension, screen: Dimension, resolve: Resolver): (r: int)
    ensures (forall i :: 0 <= i < |sizes| ==> resolve(sizes[i], parent, screen) >= 0) ==> r >= 0
  {
    if |sizes| == 0 then 0 else resolve(sizes[0], parent, screen) + SumResolved(sizes[1..], parent, screen, resolve)
  }

  /** First pass: the weights of the Weight entries, added up. */
  function TotalWeight(sizes: seq<Size>): (r: real)
    ensures (forall i :: 0 <= i < |sizes| && sizes[i].Weight? ==> sizes[i].weight >= 0.0) ==> r >= 0.0
  {
    if |sizes| == 0 then 0.0
    else (if sizes[0].Weight? then sizes[0].weight else 0.0) + TotalWeight(sizes[1..])
  }

  function WeightCount(sizes: seq<Size>): nat
  {
    if |sizes| == 0 then 0 else (if sizes[0].Weight? then 1 else 0) + WeightCount(sizes[1..])
  }

  /**
   The share of `remaining` that a weight gets. A zero total only arises when
   every weight is 0 (for non-negative weights), and then the source computes
   NaN, which the cast turns into 0.
   */
  function WeightShare(remaining: int, weight: real, total: real): (r: int)
    ensures total == 0.0 ==> r == 0
    ensures remaining >= 0 && weight >= 0.0 && total > 0.0 ==>
      0 <= r && r as real <= remaining as real * (weight / total) < r as real + 1.0
  {
    if total == 0.0 then 0 else TruncTowardZero(remaining as real * (weight / total))
  }

  /** Second pass for one entry, given the first pass's remaining length and total weight. */
  function ChildLength(size: Size, remaining: int, total: real, parent: Dimension, screen: Dimension, resolve: Resolver): (r: nat)
    ensures !size.Weight? && resolve(size, parent, screen) >= 0 ==> r == resolve(size, parent, screen)
    ensures !size.Weight? && resolve(size, parent, screen) < 0 ==> r == 0
    ensures size.Weight? && total == 0.0 ==> r == 0
    ensures size.Weight? && remaining >= 0 && size.weight >= 0.0 && total > 0.0 ==>
      r as real <= remaining as real * (size.weight / total) < r as real + 1.0
  {
    if size.Weight? then Max0(WeightShare(remaining, size.weight, total))
    else Max0(resolve(size, parent, screen))
  }

  function Lengths(sizes: seq<Size>, remaining: int, total: real, parent: Dimension, screen: Dimension, resolve: Resolver): (lens: seq<int>)
    ensures |lens| == |sizes|
    ensures forall i :: 0 <= i < |sizes| ==> lens[i] == ChildLength(sizes[i], remaining, total, parent, screen, resolve)
  {
    if |sizes| == 0 then []
    else [ChildLength(sizes[0], remaining, total, parent, screen, resolve)] + Lengths(sizes[1..], remaining, total, parent, screen, resolve)
  }

  /**
   The lengths a Row (or Column) of the given extent gives its children:
   remaining = extent minus the resolved length of every entry; a Weight child
   gets its truncated share of remaining, any other child its resolved length;
   both clamped at 0.
   */
  function Distribute(sizes: seq<Size>, extent: int, parent: Dimension, screen: Dimension, resolve: Resolver): (lens: seq<int>)
    ensures |lens| == |sizes|
    ensures forall i :: 0 <= i < |sizes| ==> lens[i] >= 0
    ensures forall i :: 0 <= i < |sizes| && sizes[i].Weight? ==>
      lens[i] == Max0(WeightShare(extent - SumResolved(sizes, parent, screen, resolve), sizes[i].weight, TotalWeight(sizes)))
    ensures forall i :: 0 <= i < |sizes| && !sizes[i].Weight? ==> lens[i] == Max0(resolve(sizes[i], parent, screen))
  {
    Lengths(sizes, extent - SumResolved(sizes, parent, screen, resolve), TotalWeight(sizes), parent, screen, resolve)
  }

  /** Adding one more element to a prefix adds that element to its sum. */
  lemma {:induction false} SumPrefixStep(s: seq<int>, i: nat)
    requires i < |s|
    ensures Sum(s[..i + 1]) == Sum(s[..i]) + s[i]
    decreases i
  {
    if i > 0 {
      assert s[..i + 1][1..] == s[1..][..i];
      assert s[..i][1..] == s[1..][..i - 1];
      SumPrefixStep(s[1..], i - 1);
    }
  }

  /**
   The second pass's placement loop: children laid out one after another from
   the cursor pos along the axis, each spanning the parent across it.
   */
  function LineRects(parent: Rect, axis: Axis, lens: seq<int>, pos: int): (rs: seq<Rect>)
    ensures |rs| == |lens|
    ensures forall i :: 0 <= i < |rs| ==> Extent(rs[i], axis) == lens[i]
    ensures forall i :: 0 <= i < |rs| ==> Origin(rs[i], axis) == pos + Sum(lens[..i])
    ensures forall i :: 0 <= i < |rs| && axis.Vertical? ==> rs[i].x == parent.x && rs[i].w == parent.w
    ensures forall i :: 0 <= i < |rs| && axis.Horizontal? ==> rs[i].y == parent.y && rs[i].h == parent.h
  {
    if |lens| == 0 then []
    else
      var tail := LineRects(parent, axis, lens[1..], pos + lens[0]);
      var rs := [Place(parent, axis, pos, lens[0])] + tail;
      assert forall i :: 1 <= i < |rs| ==> lens[..i][1..] == lens[1..][..i - 1];
      rs
  }

  /** The cursor only moves forward by each child's length: child i+1 starts where child i ends, the last ends at pos plus the sum. */
  lemma LineRectsContiguous(parent: Rect, axis: Axis, lens: seq<int>, pos: int)
    ensures var rs := LineRects(parent, axis, lens, pos);
      && (forall i :: 0 <= i < |rs| - 1 ==> Origin(rs[i + 1], axis) == Origin(rs[i], axis) + Extent(rs[i], axis))
      && (|rs| > 0 ==> Origin(rs[|rs| - 1], axis) + Extent(rs[|rs| - 1], axis) == pos + Sum(lens))
  {
    PrefixPlacedContiguous(LineRects(parent, axis, lens, pos), axis, lens, pos);
  }

  /** Rectangles placed at the running sums of their lengths follow one another without gap or overlap. */
  lemma PrefixPlacedContiguous(rs: seq<Rect>, axis: Axis, lens: seq<int>, pos: int)
    requires |rs| == |lens|
    requires forall i :: 0 <= i < |rs| ==> Extent(rs[i], axis) == lens[i]
    requires forall i :: 0 <= i < |rs| ==> Origin(rs[i], axis) == pos + Sum(lens[..i])
    ensures forall i :: 0 <= i < |rs| - 1 ==> Origin(rs[i + 1], axis) == Origin(rs[i], axis) + Extent(rs[i], axis)
    ensures |rs| > 0 ==> Origin(rs[|rs| - 1], axis) + Extent(rs[|rs| - 1], axis) == pos + Sum(lens)
  {
    forall i | 0 <= i < |rs| - 1
      ensures Origin(rs[i + 1], axis) == Origin(rs[i], axis) + Extent(rs[i], axis)
    {
      SumPrefixStep(lens, i);
    }
    if |rs| > 0 {
      SumPrefixStep(lens, |lens| - 1);
      assert lens[..|lens|] == lens;
    }
  }

  /** The rectangles a Row (Vertical) or Column (Horizontal) gives its children. */
  function SplitRect(parent: Rect, axis: Axis, sizes: seq<Size>, screen: Dimension, resolve: Resolver): (rs: seq<Rect>)
    ensures |rs| == |sizes|
    ensures forall i :: 0 <= i < |rs| ==> Extent(rs[i], axis) >= 0
  {
    LineRects(parent, axis, Distribute(sizes, Extent(parent, axis), parent.Dimension(), screen, resolve), Origin(parent, axis))
  }

  /**
   Contiguity of a Row or Column: child k starts where child k-1 ends, the
   first at the parent's origin; children span the parent across the axis and
   have non-negative length along it, namely the distributed length.
   */
  lemma SplitRectContiguous(parent: Rect, axis: Axis, sizes: seq<Size>, screen: Dimension, resolve: Resolver)
    ensures var rs := SplitRect(parent, axis, sizes, screen, resolve);
      var lens := Distribute(sizes, Extent(parent, axis), parent.Dimension(), screen, resolve);
      && |rs| == |sizes|
      && (|rs| > 0 ==> Origin(rs[0], axis) == Origin(parent, axis))
      && (forall i :: 0 <= i < |rs| - 1 ==> Origin(rs[i + 1], axis) == Origin(rs[i], axis) + Extent(rs[i], axis))
      && (forall i :: 0 <= i < |rs| ==> Origin(rs[i], axis) == Origin(parent, axis) + Sum(lens[..i]))
      && (forall i :: 0 <= i < |rs| ==> Extent(rs[i], axis) == lens[i] >= 0)
      && (forall i :: 0 <= i < |rs| && axis.Vertical? ==> rs[i].x == parent.x && rs[i].w == parent.w)
      && (forall i :: 0 <= i < |rs| && axis.Horizontal? ==> rs[i].y == parent.y && rs[i].h == parent.h)
  {
    var lens := Distribute(sizes, Extent(parent, axis), parent.Dimension(), screen, resolve);
    PlacedFromOrigin(parent, axis, lens);
  }

  /** Non-negative lengths laid out from the parent's origin: the facts above for any such lengths. */
  lemma PlacedFromOrigin(parent: Rect, axis: Axis, lens: seq<int>)
    requires forall i :: 0 <= i < |lens| ==> lens[i] >= 0
    ensures var rs := LineRects(parent, axis, lens, Origin(parent, axis));
      && |rs| == |lens|
      && (|rs| > 0 ==> Origin(rs[0], axis) == Origin(parent, axis))
      && (forall i :: 0 <= i < |rs| - 1 ==> Origin(rs[i + 1], axis) == Origin(rs[i], axis) + Extent(rs[i], axis))
      && (forall i :: 0 <= i < |rs| ==> Origin(rs[i], axis) == Origin(parent, axis) + Sum(lens[..i]))
      && (forall i :: 0 <= i < |rs| ==> Extent(rs[i], axis) == lens[i] >= 0)
      && (forall i :: 0 <= i < |rs| && axis.Vertical? ==> rs[i].x == parent.x && rs[i].w == parent.w)
      && (forall i :: 0 <= i < |rs| && axis.Horizontal? ==> rs[i].y == parent.y && rs[i].h == parent.h)
  {
    assert lens[..0] == [];
    LineRectsContiguous(parent, axis, lens, Origin(parent, axis));
  }

  lemma DivSelf(t: real)
    requires t > 0.0
    ensures t / t == 1.0
  {
    var q := t / t;
    assert q * t == t;
    assert (q - 1.0) * t == 0.0;
  }

  lemma ShareSplit(rem: real, a: real, b: real, t: real)
    requires t > 0.0
    ensures rem * ((a + b) / t) == rem * (a / t) + rem * (b / t)
  {
    var p := a / t;
    var q := b / t;
    assert p * t == a && q * t == b;
    assert (p + q) * t == a + b;
    assert (a + b) / t == p + q;
  }

  /** One step of ShareSumIsProportional over plain reals: adding an entry's share keeps the sum proportional. */
  lemma ShareStep(r: real, w: real, tw: real, t: real, s: real, rest: real, all: real)
    requires t > 0.0
    requires s == r * (w / t) + rest && rest == r * (tw / t) && all == w + tw
    ensures s == r * (all / t)
  {
    ShareSplit(r, w, tw, t);
  }

  /** The exact (untruncated) shares of the Weight entries, added up. */
  function ShareSum(sizes: seq<Size>, rem: int, total: real): real
    requires total > 0.0
  {
    if |sizes| == 0 then 0.0
    else (if sizes[0].Weight? then rem as real * (sizes[0].weight / total) else 0.0) + ShareSum(sizes[1..], rem, total)
  }

  lemma {:induction false} ShareSumIsProportional(sizes: seq<Size>, rem: int, total: real)
    requires total > 0.0
    ensures ShareSum(sizes, rem, total) == rem as real * (TotalWeight(sizes) / total)
    decreases |sizes|
  {
    if |sizes| == 0 {
      assert TotalWeight(sizes) / total == 0.0;
    } else {
      var w := if sizes[0].Weight? then sizes[0].weight else 0.0;
      ShareSumIsProportional(sizes[1..], rem, total);
      ShareSumHead(sizes, rem, total);
      ShareStep(rem as real, w, TotalWeight(sizes[1..]), total, ShareSum(sizes, rem, total), ShareSum(sizes[1..], rem, total), TotalWeight(sizes));
    }
  }

  /** The first entry contributes its weight's share, zero weight for a non-Weight entry. */
  lemma ShareSumHead(sizes: seq<Size>, rem: int, total: real)
    requires total > 0.0 && |sizes| > 0
    ensures var w := if sizes[0].Weight? then sizes[0].weight else 0.0;
      && ShareSum(sizes, rem, total) == rem as real * (w / total) + ShareSum(sizes[1..], rem, total)
      && TotalWeight(sizes) == w + TotalWeight(sizes[1..])
  {
    if !sizes[0].Weight? {
      assert 0.0 / total == 0.0;
    }
  }

  /** Each length is within one pixel below its exact share, summed over the entries. */
  lemma {:induction false} LengthsBounds(sizes: seq<Size>, rem: int, total: real, parent: Dimension, screen: Dimension, resolve: Resolver)
    requires rem >= 0 && total > 0.0
    requires forall i :: 0 <= i < |sizes| && sizes[i].Weight? ==> sizes[i].weight >= 0.0 && resolve(sizes[i], parent, screen) == 0
    requires forall i :: 0 <= i < |sizes| && !sizes[i].Weight? ==> resolve(sizes[i], parent, screen) >= 0
    ensures var s := Sum(Lengths(sizes, rem, total, parent, screen, resolve)) as real;
      var exact := SumResolved(sizes, parent, screen, resolve) as real + ShareSum(sizes, rem, total);
      && s <= exact
      && exact - WeightCount(sizes) as real <= s
      && (WeightCount(sizes) > 0 ==> exact - WeightCount(sizes) as real < s)
    decreases |sizes|
  {
    if |sizes| > 0 {
      var tail := sizes[1..];
      var lens := Lengths(sizes, rem, total, parent, screen, resolve);
      LengthsBounds(tail, rem, total, parent, screen, resolve);
      EntryBounds(sizes[0], rem, total, parent, screen, resolve);
      assert lens[1..] == Lengths(tail, rem, total, parent, screen, resolve);
      assert Sum(lens) == lens[0] + Sum(lens[1..]);
    }
  }

  /** One entry's length: its exact share truncated (less than one below) for a Weight, its resolved length otherwise. */
  lemma EntryBounds(size: Size, rem: int, total: real, parent: Dimension, screen: Dimension, resolve: Resolver)
    requires rem >= 0 && total > 0.0
    requires size.Weight? ==> size.weight >= 0.0 && resolve(size, parent, screen) == 0
    requires !size.Weight? ==> resolve(size, parent, screen) >= 0
    ensures var l := ChildLength(size, rem, total, parent, screen, resolve) as real;
      var e := resolve(size, parent, screen) as real + (if size.Weight? then rem as real * (size.weight / total) else 0.0);
      && l <= e
      && (size.Weight? ==> e - 1.0 < l)
      && (!size.Weight? ==> l == e)
  {
    if size.Weight? {
      var x := rem as real * (size.weight / total);
      assert x >= 0.0 by {
        assert size.weight / total >= 0.0;
      }
    }
  }

  /**
   Conservation: when every weight is non-negative with a positive total, the
   resolver gives Weight entries 0 and fixed entries a non-negative length, and
   the fixed lengths fit, the children's lengths add up to the parent's extent
   less a truncation loss smaller than the number of Weight entries.
   */
  lemma DistributeConserves(sizes: seq<Size>, extent: int, parent: Dimension, screen: Dimension, resolve: Resolver)
    requires TotalWeight(sizes) > 0.0
    requires forall i :: 0 <= i < |sizes| && sizes[i].Weight? ==> sizes[i].weight >= 0.0 && resolve(sizes[i], parent, screen) == 0
    requires forall i :: 0 <= i < |sizes| && !sizes[i].Weight? ==> resolve(sizes[i], parent, screen) >= 0
    requires SumResolved(sizes, parent, screen, resolve) <= extent
    ensures extent - WeightCount(sizes) < Sum(Distribute(sizes, extent, parent, screen, resolve)) <= extent
  {
    var rem := extent - SumResolved(sizes, parent, screen, resolve);
    var total := TotalWeight(sizes);
    LengthsBounds(sizes, rem, total, parent, screen, resolve);
    ShareSumIsProportional(sizes, rem, total);
    DivSelf(total);
    WeightCountPositive(sizes);
  }

  lemma {:induction false} WeightCountPositive(sizes: seq<Size>)
    requires TotalWeight(sizes) != 0.0
    ensures WeightCount(sizes) > 0
    decreases |sizes|
  {
    if !sizes[0].Weight? {
      WeightCountPositive(sizes[1..]);
    }
  }

  /**
   Equal weights with nothing fixed split the extent evenly: a Column of width
   100 with two Weight(1) children gives both width 50, at x and at x + 50.
   */
  lemma EqualSplitExample(parent: Rect, screen: Dimension, resolve: Resolver)
    requires parent.w == 100
    requires resolve(Weight(1.0), parent.Dimension(), screen) == 0
    ensures var rs := SplitRect(parent, Horizontal, [Weight(1.0), Weight(1.0)], screen, resolve);
      rs == [NewRect(parent.x, parent.y, 50, parent.h), NewRect(parent.x + 50, parent.y, 50, parent.h)]
  {
    var sizes := [Weight(1.0), Weight(1.0)];
    var d := parent.Dimension();
    assert SumResolved(sizes[1..], d, screen, resolve) == 0 by {
      assert sizes[1..][1..] == [];
    }
    assert SumResolved(sizes, d, screen, resolve) == 0;
    assert TotalWeight(sizes[1..]) == 1.0 by {
      assert sizes[1..][1..] == [];
    }
    assert TotalWeight(sizes) == 2.0;
    assert TruncTowardZero(100.0 * (1.0 / 2.0)) == 50;
    var lens := Distribute(sizes, 100, d, screen, resolve);
    assert lens[0] == 50 && lens[1] == 50;
    var rs := SplitRect(parent, Horizontal, sizes, screen, resolve);
    assert rs == LineRects(parent, Horizontal, lens, parent.x);
    assert Sum(lens[..0]) == 0;
    assert Sum(lens[..1]) == 50 by {
      assert lens[..1] == [50];
      assert lens[..1][1..] == [];
    }
  }

}
