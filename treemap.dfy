/** treemap.py: the squarified layout, over exact reals. `_squarify` lays the
    sizes, scaled to the rectangle's area, out row by row, alternating the
    orientation of the rows; `build_treemap` drops the items of non-positive
    size, lays out the rest and binds each node to its item. */
module Treemap {
  import opened Wrappers

  /** `(x, y, w, h)` */
  datatype Rect = Rect(x: real, y: real, w: real, h: real)

  function Area(r: Rect): real
  {
    r.w * r.h
  }

  /** The size and the box a node is laid out with. */
  datatype Tile = Tile(size: real, box: Rect)

  /** `TreemapNode`; `caption` is the source's `label` field (`label` is a
      reserved word here). `build_treemap` overwrites `caption`, `size` and
      `data` of the nodes `_squarify` made. */
  class TreemapNode<D> {
    var caption: string
    var size: real
    var x: real
    var y: real
    var width: real
    var height: real
    var data: Option<D>

    constructor (caption: string, size: real, box: Rect)
      ensures this.caption == caption && this.size == size && Box() == box && data == None
    {
      this.caption := caption;
      this.size := size;
      x, y, width, height := box.x, box.y, box.w, box.h;
      data := None;
    }

    function Box(): Rect
      reads this
    {
      Rect(x, y, width, height)
    }
  }

  // ---------------------------------------------------------------------
  // Sums, maxima and minima of a row

  function Sum(s: seq<real>): real
  {
    if s == [] then 0.0 else s[0] + Sum(s[1..])
  }

  lemma {:induction false} SumSnoc(s: seq<real>, v: real)
    ensures Sum(s + [v]) == Sum(s) + v
  {
    if s != [] {
      assert (s + [v])[1..] == s[1..] + [v];
      SumSnoc(s[1..], v);
    }
  }

  predicate AllPositive(s: seq<real>)
  {
    forall i | 0 <= i < |s| :: s[i] > 0.0
  }

  lemma AllPositiveSplit(a: seq<real>, b: seq<real>)
    requires AllPositive(a + b)
    ensures AllPositive(a) && AllPositive(b)
  {
    assert forall i | 0 <= i < |a| :: a[i] == (a + b)[i];
    assert forall i | 0 <= i < |b| :: b[i] == (a + b)[|a| + i];
  }

  lemma AllPositiveTail(s: seq<real>)
    requires s != [] && AllPositive(s)
    ensures s[0] > 0.0 && AllPositive(s[1..])
  {
    assert forall i | 0 <= i < |s[1..]| :: s[1..][i] == s[i + 1];
  }

  /** A row of positive values has a positive sum. */
  lemma {:induction false} SumPositive(s: seq<real>)
    requires AllPositive(s)
    ensures s != [] ==> Sum(s) > 0.0
    ensures Sum(s) >= 0.0
  {
    if s != [] {
      AllPositiveTail(s);
      SumPositive(s[1..]);
    }
  }

  function RMax(a: real, b: real): real
  {
    if a >= b then a else b
  }

  function RMin(a: real, b: real): real
  {
    if a <= b then a else b
  }

  /** `max(row)` */
  function MaxOf(s: seq<real>): (m: real)
    requires s != []
    ensures forall i | 0 <= i < |s| :: s[i] <= m
  {
    if |s| == 1 then s[0] else RMax(s[0], MaxOf(s[1..]))
  }

  /** `min(row)` */
  function MinOf(s: seq<real>): (m: real)
    requires s != []
    ensures forall i | 0 <= i < |s| :: m <= s[i]
  {
    if |s| == 1 then s[0] else RMin(s[0], MinOf(s[1..]))
  }

  lemma DivDiv(a: real, b: real)
    requires a > 0.0 && b > 0.0
    ensures a / b > 0.0 && a / (a / b) == b
  {
    assert (a / b) * b == a;
  }

  lemma MulPos(a: real, b: real)
    requires a > 0.0 && b > 0.0
    ensures a * b > 0.0
  {
  }

  /** `p = a * b > 0`, with the product named (squares need it). */
  lemma MulPosAt(a: real, b: real, p: real)
    requires a > 0.0 && b > 0.0 && p == a * b
    ensures p > 0.0
  {
    MulPos(a, b);
  }

  // ---------------------------------------------------------------------
  // worst_aspect_ratio

  /** A ratio, `float("inf")` included. */
  datatype Ratio = Infinite | Finite(value: real)

  /** `a <= b`, where every ratio is at most infinity. */
  predicate AtMost(a: Ratio, b: Ratio)
  {
    b.Infinite? || (a.Finite? && a.value <= b.value)
  }

  /** `worst_aspect_ratio(row, side_length)` */
  function WorstRatio(row: seq<real>, side: real): Ratio
  {
    if row == [] || side <= 0.0 then Infinite
    else
      var s := Sum(row);
      var maxV := MaxOf(row);
      var minV := MinOf(row);
      if s <= 0.0 || maxV <= 0.0 || minV <= 0.0 then Infinite
      else
        var s2 := side * side;
        if s2 <= 0.0 then Infinite else Finite(Worst(s2, s, maxV, minV))
  }

  /** `max((s2 * max_v) / (s * s), (s * s) / (s2 * min_v))` */
  function Worst(s2: real, s: real, maxV: real, minV: real): real
    requires s2 > 0.0 && s > 0.0 && minV > 0.0
  {
    MulPosAt(s, s, s * s);
    MulPos(s2, minV);
    RMax((s2 * maxV) / (s * s), (s * s) / (s2 * minV))
  }

  /** The worst ratio is infinite exactly for an empty row, a non-positive
      side, or a row whose sum, maximum or minimum is not positive. */
  lemma WorstRatioInfinite(row: seq<real>, side: real)
    ensures WorstRatio(row, side).Infinite? <==>
              row == [] || side <= 0.0 || Sum(row) <= 0.0 || MaxOf(row) <= 0.0 || MinOf(row) <= 0.0
  {
    if side > 0.0 {
      MulPosAt(side, side, side * side);
    }
  }

  /** A finite worst ratio is never below 1, the ratio of a square. */
  lemma WorstRatioAtLeastOne(row: seq<real>, side: real)
    requires WorstRatio(row, side).Finite?
    ensures WorstRatio(row, side).value >= 1.0
  {
    assert row != [] && side > 0.0;
    var s, maxV, minV := Sum(row), MaxOf(row), MinOf(row);
    assert minV <= row[0] <= maxV;
    MulPosAt(side, side, side * side);
    WorstAtLeastOne(side * side, s, maxV, minV);
  }

  /** `a * b = maxV / minV >= 1` for the two ratios, so one is at least 1. */
  lemma WorstAtLeastOne(s2: real, s: real, maxV: real, minV: real)
    requires s2 > 0.0 && s > 0.0 && 0.0 < minV <= maxV
    ensures Worst(s2, s, maxV, minV) >= 1.0
  {
    var ss := s * s;
    MulPosAt(s, s, ss);
    var a, b := (s2 * maxV) / ss, ss / (s2 * minV);
    assert a * b == maxV / minV by {
      assert a * ss == s2 * maxV;
      assert b * (s2 * minV) == ss;
      assert (a * b) * (ss * s2 * minV) == (s2 * maxV) * ss;
    }
    assert maxV / minV >= 1.0;
  }

  // ---------------------------------------------------------------------
  // layout_row

  /** The box of a node of length `len` along a row at `pos`, the row
      being `thick` across and starting at `across`. */
  function Place(size: real, horizontal: bool, pos: real, across: real, len: real, thick: real): Tile
  {
    if horizontal then Tile(size, Rect(pos, across, len, thick)) else Tile(size, Rect(across, pos, thick, len))
  }

  /** The nodes of a row: each value gets length `value / thick` from the
      current position, the position advancing by it; a value whose length
      is not positive is skipped. */
  function RowTiles(row: seq<real>, horizontal: bool, pos: real, across: real, thick: real): seq<Tile>
    requires thick > 0.0
  {
    if row == [] then []
    else
      var len := row[0] / thick;
      if len <= 0.0 then RowTiles(row[1..], horizontal, pos, across, thick)
      else [Place(row[0], horizontal, pos, across, len, thick)] + RowTiles(row[1..], horizontal, pos + len, across, thick)
  }

  /** `layout_row(row, row_rect, is_horizontal)`: the nodes it appends and
      the rectangle it returns (None when the row sum or a side of the
      rectangle is not positive). */
  function LayoutRowSpec(row: seq<real>, r: Rect, horizontal: bool): (seq<Tile>, Option<Rect>)
  {
    var rowSum := Sum(row);
    if rowSum <= 0.0 || r.w <= 0.0 || r.h <= 0.0 then ([], None)
    else if horizontal then
      var t := rowSum / r.w;
      (RowTiles(row, true, r.x, r.y, t), Some(Rect(r.x, r.y + t, r.w, r.h - t)))
    else
      var t := rowSum / r.h;
      (RowTiles(row, false, r.y, r.x, t), Some(Rect(r.x + t, r.y, r.w - t, r.h)))
  }

  /** A tile's length along the row's direction, and where it starts. */
  function Along(t: Tile, horizontal: bool): real
  {
    if horizontal then t.box.w else t.box.h
  }

  function Start(t: Tile, horizontal: bool): real
  {
    if horizontal then t.box.x else t.box.y
  }

  /** Where a chain of tiles ends, starting from `pos`. */
  function End(ts: seq<Tile>, horizontal: bool, pos: real): real
  {
    if ts == [] then pos else End(ts[1..], horizontal, Start(ts[0], horizontal) + Along(ts[0], horizontal))
  }

  function Sizes(ts: seq<Tile>): seq<real>
  {
    if ts == [] then [] else [ts[0].size] + Sizes(ts[1..])
  }

  lemma {:induction false} SizesConcat(a: seq<Tile>, b: seq<Tile>)
    ensures Sizes(a + b) == Sizes(a) + Sizes(b)
  {
    if a != [] {
      assert (a + b)[1..] == a[1..] + b;
      SizesConcat(a[1..], b);
    } else {
      assert a + b == b;
    }
  }

  /** A box of positive sides whose area is the tile's size. */
  predicate Exact(t: Tile)
  {
    t.box.w > 0.0 && t.box.h > 0.0 && t.box.w * t.box.h == t.size
  }

  predicate AllExact(ts: seq<Tile>)
  {
    forall k | 0 <= k < |ts| :: Exact(ts[k])
  }

  lemma AllExactConcat(a: seq<Tile>, b: seq<Tile>)
    requires AllExact(a) && AllExact(b)
    ensures AllExact(a + b)
  {
    assert forall k | |a| <= k < |a + b| :: (a + b)[k] == b[k - |a|];
  }

  /** Every node of a row has a box of positive sides whose area is its
      value, lies at `across` and is `thick` across the row. */
  lemma {:induction false} RowTilesAcross(row: seq<real>, horizontal: bool, pos: real, across: real, thick: real)
    requires thick > 0.0
    ensures var ts := RowTiles(row, horizontal, pos, across, thick);
      && AllExact(ts)
      && forall k | 0 <= k < |ts| :: Along(ts[k], !horizontal) == thick && Start(ts[k], !horizontal) == across
  {
    if row != [] {
      var len := row[0] / thick;
      assert len * thick == row[0];
      RowTilesAcross(row[1..], horizontal, if len <= 0.0 then pos else pos + len, across, thick);
    }
  }

  /** The nodes of a row follow each other without gap or overlap from
      `pos`. */
  lemma {:induction false} RowTilesChain(row: seq<real>, horizontal: bool, pos: real, across: real, thick: real)
    requires thick > 0.0
    ensures var ts := RowTiles(row, horizontal, pos, across, thick);
      && (ts != [] ==> Start(ts[0], horizontal) == pos)
      && forall k | 0 <= k < |ts| - 1 :: Start(ts[k + 1], horizontal) == Start(ts[k], horizontal) + Along(ts[k], horizontal)
  {
    if row != [] {
      var len := row[0] / thick;
      RowTilesChain(row[1..], horizontal, if len <= 0.0 then pos else pos + len, across, thick);
      if len > 0.0 {
        var ts := RowTiles(row, horizontal, pos, across, thick);
        assert ts[1..] == RowTiles(row[1..], horizontal, pos + len, across, thick);
      }
    }
  }

  /** When every value is positive, a row has one node per value, in order,
      and the nodes end `Sum(row) / thick` after `pos`. */
  lemma {:induction false} RowTilesFull(row: seq<real>, horizontal: bool, pos: real, across: real, thick: real)
    requires thick > 0.0 && AllPositive(row)
    ensures Sizes(RowTiles(row, horizontal, pos, across, thick)) == row
    ensures End(RowTiles(row, horizontal, pos, across, thick), horizontal, pos) == pos + Sum(row) / thick
  {
    if row != [] {
      AllPositiveTail(row);
      var len := row[0] / thick;
      assert len > 0.0;
      RowTilesFull(row[1..], horizontal, pos + len, across, thick);
      var ts := RowTiles(row, horizontal, pos, across, thick);
      assert ts[1..] == RowTiles(row[1..], horizontal, pos + len, across, thick);
      assert Sum(row) / thick == len + Sum(row[1..]) / thick;
    }
  }

  /** `layout_row` returns None exactly when the row sum or a side of the
      rectangle is not positive, and then lays out nothing. */
  lemma LayoutRowNone(row: seq<real>, r: Rect, horizontal: bool)
    ensures LayoutRowSpec(row, r, horizontal).1.None? <==> Sum(row) <= 0.0 || r.w <= 0.0 || r.h <= 0.0
    ensures LayoutRowSpec(row, r, horizontal).1.None? ==> LayoutRowSpec(row, r, horizontal).0 == []
  {
  }

  /** Every node `layout_row` lays out has a box of positive sides whose
      area is its value. */
  lemma LayoutRowExact(row: seq<real>, r: Rect, horizontal: bool)
    ensures AllExact(LayoutRowSpec(row, r, horizontal).0)
  {
    var rowSum := Sum(row);
    if rowSum > 0.0 && r.w > 0.0 && r.h > 0.0 {
      if horizontal {
        RowTilesAcross(row, true, r.x, r.y, rowSum / r.w);
      } else {
        RowTilesAcross(row, false, r.y, r.x, rowSum / r.h);
      }
    }
  }

  /** The rectangle `layout_row` returns is what is left of `r` beside the
      row: the same far edges, and the area of `r` less the row's sum. */
  lemma LayoutRowRest(row: seq<real>, r: Rect, horizontal: bool)
    requires LayoutRowSpec(row, r, horizontal).1.Some?
    ensures var next := LayoutRowSpec(row, r, horizontal).1.value;
      && Area(next) == Area(r) - Sum(row)
      && (horizontal ==> next.x == r.x && next.w == r.w && next.y + next.h == r.y + r.h)
      && (!horizontal ==> next.y == r.y && next.h == r.h && next.x + next.w == r.x + r.w)
  {
    var rowSum := Sum(row);
    if horizontal {
      var t := rowSum / r.w;
      assert r.w * (r.h - t) == r.w * r.h - r.w * t;
    } else {
      var t := rowSum / r.h;
      assert (r.w - t) * r.h == r.w * r.h - t * r.h;
    }
  }

  /** A row of positive values laid out in a rectangle of positive sides
      gets one node per value, in order, spanning the whole side the row
      runs along: `rx` to `rx + rw` for a horizontal row, `ry` to `ry + rh`
      for a vertical one. */
  lemma LayoutRowFull(row: seq<real>, r: Rect, horizontal: bool)
    requires row != [] && AllPositive(row) && r.w > 0.0 && r.h > 0.0
    ensures LayoutRowSpec(row, r, horizontal).1.Some?
    ensures Sizes(LayoutRowSpec(row, r, horizontal).0) == row
    ensures End(LayoutRowSpec(row, r, horizontal).0, horizontal, if horizontal then r.x else r.y)
              == if horizontal then r.x + r.w else r.y + r.h
  {
    SumPositive(row);
    var rowSum := Sum(row);
    if horizontal {
      var t := rowSum / r.w;
      DivDiv(rowSum, r.w);
      RowTilesFull(row, true, r.x, r.y, t);
    } else {
      var t := rowSum / r.h;
      DivDiv(rowSum, r.h);
      RowTilesFull(row, false, r.y, r.x, t);
    }
  }

  /** One turn of `for val in row`: a node for `row[k]` when its length
      is positive. */
  method PlaceValue<D>(row: seq<real>, k: nat, horizontal: bool, pos: real, across: real, thick: real,
                       result: seq<TreemapNode<D>>, ghost done: seq<Tile>, ghost tiles: seq<Tile>)
    returns (result': seq<TreemapNode<D>>, ghost tiles': seq<Tile>, pos': real)
    requires k < |row| && thick > 0.0 && Made(result, done + tiles)
    ensures tiles' + RowTiles(row[k + 1..], horizontal, pos', across, thick) == tiles + RowTiles(row[k..], horizontal, pos, across, thick)
    ensures Made(result', done + tiles')
    ensures |result| <= |result'| && result'[..|result|] == result
    ensures forall i | |result| <= i < |result'| :: fresh(result'[i])
  {
    result', tiles', pos' := result, tiles, pos;
    var len := row[k] / thick;
    assert row[k..][1..] == row[k + 1..];
    if len > 0.0 {
      var t := Place(row[k], horizontal, pos, across, len, thick);
      var node := new TreemapNode("", row[k], t.box);
      result', tiles' := result + [node], tiles + [t];
      pos' := pos + len;
      SeqAssoc(done, tiles, [t]);
    }
  }

  /** The nodes are distinct, have no data and an empty label, and are laid
      out as the tiles say. */
  predicate Made<D>(nodes: seq<TreemapNode<D>>, tiles: seq<Tile>)
    reads nodes
  {
    && |nodes| == |tiles|
    && (forall i, j | 0 <= i < j < |nodes| :: nodes[i] != nodes[j])
    && (forall i | 0 <= i < |nodes| ::
          nodes[i].caption == "" && nodes[i].data == None && nodes[i].size == tiles[i].size && nodes[i].Box() == tiles[i].box)
  }

  /** `layout_row`: the nodes it makes are appended to `result`. */
  method LayoutRow<D>(row: seq<real>, r: Rect, horizontal: bool, result: seq<TreemapNode<D>>, ghost done: seq<Tile>)
    returns (result': seq<TreemapNode<D>>, next: Option<Rect>)
    requires Made(result, done)
    ensures next == LayoutRowSpec(row, r, horizontal).1
    ensures Made(result', done + LayoutRowSpec(row, r, horizontal).0)
    ensures |result| <= |result'| && result'[..|result|] == result
    ensures forall i | |result| <= i < |result'| :: fresh(result'[i])
  {
    var rowSum := Sum(row);
    if rowSum <= 0.0 || r.w <= 0.0 || r.h <= 0.0 {
      assert done + [] == done;
      return result, None;
    }
    var thick := if horizontal then rowSum / r.w else rowSum / r.h;
    var across := if horizontal then r.y else r.x;
    var pos := if horizontal then r.x else r.y;
    result' := result;
    ghost var tiles: seq<Tile> := [];
    for k := 0 to |row|
      invariant tiles + RowTiles(row[k..], horizontal, pos, across, thick) == RowTiles(row, horizontal, if horizontal then r.x else r.y, across, thick)
      invariant Made(result', done + tiles)
      invariant |result| <= |result'| && result'[..|result|] == result
      invariant forall i | |result| <= i < |result'| :: fresh(result'[i])
    {
      ghost var prior := result';
      result', tiles, pos := PlaceValue(row, k, horizontal, pos, across, thick, result', done, tiles);
      assert forall i | 0 <= i < |prior| :: result'[i] == prior[i];
    }
    next := if horizontal then Some(Rect(r.x, r.y + thick, r.w, r.h - thick)) else Some(Rect(r.x + thick, r.y, r.w - thick, r.h));
  }

  // ---------------------------------------------------------------------
  // _squarify

  /** `s / total * w * h` */
  function Scale(s: real, total: real, w: real, h: real): real
    requires total != 0.0
  {
    s / total * w * h
  }

  /** `[s / total * w * h for s in sizes]` */
  function Normalize(sizes: seq<real>, total: real, w: real, h: real): seq<real>
    requires total != 0.0
  {
    if sizes == [] then [] else [Scale(sizes[0], total, w, h)] + Normalize(sizes[1..], total, w, h)
  }

  /** Accepting the next value into the row: it is the first, or the
      worst ratio does not grow. */
  predicate Accepts(row: seq<real>, v: real, side: real)
  {
    |row + [v]| == 1 || AtMost(WorstRatio(row + [v], side), WorstRatio(row, side))
  }

  /** The nodes the `while remaining` loop and the final `if row:` lay out
      from `remaining`, the row being built, the orientation and the
      rectangle left. A value is accepted into the row when it is the
      first or does not make the worst ratio larger; otherwise the row is
      laid out and the next row, of the other orientation, starts in the
      rectangle left over. When `layout_row` returns None the loop breaks
      and the same row is laid out again, which lays out nothing. */
  function Run(remaining: seq<real>, row: seq<real>, horizontal: bool, r: Rect): seq<Tile>
    decreases 2 * |remaining| + (if row == [] then 0 else 1)
  {
    if remaining == [] then (if row != [] then LayoutRowSpec(row, r, horizontal).0 else [])
    else
      var side := if horizontal then r.w else r.h;
      if Accepts(row, remaining[0], side) then
        Run(remaining[1..], row + [remaining[0]], horizontal, r)
      else
        var laid := LayoutRowSpec(row, r, horizontal);
        if laid.1.None? then laid.0 + LayoutRowSpec(row, r, horizontal).0
        else laid.0 + Run(remaining, [], !horizontal, laid.1.value)
  }

  /** `_squarify(sizes, rect)`: nothing for no sizes or a non-positive
      total; otherwise the sizes scaled to the rectangle's area, laid out
      from a horizontal first row. */
  function SquarifySpec(sizes: seq<real>, r: Rect): seq<Tile>
  {
    if sizes == [] then []
    else
      var total := Sum(sizes);
      if total <= 0.0 then [] else Run(Normalize(sizes, total, r.w, r.h), [], true, r)
  }

  /** Every node laid out has a box of positive sides whose area is its
      (scaled) size. */
  lemma {:induction false} RunExact(remaining: seq<real>, row: seq<real>, horizontal: bool, r: Rect)
    ensures AllExact(Run(remaining, row, horizontal, r))
    decreases 2 * |remaining| + (if row == [] then 0 else 1)
  {
    if remaining == [] {
      LayoutRowExact(row, r, horizontal);
    } else {
      var side := if horizontal then r.w else r.h;
      if Accepts(row, remaining[0], side) {
        RunExact(remaining[1..], row + [remaining[0]], horizontal, r);
      } else {
        var laid := LayoutRowSpec(row, r, horizontal);
        LayoutRowExact(row, r, horizontal);
        if laid.1.None? {
          AllExactConcat(laid.0, laid.0);
        } else {
          RunExact(remaining, [], !horizontal, laid.1.value);
          AllExactConcat(laid.0, Run(remaining, [], !horizontal, laid.1.value));
        }
      }
    }
  }

  lemma SquarifyExact(sizes: seq<real>, r: Rect)
    ensures AllExact(SquarifySpec(sizes, r))
  {
    if sizes != [] && Sum(sizes) > 0.0 {
      RunExact(Normalize(sizes, Sum(sizes), r.w, r.h), [], true, r);
    }
  }

  /** A rectangle with a side that is not positive gets no nodes. */
  lemma {:induction false} RunDegenerate(remaining: seq<real>, row: seq<real>, horizontal: bool, r: Rect)
    requires r.w <= 0.0 || r.h <= 0.0
    ensures Run(remaining, row, horizontal, r) == []
    decreases 2 * |remaining| + (if row == [] then 0 else 1)
  {
    if remaining != [] {
      var side := if horizontal then r.w else r.h;
      if Accepts(row, remaining[0], side) {
        RunDegenerate(remaining[1..], row + [remaining[0]], horizontal, r);
      }
    }
  }

  lemma SquarifyDegenerate(sizes: seq<real>, r: Rect)
    requires r.w <= 0.0 || r.h <= 0.0
    ensures SquarifySpec(sizes, r) == []
  {
    if sizes != [] && Sum(sizes) > 0.0 {
      RunDegenerate(Normalize(sizes, Sum(sizes), r.w, r.h), [], true, r);
    }
  }

  /** With positive values filling the rectangle exactly, every value is
      laid out, in order: the area left always equals what is still to be
      laid out, so no rectangle runs out and no row is refused. */
  lemma {:induction false} RunComplete(remaining: seq<real>, row: seq<real>, horizontal: bool, r: Rect)
    requires AllPositive(row + remaining) && r.w > 0.0 && r.h > 0.0
    requires Area(r) == Sum(row) + Sum(remaining)
    ensures Sizes(Run(remaining, row, horizontal, r)) == row + remaining
    decreases 2 * |remaining| + (if row == [] then 0 else 1)
  {
    if remaining == [] {
      assert row + remaining == row;
      if row != [] {
        LayoutRowFull(row, r, horizontal);
      }
    } else if Accepts(row, remaining[0], if horizontal then r.w else r.h) {
      AcceptKeeps(remaining, row);
      RunComplete(remaining[1..], row + [remaining[0]], horizontal, r);
    } else {
      AllPositiveSplit(row, remaining);
      var laid := LayoutRowSpec(row, r, horizontal);
      LayoutRowFull(row, r, horizontal);
      var next := laid.1.value;
      LayoutRowRest(row, r, horizontal);
      RestPositive(remaining, r, next, horizontal);
      RunComplete(remaining, [], !horizontal, next);
      SizesConcat(laid.0, Run(remaining, [], !horizontal, next));
    }
  }

  /** Moving the next value into the row changes neither the values to lay
      out nor their sum. */
  lemma AcceptKeeps(remaining: seq<real>, row: seq<real>)
    requires remaining != []
    ensures (row + [remaining[0]]) + remaining[1..] == row + remaining
    ensures Sum(row + [remaining[0]]) + Sum(remaining[1..]) == Sum(row) + Sum(remaining)
  {
    assert (row + [remaining[0]]) + remaining[1..] == row + remaining;
    SumSnoc(row, remaining[0]);
  }

  /** The rectangle left after a row keeps one side of `r` and has the
      area of the values still to come, so both its sides are positive. */
  lemma RestPositive(remaining: seq<real>, r: Rect, next: Rect, horizontal: bool)
    requires remaining != [] && AllPositive(remaining) && r.w > 0.0 && r.h > 0.0
    requires Area(next) == Sum(remaining)
    requires horizontal ==> next.w == r.w
    requires !horizontal ==> next.h == r.h
    ensures next.w > 0.0 && next.h > 0.0
    ensures [] + remaining == remaining
  {
    SumPositive(remaining);
    assert [] + remaining == remaining;
  }

  /** Scaling keeps a positive size positive and is additive. */
  lemma ScalePositive(v: real, total: real, w: real, h: real)
    requires v > 0.0 && total > 0.0 && w > 0.0 && h > 0.0
    ensures Scale(v, total, w, h) > 0.0
  {
    MulPos(v / total, w);
    MulPos(v / total * w, h);
  }

  lemma ScaleAdd(a: real, b: real, total: real, w: real, h: real)
    requires total != 0.0
    ensures Scale(a + b, total, w, h) == Scale(a, total, w, h) + Scale(b, total, w, h)
  {
    assert (a + b) / total == a / total + b / total;
  }

  lemma ScaleWhole(total: real, w: real, h: real)
    requires total != 0.0
    ensures Scale(total, total, w, h) == w * h
  {
  }

  /** One scaled size per size, each the size's share of `w * h`. */
  lemma {:induction false} NormalizeAt(sizes: seq<real>, total: real, w: real, h: real)
    requires total != 0.0
    ensures |Normalize(sizes, total, w, h)| == |sizes|
    ensures forall i | 0 <= i < |sizes| :: Normalize(sizes, total, w, h)[i] == Scale(sizes[i], total, w, h)
  {
    if sizes != [] {
      NormalizeAt(sizes[1..], total, w, h);
      var n := Normalize(sizes, total, w, h);
      assert forall i | 1 <= i < |sizes| :: n[i] == Normalize(sizes[1..], total, w, h)[i - 1];
    }
  }

  /** Scaling keeps every size positive and sums to the scaled sum. */
  lemma {:induction false} NormalizeSum(sizes: seq<real>, total: real, w: real, h: real)
    requires total > 0.0 && w > 0.0 && h > 0.0 && AllPositive(sizes)
    ensures AllPositive(Normalize(sizes, total, w, h))
    ensures Sum(Normalize(sizes, total, w, h)) == Scale(Sum(sizes), total, w, h)
  {
    if sizes == [] {
      assert Scale(0.0, total, w, h) == 0.0;
    } else {
      AllPositiveTail(sizes);
      NormalizeSum(sizes[1..], total, w, h);
      ScalePositive(sizes[0], total, w, h);
      ScaleAdd(sizes[0], Sum(sizes[1..]), total, w, h);
      var n := Normalize(sizes, total, w, h);
      assert n == [Scale(sizes[0], total, w, h)] + Normalize(sizes[1..], total, w, h);
      assert forall i | 1 <= i < |n| :: n[i] == Normalize(sizes[1..], total, w, h)[i - 1];
    }
  }

  /** The squarified layout of positive sizes in a rectangle of positive
      sides lays out every size, in order, as a box of positive sides whose
      area is the size's share of the rectangle. */
  lemma SquarifyComplete(sizes: seq<real>, r: Rect)
    requires sizes != [] && AllPositive(sizes) && r.w > 0.0 && r.h > 0.0
    ensures Sum(sizes) > 0.0 && Sizes(SquarifySpec(sizes, r)) == Normalize(sizes, Sum(sizes), r.w, r.h)
    ensures |SquarifySpec(sizes, r)| == |sizes|
    ensures Sum(sizes) > 0.0 && forall i | 0 <= i < |sizes| ::
              Exact(SquarifySpec(sizes, r)[i]) && SquarifySpec(sizes, r)[i].size == Scale(sizes[i], Sum(sizes), r.w, r.h)
  {
    SumPositive(sizes);
    var total := Sum(sizes);
    var n := Normalize(sizes, total, r.w, r.h);
    NormalizeSum(sizes, total, r.w, r.h);
    ScaleWhole(total, r.w, r.h);
    assert [] + n == n;
    RunComplete(n, [], true, r);
    SquarifyExact(sizes, r);
    var ts := SquarifySpec(sizes, r);
    SizesLength(ts);
    NormalizeAt(sizes, total, r.w, r.h);
  }

  lemma {:induction false} SizesLength(ts: seq<Tile>)
    ensures |Sizes(ts)| == |ts|
    ensures forall i | 0 <= i < |ts| :: Sizes(ts)[i] == ts[i].size
  {
    if ts != [] {
      SizesLength(ts[1..]);
    }
  }

  /** `_squarify(sizes, rect)`: the `while remaining` loop over the scaled
      sizes, then the last row. */
  method Squarify<D>(sizes: seq<real>, r: Rect) returns (result: seq<TreemapNode<D>>)
    ensures Made(result, SquarifySpec(sizes, r))
    ensures forall i | 0 <= i < |result| :: fresh(result[i])
  {
    if sizes == [] {
      return [];
    }
    var total := Sum(sizes);
    if total <= 0.0 {
      return [];
    }
    var normalized := Normalize(sizes, total, r.w, r.h);
    result := SquarifyRun(normalized, r);
  }

  /** The loop and the last row. */
  method SquarifyRun<D>(normalized: seq<real>, r: Rect) returns (result: seq<TreemapNode<D>>)
    ensures Made(result, Run(normalized, [], true, r))
    ensures forall i | 0 <= i < |result| :: fresh(result[i])
  {
    var row, horizontal, current;
    ghost var done;
    result, done, row, horizontal, current := SquarifyLoop(normalized, r);
    ghost var prior := result;
    result := FinishRow(row, current, horizontal, result, done);
    assert forall i | 0 <= i < |prior| :: result[i] == prior[i];
  }

  /** The `while remaining` loop, from `remaining = list(normalized)`,
      `row = []`, `is_horizontal = True`, `current_rect = rect`; what is
      left for the final `if row:` is the row the loop ended with. */
  method SquarifyLoop<D>(normalized: seq<real>, r: Rect)
    returns (result: seq<TreemapNode<D>>, ghost done: seq<Tile>, row: seq<real>, horizontal: bool, current: Rect)
    ensures done + LastRow(row, current, horizontal) == Run(normalized, [], true, r)
    ensures Made(result, done)
    ensures forall i | 0 <= i < |result| :: fresh(result[i])
  {
    result := [];
    done := [];
    var remaining := normalized;
    row := [];
    horizontal := true;
    current := r;
    while remaining != []
      invariant done + Run(remaining, row, horizontal, current) == Run(normalized, [], true, r)
      invariant Made(result, done)
      invariant forall i | 0 <= i < |result| :: fresh(result[i])
      decreases Measure(remaining, row)
    {
      var stop;
      ghost var prior := result;
      remaining, row, horizontal, current, result, done, stop := SquarifyStep(remaining, row, horizontal, current, result, done);
      assert forall i | 0 <= i < |prior| :: result[i] == prior[i];
      if stop {
        break;
      }
    }
  }

  /** `if row: layout_row(row, current_rect, is_horizontal)` */
  method FinishRow<D>(row: seq<real>, current: Rect, horizontal: bool, result: seq<TreemapNode<D>>, ghost done: seq<Tile>)
    returns (result': seq<TreemapNode<D>>)
    requires Made(result, done)
    ensures Made(result', done + LastRow(row, current, horizontal))
    ensures |result| <= |result'| && result'[..|result|] == result
    ensures forall i | |result| <= i < |result'| :: fresh(result'[i])
  {
    result' := result;
    if row != [] {
      var unused;
      result', unused := LayoutRow(row, current, horizontal, result, done);
    } else {
      assert done + [] == done;
    }
  }

  function Measure(remaining: seq<real>, row: seq<real>): nat
  {
    2 * |remaining| + if row == [] then 0 else 1
  }

  /** What the final `if row:` lays out. */
  function LastRow(row: seq<real>, r: Rect, horizontal: bool): seq<Tile>
  {
    if row != [] then LayoutRowSpec(row, r, horizontal).0 else []
  }

  /** One turn of the `while remaining` loop; `stop` is the `break`. */
  method SquarifyStep<D>(remaining: seq<real>, row: seq<real>, horizontal: bool, current: Rect,
                         result: seq<TreemapNode<D>>, ghost done: seq<Tile>)
    returns (remaining': seq<real>, row': seq<real>, horizontal': bool, current': Rect,
             result': seq<TreemapNode<D>>, ghost done': seq<Tile>, stop: bool)
    requires remaining != [] && Made(result, done)
    ensures done' + (if stop then LastRow(row', current', horizontal') else Run(remaining', row', horizontal', current'))
            == done + Run(remaining, row, horizontal, current)
    ensures !stop ==> Measure(remaining', row') < Measure(remaining, row)
    ensures Made(result', done')
    ensures |result| <= |result'| && result'[..|result|] == result
    ensures forall i | |result| <= i < |result'| :: fresh(result'[i])
  {
    remaining', horizontal', current', result', done', stop := remaining, horizontal, current, result, done, false;
    row' := row + [remaining[0]];
    var side := if horizontal then current.w else current.h;
    assert row'[..|row'| - 1] == row;
    if |row'| == 1 || AtMost(WorstRatio(row', side), WorstRatio(row'[..|row'| - 1], side)) {
      RunAccept(remaining, row, horizontal, current);
      remaining' := remaining[1..];
    } else {
      row' := row'[..|row'| - 1];
      RunClose(remaining, row, horizontal, current);
      var next;
      ghost var laid := LayoutRowSpec(row, current, horizontal).0;
      result', next := LayoutRow(row, current, horizontal, result, done);
      SeqAssoc(done, laid, if next.None? then laid else Run(remaining, [], !horizontal, next.value));
      done' := done + laid;
      if next.None? {
        stop := true;
      } else {
        current' := next.value;
        row' := [];
        horizontal' := !horizontal;
      }
    }
  }

  lemma SeqAssoc<T>(a: seq<T>, b: seq<T>, c: seq<T>)
    ensures (a + b) + c == a + (b + c)
  {
  }

  lemma RunAccept(remaining: seq<real>, row: seq<real>, horizontal: bool, r: Rect)
    requires remaining != [] && Accepts(row, remaining[0], if horizontal then r.w else r.h)
    ensures Run(remaining, row, horizontal, r) == Run(remaining[1..], row + [remaining[0]], horizontal, r)
  {
  }

  lemma RunClose(remaining: seq<real>, row: seq<real>, horizontal: bool, r: Rect)
    requires remaining != [] && !Accepts(row, remaining[0], if horizontal then r.w else r.h)
    ensures var laid := LayoutRowSpec(row, r, horizontal);
      Run(remaining, row, horizontal, r)
      == laid.0 + if laid.1.None? then laid.0 else Run(remaining, [], !horizontal, laid.1.value)
  {
  }

  // ---------------------------------------------------------------------
  // build_treemap

  /** `(label, size, data)` */
  datatype Item<D> = Item(caption: string, size: real, data: Option<D>)

  /** `[(label, float(size), data) for (label, size, data) in items if float(size) > 0]` */
  function Positive<D>(items: seq<Item<D>>): seq<Item<D>>
  {
    if items == [] then [] else (if items[0].size > 0.0 then [items[0]] else []) + Positive(items[1..])
  }

  /** The kept items are exactly those of positive size, in order. */
  lemma {:induction false} PositiveMembers<D>(items: seq<Item<D>>)
    ensures forall it :: it in Positive(items) <==> it in items && it.size > 0.0
    ensures |Positive(items)| <= |items|
  {
    if items != [] {
      PositiveMembers(items[1..]);
      assert items == [items[0]] + items[1..];
    }
  }

  lemma {:induction false} PositiveSizes<D>(items: seq<Item<D>>)
    ensures AllPositive(ItemSizes(Positive(items)))
  {
    if items != [] {
      PositiveSizes(items[1..]);
      var head := if items[0].size > 0.0 then [items[0]] else [];
      assert Positive(items) == head + Positive(items[1..]);
      ItemSizesConcat(head, Positive(items[1..]));
      var hs := ItemSizes(head);
      var ts := ItemSizes(Positive(items[1..]));
      assert forall i | 0 <= i < |hs + ts| :: (hs + ts)[i] == if i < |hs| then hs[i] else ts[i - |hs|];
    }
  }

  /** `[size for _, size, _ in filtered]` */
  function ItemSizes<D>(items: seq<Item<D>>): (sizes: seq<real>)
    ensures |sizes| == |items|
    ensures forall i | 0 <= i < |items| :: sizes[i] == items[i].size
  {
    if items == [] then [] else [items[0].size] + ItemSizes(items[1..])
  }

  lemma {:induction false} ItemSizesConcat<D>(a: seq<Item<D>>, b: seq<Item<D>>)
    ensures ItemSizes(a + b) == ItemSizes(a) + ItemSizes(b)
  {
    if a != [] {
      assert (a + b)[1..] == a[1..] + b;
      ItemSizesConcat(a[1..], b);
    } else {
      assert a + b == b;
    }
  }

  /** The layout of the kept items in a `width` by `height` rectangle at
      the origin. */
  function Layout<D>(items: seq<Item<D>>, width: int, height: int): seq<Tile>
  {
    var kept := Positive(items);
    if kept == [] then [] else SquarifySpec(ItemSizes(kept), Rect(0.0, 0.0, width as real, height as real))
  }

  /** `build_treemap(items, width, height)`: nodes `zip`ped with the kept
      items, each carrying its item's label, size and data and the box the
      layout gave it. */
  method BuildTreemap<D>(items: seq<Item<D>>, width: int, height: int) returns (nodes: seq<TreemapNode<D>>)
    ensures |nodes| == Min(|Layout(items, width, height)|, |Positive(items)|)
    ensures forall i | 0 <= i < |nodes| ::
              && nodes[i].caption == Positive(items)[i].caption
              && nodes[i].size == Positive(items)[i].size
              && nodes[i].data == Positive(items)[i].data
              && nodes[i].Box() == Layout(items, width, height)[i].box
    ensures forall i | 0 <= i < |nodes| :: fresh(nodes[i])
  {
    if items == [] {
      return [];
    }
    var filtered := Positive(items);
    if filtered == [] {
      return [];
    }
    var sizes := ItemSizes(filtered);
    ghost var tiles := SquarifySpec(sizes, Rect(0.0, 0.0, width as real, height as real));
    var laid: seq<TreemapNode<D>> := Squarify(sizes, Rect(0.0, 0.0, width as real, height as real));
    nodes := Bind(laid, filtered, tiles);
  }

  /** `for node, (label, size, data) in zip(nodes, filtered)`: overwrite
      the label, size and data of each node, keeping its box. */
  method Bind<D>(laid: seq<TreemapNode<D>>, filtered: seq<Item<D>>, ghost tiles: seq<Tile>) returns (nodes: seq<TreemapNode<D>>)
    requires Made(laid, tiles)
    modifies laid
    ensures nodes == laid[..Min(|laid|, |filtered|)]
    ensures forall i | 0 <= i < |nodes| ::
              && nodes[i].caption == filtered[i].caption
              && nodes[i].size == filtered[i].size
              && nodes[i].data == filtered[i].data
              && nodes[i].Box() == tiles[i].box
  {
    var m := Min(|laid|, |filtered|);
    nodes := [];
    for k := 0 to m
      invariant nodes == laid[..k]
      invariant forall i | 0 <= i < |laid| :: laid[i].Box() == tiles[i].box
      invariant forall i | 0 <= i < k ::
                  laid[i].caption == filtered[i].caption && laid[i].size == filtered[i].size && laid[i].data == filtered[i].data
    {
      var node := laid[k];
      node.caption := filtered[k].caption;
      node.size := filtered[k].size;
      node.data := filtered[k].data;
      nodes := nodes + [node];
    }
  }

  function Min(a: nat, b: nat): nat
  {
    if a <= b then a else b
  }

  /** For a rectangle of positive sides every kept item gets a node, whose
      box has positive sides and the item's share of the rectangle's area;
      for a rectangle with a side that is not positive no item does. */
  lemma LayoutFacts<D>(items: seq<Item<D>>, width: int, height: int)
    ensures width > 0 && height > 0 ==>
              var kept := Positive(items);
              && |Layout(items, width, height)| == |kept|
              && (kept != [] ==> Sum(ItemSizes(kept)) > 0.0 && forall i | 0 <= i < |kept| ::
                   && Exact(Layout(items, width, height)[i])
                   && Layout(items, width, height)[i].size == Scale(kept[i].size, Sum(ItemSizes(kept)), width as real, height as real))
    ensures width <= 0 || height <= 0 ==> Layout(items, width, height) == []
  {
    var kept := Positive(items);
    var r := Rect(0.0, 0.0, width as real, height as real);
    if kept != [] {
      if width > 0 && height > 0 {
        PositiveSizes(items);
        SquarifyComplete(ItemSizes(kept), r);
      } else {
        SquarifyDegenerate(ItemSizes(kept), r);
      }
    }
  }
}
