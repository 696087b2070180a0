/**
 * From a selected region to the model's canvas (engine/src/inference/inference_roi_geometry.cpp).
 * Double precision is modelled by the reals.
 */
module RoiGeometry {
  datatype Rect = Rect(x: int, y: int, w: int, h: int)
  datatype Transform = Transform(source: Rect, content: Rect)

  const NOWHERE := Rect(0, 0, 0, 0)

  function Min(a: int, b: int): int { if a < b then a else b }
  function Max(a: int, b: int): int { if a < b then b else a }
  function MinReal(a: real, b: real): real { if a < b then a else b }

  function Ceil(x: real): int { -((-x).Floor) }
  function Round(x: real): int { if x >= 0.0 then (x + 0.5).Floor else -((0.5 - x).Floor) }

  predicate Empty(r: Rect) { r.w <= 0 || r.h <= 0 }

  /** The `&` of two rectangles. */
  function Meet(a: Rect, b: Rect): Rect {
    var x, y := Max(a.x, b.x), Max(a.y, b.y);
    var w, h := Min(a.x + a.w, b.x + b.w) - x, Min(a.y + a.h, b.y + b.h) - y;
    if Empty(a) || Empty(b) || w <= 0 || h <= 0 then NOWHERE else Rect(x, y, w, h)
  }

  predicate Contains(outer: Rect, inner: Rect) {
    outer.x <= inner.x && outer.y <= inner.y && inner.x + inner.w <= outer.x + outer.w && inner.y + inner.h <= outer.y + outer.h
  }

  predicate Holds(r: Rect, x: int, y: int) { r.x <= x < r.x + r.w && r.y <= y < r.y + r.h }

  /** `Meet` is the set of common points. */
  lemma MeetIsIntersection(a: Rect, b: Rect, x: int, y: int)
    ensures Holds(Meet(a, b), x, y) <==> Holds(a, x, y) && Holds(b, x, y)
  {
  }

  lemma MeetInside(a: Rect, b: Rect)
    requires !Empty(a) && Contains(b, a)
    ensures Meet(a, b) == a
  {
  }

  // ---------------------------------------------------------------------------
  // Placing the crop on the canvas.

  function Scale(sw: int, sh: int, mw: int, mh: int): real
    requires sw > 0 && sh > 0
  {
    MinReal(mw as real / sw as real, mh as real / sh as real)
  }

  function Scaled(side: int, scale: real): real { side as real * scale }

  function FitContent(sw: int, sh: int, mw: int, mh: int): Rect
    requires sw > 0 && sh > 0
  {
    var w := Max(1, Min(mw, Round(Scaled(sw, Scale(sw, sh, mw, mh)))));
    var h := Max(1, Min(mh, Round(Scaled(sh, Scale(sw, sh, mw, mh)))));
    Rect((mw - w) / 2, (mh - h) / 2, w, h)
  }

  /** The common scale makes one side exactly as long as the canvas. */
  lemma ScaleFills(sw: int, sh: int, mw: int, mh: int)
    requires sw > 0 && sh > 0 && mw > 0 && mh > 0
    ensures Round(Scaled(sw, Scale(sw, sh, mw, mh))) == mw || Round(Scaled(sh, Scale(sw, sh, mw, mh))) == mh
  {
    if mw as real / sw as real < mh as real / sh as real {
    } else {
    }
  }

  /** The content lies on the canvas, is centred to the pixel, and fills the canvas in one direction. */
  lemma ContentFits(sw: int, sh: int, mw: int, mh: int)
    requires sw > 0 && sh > 0 && mw > 0 && mh > 0
    ensures var c := FitContent(sw, sh, mw, mh);
            !Empty(c) && Contains(Rect(0, 0, mw, mh), c) && (c.w == mw || c.h == mh)
            && 0 <= mw - c.w - 2 * c.x <= 1 && 0 <= mh - c.h - 2 * c.y <= 1
  {
    hide Scale, Scaled, Round;
    ScaleFills(sw, sh, mw, mh);
  }

  /** `got` is `want` to the pixel, both counted in parts of `unit`. */
  predicate Nearest(got: int, want: int, unit: int) { 2 * (got * unit - want) <= unit && 2 * (want - got * unit) <= unit }

  lemma HalfOf(d: real, u: real)
    requires -0.5 <= d <= 0.5 && u > 0.0
    ensures -0.5 * u <= d * u <= 0.5 * u
  {
    assert (0.5 - d) * u >= 0.0 && (d + 0.5) * u >= 0.0;
  }

  lemma RoundIsNear(x: real)
    ensures -0.5 <= Round(x) as real - x <= 0.5
  {
  }

  lemma ProductOfReals(a: int, b: int)
    ensures (a * b) as real == a as real * b as real
  {
  }

  lemma DifferenceTimes(a: real, b: real, u: real)
    ensures (a - b) * u == a * u - b * u
  {
  }

  lemma HalfAsIntegers(g: int, unit: int, y: real)
    requires g as real == y && -0.5 * unit as real <= y <= 0.5 * unit as real
    ensures 2 * g <= unit && -2 * g <= unit
  {
  }

  lemma RoundIsNearest(want: int, unit: int, x: real)
    requires unit > 0 && x * unit as real == want as real
    ensures Nearest(Round(x), want, unit)
  {
    var n := Round(x);
    RoundIsNear(x);
    hide Round;
    HalfOf(n as real - x, unit as real);
    DifferenceTimes(n as real, x, unit as real);
    ProductOfReals(n, unit);
    HalfAsIntegers(n * unit - want, unit, (n as real - x) * unit as real);
  }

  /** The scale that fills one side, applied to the other. */
  lemma ProportionalSide(full: int, other: int, m: int, n: int, scale: real, limit: real)
    requires full > 0 && other > 0 && m > 0 && n > 0 && scale <= limit
    requires Scaled(full, scale) == m as real && Scaled(other, limit) == n as real
    ensures Round(Scaled(full, scale)) == m && Nearest(Round(Scaled(other, scale)), other * m, full) && Round(Scaled(other, scale)) <= n
  {
    var x := Scaled(other, scale);
    assert x <= n as real by {
      assert (limit - scale) * other as real >= 0.0;
    }
    assert x * full as real == (other * m) as real by {
      assert x * full as real == other as real * (scale * full as real);
      ProductOfReals(other, m);
    }
    RoundIsNearest(other * m, full, x);
    hide Nearest, Scaled;
  }

  lemma ScaleFactors(sw: int, sh: int, mw: int, mh: int) returns (across: real, down: real)
    requires sw > 0 && sh > 0 && mw > 0 && mh > 0
    ensures Scaled(sw, across) == mw as real && Scaled(sh, down) == mh as real
    ensures Scale(sw, sh, mw, mh) == if across < down then across else down
  {
    across, down := mw as real / sw as real, mh as real / sh as real;
  }

  /** The scaled sides: one is the canvas's, the other keeps the proportions and fits. */
  predicate Proportional(sw: int, sh: int, mw: int, mh: int, w: int, h: int) {
    (w == mw && Nearest(h, sh * mw, sw) && h <= mh) || (h == mh && Nearest(w, sw * mh, sh) && w <= mw)
  }

  lemma SidesOfScale(sw: int, sh: int, mw: int, mh: int)
    requires sw > 0 && sh > 0 && mw > 0 && mh > 0
    ensures Proportional(sw, sh, mw, mh, Round(Scaled(sw, Scale(sw, sh, mw, mh))), Round(Scaled(sh, Scale(sw, sh, mw, mh))))
  {
    hide Round, Scale, Scaled, Nearest;
    var across, down := ScaleFactors(sw, sh, mw, mh);
    if across < down {
      ProportionalSide(sw, sh, mw, mh, Scale(sw, sh, mw, mh), down);
    } else {
      ProportionalSide(sh, sw, mh, mw, Scale(sw, sh, mw, mh), across);
    }
  }

  /** To the pixel, or a single pixel for less than half of one. */
  predicate NearestAtLeastOne(got: int, want: int, unit: int) { Nearest(got, want, unit) || (got == 1 && 2 * want <= unit) }

  lemma AtLeastOne(got: int, want: int, unit: int)
    requires Nearest(got, want, unit) && unit > 0
    ensures NearestAtLeastOne(Max(1, got), want, unit)
  {
    if got < 1 {
      assert got * unit <= 0;
    }
  }

  /** The other side of the content keeps the crop's proportions to the pixel, but is never less than one. */
  lemma ContentKeepsProportions(sw: int, sh: int, mw: int, mh: int)
    requires sw > 0 && sh > 0 && mw > 0 && mh > 0
    ensures var c := FitContent(sw, sh, mw, mh);
            (c.w == mw && NearestAtLeastOne(c.h, sh * mw, sw)) || (c.h == mh && NearestAtLeastOne(c.w, sw * mh, sh))
  {
    hide Nearest, NearestAtLeastOne, Scale, Scaled, Round;
    SidesOfScale(sw, sh, mw, mh);
    var w, h := Round(Scaled(sw, Scale(sw, sh, mw, mh))), Round(Scaled(sh, Scale(sw, sh, mw, mh)));
    if w == mw && Nearest(h, sh * mw, sw) && h <= mh {
      AtLeastOne(h, sh * mw, sw);
    } else {
      AtLeastOne(w, sw * mh, sh);
    }
  }

  // ---------------------------------------------------------------------------
  // Growing the selection to the canvas's shape.

  /** The wanted extent of one side: at least `own`, at least `other` in proportion, at most `limit`. */
  function Wanted(own: int, proportional: real, limit: int): real {
    MinReal(if own as real < proportional then proportional else own as real, limit as real)
  }

  /** One direction of the expansion, shifted back inside the source. */
  datatype Span = Span(lo: int, hi: int)

  function Shifted(center: real, extent: real, limit: int): Span {
    var lo := (center - extent * 0.5).Floor;
    var hi := lo + Ceil(extent);
    var s := if lo < 0 then Span(0, hi - lo) else Span(lo, hi);
    if s.hi > limit then Span(s.lo - (s.hi - limit), limit) else s
  }

  /** The shifted span has the rounded-up extent, lies inside the source, and keeps the selection. */
  lemma ShiftedKeeps(x: int, w: int, extent: real, limit: int)
    requires 0 <= x && 0 < w && x + w <= limit && w as real <= extent <= limit as real
    ensures var s := Shifted(Middle(x, w), extent, limit);
            0 <= s.lo <= x && x + w <= s.hi <= limit && s.hi - s.lo == Ceil(extent)
  {
    var c := Middle(x, w);
    var lo := (c - extent * 0.5).Floor;
    assert lo as real <= c - extent * 0.5 < lo as real + 1.0;
    assert c - extent * 0.5 <= x as real;
    assert extent <= Ceil(extent) as real < extent + 1.0;
    assert (lo + Ceil(extent)) as real > c + extent * 0.5 - 1.0 >= (x + w) as real - 1.0;
  }

  /** The two extents of the canvas's shape, before they are cut at the source. */
  function GrownWidth(w: real, h: real, ratio: real): real
    requires h > 0.0
  {
    if w / h < ratio then h * ratio else w
  }

  function GrownHeight(w: real, h: real, ratio: real): real
    requires h > 0.0 && ratio > 0.0
  {
    if w / h < ratio then h else w / ratio
  }

  lemma ScaledOrder(x: real, y: real, z: real)
    requires z > 0.0
    ensures x < y <==> x * z < y * z
  {
    assert y * z - x * z == (y - x) * z;
    if x < y {
      assert (y - x) * z > 0.0;
    } else {
      assert (x - y) * z >= 0.0;
    }
  }

  /** The smallest extents of the canvas's shape that hold the selection. */
  lemma GrownIsLargest(w: real, h: real, ratio: real)
    requires w > 0.0 && h > 0.0 && ratio > 0.0
    ensures GrownWidth(w, h, ratio) == (if w < h * ratio then h * ratio else w)
    ensures GrownHeight(w, h, ratio) == (if h < w / ratio then w / ratio else h)
  {
    var q, p := w / h, w / ratio;
    assert q * h == w && p * ratio == w;
    ScaledOrder(q, ratio, h);
    ScaledOrder(h, p, ratio);
    assert ratio * h == h * ratio;
  }

  function Ratio(mw: int, mh: int): (r: real)
    requires mw > 0 && mh > 0
    ensures r > 0.0
  {
    mw as real / mh as real
  }

  function Centered(xs: Span, ys: Span): Rect {
    Rect(Max(0, xs.lo), Max(0, ys.lo), xs.hi - Max(0, xs.lo), ys.hi - Max(0, ys.lo))
  }

  function Middle(lo: int, size: int): real { lo as real + size as real * 0.5 }

  function Expanded(sel: Rect, sw: int, sh: int, mw: int, mh: int): Rect
    requires sel.h > 0 && mw > 0 && mh > 0
  {
    var w := MinReal(GrownWidth(sel.w as real, sel.h as real, Ratio(mw, mh)), sw as real);
    var h := MinReal(GrownHeight(sel.w as real, sel.h as real, Ratio(mw, mh)), sh as real);
    Centered(Shifted(Middle(sel.x, sel.w), w, sw), Shifted(Middle(sel.y, sel.h), h, sh))
  }

  /** The expanded crop lies inside the source, contains the selection, and has the rounded-up extents. */
  lemma ExpandedKeeps(sel: Rect, sw: int, sh: int, mw: int, mh: int)
    requires sel.w > 0 && sel.h > 0 && mw > 0 && mh > 0
    requires 0 <= sel.x && 0 <= sel.y && sel.x + sel.w <= sw && sel.y + sel.h <= sh
    ensures var e := Expanded(sel, sw, sh, mw, mh);
            Contains(Rect(0, 0, sw, sh), e) && Contains(e, sel)
            && e.w == Ceil(Wanted(sel.w, sel.h as real * Ratio(mw, mh), sw))
            && e.h == Ceil(Wanted(sel.h, sel.w as real / Ratio(mw, mh), sh))
  {
    GrownIsLargest(sel.w as real, sel.h as real, Ratio(mw, mh));
    ExpandedAs(sel, sw, sh, mw, mh, sel.h as real * Ratio(mw, mh), sel.w as real / Ratio(mw, mh));
  }

  lemma ExpandedAs(sel: Rect, sw: int, sh: int, mw: int, mh: int, across: real, down: real)
    requires sel.w > 0 && sel.h > 0 && mw > 0 && mh > 0
    requires 0 <= sel.x && 0 <= sel.y && sel.x + sel.w <= sw && sel.y + sel.h <= sh
    requires GrownWidth(sel.w as real, sel.h as real, Ratio(mw, mh)) == (if sel.w as real < across then across else sel.w as real)
    requires GrownHeight(sel.w as real, sel.h as real, Ratio(mw, mh)) == (if sel.h as real < down then down else sel.h as real)
    ensures var e := Expanded(sel, sw, sh, mw, mh);
            Contains(Rect(0, 0, sw, sh), e) && Contains(e, sel)
            && e.w == Ceil(Wanted(sel.w, across, sw)) && e.h == Ceil(Wanted(sel.h, down, sh))
  {
    hide GrownWidth, GrownHeight, Ratio, Shifted, Ceil;
    ShiftedKeeps(sel.x, sel.w, Wanted(sel.w, across, sw), sw);
    ShiftedKeeps(sel.y, sel.h, Wanted(sel.h, down, sh), sh);
  }

  /** One side stays, and the other grows to the least number of pixels that gives the canvas's shape. */
  predicate Shaped(grown: int, kept: int, across: int, down: int) {
    kept * across <= grown * down < kept * across + down
  }

  lemma AtMostTimes(x: real, y: real, d: real)
    requires x <= y && d > 0.0
    ensures x * d <= y * d
  {
    ScaledOrder(y, x, d);
  }

  lemma OrderOfReals(a: int, b: int)
    ensures a as real <= b as real ==> a <= b
    ensures (a as real) < b as real ==> a < b
  {
  }

  lemma CeilIsNext(x: real)
    ensures x <= Ceil(x) as real && ((Ceil(x) - 1) as real) < x
  {
  }

  /** A whole number `n` divided by `d`, rounded up. */
  lemma CeilTimes(x: real, n: int, d: int)
    requires d > 0 && x * d as real == n as real
    ensures n <= Ceil(x) * d && (Ceil(x) - 1) * d < n
  {
    CeilIsNext(x);
    TimesBetween(x, Ceil(x) - 1, Ceil(x), n, d);
  }

  lemma TimesBetween(x: real, b: int, c: int, n: int, d: int)
    requires d > 0 && x * d as real == n as real && b as real < x <= c as real
    ensures b * d < n <= c * d
  {
    AtMostTimes(x, c as real, d as real);
    ScaledOrder(b as real, x, d as real);
    ProductOfReals(c, d);
    ProductOfReals(b, d);
    OrderOfReals(n, c * d);
    OrderOfReals(b * d, n);
  }

  lemma PredecessorTimes(c: int, d: int)
    ensures (c - 1) * d == c * d - d
  {
  }

  lemma WantedIs(own: int, n: int, down: int, limit: int, x: real)
    requires 0 < own <= limit && down > 0 && x * down as real == n as real
    ensures var e := Ceil(Wanted(own, x, limit));
            if own * down < n then e == limit || (n <= e * down && (e - 1) * down < n) else e == own
  {
    ProductOfReals(own, down);
    ScaledOrder(own as real, x, down as real);
    OrderOfReals(own * down, n);
    CeilTimes(x, n, down);
  }

  lemma WantedAs(own: int, other: int, across: int, down: int, limit: int, x: real)
    requires 0 < own <= limit && down > 0 && x * down as real == (other * across) as real
    ensures var e := Ceil(Wanted(own, x, limit));
            if own * down < other * across then e == limit || Shaped(e, other, across, down) else e == own
  {
    WantedIs(own, other * across, down, limit, x);
    hide Wanted, Ceil;
    PredecessorTimes(Ceil(Wanted(own, x, limit)), down);
  }

  lemma RatioParts(w: int, h: int, mw: int, mh: int)
    requires mw > 0 && mh > 0
    ensures h as real * Ratio(mw, mh) * mh as real == (h * mw) as real
    ensures w as real / Ratio(mw, mh) * mw as real == (w * mh) as real
  {
    var q := mw as real / mh as real;
    assert q * mh as real == mw as real;
    ProductOfReals(h, mw);
    ProductOfReals(w, mh);
    var p := w as real / q;
    assert p * q == w as real;
    Regroup(p, q, mh as real);
    Regroup(h as real, q, mh as real);
  }

  lemma Regroup(a: real, b: real, c: real)
    ensures a * b * c == a * (b * c)
  {
  }

  /** The expanded crop has the canvas's shape in whole pixels, as far as the source allows it. */
  lemma ExpandedHasCanvasShape(sel: Rect, sw: int, sh: int, mw: int, mh: int)
    requires sel.w > 0 && sel.h > 0 && mw > 0 && mh > 0
    requires 0 <= sel.x && 0 <= sel.y && sel.x + sel.w <= sw && sel.y + sel.h <= sh
    ensures var e := Expanded(sel, sw, sh, mw, mh);
            if sel.w * mh < sel.h * mw
            then e.h == sel.h && (e.w == sw || Shaped(e.w, sel.h, mw, mh))
            else e.w == sel.w && (e.h == sh || Shaped(e.h, sel.w, mh, mw))
  {
    hide Expanded, Shaped, Ceil;
    ExpandedKeeps(sel, sw, sh, mw, mh);
    RatioParts(sel.w, sel.h, mw, mh);
    var across, down := sel.h as real * Ratio(mw, mh), sel.w as real / Ratio(mw, mh);
    SidesAs(sel.w, sel.h, mw, mh, sw, sh, across, down);
  }

  lemma SidesAs(w: int, h: int, mw: int, mh: int, sw: int, sh: int, across: real, down: real)
    requires 0 < w <= sw && 0 < h <= sh && mw > 0 && mh > 0
    requires across * mh as real == (h * mw) as real && down * mw as real == (w * mh) as real
    ensures var x, y := Ceil(Wanted(w, across, sw)), Ceil(Wanted(h, down, sh));
            if w * mh < h * mw
            then y == h && (x == sw || Shaped(x, h, mw, mh))
            else x == w && (y == sh || Shaped(y, w, mh, mw))
  {
    hide Wanted, Shaped, Ceil;
    WantedAs(w, h, mw, mh, sw, across);
    WantedAs(h, w, mh, mw, sh, down);
    EqualShape(w, h, mw, mh, sh, down);
  }

  /** A selection of the canvas's shape keeps both sides. */
  lemma EqualShape(w: int, h: int, mw: int, mh: int, sh: int, down: real)
    requires 0 < h <= sh && mw > 0 && mh > 0 && down * mw as real == (w * mh) as real
    ensures w * mh == h * mw ==> Shaped(Ceil(Wanted(h, down, sh)), w, mh, mw)
  {
    WantedAs(h, w, mh, mw, sh, down);
  }

  // ---------------------------------------------------------------------------
  // Aligning the crop to pairs of pixels.

  function Even(v: int): int { v - v % 2 }

  /** One direction of the alignment. */
  function AlignSpan(lo: int, size: int, limit: int): Span {
    var left, right := Even(lo), Min(limit, Even(lo + size + 1));
    Span(left, if right <= left then Min(limit, left + 2) else right)
  }

  /** Even from its start, and to its end unless that is the source's. */
  predicate InPairs(lo: int, size: int, limit: int) { lo % 2 == 0 && (size % 2 == 0 || lo + size == limit) }

  lemma AlignSpanKeeps(lo: int, size: int, limit: int)
    requires 0 <= lo && 0 < size && lo + size <= limit
    ensures var s := AlignSpan(lo, size, limit);
            0 <= s.lo && lo - 1 <= s.lo <= lo && lo + size <= s.hi <= lo + size + 1 && s.hi <= limit
            && InPairs(s.lo, s.hi - s.lo, limit)
  {
    assert Even(lo) == lo / 2 * 2 && Even(lo + size + 1) == (lo + size + 1) / 2 * 2;
  }

  function AlignCrop(input: Rect, bounds: Rect, yuv420: bool): Rect {
    var r := Meet(input, bounds);
    if !yuv420 || Empty(r) then r
    else
      var xs, ys := AlignSpan(r.x, r.w, bounds.w), AlignSpan(r.y, r.h, bounds.h);
      Rect(xs.lo, ys.lo, xs.hi - xs.lo, ys.hi - ys.lo)
  }

  /** Alignment only grows a crop, by at most one pixel on each side, and stays inside the source. */
  lemma AlignKeeps(input: Rect, sw: int, sh: int, yuv420: bool)
    requires !Empty(input) && Contains(Rect(0, 0, sw, sh), input)
    ensures var a := AlignCrop(input, Rect(0, 0, sw, sh), yuv420);
            !Empty(a) && Contains(Rect(0, 0, sw, sh), a) && Contains(a, input)
            && Contains(Rect(input.x - 1, input.y - 1, input.w + 2, input.h + 2), a)
            && (yuv420 ==> InPairs(a.x, a.w, sw) && InPairs(a.y, a.h, sh))
  {
    hide AlignSpan, InPairs;
    MeetInside(input, Rect(0, 0, sw, sh));
    AlignSpanKeeps(input.x, input.w, sw);
    AlignSpanKeeps(input.y, input.h, sh);
  }

  // ---------------------------------------------------------------------------
  // The whole transform.

  datatype Mode = Fit | Stretch | Expand

  const INVALID := Transform(NOWHERE, NOWHERE)

  function MakeTransform(selection: Rect, sw: int, sh: int, mw: int, mh: int, mode: Mode, yuv420: bool): Transform {
    var bounds := Rect(0, 0, sw, sh);
    if sw <= 0 || sh <= 0 || mw <= 0 || mh <= 0 || Empty(Meet(selection, bounds)) then INVALID
    else
      var sel := Meet(selection, bounds);
      var crop := AlignCrop(if mode.Expand? then Expanded(sel, sw, sh, mw, mh) else sel, bounds, yuv420);
      if Empty(crop) then INVALID
      else Transform(crop, if mode.Stretch? then Rect(0, 0, mw, mh) else FitContent(crop.w, crop.h, mw, mh))
  }

  /** The guard of `make_inference_roi_input`. */
  predicate InputAccepts(t: Transform, cols: int, rows: int, mw: int, mh: int) {
    && cols > 0 && rows > 0 && !Empty(t.source) && !Empty(t.content) && mw > 0 && mh > 0
    && var clipped, content := Meet(t.source, Rect(0, 0, cols, rows)), Meet(t.content, Rect(0, 0, mw, mh));
       !Empty(clipped) && !Empty(content) && clipped == t.source && content == t.content
  }

  predicate Usable(selection: Rect, sw: int, sh: int, mw: int, mh: int) {
    sw > 0 && sh > 0 && mw > 0 && mh > 0 && !Empty(Meet(selection, Rect(0, 0, sw, sh)))
  }

  /** The crop: inside the source, around the clipped selection, on even coordinates if asked. */
  lemma CropIsRight(selection: Rect, sw: int, sh: int, mw: int, mh: int, mode: Mode, yuv420: bool)
    requires Usable(selection, sw, sh, mw, mh)
    ensures var t := MakeTransform(selection, sw, sh, mw, mh, mode, yuv420);
            !Empty(t.source) && Contains(Rect(0, 0, sw, sh), t.source) && Contains(t.source, Meet(selection, Rect(0, 0, sw, sh)))
            && (yuv420 ==> t.source.x % 2 == 0 && t.source.y % 2 == 0)
            && t.content == if mode.Stretch? then Rect(0, 0, mw, mh) else FitContent(t.source.w, t.source.h, mw, mh)
  {
    hide AlignCrop, FitContent;
    var sel := Meet(selection, Rect(0, 0, sw, sh));
    ExpandedKeeps(sel, sw, sh, mw, mh);
    var e := if mode.Expand? then Expanded(sel, sw, sh, mw, mh) else sel;
    hide Expanded;
    AlignKeeps(e, sw, sh, yuv420);
  }

  /** Unless the crop is to be expanded it is the clipped selection, or that grown to pairs by at most a pixel on each side. */
  lemma PlainCropIsSelection(selection: Rect, sw: int, sh: int, mw: int, mh: int, mode: Mode, yuv420: bool)
    requires Usable(selection, sw, sh, mw, mh) && !mode.Expand?
    ensures var crop, sel := MakeTransform(selection, sw, sh, mw, mh, mode, yuv420).source, Meet(selection, Rect(0, 0, sw, sh));
            (!yuv420 ==> crop == sel) && Contains(Rect(sel.x - 1, sel.y - 1, sel.w + 2, sel.h + 2), crop) && Contains(crop, sel)
  {
    var sel := Meet(selection, Rect(0, 0, sw, sh));
    MeetInside(sel, Rect(0, 0, sw, sh));
    AlignKeeps(sel, sw, sh, yuv420);
    hide FitContent, AlignSpan;
  }

  /** Expanded, it is the expanded crop, or that grown so. */
  lemma ExpandedCropIsExpanded(selection: Rect, sw: int, sh: int, mw: int, mh: int, yuv420: bool)
    requires Usable(selection, sw, sh, mw, mh)
    ensures var crop, sel := MakeTransform(selection, sw, sh, mw, mh, Expand, yuv420).source, Meet(selection, Rect(0, 0, sw, sh));
            var e := Expanded(sel, sw, sh, mw, mh);
            (!yuv420 ==> crop == e) && Contains(Rect(e.x - 1, e.y - 1, e.w + 2, e.h + 2), crop) && Contains(crop, e)
  {
    var sel := Meet(selection, Rect(0, 0, sw, sh));
    ExpandedKeeps(sel, sw, sh, mw, mh);
    var e := Expanded(sel, sw, sh, mw, mh);
    hide FitContent, AlignSpan, Expanded;
    MeetInside(e, Rect(0, 0, sw, sh));
    AlignKeeps(e, sw, sh, yuv420);
  }

  /** Every pixel of the source that was selected is in the crop. */
  lemma SelectedPixelsAreCropped(selection: Rect, sw: int, sh: int, mw: int, mh: int, mode: Mode, yuv420: bool, x: int, y: int)
    requires mw > 0 && mh > 0 && Holds(selection, x, y) && Holds(Rect(0, 0, sw, sh), x, y)
    ensures Holds(MakeTransform(selection, sw, sh, mw, mh, mode, yuv420).source, x, y)
  {
    MeetIsIntersection(selection, Rect(0, 0, sw, sh), x, y);
    hide MakeTransform, FitContent;
    CropIsRight(selection, sw, sh, mw, mh, mode, yuv420);
  }

  /** Every usable selection yields a transform that the input stage accepts; every other yields none. */
  lemma InputNeverRejects(selection: Rect, sw: int, sh: int, mw: int, mh: int, mode: Mode, yuv420: bool)
    ensures InputAccepts(MakeTransform(selection, sw, sh, mw, mh, mode, yuv420), sw, sh, mw, mh) <==> Usable(selection, sw, sh, mw, mh)
  {
    if Usable(selection, sw, sh, mw, mh) {
      var t := MakeTransform(selection, sw, sh, mw, mh, mode, yuv420);
      CropIsRight(selection, sw, sh, mw, mh, mode, yuv420);
      ContentFits(t.source.w, t.source.h, mw, mh);
      hide MakeTransform, FitContent;
      MeetInside(t.source, Rect(0, 0, sw, sh));
      MeetInside(t.content, Rect(0, 0, mw, mh));
    }
  }

  // ---------------------------------------------------------------------------
  // The functions as the program writes them, with local bounds adjusted step by step.

  method GrowToShape(w: int, h: int, ratio: real) returns (width: real, height: real)
    requires h > 0 && ratio > 0.0
    ensures width == GrownWidth(w as real, h as real, ratio) && height == GrownHeight(w as real, h as real, ratio)
  {
    width := w as real;
    height := h as real;
    if width / height < ratio {
      width := height * ratio;
    } else {
      height := width / ratio;
    }
  }

  /** The steps for one direction; the program interleaves the two. */
  method ShiftInside(center: real, extent: real, limit: int) returns (left: int, right: int)
    ensures Span(left, right) == Shifted(center, extent, limit)
  {
    left := (center - extent * 0.5).Floor;
    right := left + Ceil(extent);
    if left < 0 {
      right := right - left;
      left := 0;
    }
    if right > limit {
      left := left - (right - limit);
      right := limit;
    }
  }

  method ExpandSelection(sel: Rect, sw: int, sh: int, mw: int, mh: int) returns (crop: Rect)
    requires sel.h > 0 && mw > 0 && mh > 0
    ensures crop == Expanded(sel, sw, sh, mw, mh)
  {
    hide GrownWidth, GrownHeight, Ratio, Shifted;
    var width, height := GrowToShape(sel.w, sel.h, Ratio(mw, mh));
    width := MinReal(width, sw as real);
    height := MinReal(height, sh as real);
    var left, right := ShiftInside(Middle(sel.x, sel.w), width, sw);
    var top, bottom := ShiftInside(Middle(sel.y, sel.h), height, sh);
    return Rect(Max(0, left), Max(0, top), right - Max(0, left), bottom - Max(0, top));
  }

  method AlignToPairs(input: Rect, bounds: Rect, yuv420: bool) returns (crop: Rect)
    ensures crop == AlignCrop(input, bounds, yuv420)
  {
    crop := Meet(input, bounds);
    if !yuv420 || Empty(crop) {
      return;
    }
    var left := Even(crop.x);
    var top := Even(crop.y);
    var right := Min(bounds.w, Even(crop.x + crop.w + 1));
    var bottom := Min(bounds.h, Even(crop.y + crop.h + 1));
    if right <= left {
      right := Min(bounds.w, left + 2);
    }
    if bottom <= top {
      bottom := Min(bounds.h, top + 2);
    }
    return Rect(left, top, right - left, bottom - top);
  }
}
