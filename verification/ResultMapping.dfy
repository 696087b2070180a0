/**
 * Moving boxes from a model's canvas to the common 640 by 640 canvas
 * (engine/src/inference/inference_result_mapping.cpp). Single precision is modelled by the reals.
 */
module ResultMapping {
  import opened RoiGeometry

  const CANVAS: int := 640
  const BOUNDS := Rect(0, 0, CANVAS, CANVAS)

  /** Division as the program's integers do it, towards zero. */
  function Half(v: int): int { if v >= 0 then v / 2 else -(-v / 2) }

  predicate CentredIn(box: Rect, content: Rect) { Holds(content, box.x + Half(box.w), box.y + Half(box.h)) }

  /** The test point is the centre of the box, or half a pixel before it. */
  lemma TestPointIsCentre(box: Rect, content: Rect)
    requires box.w >= 0 && box.h >= 0 && CentredIn(box, content)
    ensures exists cx, cy ::
              && (2 * cx == 2 * box.x + box.w || 2 * cx == 2 * box.x + box.w - 1)
              && (2 * cy == 2 * box.y + box.h || 2 * cy == 2 * box.y + box.h - 1)
              && content.x <= cx < content.x + content.w && content.y <= cy < content.y + content.h
  {
    var cx, cy := box.x + Half(box.w), box.y + Half(box.h);
    assert 2 * cx == 2 * box.x + box.w || 2 * cx == 2 * box.x + box.w - 1;
    assert 2 * cy == 2 * box.y + box.h || 2 * cy == 2 * box.y + box.h - 1;
  }

  /** One direction of the map: a scale and an offset. */
  datatype Affine = Affine(scale: real, offset: real)

  function AffineOf(visible: int, extent: int, content: int, contentExtent: int, source: int): Affine
    requires contentExtent > 0 && source > 0
  {
    var scale := (extent as real * CANVAS as real) / (contentExtent as real * source as real);
    Affine(scale, visible as real * CANVAS as real / source as real - content as real * scale)
  }

  function At(a: Affine, v: real): real { a.offset + v * a.scale }

  function MapSpan(a: Affine, v: int, extent: int): Span {
    var lo := At(a, v as real).Floor;
    Span(lo, lo + Max(0, Ceil(At(a, (v + extent) as real)) - lo))
  }

  function Spanned(xs: Span, ys: Span): Rect { Rect(xs.lo, ys.lo, xs.hi - xs.lo, ys.hi - ys.lo) }

  /** A box whose centre lies outside the content maps to nothing. */
  function MapBox(ax: Affine, ay: Affine, content: Rect, box: Rect): Rect {
    if CentredIn(box, content) then Meet(Spanned(MapSpan(ax, box.x, box.w), MapSpan(ay, box.y, box.h)), BOUNDS) else NOWHERE
  }

  // ---------------------------------------------------------------------------
  // The map.

  /** The content's edges go to the crop's edges in the scaled source. */
  lemma EdgesMatch(visible: int, extent: int, content: int, contentExtent: int, source: int)
    requires contentExtent > 0 && source > 0
    ensures var a := AffineOf(visible, extent, content, contentExtent, source);
            At(a, content as real) == visible as real * CANVAS as real / source as real
            && At(a, (content + contentExtent) as real) == (visible + extent) as real * CANVAS as real / source as real
  {
    var a := AffineOf(visible, extent, content, contentExtent, source);
    var e, n, s := extent as real * CANVAS as real, contentExtent as real, source as real;
    Distribute(content as real, n, a.scale);
    assert visible as real * CANVAS as real + e == (visible + extent) as real * CANVAS as real;
  }

  lemma Distribute(a: real, b: real, c: real)
    ensures (a + b) * c == a * c + b * c
  {
  }

  lemma AffineRises(a: Affine, u: real, v: real)
    requires a.scale > 0.0
    ensures u < v <==> At(a, u) < At(a, v)
  {
    ScaledOrder(u, v, a.scale);
  }

  /** A mapped span reaches from at or below the image's start to at or above its end. */
  lemma SpanCovers(a: Affine, v: int, extent: int)
    requires a.scale > 0.0 && extent > 0
    ensures var s := MapSpan(a, v, extent);
            s.lo as real <= At(a, v as real) < At(a, (v + extent) as real) <= s.hi as real && s.lo < s.hi
            && s.lo as real > At(a, v as real) - 1.0 && (s.hi as real) < At(a, (v + extent) as real) + 1.0
  {
    hide At;
    AffineRises(a, v as real, (v + extent) as real);
  }

  predicate Covers(r: Rect, px: real, py: real) {
    r.x as real <= px <= (r.x + r.w) as real && r.y as real <= py <= (r.y + r.h) as real
  }

  /** Every mapped box lies on the canvas, or is nothing. */
  lemma MappedBoxStaysOnCanvas(ax: Affine, ay: Affine, content: Rect, box: Rect)
    ensures var m := MapBox(ax, ay, content, box);
            m == NOWHERE || (!Empty(m) && Contains(Rect(0, 0, 640, 640), m))
  {
    hide MapSpan;
  }

  /** One direction: what the mapped span keeps on the canvas is nothing exactly if the image lies beyond an edge, or ends on it. */
  lemma SpanMissesIff(a: Affine, v: int, extent: int)
    requires a.scale > 0.0 && extent > 0
    ensures var s := MapSpan(a, v, extent);
            Max(s.lo, 0) >= Min(s.hi, CANVAS) <==> At(a, (v + extent) as real) <= 0.0 || At(a, v as real) >= CANVAS as real
  {
    hide At;
    SpanCovers(a, v, extent);
  }

  /** A box centred in the content maps to nothing exactly if its image lies beyond an edge of the canvas, or ends on it. */
  lemma MappedBoxVanishesIff(ax: Affine, ay: Affine, content: Rect, box: Rect)
    requires ax.scale > 0.0 && ay.scale > 0.0 && box.w > 0 && box.h > 0 && CentredIn(box, content)
    ensures MapBox(ax, ay, content, box) == NOWHERE <==>
              At(ax, (box.x + box.w) as real) <= 0.0 || At(ax, box.x as real) >= CANVAS as real
              || At(ay, (box.y + box.h) as real) <= 0.0 || At(ay, box.y as real) >= CANVAS as real
  {
    hide At, MapSpan;
    SpanMissesIff(ax, box.x, box.w);
    SpanMissesIff(ay, box.y, box.h);
    SpanCovers(ax, box.x, box.w);
    SpanCovers(ay, box.y, box.h);
  }

  /**
   * A box centred in the content that does not map to nothing covers the image of each of its points
   * that falls on the canvas, its edges included.
   */
  lemma MappedBoxCoversImage(ax: Affine, ay: Affine, content: Rect, box: Rect, px: real, py: real)
    requires ax.scale > 0.0 && ay.scale > 0.0 && box.w > 0 && box.h > 0 && CentredIn(box, content)
    requires box.x as real <= px <= (box.x + box.w) as real && box.y as real <= py <= (box.y + box.h) as real
    requires 0.0 <= At(ax, px) <= CANVAS as real && 0.0 <= At(ay, py) <= CANVAS as real
    ensures MapBox(ax, ay, content, box) != NOWHERE ==> Covers(MapBox(ax, ay, content, box), At(ax, px), At(ay, py))
  {
    hide At, MapSpan;
    SpanCovers(ax, box.x, box.w);
    SpanCovers(ay, box.y, box.h);
    AffineRises(ax, px, box.x as real);
    AffineRises(ax, (box.x + box.w) as real, px);
    AffineRises(ay, py, box.y as real);
    AffineRises(ay, (box.y + box.h) as real, py);
  }

  /** Whatever is drawn for a box lies within one pixel of its image. */
  lemma MappedBoxIsTight(ax: Affine, ay: Affine, content: Rect, box: Rect)
    requires ax.scale > 0.0 && ay.scale > 0.0 && box.w > 0 && box.h > 0
    ensures var m := MapBox(ax, ay, content, box);
            m != NOWHERE ==>
              m.x as real > At(ax, box.x as real) - 1.0 && ((m.x + m.w) as real) < At(ax, (box.x + box.w) as real) + 1.0
              && m.y as real > At(ay, box.y as real) - 1.0 && ((m.y + m.h) as real) < At(ay, (box.y + box.h) as real) + 1.0
  {
    hide At, MapSpan;
    SpanCovers(ax, box.x, box.w);
    SpanCovers(ay, box.y, box.h);
  }

  lemma AffineOfRises(visible: int, extent: int, content: int, contentExtent: int, source: int)
    requires contentExtent > 0 && source > 0 && extent > 0
    ensures AffineOf(visible, extent, content, contentExtent, source).scale > 0.0
  {
  }

  /** In one direction: a span centred in the content keeps some extent on the canvas. */
  lemma CentredSpanSurvives(visible: int, extent: int, content: int, contentExtent: int, source: int, v: int, size: int)
    requires contentExtent > 0 && 0 <= visible && 0 < extent && visible + extent <= source && size > 0
    requires content <= v + Half(size) < content + contentExtent
    ensures var s := MapSpan(AffineOf(visible, extent, content, contentExtent, source), v, size);
            Max(s.lo, 0) < Min(s.hi, CANVAS)
  {
    hide At, MapSpan, AffineOf;
    var a := AffineOf(visible, extent, content, contentExtent, source);
    var c := v + Half(size);
    EdgesMatch(visible, extent, content, contentExtent, source);
    AffineOfRises(visible, extent, content, contentExtent, source);
    SpanCovers(a, v, size);
    AffineRises(a, v as real, (content + contentExtent) as real);
    AffineRises(a, content as real, (v + size) as real);
  }

  // ---------------------------------------------------------------------------
  // The whole function.

  function Visible(t: Transform, sw: int, sh: int): Rect { Meet(t.source, Rect(0, 0, sw, sh)) }
  function Content(t: Transform, mw: int, mh: int): Rect { Meet(t.content, Rect(0, 0, mw, mh)) }

  predicate Maps(t: Transform, sw: int, sh: int, mw: int, mh: int) {
    sw > 0 && sh > 0 && mw > 0 && mh > 0 && !Empty(Visible(t, sw, sh)) && !Empty(Content(t, mw, mh))
  }

  function Across(t: Transform, sw: int, sh: int, mw: int, mh: int): Affine
    requires Maps(t, sw, sh, mw, mh)
  {
    AffineOf(Visible(t, sw, sh).x, Visible(t, sw, sh).w, Content(t, mw, mh).x, Content(t, mw, mh).w, sw)
  }

  function Down(t: Transform, sw: int, sh: int, mw: int, mh: int): Affine
    requires Maps(t, sw, sh, mw, mh)
  {
    AffineOf(Visible(t, sw, sh).y, Visible(t, sw, sh).h, Content(t, mw, mh).y, Content(t, mw, mh).h, sh)
  }

  /**
   * In one direction: where the model sees the source's point `q`, the map gives `q` in a source
   * scaled to 640.
   */
  lemma SeenPointMapsBack(visible: int, extent: int, content: int, contentExtent: int, source: int, p: real, q: real)
    requires contentExtent > 0 && source > 0
    requires (p - content as real) * extent as real == (q - visible as real) * contentExtent as real
    ensures At(AffineOf(visible, extent, content, contentExtent, source), p) * source as real == q * 640.0
  {
    var a := AffineOf(visible, extent, content, contentExtent, source);
    var n, s := contentExtent as real, source as real;
    var d := p - content as real;
    assert At(a, p) == visible as real * 640.0 / s + d * a.scale;
    assert a.scale * n * s == extent as real * 640.0;
    assert d * a.scale * s * n == d * extent as real * 640.0;
  }

  /** What becomes of one box. */
  function Mapped(t: Transform, sw: int, sh: int, mw: int, mh: int, box: Rect): Rect {
    if Maps(t, sw, sh, mw, mh) then MapBox(Across(t, sw, sh, mw, mh), Down(t, sw, sh, mw, mh), Content(t, mw, mh), box) else box
  }

  /** The model sees the whole source at the size of the canvas. */
  predicate Identity(t: Transform, sw: int, sh: int, mw: int, mh: int) {
    mw == CANVAS && mh == CANVAS && Visible(t, sw, sh) == Rect(0, 0, sw, sh) && Content(t, mw, mh) == BOUNDS
  }

  lemma IdentitySpan(source: int, v: int, size: int)
    requires source > 0
    ensures MapSpan(AffineOf(0, source, 0, CANVAS, source), v, size) == Span(v, v + Max(0, size))
  {
    var a := AffineOf(0, source, 0, CANVAS, source);
    assert source as real * CANVAS as real == CANVAS as real * source as real;
    assert a.scale == 1.0;
    assert a.offset == 0.0;
    assert At(a, v as real) == v as real && At(a, (v + size) as real) == (v + size) as real;
  }

  /** The short cut for the identity gives what the general map gives. */
  lemma IdentityShortcutAgrees(t: Transform, sw: int, sh: int, mw: int, mh: int, box: Rect)
    requires Maps(t, sw, sh, mw, mh) && Identity(t, sw, sh, mw, mh)
    ensures Mapped(t, sw, sh, mw, mh, box) == if CentredIn(box, BOUNDS) then Meet(box, BOUNDS) else NOWHERE
  {
    hide MapSpan, AffineOf;
    IdentitySpan(sw, box.x, box.w);
    IdentitySpan(sh, box.y, box.h);
  }

  /** With the transform the input stage used, a box survives exactly if its centre lies in the content. */
  lemma BoxSurvivesIffCentred(selection: Rect, sw: int, sh: int, mw: int, mh: int, mode: Mode, yuv420: bool, box: Rect)
    requires Usable(selection, sw, sh, mw, mh) && box.w > 0 && box.h > 0
    ensures var t := MakeTransform(selection, sw, sh, mw, mh, mode, yuv420);
            Maps(t, sw, sh, mw, mh) && Visible(t, sw, sh) == t.source && Content(t, mw, mh) == t.content
            && (Mapped(t, sw, sh, mw, mh, box) != NOWHERE <==> CentredIn(box, t.content))
  {
    var t := MakeTransform(selection, sw, sh, mw, mh, mode, yuv420);
    InputNeverRejects(selection, sw, sh, mw, mh, mode, yuv420);
    CropIsRight(selection, sw, sh, mw, mh, mode, yuv420);
    hide MakeTransform;
    SurvivesIffCentred(t, sw, sh, mw, mh, box);
  }

  lemma SurvivesIffCentred(t: Transform, sw: int, sh: int, mw: int, mh: int, box: Rect)
    requires InputAccepts(t, sw, sh, mw, mh) && Contains(Rect(0, 0, sw, sh), t.source) && box.w > 0 && box.h > 0
    ensures Mapped(t, sw, sh, mw, mh, box) != NOWHERE <==> CentredIn(box, t.content)
  {
    if CentredIn(box, t.content) {
      hide MapSpan, AffineOf;
      CentredSpanSurvives(t.source.x, t.source.w, t.content.x, t.content.w, sw, box.x, box.w);
      CentredSpanSurvives(t.source.y, t.source.h, t.content.y, t.content.h, sh, box.y, box.h);
    }
  }

  /** `map_results_to_business_frame` on the boxes; `plain` says that no mask has to be converted. */
  method MapResults(sw: int, sh: int, t: Transform, mw: int, mh: int, boxes: array<Rect>, plain: bool)
    modifies boxes
    ensures forall k | 0 <= k < boxes.Length :: boxes[k] == Mapped(t, sw, sh, mw, mh, old(boxes[k]))
  {
    hide MapBox, AffineOf;
    if boxes.Length == 0 || sw <= 0 || sh <= 0 || mw <= 0 || mh <= 0 {
      return;
    }
    var visible := Meet(t.source, Rect(0, 0, sw, sh));
    var content := Meet(t.content, Rect(0, 0, mw, mh));
    if Empty(visible) || Empty(content) {
      return;
    }
    var identity := mw == CANVAS && mh == CANVAS && visible == Rect(0, 0, sw, sh) && content == BOUNDS;
    if identity && plain {
      for i := 0 to boxes.Length
        invariant forall k | 0 <= k < boxes.Length :: boxes[k] == if k < i then Mapped(t, sw, sh, mw, mh, old(boxes[k])) else old(boxes[k])
      {
        IdentityShortcutAgrees(t, sw, sh, mw, mh, boxes[i]);
        var inside := CentredIn(boxes[i], BOUNDS);
        boxes[i] := Meet(boxes[i], BOUNDS);
        if !inside {
          boxes[i] := NOWHERE;
        }
      }
      return;
    }
    for i := 0 to boxes.Length
      invariant forall k | 0 <= k < boxes.Length :: boxes[k] == if k < i then Mapped(t, sw, sh, mw, mh, old(boxes[k])) else old(boxes[k])
    {
      if identity {
        IdentityShortcutAgrees(t, sw, sh, mw, mh, boxes[i]);
      }
      boxes[i] := MapOne(Across(t, sw, sh, mw, mh), Down(t, sw, sh, mw, mh), content, identity, boxes[i]);
    }
  }

  method MapOne(ax: Affine, ay: Affine, content: Rect, identity: bool, box: Rect) returns (r: Rect)
    ensures r == if !identity then MapBox(ax, ay, content, box) else if CentredIn(box, content) then Meet(box, BOUNDS) else NOWHERE
  {
    var inside := CentredIn(box, content);
    if identity {
      r := Meet(box, BOUNDS);
    } else {
      var x := At(ax, box.x as real).Floor;
      var y := At(ay, box.y as real).Floor;
      var w := Max(0, Ceil(At(ax, (box.x + box.w) as real)) - x);
      var h := Max(0, Ceil(At(ay, (box.y + box.h) as real)) - y);
      r := Meet(Rect(x, y, w, h), BOUNDS);
    }
    if !inside {
      r := NOWHERE;
    }
  }
}
