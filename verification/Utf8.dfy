/**
 * Splitting a line into code points for glyph layout (engine/src/display/text_overlay.cpp).
 * Bytes are numbers; `High` keeps the bits that the masks keep, as `MasksAreHighBits` says.
 */
module Utf8Segmentation {
  datatype Option<T> = None | Some(value: T)

  type Byte = b: int | 0 <= b < 256 witness 0

  /** The bits of `b` above the power of two `unit`. */
  function High(b: Byte, unit: int): int
    requires unit > 0
  {
    b / unit * unit
  }

  /** The program's masks keep those bits: the four tests it makes of a byte. */
  lemma MasksAreHighBits(b: Byte)
    ensures (b as bv8) & 0xE0 == 0xC0 <==> High(b, 32) == 0xC0
    ensures (b as bv8) & 0xF0 == 0xE0 <==> High(b, 16) == 0xE0
    ensures (b as bv8) & 0xF8 == 0xF0 <==> High(b, 8) == 0xF0
    ensures (b as bv8) & 0xC0 == 0x80 <==> High(b, 64) == 0x80
  {
    MasksAreRanges(b as bv8);
  }

  lemma MasksAreRanges(b: bv8)
    ensures b & 0xE0 == 0xC0 <==> 0xC0 <= b as int <= 0xDF
    ensures b & 0xF0 == 0xE0 <==> 0xE0 <= b as int <= 0xEF
    ensures b & 0xF8 == 0xF0 <==> 0xF0 <= b as int <= 0xF7
    ensures b & 0xC0 == 0x80 <==> 0x80 <= b as int <= 0xBF
  {
    assert b & 0xE0 == 0xC0 <==> 0xC0 <= b <= 0xDF;
    assert b & 0xF0 == 0xE0 <==> 0xE0 <= b <= 0xEF;
    assert b & 0xF8 == 0xF0 <==> 0xF0 <= b <= 0xF7;
    assert b & 0xC0 == 0x80 <==> 0x80 <= b <= 0xBF;
  }

  function LeadWidth(lead: Byte): nat {
    if High(lead, 32) == 0xC0 then 2
    else if High(lead, 16) == 0xE0 then 3
    else if High(lead, 8) == 0xF0 then 4
    else 1
  }

  predicate Continues(b: Byte) { High(b, 64) == 0x80 }

  function Width(text: seq<Byte>, offset: nat): (w: nat)
    requires offset < |text|
    ensures 1 <= w <= 4 && offset + w <= |text|
  {
    var w := LeadWidth(text[offset]);
    if offset + w > |text| then 1
    else if exists p | offset < p < offset + w :: !Continues(text[p]) then 1
    else w
  }

  /** `utf8_codepoint_width`. */
  method CodepointWidth(text: seq<Byte>, offset: nat) returns (width: nat)
    requires offset < |text|
    ensures width == Width(text, offset)
  {
    MasksAreHighBits(text[offset]);
    var lead := text[offset] as bv8;
    width := 1;
    if lead & 0xE0 == 0xC0 {
      width := 2;
    } else if lead & 0xF0 == 0xE0 {
      width := 3;
    } else if lead & 0xF8 == 0xF0 {
      width := 4;
    }
    if offset + width > |text| {
      return 1;
    }
    for index := 1 to width
      invariant forall p | offset < p < offset + index :: Continues(text[p])
    {
      MasksAreHighBits(text[offset + index]);
      if (text[offset + index] as bv8) & 0xC0 != 0x80 {
        return 1;
      }
    }
  }

  /** A continuation byte. */
  predicate Follows(b: Byte) { 0x80 <= b <= 0xBF }

  predicate AllFollow(text: seq<Byte>, from: nat, to: nat)
    requires to <= |text|
  {
    forall p | from <= p < to :: Follows(text[p])
  }

  /** A piece is longer than one byte exactly if a lead byte has the continuation bytes that it announces. */
  lemma WidthIff(text: seq<Byte>, offset: nat)
    requires offset < |text|
    ensures var b, left := text[offset], |text| - offset;
            && (Width(text, offset) == 2 <==> 0xC0 <= b <= 0xDF && left >= 2 && AllFollow(text, offset + 1, offset + 2))
            && (Width(text, offset) == 3 <==> 0xE0 <= b <= 0xEF && left >= 3 && AllFollow(text, offset + 1, offset + 3))
            && (Width(text, offset) == 4 <==> 0xF0 <= b <= 0xF7 && left >= 4 && AllFollow(text, offset + 1, offset + 4))
  {
    forall p | offset <= p < |text| ensures Continues(text[p]) <==> Follows(text[p]) {}
  }

  function Pieces(text: seq<Byte>): seq<seq<Byte>>
    decreases |text|
  {
    if text == [] then [] else [text[..Width(text, 0)]] + Pieces(text[Width(text, 0)..])
  }

  function Joined(pieces: seq<seq<Byte>>): seq<Byte> {
    if pieces == [] then [] else pieces[0] + Joined(pieces[1..])
  }

  datatype Placed = Placed(piece: seq<Byte>, x: int)

  /** Where each piece goes, one advance after the other; no layout if a glyph is missing. */
  function Layout(pieces: seq<seq<Byte>>, advance: seq<Byte> -> Option<int>, x: int): Option<seq<Placed>> {
    if pieces == [] then Some([])
    else if advance(pieces[0]).None? then None
    else
      var rest := Layout(pieces[1..], advance, x + advance(pieces[0]).value);
      if rest.None? then None else Some([Placed(pieces[0], x)] + rest.value)
  }

  /** The layout loop of `draw_text_from_cached_glyphs`. */
  method LayOut(text: seq<Byte>, x: int, advance: seq<Byte> -> Option<int>) returns (layout: Option<seq<Placed>>)
    ensures layout == Layout(Pieces(text), advance, x)
  {
    hide Layout, Pieces, Width;
    var placed: seq<Placed> := [];
    var pen := x;
    var offset := 0;
    assert text[0..] == text;
    BeforeNothing(Layout(Pieces(text), advance, x));
    while offset < |text|
      invariant offset <= |text|
      invariant Layout(Pieces(text), advance, x) == Before(placed, Layout(Pieces(text[offset..]), advance, pen))
    {
      var width := CodepointWidth(text, offset);
      var piece := text[offset..offset + width];
      LayoutStep(text, offset, advance, pen);
      var glyph := advance(piece);
      if glyph.None? {
        return None;
      }
      BeforeStep(placed, Placed(piece, pen), Layout(Pieces(text[offset + width..]), advance, pen + glyph.value));
      placed := placed + [Placed(piece, pen)];
      pen := pen + glyph.value;
      offset := offset + width;
    }
    LayoutDone(text, advance, pen);
    assert placed + [] == placed;
    return Some(placed);
  }

  function Before(placed: seq<Placed>, rest: Option<seq<Placed>>): Option<seq<Placed>> {
    if rest.None? then None else Some(placed + rest.value)
  }

  lemma BeforeNothing(rest: Option<seq<Placed>>)
    ensures Before([], rest) == rest
  {
    if rest.Some? {
      assert [] + rest.value == rest.value;
    }
  }

  lemma LayoutDone(text: seq<Byte>, advance: seq<Byte> -> Option<int>, pen: int)
    ensures Layout(Pieces(text[|text|..]), advance, pen) == Some([])
  {
    assert text[|text|..] == [];
  }

  lemma LayoutStep(text: seq<Byte>, offset: nat, advance: seq<Byte> -> Option<int>, pen: int)
    requires offset < |text|
    ensures var w := Width(text, offset);
            var piece := text[offset..offset + w];
            Layout(Pieces(text[offset..]), advance, pen) ==
              if advance(piece).None? then None
              else Before([Placed(piece, pen)], Layout(Pieces(text[offset + w..]), advance, pen + advance(piece).value))
  {
    var w := Width(text, offset);
    WidthOfRest(text, offset);
    assert text[offset..][..w] == text[offset..offset + w] && text[offset..][w..] == text[offset + w..];
    assert Pieces(text[offset..])[1..] == Pieces(text[offset + w..]);
  }

  lemma BeforeStep(placed: seq<Placed>, p: Placed, rest: Option<seq<Placed>>)
    ensures Before(placed, Before([p], rest)) == Before(placed + [p], rest)
  {
    if rest.Some? {
      assert placed + ([p] + rest.value) == placed + [p] + rest.value;
    }
  }

  lemma WidthOfRest(text: seq<Byte>, offset: nat)
    requires offset < |text|
    ensures Width(text[offset..], 0) == Width(text, offset)
  {
    var rest := text[offset..];
    var w := LeadWidth(rest[0]);
    if w <= |rest| {
      if p :| offset < p < offset + w && !Continues(text[p]) {
        assert !Continues(rest[p - offset]);
      }
    }
  }

  // ---------------------------------------------------------------------------
  // What splitting promises.

  /** Any byte string is cut into pieces of one to four bytes that make it up again. */
  lemma {:induction false} PiecesMakeUpTheText(text: seq<Byte>)
    ensures Joined(Pieces(text)) == text
    ensures forall k | 0 <= k < |Pieces(text)| :: 1 <= |Pieces(text)[k]| <= 4
    decreases |text|
  {
    if text != [] {
      var w := Width(text, 0);
      PiecesMakeUpTheText(text[w..]);
      assert Pieces(text)[1..] == Pieces(text[w..]);
      assert text == text[..w] + text[w..];
    }
  }

  /** A Unicode scalar value. */
  predicate Scalar(cp: nat) { cp < 0xD800 || 0xE000 <= cp <= 0x10FFFF }

  /** Section 3 of RFC 3629. */
  function Encode(cp: nat): (bytes: seq<Byte>)
    requires Scalar(cp)
    ensures 1 <= |bytes| <= 4
  {
    if cp < 0x80 then [cp]
    else if cp < 0x800 then [0xC0 + cp / 64, 0x80 + cp % 64]
    else if cp < 0x10000 then [0xE0 + cp / 4096, 0x80 + cp / 64 % 64, 0x80 + cp % 64]
    else [0xF0 + cp / 262144, 0x80 + cp / 4096 % 64, 0x80 + cp / 64 % 64, 0x80 + cp % 64]
  }

  ghost predicate Scalars(cps: seq<nat>) { forall k | 0 <= k < |cps| :: Scalar(cps[k]) }

  function EncodeAll(cps: seq<nat>): seq<Byte>
    requires Scalars(cps)
  {
    if cps == [] then [] else Encode(cps[0]) + EncodeAll(cps[1..])
  }

  function Each(cps: seq<nat>): seq<seq<Byte>>
    requires Scalars(cps)
  {
    if cps == [] then [] else [Encode(cps[0])] + Each(cps[1..])
  }

  lemma ContinuationBytes(x: nat)
    requires x < 64
    ensures Continues(0x80 + x)
  {
  }

  lemma EncodedLead(cp: nat)
    requires Scalar(cp)
    ensures LeadWidth(Encode(cp)[0]) == |Encode(cp)|
  {
    if cp < 0x80 {
    } else if cp < 0x800 {
      assert 2 <= cp / 64 < 32;
    } else if cp < 0x10000 {
      assert 0 <= cp / 4096 < 16;
    } else {
      assert 0 <= cp / 262144 < 8;
    }
  }

  lemma EncodedTail(cp: nat, k: nat)
    requires Scalar(cp) && 1 <= k < |Encode(cp)|
    ensures Continues(Encode(cp)[k])
  {
    ContinuationBytes(cp % 64);
    ContinuationBytes(cp / 64 % 64);
    ContinuationBytes(cp / 4096 % 64);
  }

  lemma EncodedWidth(cp: nat, rest: seq<Byte>)
    requires Scalar(cp)
    ensures Width(Encode(cp) + rest, 0) == |Encode(cp)|
  {
    var text := Encode(cp) + rest;
    assert text[0] == Encode(cp)[0];
    EncodedLead(cp);
    forall p | 0 < p < |Encode(cp)| ensures Continues(text[p]) {
      EncodedTail(cp, p);
      assert text[p] == Encode(cp)[p];
    }
  }

  /** Valid UTF-8 is cut into exactly its code points. */
  lemma {:induction false} PiecesAreCodePoints(cps: seq<nat>)
    requires Scalars(cps)
    ensures Pieces(EncodeAll(cps)) == Each(cps)
    decreases |cps|
  {
    if cps != [] {
      var head, rest := Encode(cps[0]), EncodeAll(cps[1..]);
      EncodedWidth(cps[0], rest);
      PiecesAreCodePoints(cps[1..]);
      assert (head + rest)[..|head|] == head && (head + rest)[|head|..] == rest;
    }
  }
}
