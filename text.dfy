/** The text renderer's CPU side (`graphics::text`): each text line of the UI
    becomes a group of glyph vertices, six per glyph the atlas knows, each
    vertex carrying a packed screen position, a packed texture position and a
    packed property word.  The groups are laid end to end in one vertex
    buffer, in walk order, and rebuilt whenever the arena's text is dirty. */
module TextShaping {
  import opened Base
  import opened Geometry
  import opened Elements
  import opened Glyphs
  import opened UiArena
  import opened Words

  const U32Max: int := 0xFFFF_FFFF

  /** `v as u32` for a float `v`: truncation toward zero, saturating at both
      ends of the range. */
  function AsU32(v: real): (n: nat)
    ensures n <= U32Max
    ensures 0.0 <= v < U32Max as real ==> n == v.Floor
    ensures v < 0.0 ==> n == 0
    ensures v >= U32Max as real ==> n == U32Max
  {
    if v < 0.0 then 0 else if v >= U32Max as real then U32Max else v.Floor
  }

  lemma AsU32Monotone(a: real, b: real)
    requires a <= b
    ensures AsU32(a) <= AsU32(b)
  {
  }

  /** Real division with a zero divisor sending the quotient to 0. */
  function Div(a: real, b: real): real
  {
    if b == 0.0 then 0.0 else a / b
  }

  // ----- The property word ---------------------------------------------------

  /** The fading alpha: the line's own 8-bit alpha times the accumulated
      alpha of its position in the tree, back on the 0..255 scale. */
  function AlphaByte(line: TextLine, alpha: real): nat
  {
    AsU32(line.alpha as real / 255.0 * alpha * 255.0)
  }

  /** An accumulated alpha within [0, 1] never exceeds the line's own alpha,
      so the result fits in the eight alpha bits. */
  lemma AlphaByteFits(line: TextLine, alpha: real)
    requires 0.0 <= alpha <= 1.0
    ensures AlphaByte(line, alpha) <= line.alpha < 256
  {
    var a := line.alpha as real;
    assert a / 255.0 * alpha * 255.0 == a * alpha;
    assert a * alpha <= a * 1.0;
    AsU32Monotone(a * alpha, a);
    assert AsU32(a) == line.alpha;
  }

  /** `encode_props_plus`: the alpha byte in bits 0-7, the font in bits 8-9,
      the colour in bits 10-12, the outline colour in bits 13-15 with the
      outline flag in bit 16, and ten times the margin from bit 24.  Whatever
      the inputs, the result is a `u32`: an alpha byte or margin too large
      for its field spills into the fields above it, never out of the word. */
  function EncodePropsPlus(line: TextLine, margin: real, alpha: real): (w: nat)
    ensures w < WordSize
  {
    PackPropsFits(AlphaByte(line, alpha), FontId(line.font), ColorId(line.color),
                  OutlineId(line.outline), AsU32(margin * 10.0));
    PackProps(AlphaByte(line, alpha), FontId(line.font), ColorId(line.color),
              OutlineId(line.outline), AsU32(margin * 10.0))
  }

  function OutlineId(outline: Option<TextColor>): (o: Option<nat>)
    ensures o.Some? <==> outline.Some?
    ensures o.Some? ==> o.value < 8
  {
    if outline.Some? then Some(ColorId(outline.value)) else None
  }

  /** Fields that are each a `u32` pack into a `u32`. */
  lemma PackPropsFits(a: nat, f: nat, c: nat, o: Option<nat>, m: nat)
    requires a < WordSize && f < WordSize && c < WordSize && (o.Some? ==> o.value < WordSize)
    ensures PackProps(a, f, c, o, m) < WordSize
  {
    Pow2Values();
    var withFont := Or(a, Shl(f, 8));
    OrBelow(a, Shl(f, 8), 32);
    var withColor := Or(withFont, Shl(c, 10));
    OrBelow(withFont, Shl(c, 10), 32);
    if o.Some? {
      OrBelow(withColor, Shl(o.value, 13), 32);
      OrBelow(Or(withColor, Shl(o.value, 13)), 0x1_0000, 32);
      OrBelow(Or(Or(withColor, Shl(o.value, 13)), 0x1_0000), Shl(m, 24), 32);
    } else {
      OrBelow(withColor, Shl(m, 24), 32);
    }
  }

  /** The or-ing and shifting of `encode_props_plus`, on the field values. */
  function PackProps(alpha: nat, font: nat, color: nat, outline: Option<nat>, margin10: nat): nat
  {
    var withFont := Or(alpha, Shl(font, 8));
    var withColor := Or(withFont, Shl(color, 10));
    var withOutline :=
      if outline.Some? then Or(Or(withColor, Shl(outline.value, 13)), 0x1_0000)
      else withColor;
    Or(withOutline, Shl(margin10, 24))
  }

  /** The fields of a property word, as the vertex shader reads them. */
  datatype Props = Props(alpha: nat, font: nat, color: nat, outline: Option<nat>, margin10: nat)

  function DecodeProps(w: nat): Props
  {
    Props(w % 0x100, (w / 0x100) % 4, (w / 0x400) % 8,
          if (w / 0x1_0000) % 2 == 1 then Some((w / 0x2000) % 8) else None,
          w / 0x100_0000)
  }

  /** A field shifted to bit `k` that still fits in the word is multiplied
      by 2^k. */
  lemma ShlFits(a: nat, k: nat)
    requires a * Pow2(k) < WordSize
    ensures Shl(a, k) == a * Pow2(k)
  {
  }

  /** Shifting to bit 24 keeps the low eight bits of the field. */
  lemma ShlTop(a: nat)
    ensures Shl(a, 24) == (a % 0x100) * 0x100_0000
  {
    Pow2Values();
    var q, r := a / 0x100, a % 0x100;
    assert a == 0x100 * q + r;
    assert a * Pow2(24) == a * 0x100_0000;
    assert a * 0x100_0000 == q * 0x1_0000_0000 + r * 0x100_0000;
    ModAfterWords(q, r * 0x100_0000);
  }

  /** The alpha, font and colour fields or-ed together are their sum. */
  lemma PackLow(a: nat, f: nat, c: nat)
    requires a < 0x100 && f < 4 && c < 8
    ensures Or(Or(a, Shl(f, 8)), Shl(c, 10)) == a + f * 0x100 + c * 0x400
  {
    Pow2Values();
    assert f * Pow2(8) == f * 0x100;
    ShlFits(f, 8);
    OrLowDisjoint(a, f, 8);
    assert Or(a, Shl(f, 8)) == a + f * 0x100;
    assert c * Pow2(10) == c * 0x400;
    ShlFits(c, 10);
    OrLowDisjoint(a + f * 0x100, c, 10);
  }

  /** The outline colour and flag or-ed on top of the low fields. */
  lemma PackOutline(w: nat, o: nat)
    requires w < 0x2000 && o < 8
    ensures Or(Or(w, Shl(o, 13)), 0x1_0000) == w + o * 0x2000 + 0x1_0000
  {
    Pow2Values();
    ShlFits(o, 13);
    OrLowDisjoint(w, o, 13);
    OrLowDisjoint(w + o * 0x2000, 1, 16);
  }

  /** The margin byte or-ed on top of everything below bit 24. */
  lemma PackMargin(w: nat, m: nat)
    requires w < 0x100_0000
    ensures Or(w, Shl(m, 24)) == w + (m % 0x100) * 0x100_0000
  {
    Pow2Values();
    ShlTop(m);
    OrLowDisjoint(w, m % 0x100, 24);
  }

  /** The word as a sum, once every field fits its bits; only the low eight
      bits of the margin field survive the shift. */
  lemma PackedSum(a: nat, f: nat, c: nat, o: Option<nat>, m: nat)
    requires a < 0x100 && f < 4 && c < 8 && (o.Some? ==> o.value < 8)
    ensures PackProps(a, f, c, o, m)
         == a + f * 0x100 + c * 0x400 + (if o.Some? then o.value * 0x2000 + 0x1_0000 else 0)
            + (m % 0x100) * 0x100_0000
  {
    PackLow(a, f, c);
    var low := a + f * 0x100 + c * 0x400;
    if o.Some? {
      PackOutline(low, o.value);
      PackMargin(low + o.value * 0x2000 + 0x1_0000, m);
    } else {
      PackMargin(low, m);
    }
  }

  /** Reading the three low fields back. */
  lemma UnpackLow(a: nat, f: nat, c: nat, hi: nat)
    requires a < 0x100 && f < 4 && c < 8
    ensures var w := a + f * 0x100 + c * 0x400 + hi * 0x2000;
      w % 0x100 == a && (w / 0x100) % 4 == f && (w / 0x400) % 8 == c && w / 0x2000 == hi
  {
    var w := a + f * 0x100 + c * 0x400 + hi * 0x2000;
    assert w / 0x100 == f + c * 4 + hi * 0x20;
    assert w / 0x400 == c + hi * 8;
  }

  /** Reading the outline bits and the margin byte back. */
  lemma UnpackHigh(o: Option<nat>, m: nat)
    requires m < 0x100 && (o.Some? ==> o.value < 8)
    ensures var hi := (if o.Some? then o.value + 8 else 0) + m * 0x800;
      hi % 8 == (if o.Some? then o.value else 0) && (hi / 8) % 2 == (if o.Some? then 1 else 0) && hi / 0x800 == m
  {
    var b := if o.Some? then o.value + 8 else 0;
    var hi := b + m * 0x800;
    assert b < 0x10;
    assert hi == 8 * (m * 0x100 + b / 8) + b % 8;
    assert hi % 8 == b % 8 && hi / 8 == m * 0x100 + b / 8;
    assert (hi / 8) % 2 == b / 8;
    assert hi / 0x800 == m;
  }

  /** Reading the fields back from their sum. */
  lemma UnpackSum(a: nat, f: nat, c: nat, o: Option<nat>, m: nat)
    requires a < 0x100 && f < 4 && c < 8 && m < 0x100 && (o.Some? ==> o.value < 8)
    ensures DecodeProps(a + f * 0x100 + c * 0x400 + (if o.Some? then o.value * 0x2000 + 0x1_0000 else 0)
                        + m * 0x100_0000)
         == Props(a, f, c, o, m)
  {
    var hi := (if o.Some? then o.value + 8 else 0) + m * 0x800;
    var w := a + f * 0x100 + c * 0x400 + hi * 0x2000;
    assert w == a + f * 0x100 + c * 0x400 + (if o.Some? then o.value * 0x2000 + 0x1_0000 else 0) + m * 0x100_0000;
    UnpackLow(a, f, c, hi);
    UnpackHigh(o, m);
    assert w / 0x1_0000 == hi / 8;
    assert w / 0x100_0000 == hi / 0x800;
  }

  /** Decoding the property word gives back every field: the alpha byte (it
      fits when the accumulated alpha is within [0, 1]), the font, the
      colour, the outline if any, and the low eight bits of ten times the
      margin (the rest is shifted out). */
  lemma PropsRoundTrip(line: TextLine, margin: real, alpha: real)
    requires 0.0 <= alpha <= 1.0
    ensures DecodeProps(EncodePropsPlus(line, margin, alpha))
         == Props(AlphaByte(line, alpha), FontId(line.font), ColorId(line.color),
                  OutlineId(line.outline), AsU32(margin * 10.0) % 0x100)
  {
    AlphaByteFits(line, alpha);
    var a, f, c, o, m := AlphaByte(line, alpha), FontId(line.font), ColorId(line.color),
                         OutlineId(line.outline), AsU32(margin * 10.0);
    PackedSum(a, f, c, o, m);
    UnpackSum(a, f, c, o, m % 0x100);
  }

  // ----- Screen and texture positions ---------------------------------------

  const ScreenMin: real := -10000.0 / 45535.0
  const ScreenMax: real := 55535.0 / 45535.0

  /** A gl coordinate moved from [-1, 1] to [0, 1], then clamped to the range
      whose image still fits in 16 bits. */
  function ClampedUnit(v: real): (c: real)
    ensures ScreenMin <= c <= ScreenMax
    ensures ScreenMin <= (v + 1.0) / 2.0 <= ScreenMax ==> c == (v + 1.0) / 2.0
  {
    var t := (v + 1.0) / 2.0;
    var t1 := if t < ScreenMin then ScreenMin else t;
    if t1 > ScreenMax then ScreenMax else t1
  }

  /** One 16-bit half of `encode_screen`: 0 maps to 10000 and 1 to 55535. */
  function ScreenHalf(v: real): (h: nat)
    ensures h < 0x1_0000
  {
    AsU32(45535.0 * ClampedUnit(v) + 10000.0)
  }

  /** The quantisation step: the half is the mapped value rounded down. */
  lemma ScreenHalfQuantises(v: real)
    ensures ScreenHalf(v) as real <= 45535.0 * ClampedUnit(v) + 10000.0 < ScreenHalf(v) as real + 1.0
  {
  }

  lemma ScreenHalfMonotone(a: real, b: real)
    requires a <= b
    ensures ScreenHalf(a) <= ScreenHalf(b)
  {
    assert ClampedUnit(a) <= ClampedUnit(b);
    AsU32Monotone(45535.0 * ClampedUnit(a) + 10000.0, 45535.0 * ClampedUnit(b) + 10000.0);
  }

  /** The edges of the viewport land on 10000 and 55535; far enough off
      screen the halves saturate at 0 and 65535. */
  lemma ScreenHalfLandmarks(v: real)
    ensures ScreenHalf(-1.0) == 10000 && ScreenHalf(1.0) == 55535
    ensures (v + 1.0) / 2.0 <= ScreenMin ==> ScreenHalf(v) == 0
    ensures (v + 1.0) / 2.0 >= ScreenMax ==> ScreenHalf(v) == 0xFFFF
  {
  }

  /** `encode_screen`: `x` in the high half, `y` in the low half.  The two
      halves never overlap, so the word is always their weighted sum. */
  function EncodeScreen(x: real, y: real): (w: nat)
    ensures w == ScreenHalf(x) * 0x1_0000 + ScreenHalf(y)
    ensures w < WordSize
  {
    PackHalves(ScreenHalf(x), ScreenHalf(y));
    Or(Shl(ScreenHalf(x), 16), ScreenHalf(y))
  }

  /** Two halves below 2^16 are packed without overlap, so both read back. */
  lemma PackHalves(hi: nat, lo: nat)
    requires hi < 0x1_0000 && lo < 0x1_0000
    ensures Or(Shl(hi, 16), lo) == hi * 0x1_0000 + lo
    ensures Or(Shl(hi, 16), lo) / 0x1_0000 == hi && Or(Shl(hi, 16), lo) % 0x1_0000 == lo
  {
    Pow2Values();
    ShlFits(hi, 16);
    OrHighDisjoint(hi, lo, 16);
  }

  /** The screen word always reads back as its two clamped halves. */
  lemma ScreenRoundTrip(x: real, y: real)
    ensures EncodeScreen(x, y) / 0x1_0000 == ScreenHalf(x)
    ensures EncodeScreen(x, y) % 0x1_0000 == ScreenHalf(y)
    ensures EncodeScreen(x, y) < WordSize
  {
    PackHalves(ScreenHalf(x), ScreenHalf(y));
  }

  /** A larger x gives a larger word, whatever y is: x sits in the high half. */
  lemma EncodeScreenMonotoneX(x1: real, x2: real, y: real)
    requires x1 <= x2
    ensures EncodeScreen(x1, y) <= EncodeScreen(x2, y)
  {
    ScreenHalfMonotone(x1, x2);
  }

  /** A larger y gives a larger word, whatever x is. */
  lemma EncodeScreenMonotoneY(x: real, y1: real, y2: real)
    requires y1 <= y2
    ensures EncodeScreen(x, y1) <= EncodeScreen(x, y2)
  {
    ScreenHalfMonotone(y1, y2);
  }

  /** One half of `encode_uv`: a texture pixel coordinate times ten plus
      10000, with no clamp. */
  function UvHalf(v: real): nat
  {
    AsU32(10.0 * v + 10000.0)
  }

  /** `encode_uv`: `u` shifted into the high half (its bits above 16 fall off
      the top of the word) and `v` or-ed in unmasked. */
  function EncodeUv(u: real, v: real): (w: nat)
    ensures UvHalf(u) < 0x1_0000 && UvHalf(v) < 0x1_0000 ==> w == UvHalf(u) * 0x1_0000 + UvHalf(v)
  {
    if UvHalf(u) < 0x1_0000 && UvHalf(v) < 0x1_0000 then
      PackHalves(UvHalf(u), UvHalf(v));
      Or(Shl(UvHalf(u), 16), UvHalf(v))
    else
      Or(Shl(UvHalf(u), 16), UvHalf(v))
  }

  /** Within the 16-bit range the halves read back as written. */
  lemma UvRoundTrip(u: real, v: real)
    requires UvHalf(u) < 0x1_0000 && UvHalf(v) < 0x1_0000
    ensures EncodeUv(u, v) / 0x1_0000 == UvHalf(u)
    ensures EncodeUv(u, v) % 0x1_0000 == UvHalf(v)
  {
    PackHalves(UvHalf(u), UvHalf(v));
  }

  /** Without a clamp, a `v` at 5553.6 pixels reaches 65536 and spills into
      the `u` half. */
  lemma UvOverflowSpills()
    ensures UvHalf(0.0) == 10000 && UvHalf(5553.6) == 0x1_0000
    ensures EncodeUv(0.0, 5553.6) / 0x1_0000 == 10001
  {
    assert 10.0 * 5553.6 + 10000.0 == 65536.0;
    Pow2Values();
    ShlFits(10000, 16);
    assert Shl(10000, 16) == 5000 * Pow2(17);
    OrHighDisjoint(5000, 0x1_0000, 17);
  }

  // ----- Vertices ---------------------------------------------------------------

  /** Three u32 words per vertex. */
  datatype GlyphVertex = GlyphVertex(encodedScreen: nat, encodedUv: nat, props: nat)

  /** One vertex group: where it starts in the buffer, how many vertices it
      has, and the viewport and depth it is drawn with. */
  datatype GroupData = GroupData(offset: nat, len: nat, arect: AbsRect, depth: nat)

  /** A vertex before encoding: its gl screen position and its texture
      position in atlas pixels. */
  datatype Corner = Corner(glX: real, glY: real, u: real, v: real)

  function EncodeCorner(c: Corner, props: nat): (g: GlyphVertex)
    ensures g.props == props
  {
    GlyphVertex(EncodeScreen(c.glX, c.glY), EncodeUv(c.u, c.v), props)
  }

  /** Each corner encoded, in order, all with the one property word. */
  function EncodeCorners(cs: seq<Corner>, props: nat): (vs: seq<GlyphVertex>)
    ensures |vs| == |cs| && forall i :: 0 <= i < |vs| ==> vs[i].props == props
  {
    if cs == [] then [] else [EncodeCorner(cs[0], props)] + EncodeCorners(cs[1..], props)
  }

  lemma {:induction false} EncodeCornersAt(cs: seq<Corner>, props: nat, i: nat)
    requires i < |cs|
    ensures EncodeCorners(cs, props)[i] == EncodeCorner(cs[i], props)
  {
    if i > 0 {
      EncodeCornersAt(cs[1..], props, i - 1);
    }
  }

  /** The corners of the two triangles of one glyph at the cursor (`cursorX`,
      `cursorY`) of a viewport whose origin is taken as (0, 0): the atlas box
      grown by the margin for the texture, the scaled box placed by the
      bearing and the height offset for the screen, in the order upper left,
      lower left, upper right, upper right, lower left, lower right. */
  function QuadCorners(atlas: FontAtlas, ci: CInfo, scale: real, vport: AbsRect,
                       cursorX: real, cursorY: real): (cs: seq<Corner>)
    ensures |cs| == 6 && cs[2] == cs[3] && cs[1] == cs[4]
  {
    var margin := atlas.margin * scale;
    var bb := ci.innerBoundingBox;
    var uv := GlyphBox(bb.x - (atlas.margin + 0.5), bb.y - (atlas.margin + 0.5),
                       bb.w + 2.0 * atlas.margin + 0.5, bb.h + 2.0 * atlas.margin + 0.5);
    var w := bb.w * scale;
    var h := bb.h * scale;
    var glyphX := cursorX + ci.preDrawAdvance * scale;
    var glyphY := cursorY + ci.heightOffset * scale;
    var px := GlyphBox(glyphX - margin, glyphY - h - margin, w + 2.0 * margin, h + 2.0 * margin);
    var gl := GlyphBox(Div(2.0 * px.x - vport.width, vport.width), Div(2.0 * px.y - vport.height, vport.height),
                       Div(2.0 * px.w, vport.width), Div(2.0 * px.h, vport.height));
    var upperLeft := Corner(gl.x, gl.y, uv.x, uv.y);
    var lowerLeft := Corner(gl.x, gl.y + gl.h, uv.x, uv.y + uv.h);
    var upperRight := Corner(gl.x + gl.w, gl.y, uv.x + uv.w, uv.y);
    var lowerRight := Corner(gl.x + gl.w, gl.y + gl.h, uv.x + uv.w, uv.y + uv.h);
    [upperLeft, lowerLeft, upperRight, upperRight, lowerLeft, lowerRight]
  }

  /** The six encoded vertices of one glyph; the two triangles share the
      upper-right and lower-left vertices. */
  function GlyphQuad(atlas: FontAtlas, ci: CInfo, scale: real, vport: AbsRect,
                     cursorX: real, cursorY: real, props: nat): (q: seq<GlyphVertex>)
    ensures |q| == 6 && forall i :: 0 <= i < 6 ==> q[i].props == props
    ensures q[2] == q[3] && q[1] == q[4]
  {
    var cs := QuadCorners(atlas, ci, scale, vport, cursorX, cursorY);
    EncodeCornersAt(cs, props, 1);
    EncodeCornersAt(cs, props, 2);
    EncodeCornersAt(cs, props, 3);
    EncodeCornersAt(cs, props, 4);
    EncodeCorners(cs, props)
  }

  /** The viewport of a line with its origin moved to (0, 0). */
  function LocalViewport(vport: AbsRect): AbsRect
  {
    AbsRect(0.0, 0.0, vport.width, vport.height)
  }

  /** The property word every vertex of `line` carries, at accumulated alpha
      `alpha`: the margin is the atlas margin at the line's scale. */
  function LineProps(atlas: FontAtlas, line: TextLine, alpha: real): nat
    requires ValidAtlas(atlas)
  {
    EncodePropsPlus(line, atlas.margin * Scale(atlas, line.lineheight), alpha)
  }

  /** The quad of one character at the cursor, or nothing for a character
      missing from the atlas. */
  function CharQuad(atlas: FontAtlas, local: AbsRect, scale: real, props: nat,
                    cursorX: real, cursorY: real, ch: char): (q: seq<GlyphVertex>)
    ensures |q| == (if ch in atlas.glyphs then 6 else 0)
    ensures forall i :: 0 <= i < |q| ==> q[i].props == props
  {
    if ch in atlas.glyphs then GlyphQuad(atlas, atlas.glyphs[ch], scale, local, cursorX, cursorY, props) else []
  }

  /** What the glyph loop draws for one character with the cursor at `x`. */
  type QuadFn = (real, char) -> seq<GlyphVertex>

  /** The quads of a line: its viewport, scale, property word and baseline
      fixed, the cursor and the character given. */
  function QuadAt(atlas: FontAtlas, local: AbsRect, scale: real, props: nat, cursorY: real): QuadFn
  {
    (x: real, ch: char) => CharQuad(atlas, local, scale, props, x, cursorY, ch)
  }

  /** The glyph loop over `s` from the cursor `cursorX`: each character's
      quad, the cursor then moving right by its advance.  With six vertices
      per known character and none for the others, a run has six vertices
      per character of `s` the atlas knows. */
  function GlyphRun(quad: QuadFn, atlas: FontAtlas, scale: real, cursorX: real, s: string): (r: seq<GlyphVertex>)
    ensures (forall x, ch :: |quad(x, ch)| == (if ch in atlas.glyphs then 6 else 0)) ==>
      |r| == 6 * CountPresent(atlas, s)
    decreases |s|
  {
    if s == [] then []
    else quad(cursorX, s[0]) + GlyphRun(quad, atlas, scale, cursorX + Advance(atlas, scale, s[0]), s[1..])
  }

  /** `generate_vertices`: the glyph run of the line's text, in the line's
      viewport moved to (0, 0), starting at the line's point.  A line has six
      vertices per character of its text that the atlas knows, and every one
      of them carries the line's property word. */
  function LineVertices(atlas: FontAtlas, line: TextLine, vport: AbsRect, alpha: real): (r: seq<GlyphVertex>)
    requires ValidAtlas(atlas)
    ensures |r| == 6 * CountPresent(atlas, line.text)
    ensures forall i :: 0 <= i < |r| ==> r[i].props == LineProps(atlas, line, alpha)
  {
    var local := LocalViewport(vport);
    var origin := PointAbsolute(line.uiCoordinates, local);
    var scale := Scale(atlas, line.lineheight);
    var props := LineProps(atlas, line, alpha);
    QuadAtShape(atlas, local, scale, props, origin.1);
    SharedProps(QuadAt(atlas, local, scale, props, origin.1), atlas, scale, origin.0, line.text, props);
    GlyphRun(QuadAt(atlas, local, scale, props, origin.1), atlas, scale, origin.0, line.text)
  }

  /** A line's quads: six vertices for a character the atlas knows, all
      carrying the line's property word, and nothing for the others. */
  lemma QuadAtShape(atlas: FontAtlas, local: AbsRect, scale: real, props: nat, cursorY: real)
    ensures forall x, ch :: |QuadAt(atlas, local, scale, props, cursorY)(x, ch)| == (if ch in atlas.glyphs then 6 else 0)
    ensures forall x, ch, i :: 0 <= i < |QuadAt(atlas, local, scale, props, cursorY)(x, ch)| ==>
      QuadAt(atlas, local, scale, props, cursorY)(x, ch)[i].props == props
    ensures forall x, ch :: ch in atlas.glyphs ==>
      QuadAt(atlas, local, scale, props, cursorY)(x, ch) == GlyphQuad(atlas, atlas.glyphs[ch], scale, local, x, cursorY, props)
  {
    forall x, ch
      ensures QuadAt(atlas, local, scale, props, cursorY)(x, ch) == CharQuad(atlas, local, scale, props, x, cursorY, ch)
    {
    }
  }

  /** Every vertex of a run carries the one property word of its quads. */
  lemma {:induction false} SharedProps(quad: QuadFn, atlas: FontAtlas, scale: real, cursorX: real, s: string, props: nat)
    requires forall x, ch, i :: 0 <= i < |quad(x, ch)| ==> quad(x, ch)[i].props == props
    ensures forall i :: 0 <= i < |GlyphRun(quad, atlas, scale, cursorX, s)| ==>
      GlyphRun(quad, atlas, scale, cursorX, s)[i].props == props
    decreases |s|
  {
    if s != [] {
      var x' := cursorX + Advance(atlas, scale, s[0]);
      SharedProps(quad, atlas, scale, x', s[1..], props);
      var q := quad(cursorX, s[0]);
      var rest := GlyphRun(quad, atlas, scale, x', s[1..]);
      var vs := GlyphRun(quad, atlas, scale, cursorX, s);
      assert vs == q + rest;
      forall i | 0 <= i < |vs|
        ensures vs[i].props == props
      {
        if i >= |q| {
          assert vs[i] == rest[i - |q|];
        }
      }
    }
  }

  /** The run of a concatenation: the second part starts where the cursor
      stands after the first, which is the first part's pixel length (the
      width `get_pixel_length` reports) past the start. */
  lemma {:induction false} GlyphRunAppend(quad: QuadFn, atlas: FontAtlas, scale: real, cursorX: real, s: string, t: string)
    ensures GlyphRun(quad, atlas, scale, cursorX, s + t)
         == GlyphRun(quad, atlas, scale, cursorX, s)
            + GlyphRun(quad, atlas, scale, cursorX + PixelLength(atlas, scale, s), t)
    decreases |s|
  {
    if s == [] {
      assert s + t == t;
      PixelLengthEmpty(atlas, scale, cursorX);
    } else {
      var x' := cursorX + Advance(atlas, scale, s[0]);
      GlyphRunAppend(quad, atlas, scale, x', s[1..], t);
      assert (s + t)[0] == s[0] && (s + t)[1..] == s[1..] + t;
      AdvanceThenRest(atlas, scale, cursorX, s);
      var q := quad(cursorX, s[0]);
      var a := GlyphRun(quad, atlas, scale, x', s[1..]);
      var b := GlyphRun(quad, atlas, scale, x' + PixelLength(atlas, scale, s[1..]), t);
      assert GlyphRun(quad, atlas, scale, cursorX, s + t) == q + (a + b);
      assert GlyphRun(quad, atlas, scale, cursorX, s) == q + a;
      assert q + (a + b) == (q + a) + b;
    }
  }

  /** The run of one more character ends with that character's quad, drawn
      where the cursor stands after the characters before it. */
  lemma GlyphRunSnoc(quad: QuadFn, atlas: FontAtlas, scale: real, cursorX: real, s: string, ch: char)
    ensures GlyphRun(quad, atlas, scale, cursorX, s + [ch])
         == GlyphRun(quad, atlas, scale, cursorX, s) + quad(cursorX + PixelLength(atlas, scale, s), ch)
  {
    GlyphRunAppend(quad, atlas, scale, cursorX, s, [ch]);
    var x := cursorX + PixelLength(atlas, scale, s);
    assert [ch][1..] == [];
    assert GlyphRun(quad, atlas, scale, x, [ch]) == quad(x, ch) + [];
    assert quad(x, ch) + [] == quad(x, ch);
  }

  /** One step of the glyph loop: with the cursor `x` standing after `s`,
      the next character adds its quad drawn at `x`, and the cursor moves on
      by its advance. */
  lemma GlyphRunStep(quad: QuadFn, atlas: FontAtlas, scale: real, cursorX: real, s: string, ch: char, x: real)
    requires x == cursorX + PixelLength(atlas, scale, s)
    ensures GlyphRun(quad, atlas, scale, cursorX, s + [ch]) == GlyphRun(quad, atlas, scale, cursorX, s) + quad(x, ch)
    ensures x + Advance(atlas, scale, ch) == cursorX + PixelLength(atlas, scale, s + [ch])
  {
    GlyphRunSnoc(quad, atlas, scale, cursorX, s, ch);
    PixelLengthSnoc(atlas, scale, s, ch);
  }

  /** Where each glyph lands: the quad of the character after `s` is drawn
      with the cursor moved right by the pixel length of `s`. */
  lemma GlyphPlacement(quad: QuadFn, atlas: FontAtlas, scale: real, cursorX: real, s: string, ch: char, t: string)
    ensures GlyphRun(quad, atlas, scale, cursorX, s + [ch] + t)
         == GlyphRun(quad, atlas, scale, cursorX, s)
            + quad(cursorX + PixelLength(atlas, scale, s), ch)
            + GlyphRun(quad, atlas, scale, cursorX + PixelLength(atlas, scale, s + [ch]), t)
  {
    GlyphRunAppend(quad, atlas, scale, cursorX, s + [ch], t);
    GlyphRunSnoc(quad, atlas, scale, cursorX, s, ch);
  }

  /** A character missing from the atlas changes nothing: the characters
      after it are still drawn, and exactly where they would be without it. */
  lemma MissingCharacterSkipped(quad: QuadFn, atlas: FontAtlas, scale: real, cursorX: real, s: string, ch: char, t: string)
    requires ch !in atlas.glyphs
    requires forall x :: quad(x, ch) == []
    ensures GlyphRun(quad, atlas, scale, cursorX, s + [ch] + t) == GlyphRun(quad, atlas, scale, cursorX, s + t)
  {
    GlyphPlacement(quad, atlas, scale, cursorX, s, ch, t);
    GlyphRunAppend(quad, atlas, scale, cursorX, s, t);
    PixelLengthSnoc(atlas, scale, s, ch);
    assert GlyphRun(quad, atlas, scale, cursorX, s) + quad(cursorX + PixelLength(atlas, scale, s), ch)
        == GlyphRun(quad, atlas, scale, cursorX, s);
  }

  // ----- From the walk to vertex groups --------------------------------------

  /** `regenerate` over the walk entries `nodes`: one group per text line, its
      vertices appended to the buffer. */
  function Regenerated(atlas: FontAtlas, m: NodeMap, nodes: seq<NodeInfo>): (r: (seq<GlyphVertex>, seq<GroupData>))
    requires ValidAtlas(atlas)
  {
    if nodes == [] then ([], [])
    else
      var r' := Regenerated(atlas, m, nodes[..|nodes| - 1]);
      var info := nodes[|nodes| - 1];
      if IsTextEntry(m, info) then
        var line := m[info.handle].element.line;
        var vs := LineVertices(atlas, line, info.rect, info.alpha);
        (r'.0 + vs, r'.1 + [GroupData(|r'.0|, |vs|, info.rect, info.depth)])
      else r'
  }

  /** The groups cover the buffer: there is one group per text entry of the
      walk, and the buffer is exactly as long as all of them together (with
      `GroupAt`, they tile it in walk order). */
  lemma {:induction false} GroupsCoverBuffer(atlas: FontAtlas, m: NodeMap, nodes: seq<NodeInfo>)
    requires ValidAtlas(atlas)
    ensures |Regenerated(atlas, m, nodes).1| == |TextEntries(m, nodes)|
    ensures |Regenerated(atlas, m, nodes).0| == SumLens(Regenerated(atlas, m, nodes).1)
    decreases |nodes|
  {
    if nodes != [] {
      var r' := Regenerated(atlas, m, nodes[..|nodes| - 1]);
      GroupsCoverBuffer(atlas, m, nodes[..|nodes| - 1]);
      var info := nodes[|nodes| - 1];
      if IsTextEntry(m, info) {
        var vs := LineVertices(atlas, m[info.handle].element.line, info.rect, info.alpha);
        var g := GroupData(|r'.0|, |vs|, info.rect, info.depth);
        assert (r'.1 + [g])[..|r'.1 + [g]| - 1] == r'.1;
      }
    }
  }

  /** One more walk entry: a text entry appends its line's vertices and a
      group starting at the old end of the buffer; anything else changes
      nothing. */
  lemma RegeneratedStep(atlas: FontAtlas, m: NodeMap, nodes: seq<NodeInfo>, i: nat)
    requires ValidAtlas(atlas) && i < |nodes|
    ensures var r := Regenerated(atlas, m, nodes[..i]);
      var info := nodes[i];
      Regenerated(atlas, m, nodes[..i + 1])
      == if IsTextEntry(m, info) then
           var vs := LineVertices(atlas, m[info.handle].element.line, info.rect, info.alpha);
           (r.0 + vs, r.1 + [GroupData(|r.0|, |vs|, info.rect, info.depth)])
         else r
  {
    assert nodes[..i + 1][..i] == nodes[..i];
  }

  /** The entry names a stored text node (the walk only names stored nodes,
      `RootsWalkStored`). */
  predicate IsTextEntry(m: NodeMap, info: NodeInfo)
  {
    info.handle in m && m[info.handle].element.Text?
  }

  /** The text entries of a walk, in order. */
  function TextEntries(m: NodeMap, nodes: seq<NodeInfo>): (te: seq<NodeInfo>)
    ensures forall i :: 0 <= i < |te| ==> IsTextEntry(m, te[i])
  {
    if nodes == [] then []
    else
      TextEntries(m, nodes[..|nodes| - 1])
      + (if IsTextEntry(m, nodes[|nodes| - 1]) then [nodes[|nodes| - 1]] else [])
  }

  function SumLens(gs: seq<GroupData>): nat
  {
    if gs == [] then 0 else SumLens(gs[..|gs| - 1]) + gs[|gs| - 1].len
  }

  /** The vertex runs of the text entries `te`, one per entry, in order. */
  function Shaped(atlas: FontAtlas, m: NodeMap, te: seq<NodeInfo>): (parts: seq<seq<GlyphVertex>>)
    requires ValidAtlas(atlas)
    requires forall i :: 0 <= i < |te| ==> IsTextEntry(m, te[i])
    ensures |parts| == |te|
  {
    if te == [] then []
    else
      var e := te[|te| - 1];
      assert IsTextEntry(m, e);
      Shaped(atlas, m, te[..|te| - 1]) + [LineVertices(atlas, m[e.handle].element.line, e.rect, e.alpha)]
  }

  lemma {:induction false} ShapedAt(atlas: FontAtlas, m: NodeMap, te: seq<NodeInfo>, i: nat)
    requires ValidAtlas(atlas)
    requires forall k :: 0 <= k < |te| ==> IsTextEntry(m, te[k])
    requires i < |te|
    ensures Shaped(atlas, m, te)[i] == LineVertices(atlas, m[te[i].handle].element.line, te[i].rect, te[i].alpha)
    decreases |te|
  {
    if i < |te| - 1 {
      ShapedAt(atlas, m, te[..|te| - 1], i);
    }
  }

  /** Runs laid end to end in one buffer, each recorded as a group with the
      rectangle and depth of its entry; the buffer is as long as all the
      groups together. */
  function Layout<V>(parts: seq<seq<V>>, entries: seq<NodeInfo>): (r: (seq<V>, seq<GroupData>))
    requires |parts| == |entries|
    ensures |r.1| == |parts| && |r.0| == SumLens(r.1)
  {
    if parts == [] then ([], [])
    else
      var r' := Layout(parts[..|parts| - 1], entries[..|entries| - 1]);
      var p, e := parts[|parts| - 1], entries[|entries| - 1];
      var gs := r'.1 + [GroupData(|r'.0|, |p|, e.rect, e.depth)];
      assert gs[..|gs| - 1] == r'.1;
      (r'.0 + p, gs)
  }

  /** Group `i` of a layout starts where the earlier groups end and holds
      run `i`, with the rectangle and depth of entry `i`. */
  lemma {:induction false} LayoutAt<V>(parts: seq<seq<V>>, entries: seq<NodeInfo>, i: nat)
    requires |parts| == |entries| && i < |parts|
    ensures var (buf, gs) := Layout(parts, entries);
      && gs[i].offset == SumLens(gs[..i])
      && gs[i].offset + gs[i].len <= |buf|
      && gs[i].arect == entries[i].rect && gs[i].depth == entries[i].depth
      && buf[gs[i].offset..gs[i].offset + gs[i].len] == parts[i]
  {
    var parts', entries' := parts[..|parts| - 1], entries[..|entries| - 1];
    var (buf', gs') := Layout(parts', entries');
    var p, e := parts[|parts| - 1], entries[|entries| - 1];
    var buf := buf' + p;
    var gs := gs' + [GroupData(|buf'|, |p|, e.rect, e.depth)];
    assert Layout(parts, entries) == (buf, gs);
    if i == |parts| - 1 {
      assert gs[..i] == gs';
      assert buf[|buf'|..|buf'| + |p|] == p;
    } else {
      LayoutAt(parts', entries', i);
      assert gs[i] == gs'[i] && gs[..i] == gs'[..i];
      assert parts[i] == parts'[i] && entries[i] == entries'[i];
      assert buf[gs[i].offset..gs[i].offset + gs[i].len] == buf'[gs[i].offset..gs[i].offset + gs[i].len];
    }
  }

  /** `regenerate` is the layout of the runs of the walk's text entries. */
  lemma {:induction false} RegeneratedIsLayout(atlas: FontAtlas, m: NodeMap, nodes: seq<NodeInfo>)
    requires ValidAtlas(atlas)
    ensures Regenerated(atlas, m, nodes) == Layout(Shaped(atlas, m, TextEntries(m, nodes)), TextEntries(m, nodes))
  {
    if nodes != [] {
      var nodes' := nodes[..|nodes| - 1];
      RegeneratedIsLayout(atlas, m, nodes');
      var info := nodes[|nodes| - 1];
      var te' := TextEntries(m, nodes');
      var r' := Regenerated(atlas, m, nodes');
      if IsTextEntry(m, info) {
        var vs := LineVertices(atlas, m[info.handle].element.line, info.rect, info.alpha);
        var te := te' + [info];
        assert TextEntries(m, nodes) == te;
        assert te[..|te| - 1] == te';
        var parts := Shaped(atlas, m, te);
        assert parts == Shaped(atlas, m, te') + [vs];
        assert parts[..|parts| - 1] == Shaped(atlas, m, te');
        assert Layout(parts, te) == (r'.0 + vs, r'.1 + [GroupData(|r'.0|, |vs|, info.rect, info.depth)]);
      } else {
        assert TextEntries(m, nodes) == te' + [];
        assert te' + [] == te';
      }
    }
  }

  /** Group `i` of `regenerate` starts where the groups before it end and
      holds the vertices of the `i`-th text entry of the walk, drawn in that
      entry's rectangle and depth. */
  lemma GroupAt(atlas: FontAtlas, m: NodeMap, nodes: seq<NodeInfo>, i: nat)
    requires ValidAtlas(atlas) && i < |TextEntries(m, nodes)|
    ensures var (buf, gs) := Regenerated(atlas, m, nodes);
      var te := TextEntries(m, nodes);
      && |gs| == |te|
      && gs[i].offset == SumLens(gs[..i])
      && gs[i].offset + gs[i].len <= |buf|
      && gs[i].arect == te[i].rect && gs[i].depth == te[i].depth
      && buf[gs[i].offset..gs[i].offset + gs[i].len]
         == LineVertices(atlas, m[te[i].handle].element.line, te[i].rect, te[i].alpha)
  {
    var te := TextEntries(m, nodes);
    var parts := Shaped(atlas, m, te);
    RegeneratedIsLayout(atlas, m, nodes);
    LayoutAt(parts, te, i);
    ShapedAt(atlas, m, te, i);
  }

  // ----- The renderer object ---------------------------------------------------

  class TextGfx {
    var atlas: FontAtlas
    var vertexBuffer: seq<GlyphVertex>
    var vertexGroups: seq<GroupData>
    var viewportWidth: real
    var viewportHeight: real

    ghost predicate Valid()
      reads this
    {
      ValidAtlas(atlas)
    }

    /** A renderer over a loaded atlas and the initial viewport, with nothing
        generated yet. */
    constructor (atlas: FontAtlas, width: real, height: real)
      requires ValidAtlas(atlas)
      ensures Valid() && this.atlas == atlas
      ensures vertexBuffer == [] && vertexGroups == []
      ensures viewportWidth == width && viewportHeight == height
    {
      this.atlas := atlas;
      vertexBuffer, vertexGroups := [], [];
      viewportWidth, viewportHeight := width, height;
    }

    /** The vertices of one line drawn in `vport` at accumulated alpha
        `alpha`. */
    method GenerateVertices(line: TextLine, vport: AbsRect, alpha: real) returns (vertices: seq<GlyphVertex>)
      requires Valid()
      ensures vertices == LineVertices(atlas, line, vport, alpha)
    {
      vertices := [];
      // positions are relative to the clipped viewport of the line
      var local := LocalViewport(vport);
      var (cursorX0, cursorY) := PointAbsolute(line.uiCoordinates, local);
      var cursorX := cursorX0;
      var scale := Scale(atlas, line.lineheight);
      var props := LineProps(atlas, line, alpha);
      ghost var quad := QuadAt(atlas, local, scale, props, cursorY);
      QuadAtShape(atlas, local, scale, props, cursorY);
      for i := 0 to |line.text|
        invariant vertices == GlyphRun(quad, atlas, scale, cursorX0, line.text[..i])
        invariant cursorX == cursorX0 + PixelLength(atlas, scale, line.text[..i])
      {
        var ch := line.text[i];
        assert line.text[..i + 1] == line.text[..i] + [ch];
        GlyphRunStep(quad, atlas, scale, cursorX0, line.text[..i], ch, cursorX);
        // characters missing from the atlas are skipped
        if ch in atlas.glyphs {
          vertices := vertices + GlyphQuad(atlas, atlas.glyphs[ch], scale, local, cursorX, cursorY, props);
          cursorX := cursorX + Advance(atlas, scale, ch);
        }
      }
      assert line.text[..|line.text|] == line.text;
    }

    /** Rebuild both buffers from a fresh walk of the arena over the whole
        viewport. */
    method Regenerate(ui: Ui)
      requires Valid() && ui.Valid()
      modifies this`vertexBuffer, this`vertexGroups
      ensures (vertexBuffer, vertexGroups)
           == Regenerated(atlas, ui.store,
                          RootsWalk(ui.store, ui.nextUnusedId, ui.roots,
                                    AbsRect(0.0, 0.0, viewportWidth, viewportHeight)).0)
    {
      vertexBuffer := [];
      vertexGroups := [];
      var offset := 0;
      var nodes := ui.Walk(viewportWidth, viewportHeight);
      RootsWalkStored(ui.store, ui.nextUnusedId, ui.roots, AbsRect(0.0, 0.0, viewportWidth, viewportHeight));
      for i := 0 to |nodes|
        invariant (vertexBuffer, vertexGroups) == Regenerated(atlas, ui.store, nodes[..i])
        invariant offset == |vertexBuffer|
      {
        var nodeinfo := nodes[i];
        RegeneratedStep(atlas, ui.store, nodes, i);
        var element := ui.store[nodeinfo.handle].element;
        // only text nodes produce groups
        if element.Text? {
          var groupvertices := GenerateVertices(element.line, nodeinfo.rect, nodeinfo.alpha);
          var grouplen := |groupvertices|;
          vertexBuffer := vertexBuffer + groupvertices;
          vertexGroups := vertexGroups + [GroupData(offset, grouplen, nodeinfo.rect, nodeinfo.depth)];
          offset := offset + grouplen;
        }
      }
      assert nodes[..|nodes|] == nodes;
    }

    /** Regenerate and clear the text-dirty flag exactly when it was set;
        the answer says whether drawing must be re-recorded. */
    method Update(ui: Ui) returns (rerecord: bool)
      requires Valid() && ui.Valid()
      modifies this`vertexBuffer, this`vertexGroups, ui`textIsDirty
      ensures rerecord == old(ui.textIsDirty) && !ui.textIsDirty
      ensures rerecord ==>
        (vertexBuffer, vertexGroups)
        == Regenerated(atlas, ui.store,
                       RootsWalk(ui.store, ui.nextUnusedId, ui.roots,
                                 AbsRect(0.0, 0.0, viewportWidth, viewportHeight)).0)
      ensures !rerecord ==> vertexBuffer == old(vertexBuffer) && vertexGroups == old(vertexGroups)
    {
      var dirty := ui.IsTextDirty();
      if dirty {
        Regenerate(ui);
        ui.ClearTextDirty();
        return true;
      }
      return false;
    }

    /** A new swapchain extent: take the new viewport size, regenerate, and
        clear the text-dirty flag. */
    method Rebuild(ui: Ui, width: nat, height: nat)
      requires Valid() && ui.Valid()
      modifies this`viewportWidth, this`viewportHeight, this`vertexBuffer, this`vertexGroups, ui`textIsDirty
      ensures viewportWidth == width as real && viewportHeight == height as real
      ensures (vertexBuffer, vertexGroups)
           == Regenerated(atlas, ui.store,
                          RootsWalk(ui.store, ui.nextUnusedId, ui.roots, AbsRect(0.0, 0.0, width as real, height as real)).0)
      ensures !ui.textIsDirty
    {
      viewportWidth := width as real;
      viewportHeight := height as real;
      Regenerate(ui);
      ui.ClearTextDirty();
    }
  }
}
