/** The font atlas as the text code consumes it: per-character glyph metrics
    plus the atlas-wide line height and margin.  The atlas itself is an asset
    read from disk; here it is a plain value.  `PixelLength` is the running
    cursor of `Ui::get_pixel_length` and of the glyph loop of the text
    renderer: the sum of the scaled post-draw advances of the characters the
    atlas knows, the others being skipped. */
module Glyphs {
  import opened Base

  datatype GlyphBox = GlyphBox(x: real, y: real, w: real, h: real)

  datatype CInfo = CInfo(
    innerBoundingBox: GlyphBox,
    preDrawAdvance: real,
    postDrawAdvance: real,
    heightOffset: real)

  datatype FontAtlas = FontAtlas(lineHeight: real, margin: real, glyphs: map<char, CInfo>)

  /** The atlas line height divides every scale factor. */
  predicate ValidAtlas(atlas: FontAtlas)
  {
    atlas.lineHeight > 0.0
  }

  /** `line.lineheight / atlas.line_height`. */
  function Scale(atlas: FontAtlas, lineheight: Byte): (s: real)
    requires ValidAtlas(atlas)
    ensures s >= 0.0
    ensures s * atlas.lineHeight == lineheight as real
  {
    lineheight as real / atlas.lineHeight
  }

  /** The cursor advance of one character: its scaled post-draw advance, or
      nothing for a character missing from the atlas.  A glyph with a
      non-negative advance at a non-negative scale never moves the cursor
      back. */
  function Advance(atlas: FontAtlas, scale: real, ch: char): (a: real)
    ensures ch !in atlas.glyphs ==> a == 0.0
    ensures scale >= 0.0 && (ch in atlas.glyphs ==> atlas.glyphs[ch].postDrawAdvance >= 0.0) ==> a >= 0.0
  {
    if ch in atlas.glyphs then atlas.glyphs[ch].postDrawAdvance * scale else 0.0
  }

  /** The cursor after the whole string.  A string of characters the atlas
      does not know takes no room. */
  function PixelLength(atlas: FontAtlas, scale: real, s: string): (len: real)
    ensures (forall i :: 0 <= i < |s| ==> s[i] !in atlas.glyphs) ==> len == 0.0
  {
    if s == [] then 0.0
    else PixelLength(atlas, scale, s[..|s| - 1]) + Advance(atlas, scale, s[|s| - 1])
  }

  /** The number of characters of `s` that the atlas has a glyph for. */
  function CountPresent(atlas: FontAtlas, s: string): (n: nat)
    ensures n <= |s|
  {
    if s == [] then 0
    else (if s[0] in atlas.glyphs then 1 else 0) + CountPresent(atlas, s[1..])
  }

  /** One more character moves the cursor by its advance. */
  lemma PixelLengthSnoc(atlas: FontAtlas, scale: real, s: string, ch: char)
    ensures PixelLength(atlas, scale, s + [ch]) == PixelLength(atlas, scale, s) + Advance(atlas, scale, ch)
  {
    assert (s + [ch])[..|s + [ch]| - 1] == s;
  }

  /** The length of a concatenation is the sum of the lengths. */
  lemma {:induction false} PixelLengthAppend(atlas: FontAtlas, scale: real, s: string, t: string)
    ensures PixelLength(atlas, scale, s + t)
         == PixelLength(atlas, scale, s) + PixelLength(atlas, scale, t)
    decreases |t|
  {
    if t == [] {
      assert s + t == s;
    } else {
      var t' := t[..|t| - 1];
      assert (s + t)[..|s + t| - 1] == s + t';
      PixelLengthAppend(atlas, scale, s, t');
    }
  }

  /** The empty string does not move the cursor. */
  lemma PixelLengthEmpty(atlas: FontAtlas, scale: real, cursorX: real)
    ensures cursorX + PixelLength(atlas, scale, []) == cursorX
  {
  }

  /** Moving past the first character and then the rest is moving past the
      whole string. */
  lemma AdvanceThenRest(atlas: FontAtlas, scale: real, cursorX: real, s: string)
    requires s != []
    ensures cursorX + Advance(atlas, scale, s[0]) + PixelLength(atlas, scale, s[1..])
         == cursorX + PixelLength(atlas, scale, s)
  {
    PixelLengthAppend(atlas, scale, [s[0]], s[1..]);
    assert [s[0]] + s[1..] == s;
    assert [s[0]][..0] == [];
  }

  /** A character missing from the atlas contributes nothing, wherever it is. */
  lemma MissingCharacterHasNoLength(atlas: FontAtlas, scale: real, s: string, ch: char, t: string)
    requires ch !in atlas.glyphs
    ensures PixelLength(atlas, scale, s + [ch] + t) == PixelLength(atlas, scale, s + t)
  {
    PixelLengthAppend(atlas, scale, s + [ch], t);
    PixelLengthAppend(atlas, scale, s, t);
    assert (s + [ch])[..|s + [ch]| - 1] == s;
  }

  lemma NonNegativeProduct(a: real, b: real)
    requires a >= 0.0 && b >= 0.0
    ensures a * b >= 0.0
  {
  }

  /** With non-negative advances the length never shrinks as characters are added. */
  lemma {:induction false} PixelLengthMonotone(atlas: FontAtlas, scale: real, s: string, t: string)
    requires scale >= 0.0
    requires forall ch :: ch in atlas.glyphs ==> atlas.glyphs[ch].postDrawAdvance >= 0.0
    ensures PixelLength(atlas, scale, s) <= PixelLength(atlas, scale, s + t)
    decreases |t|
  {
    if t == [] {
      assert s + t == s;
    } else {
      var t' := t[..|t| - 1];
      assert (s + t)[..|s + t| - 1] == s + t';
      PixelLengthMonotone(atlas, scale, s, t');
      var ch := t[|t| - 1];
      if ch in atlas.glyphs {
        NonNegativeProduct(atlas.glyphs[ch].postDrawAdvance, scale);
      }
      assert Advance(atlas, scale, ch) >= 0.0;
    }
  }
}
