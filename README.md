# siege-example-client: the UI layer and its text renderer

This project models the retained-mode user interface of the siege example
client, together with the CPU side of the text renderer that feeds on it. All
of it is proved in Dafny. There is one module per part of the program:

- **Geometry** (`src/ui/geom/*`): relative layout. A `Dim` is a fraction of
  the parent's extent plus a pixel offset. A `Coord` anchors a `Dim` to the
  near or far edge of the parent. A `Rect` chooses, on each axis, two edges,
  an edge and a size, or a far edge and a size. `Rect::absolute` resolves a
  `Rect` in a parent rectangle and then crops the result to it.
- **Elements** (`src/ui/mod.rs`, `src/ui/text.rs`, `src/ui/window/mod.rs`,
  `src/ui/image.rs`): the three kinds of element (window, image, text
  line), their colour and font codes, and `get_rect` / `get_alpha`.
- **Glyphs**: the font atlas the text code reads (per-character metrics,
  line height and margin), and the cursor sum shared by
  `Ui::get_pixel_length` and the glyph loop.
- **UiArena** (`src/ui/mod.rs`): the arena class `Ui`. It holds:
  - a handle-keyed store of nodes;
  - the ordered root list;
  - the handle counter;
  - three dirty flags.

  Its operations are `add_element` (the handle is given back when the parent
  is missing), `upsert`, `set_text`, the dirty-flag getters and clearers,
  `get_pixel_length` and the walk. The walk is specified by the functions
  `Subtree`, `Forest` and `RootsWalk`. Lemmas then prove what the walk
  promises:
  - post-order, each entry's parent entry comes later;
  - a child is one level deeper than its parent;
  - a child's alpha is its parent's alpha times its own;
  - a child's rectangle is resolved in its parent's rectangle;
  - each root's subtree sits in its own depth band, below every earlier one;
  - the arena stays a forest (no node listed twice, as a root or as a
    child), so the walk names every node below a root exactly once.
- **WindowDecor** (`src/ui/window/decorate.rs`): `decorate_window`. It
  appends, in order, nine 12-pixel nine-slice border images, an optional
  title line and an inner window inset by the border.
- **TextShaping** (`src/graphics/text.rs`):
  - the three vertex word encoders:
    - `encode_props_plus` works by bit packing over unsigned 32-bit words;
    - `encode_screen` works by clamping and quantising;
    - `encode_uv` quantises without any clamp;
  - the class `TextGfx`, with:
    - `generate_vertices`: six vertices per glyph the atlas knows; missing
      characters are skipped;
    - `regenerate`: one vertex group per text line in walk order, each
      starting where the groups before it end;
    - `update` / `rebuild`, driven by the text-dirty flag.
- **ChatRing** (`src/chat.rs`): the class `Chat`. It is a ring of ten text
  slots under a decorated window, with a `next` counter.
  - Each `scroll` puts slot `s` at `(next + 10 - s) % 10` lines above the
    bottom.
  - `emit_line` writes the newest line into the slot at distance 0.
- **InputModes** (`src/input.rs`): the class `InputSystem`. It holds
  the three-state mode (`Normal`, `Chat`, `Command`) and routes window
  events:
  - characters are handled only in chat and command mode;
  - key presses only in normal mode.

  The event handling function is restated as the functions `NextMode` and
  `EffectOf`.

Unsigned words are plain integers in the module **Words**. It defines
bitwise or and a left shift that drops what falls past bit 31. It also
proves the facts that turn an or of disjoint fields into a sum, so that
decoding a packed word can be proved to return its fields.

Where the program's own description and its code differ, the model follows
the code:

- **Root alpha.** A root window's own walk entry carries its `child_alpha`,
  as `get_alpha` returns it. The child alpha is not applied only to its
  descendants.
- **Screen quantisation.** `encode_screen` truncates (`as u32`); it does not
  round.
- **The crop.** It keeps every rectangle inside its parent, but its width
  or height can become negative (`CropMayLeaveNegativeWidth`).
- **`encode_uv` monotonicity.** It reads back its two halves only while each
  stays below 2^16. A larger `v` half carries into the `u` half
  (`UvOverflowSpills`).

## Model

| member | source | states |
|---|---|---|
| Geometry.NewDim | src/ui/geom/dim.rs:13-18 | the fraction and the pixel offset are stored unchanged |
| Geometry.XDimFormula | src/ui/geom/dim.rs:21-23 | the x extent is the parent width times the fraction plus the offset: with fraction 0 it is the offset, whatever the parent; fraction 1 with no offset is the parent's whole width; a non-negative dim in a parent of non-negative width is non-negative |
| Geometry.YDimFormula | src/ui/geom/dim.rs:26-28 | the same on the y axis, with the parent height |
| Geometry.Near | src/ui/geom/coord.rs:19-27 | a near coordinate is anchored top-or-left, with the given dim |
| Geometry.Far | src/ui/geom/coord.rs:29-37 | a far coordinate is anchored bottom-or-right, with the given dim |
| Geometry.XPoint | src/ui/geom/coord.rs:39-48 | a horizontal point is the anchored edge of the parent (its left edge, or its right edge for a far anchor) plus the resolved x extent |
| Geometry.YPoint | src/ui/geom/coord.rs:49-58 | a vertical point is the parent's top edge, or its bottom edge for a far anchor, plus the resolved y extent |
| Geometry.XPointNear | src/ui/geom/coord.rs:39-48 | a near point is the parent x plus fraction times the width plus the offset |
| Geometry.XPointFar | src/ui/geom/coord.rs:39-48 | a far point also adds the whole parent width |
| Geometry.YPointMirrorsXPoint | src/ui/geom/coord.rs:49-58 | the y point is the x point computed in the parent with its axes swapped |
| Geometry.PointShiftsWithOffset | src/ui/geom/coord.rs:46-57 | adding k to the pixel offset moves the point by exactly k, on both axes and with both anchors |
| Geometry.PointAbsolute | src/ui/geom/point.rs:10-14 | each component is its axis's anchored edge plus the resolved extent; the near origin point is the parent's origin and the far one its far corner |
| Geometry.PointAxesIndependent | src/ui/geom/point.rs:10-14 | the x of a resolved point depends only on the parent's x and width, and its y only on the parent's y and height |
| Geometry.PointNearOrigin | src/ui/geom/point.rs:10-14 | near(0, a), near(0, b) resolves to (parent.x + a, parent.y + b) |
| Geometry.PointFarCorner | src/ui/geom/point.rs:10-14 | far(0, 0), far(0, 0) resolves to the parent's far corner |
| Geometry.Crop | src/ui/geom/rect.rs:66-76 | the crop lies within the parent; its start is the later of the two starts; it never grows a size; a rectangle already within the parent is returned unchanged |
| Geometry.Absolute | src/ui/geom/rect.rs:38-79 | the result lies within the parent, and equals the resolved rectangle whenever that already does |
| Geometry.CropIdempotent | src/ui/geom/rect.rs:66-76 | cropping twice is cropping once |
| Geometry.CropMayLeaveNegativeWidth | src/ui/geom/rect.rs:66-76 | a child starting past the parent's right edge is cropped to a negative width: nothing bounds the size below |
| Geometry.Resolve | src/ui/geom/rect.rs:38-65 | before the crop, on each axis: two points give the edges; a near point and a size give the start and the size; a far point and a size give the far edge and the size |
| Geometry.ResolveLeftWidth | src/ui/geom/rect.rs:42-55 | before the crop, x is the left point and the width is the width dim |
| Geometry.ResolveRightWidth | src/ui/geom/rect.rs:43-56 | before the crop, x is the right point minus the width dim, and the width is the width dim |
| Geometry.ResolveLeftRight | src/ui/geom/rect.rs:41-54 | before the crop, x is the left point and the width is the right point minus the left point |
| Geometry.ResolveTopHeight | src/ui/geom/rect.rs:48-61 | before the crop, y is the top point and the height is the height dim |
| Geometry.ResolveBottomHeight | src/ui/geom/rect.rs:49-62 | before the crop, y is the bottom point minus the height dim, and the height is the height dim |
| Geometry.ResolveTopBottom | src/ui/geom/rect.rs:47-60 | before the crop, y is the top point and the height is the bottom point minus the top point |
| Geometry.DefaultRect | src/ui/geom/rect.rs:82-89 | the default rectangle resolves to a zero-size rectangle at the parent's origin, in every parent of non-negative size |
| Elements.ColorId | src/ui/text.rs:7-16 | every text colour has a code that fits in three bits |
| Elements.FontId | src/ui/text.rs:18-26 | every font has a code that fits in two bits |
| Elements.GetRect | src/ui/mod.rs:39-45 | only a window has a layout rectangle, and it is the window's own |
| Elements.GetAlpha | src/ui/mod.rs:47-53 | a window gives its child alpha, an image 1, a text line its 8-bit alpha over 255, which lies in [0, 1] |
| Glyphs.Scale | src/ui/mod.rs:194 | the scale is non-negative and times the atlas line height gives the line height |
| Glyphs.CountPresent | src/graphics/text.rs:303-310 | no more characters are drawn than the string has |
| Glyphs.Advance | src/ui/mod.rs:196-202 | a character the atlas lacks advances by nothing; with a non-negative scale and advance the step is non-negative |
| Glyphs.PixelLength | src/ui/mod.rs:191-204 | a string of characters none of which the atlas knows has length 0 |
| Glyphs.PixelLengthSnoc | src/ui/mod.rs:196-202 | one more character moves the cursor by its scaled post-draw advance, or by nothing when the atlas lacks it |
| Glyphs.PixelLengthAppend | src/ui/mod.rs:196-202 | the cursor sum of a concatenation is the sum of the cursor sums |
| Glyphs.PixelLengthEmpty | src/ui/mod.rs:195 | the empty string leaves the cursor where it started |
| Glyphs.AdvanceThenRest | src/ui/mod.rs:196-202 | advancing past the first character and then the rest is advancing past the whole string |
| Glyphs.MissingCharacterHasNoLength | src/ui/mod.rs:197-200 | a character missing from the atlas adds nothing to the length, wherever it stands |
| Glyphs.PixelLengthMonotone | src/ui/mod.rs:196-202 | with non-negative advances, appending text never shortens a line |
| UiArena.AttachAppendsChild | src/ui/mod.rs:103-128 | adding under a stored parent appends the new handle to the end of that parent's children, stores the new node without children, adds exactly that key, and changes no other node |
| UiArena.AttachKeepsLinked | src/ui/mod.rs:100-128 | adding a node keeps every listed child stored, issued, and later than its parent |
| UiArena.NodeRect | src/ui/mod.rs:294-299 | a node's rectangle lies within its parent's; it is the parent's own for a non-window |
| UiArena.MaxDepth | src/ui/mod.rs:280 | the fold is at least its start, bounds every depth in the list, and is either its start or one of those depths |
| UiArena.LaterParentInPrefix | src/ui/mod.rs:303 | an entry whose parent entry comes later still has it when more output is appended |
| UiArena.LaterParentInSuffix | src/ui/mod.rs:303 | and likewise when output is put in front of it |
| UiArena.ChildrenListed | src/ui/mod.rs:291-292 | every child of an issued node is stored, issued, and later than the node |
| UiArena.ForestShape | src/ui/mod.rs:291-304 | in the children's output, every entry has its parent's entry later, or is the entry of one of the listed children: one level deeper, alpha multiplied, rectangle resolved in the parent's |
| UiArena.SubtreeShape | src/ui/mod.rs:286-308 | post-order: the node's own entry is last, and every other entry has its parent's entry after it |
| UiArena.ForestDepths | src/ui/mod.rs:300 | every entry of the children's output is deeper than the parent |
| UiArena.SubtreeDepths | src/ui/mod.rs:286-308 | no entry of a subtree is shallower than its root |
| UiArena.RootBands | src/ui/mod.rs:262-281 | the first root starts at depth 0, and each later root's band starts past every earlier entry. So the bands are disjoint and increasing, and the walk of one more root is the walk so far followed by that root's subtree |
| UiArena.BelowNextStart | src/ui/mod.rs:262-281 | every entry walked so far is shallower than the depth the next root starts at |
| UiArena.RootsWalkStored | src/ui/mod.rs:249-292 | every entry of the walk names a stored node |
| UiArena.AttachKeepsUnshared | src/ui/mod.rs:94-131 | adding a node keeps the arena a forest: the root list has no repeats, no root is anyone's child, and no handle is listed as a child twice, under one parent or two |
| UiArena.ReplaceKeepsUnshared | src/ui/mod.rs:133-161 | replacing a node's element while keeping its children (or inserting one without children) keeps the arena a forest |
| UiArena.ParentInReach | src/ui/mod.rs:286-308 | every node below w other than w itself is the child of some node below w |
| UiArena.Confluent | src/ui/mod.rs:286-308 | with one parent per node, two subtrees that share a node are nested, one inside the other |
| UiArena.NotBelowSibling | src/ui/mod.rs:291-304 | no child lies in the subtree of one of its siblings |
| UiArena.SiblingsApart | src/ui/mod.rs:291-304 | the subtrees of two different children of a node are disjoint |
| UiArena.RootNotBelow | src/ui/mod.rs:262-281 | no root lies in the subtree of another root |
| UiArena.RootsApart | src/ui/mod.rs:262-281 | the subtrees of two different roots are disjoint |
| UiArena.SubtreeOnce | src/ui/mod.rs:286-308 | a node's walked subtree names only nodes below it, none of them twice |
| UiArena.SubtreeCovers | src/ui/mod.rs:286-308 | a node's walked subtree names every node below it; with SubtreeOnce, each exactly once |
| UiArena.ForestOnce | src/ui/mod.rs:291-304 | the output of the first n children names only nodes below them, none of them twice |
| UiArena.ForestCovers | src/ui/mod.rs:291-304 | the output of the first n children names every node below them |
| UiArena.WalkReach | src/ui/mod.rs:256-284 | every entry of the walk names a node below one of the roots |
| UiArena.WalkVisitsOnce | src/ui/mod.rs:256-284 | in a forest-shaped arena the walk names every node at most once |
| UiArena.WalkCovers | src/ui/mod.rs:256-284 | the walk names every node below every root |
| UiArena.WalkExactlyOnce | src/ui/mod.rs:256-284 | in a forest-shaped arena every node below a root is named by exactly one entry of the walk |
| UiArena.Ui.constructor | src/ui/mod.rs:83-91 | a new arena has no nodes and no roots, its counter at 1, and all three dirty flags set |
| UiArena.Ui.AddElement | src/ui/mod.rs:94-131 | a missing parent gives None and changes nothing, the counter included. Otherwise: the old counter is returned and incremented; a root is appended to the root list; a child is appended to its parent's children; the node is stored without children; exactly the dirty flag of its kind is set. The arena stays a forest |
| UiArena.Ui.Upsert | src/ui/mod.rs:133-145 | a stored node's element is updated in place with its children kept; a missing one is inserted without children; text-dirty is set and nothing else changes |
| UiArena.Ui.SetText | src/ui/mod.rs:147-161 | true exactly for a stored text line, whose string alone is replaced, with text-dirty set; otherwise false and nothing changes |
| UiArena.Ui.IsTextDirty | src/ui/mod.rs:163-166 | reports the text-dirty flag |
| UiArena.Ui.IsWinDirty | src/ui/mod.rs:168-171 | reports the window-dirty flag |
| UiArena.Ui.IsImageDirty | src/ui/mod.rs:173-176 | reports the image-dirty flag |
| UiArena.Ui.ClearTextDirty | src/ui/mod.rs:178-180 | clears text-dirty and nothing else |
| UiArena.Ui.ClearWinDirty | src/ui/mod.rs:182-184 | clears window-dirty and nothing else |
| UiArena.Ui.ClearImageDirty | src/ui/mod.rs:186-188 | clears image-dirty and nothing else |
| UiArena.Ui.GetPixelLength | src/ui/mod.rs:191-204 | the loop's cursor is the scaled advance sum of the line's text |
| UiArena.Ui.Walk | src/ui/mod.rs:206-284 | the walk over the whole screen is the roots' subtrees in root order, each root starting one past the deepest entry before it; no two entries name the same node |
| UiArena.Ui.WalkTree | src/ui/mod.rs:286-308 | the loop's output is the subtree specification: the children's subtrees in order, then the node itself |
| WindowDecor.Decorations | src/ui/window/decorate.rs:32-175 | the plan has ten elements, or eleven with a title |
| WindowDecor.TitlePlacement | src/ui/window/decorate.rs:152-163 | the title line is placed at near(0, 17), near(0, 10), 8 pixels high, opaque black monospace, with no outline |
| WindowDecor.DecorationsShape | src/ui/window/decorate.rs:32-175 | nine images (top-left, top-right, top, left, right, pane, bottom-left, bottom-right, bottom), then the title text line exactly when there is a title, then the inner window: transparent, child alpha 1, inset by the border |
| WindowDecor.CornersPinWhereDrawn | src/ui/window/decorate.rs:32-133 | each corner image is pinned in the rectangle it is drawn in |
| WindowDecor.InnerWindowInset | src/ui/window/decorate.rs:166-175 | the inner window resolves to (x + 12, y + 12, W - 24, H - 24) when the parent is at least 24 by 24, and has a non-negative size exactly then |
| WindowDecor.CornerTilesResolve | src/ui/window/decorate.rs:17-50 | in a parent of at least 12 by 12, each corner tile is the 12 by 12 square at its corner |
| WindowDecor.Range | src/ui/window/decorate.rs:36-175 | n consecutive handles from the first one issued |
| WindowDecor.AttachAll | src/ui/window/decorate.rs:36-175 | adding a run of children under a parent keeps the parent stored |
| WindowDecor.AttachAllSnoc | src/ui/window/decorate.rs:36-175 | adding one more child to the run is one more add_element |
| WindowDecor.AttachAllShape | src/ui/window/decorate.rs:36-175 | after the run, the parent's children end with the new handles, in order; each new node holds its element without children; every other node is unchanged |
| WindowDecor.DecoratedStore | src/ui/window/decorate.rs:36-175 | the same for the decorations: the container's element is kept and its children end with the 10 or 11 new handles |
| WindowDecor.AddChild | src/ui/window/decorate.rs:148-175 | one unwrapped add_element under the container extends the run by one, at the next handle, setting its kind's dirty flag |
| WindowDecor.AddThree | src/ui/window/decorate.rs:32-146 | three add_elements in a row (a row of the border) extend the run by three, setting each one's dirty flag |
| WindowDecor.BorderPlan | src/ui/window/decorate.rs:32-146 | the first nine decorations are the nine border images in order |
| WindowDecor.AddBorder | src/ui/window/decorate.rs:30-146 | the nine border images are added in order under the container, setting image-dirty only |
| WindowDecor.AddTail | src/ui/window/decorate.rs:148-175 | after the border, the optional title line and then the inner window are added under the container; the inner window is the last handle issued; window-dirty is set, and text-dirty exactly when there is a title |
| WindowDecor.DecorateWindow | src/ui/window/decorate.rs:11-176 | the container's children end with the decorations in order. The returned handle is the last one added, is the empty-children inner window, and is later than the container. Image- and window-dirty are set, and text-dirty too when there is a title |
| TextShaping.AsU32 | src/graphics/text.rs:593-603 | `as u32`: truncation for values in range, 0 below, the largest word above |
| TextShaping.AsU32Monotone | src/graphics/text.rs:593-603 | the cast never decreases |
| TextShaping.AlphaByteFits | src/graphics/text.rs:556-557 | for an accumulated alpha in [0, 1] the alpha byte never exceeds the line's alpha, so it fits in bits 0-7 |
| TextShaping.OutlineId | src/graphics/text.rs:560-563 | an outline code exists exactly when the line has an outline, and it fits in three bits |
| TextShaping.EncodePropsPlus | src/graphics/text.rs:555-566 | the property word is a u32 whatever the inputs: a field too large for its bits spills upward but never out of the word |
| TextShaping.PackPropsFits | src/graphics/text.rs:555-566 | fields that are each a u32 pack into a u32 |
| TextShaping.ShlFits | src/graphics/text.rs:558-564 | a shifted field that fits in the word is the field times 2^k |
| TextShaping.ShlTop | src/graphics/text.rs:564 | shifting to bit 24 keeps only the low byte of the field |
| TextShaping.PackLow | src/graphics/text.rs:557-559 | alpha, font and colour or-ed in are their weighted sum |
| TextShaping.PackOutline | src/graphics/text.rs:560-563 | the outline colour and flag or-ed on top are added |
| TextShaping.PackMargin | src/graphics/text.rs:564 | the margin byte or-ed on top is added at bit 24 |
| TextShaping.PackedSum | src/graphics/text.rs:555-566 | with every field in range, the packed word is the sum of the fields at their bit positions |
| TextShaping.UnpackLow | src/graphics/text.rs:557-559 | the alpha, font and colour fields read back from the sum |
| TextShaping.UnpackHigh | src/graphics/text.rs:560-564 | the outline colour, the flag and the margin byte read back |
| TextShaping.UnpackSum | src/graphics/text.rs:555-566 | decoding the sum gives back every field |
| TextShaping.PropsRoundTrip | src/graphics/text.rs:555-566 | the property word decodes to its fields: the alpha byte at bits 0-7, the font at bits 8-9, the colour at bits 10-12, the outline colour at bits 13-15 with bit 16 set exactly when there is an outline, and the low byte of ten times the margin at bits 24-31 |
| TextShaping.ClampedUnit | src/graphics/text.rs:570-586 | the clamped value lies in [-10000/45535, 55535/45535], and is (v + 1)/2 whenever that already does |
| TextShaping.ScreenHalf | src/graphics/text.rs:580-593 | each screen half fits in 16 bits |
| TextShaping.ScreenHalfQuantises | src/graphics/text.rs:589-593 | the half is the mapped value rounded down |
| TextShaping.ScreenHalfMonotone | src/graphics/text.rs:569-593 | a larger coordinate never encodes smaller |
| TextShaping.ScreenHalfLandmarks | src/graphics/text.rs:574-590 | gl -1 maps to 10000 and gl +1 to 55535; past the clamp bounds the half is 0 or 65535 |
| TextShaping.PackHalves | src/graphics/text.rs:593-603 | two halves below 2^16 pack without overlap and both read back |
| TextShaping.EncodeScreen | src/graphics/text.rs:569-594 | the screen word is x's clamped half times 2^16 plus y's, and fits in a u32 |
| TextShaping.ScreenRoundTrip | src/graphics/text.rs:569-594 | the screen word is x's half above y's half, for every input |
| TextShaping.EncodeScreenMonotoneX | src/graphics/text.rs:569-594 | a larger x never gives a smaller word, whatever y is |
| TextShaping.EncodeScreenMonotoneY | src/graphics/text.rs:569-594 | a larger y never gives a smaller word, whatever x is |
| TextShaping.EncodeUv | src/graphics/text.rs:598-604 | while both halves are below 2^16 the uv word is u's half times 2^16 plus v's |
| TextShaping.UvRoundTrip | src/graphics/text.rs:598-604 | while both halves stay below 2^16, the uv word is u's half above v's half |
| TextShaping.UvOverflowSpills | src/graphics/text.rs:598-604 | without a clamp, v = 5553.6 pixels reaches 65536 and carries into the u half |
| TextShaping.EncodeCorner | src/graphics/text.rs:360-382 | every vertex carries the property word given |
| TextShaping.EncodeCorners | src/graphics/text.rs:360-382 | one vertex per corner, all with the one property word |
| TextShaping.EncodeCornersAt | src/graphics/text.rs:360-382 | vertex i is the encoding of corner i |
| TextShaping.QuadCorners | src/graphics/text.rs:312-387 | six corners, and the two triangles share the upper-right and lower-left corners |
| TextShaping.GlyphQuad | src/graphics/text.rs:358-387 | six vertices sharing one property word, the shared corners equal |
| TextShaping.CharQuad | src/graphics/text.rs:303-387 | six vertices for a character the atlas knows, none for the others, all with the line's property word |
| TextShaping.QuadAtShape | src/graphics/text.rs:303-387 | for every cursor and character, a line's quad has that size and property word, and is the glyph quad of a known character |
| TextShaping.GlyphRun | src/graphics/text.rs:303-391 | when every quad has six vertices for a known character and none for the others, a run has six vertices per character the atlas knows |
| TextShaping.SharedProps | src/graphics/text.rs:358-387 | every vertex of a run carries the one property word |
| TextShaping.GlyphRunAppend | src/graphics/text.rs:303-391 | the run of a concatenation is the first part's run, then the second part's run starting where the cursor stood |
| TextShaping.GlyphRunSnoc | src/graphics/text.rs:384-391 | one more character appends its quad, drawn at the cursor after the string |
| TextShaping.GlyphRunStep | src/graphics/text.rs:339-390 | one loop step appends the quad at the current cursor and moves it by the scaled post-draw advance only |
| TextShaping.GlyphPlacement | src/graphics/text.rs:339-390 | the glyph after s is drawn at the start cursor plus the pixel length of s, which is what get_pixel_length measures |
| TextShaping.MissingCharacterSkipped | src/graphics/text.rs:303-310 | a missing character draws nothing and does not move the cursor; the characters after it are still drawn |
| TextShaping.LineVertices | src/graphics/text.rs:283-394 | a line has six vertices per character of its text that the atlas knows, and every one carries the line's property word |
| TextShaping.RegeneratedStep | src/graphics/text.rs:402-424 | one more walk entry appends its line's vertices and one group when it is a text line, and changes nothing otherwise |
| TextShaping.TextEntries | src/graphics/text.rs:405-411 | only entries of stored text lines produce groups |
| TextShaping.Shaped | src/graphics/text.rs:413-414 | one vertex run per text entry |
| TextShaping.ShapedAt | src/graphics/text.rs:413-414 | run i is the vertices of text entry i, drawn in its rectangle at its alpha |
| TextShaping.Layout | src/graphics/text.rs:415-423 | one group per run, and the buffer is as long as all groups together |
| TextShaping.LayoutAt | src/graphics/text.rs:415-423 | group i's offset is the sum of the earlier lengths, and its slice of the buffer is run i with its entry's rectangle and depth |
| TextShaping.RegeneratedIsLayout | src/graphics/text.rs:396-426 | regenerating is laying out the runs of the walk's text entries end to end |
| TextShaping.GroupAt | src/graphics/text.rs:396-426 | group i starts at the sum of the earlier lengths, lies within the buffer, holds the vertices of the i-th text line of the walk, and keeps its rectangle and depth |
| TextShaping.GroupsCoverBuffer | src/graphics/text.rs:396-426 | one group per text entry, and the buffer is exactly as long as all groups together |
| TextShaping.TextGfx.constructor | src/graphics/text.rs:268-280 | a renderer starts with empty buffers, the given atlas and the given viewport |
| TextShaping.TextGfx.GenerateVertices | src/graphics/text.rs:283-394 | the loop's vertices are the glyph run of the line's text, drawn in the line's viewport moved to (0, 0) |
| TextShaping.TextGfx.Regenerate | src/graphics/text.rs:396-426 | both buffers are rebuilt from a fresh walk over the whole viewport, with one group per text line |
| TextShaping.TextGfx.Update | src/graphics/text.rs:526-536 | regenerates and clears text-dirty exactly when it was set, answering true exactly then; otherwise the buffers are unchanged |
| TextShaping.TextGfx.Rebuild | src/graphics/text.rs:543-551 | takes the new viewport size, regenerates from it, and clears text-dirty |
| ChatRing.Distance | src/chat.rs:71 | every slot's distance lies in 0..9 |
| ChatRing.NewestAtBottom | src/chat.rs:61-71 | the slot emit_line writes after a scroll is a valid slot, and has distance 0 in that scroll |
| ChatRing.DistanceGrows | src/chat.rs:71-84 | each scroll moves every slot one line up, modulo 10 |
| ChatRing.OldestIsNextOverwritten | src/chat.rs:63-84 | the slot at distance 9 is exactly the one the next emit_line writes |
| ChatRing.DistancesDistinct | src/chat.rs:71 | no two slots share a distance |
| ChatRing.EveryDistanceTaken | src/chat.rs:71 | every distance 0..9 belongs to some slot |
| ChatRing.Reposition | src/chat.rs:76-80 | only a text line changes, and only its y coordinate: anchored to the bottom with fraction 0 and offset minus 5 minus line height times the distance |
| ChatRing.RepositionPlacesLine | src/chat.rs:76-80 | the update changes only the line's y coordinate, which lands 5 plus line height times distance above the parent's bottom |
| ChatRing.OlderLinesHigher | src/chat.rs:76-80 | a line further back is drawn strictly higher |
| ChatRing.Chat.constructor | src/chat.rs:17-59 | a new root window holding the chat window; one of its children is the inner window of its decoration, whose children are the ten text slots; next is 10, and every slot is placed at its distance |
| ChatRing.Chat.OpenWindow | src/chat.rs:19-28 | the chat window is added as the last root and decorated; the inner window returned is one of its children, later than it, stored and childless |
| ChatRing.Chat.AddSlots | src/chat.rs:49-53 | ten consecutive new handles become the inner window's children, each a blank text line; the inner window's element and every other issued node are unchanged |
| ChatRing.Chat.SlotsAttached | src/chat.rs:49-53 | attaching the ten blank lines under an empty node gives it exactly the next ten handles as children, each a childless blank line, and leaves every older node as it was |
| ChatRing.Chat.EmitLine | src/chat.rs:61-65 | after the scroll, the slot at distance 0 holds the new text; the other slots are only moved; no other node changes; the atlas and the window and image dirty flags are kept |
| ChatRing.Chat.Scroll | src/chat.rs:67-85 | next grows by one. Each slot is moved to its distance with only its y coordinate changed, no slot is added, and every other node is unchanged |
| InputModes.InputSystem.constructor | src/input.rs:28-36 | a new input system starts in normal mode |
| InputModes.InputSystem.HandleEvent | src/input.rs:85-94 | events other than window events change nothing; a window event moves the mode and gives the effect as the routing functions say |
| InputModes.InputSystem.HandleWindowEvent | src/input.rs:96-127 | the mode and effect follow the routing function in every state |
| InputModes.InputSystem.HandleCharacter | src/input.rs:129-142 | escape and carriage return go back to normal mode; any other character keeps the mode |
| InputModes.InputSystem.HandleKeyboard | src/input.rs:144-226 | the mode and effect follow the key function: no keycode does nothing; a plain press of grave or slash opens chat or command mode |
| InputModes.ReleaseEffect | src/input.rs:157-184 | on release, logo-escape and only it terminates; releasing a plain movement key always stops that movement, and a movement effect comes only from such a key; nothing else has an effect |
| InputModes.PressEffect | src/input.rs:185-225 | on press, only unmodified keys have an effect, never terminate or resize; pressing a plain movement key always starts that movement, and a movement effect comes only from such a key |
| InputModes.KeyMode | src/input.rs:144-226 | the mode changes only on a plain press of grave (to chat) or slash (to command) |
| InputModes.KeyEffect | src/input.rs:144-226 | no keycode does nothing; termination is exactly a logo-escape release; a plain movement key always starts its movement on press and stops it on release, and a movement effect comes only from such a key; the adjustments come only from plain presses |
| InputModes.NextMode | src/input.rs:96-142 | the mode changes only by key input in normal mode, or back to normal by a character in a typing mode |
| InputModes.EffectOf | src/input.rs:96-127 | exactly a resize event resizes; closing, or a logo-escape release in normal mode, terminates; every other effect comes from key input in normal mode |
| InputModes.LeavingNormal | src/input.rs:186-190 | normal mode is left exactly by a plain press of grave (to chat) or slash (to command) |
| InputModes.LeavingTyping | src/input.rs:108-142 | chat and command mode change exactly on escape or carriage return, and only to normal; key input is ignored there |
| InputModes.CharactersIgnoredInNormal | src/input.rs:108-114 | characters do nothing in normal mode |
| InputModes.ReleaseKeepsMode | src/input.rs:152-184 | a released key or one without a keycode never changes the mode |
| InputModes.UncodedKeyIgnored | src/input.rs:152-155 | a key without a keycode has no effect |
| InputModes.ModeChangesOnlyByRoutedEvents | src/input.rs:96-127 | the mode changes only by key input in normal mode or by characters in the typing modes |
| InputModes.EscapeThenGraveOpensChat | src/input.rs:129-189 | from any mode, escape then a plain grave press ends in chat mode |
| InputModes.PlainTypingStays | src/input.rs:129-142 | any run of characters other than escape and carriage return keeps a typing mode |

## Left out

- Concurrency: the concurrent hash map, the lock on the root list and the
  relaxed atomic flags and counter are modelled as one sequential object.
  The rollback race on the handle counter under concurrent failing inserts
  cannot arise in this model.
- Floating point: all geometry and encoding is over exact reals. `f32`
  rounding and the depth epsilon of the other renderers are not modelled.
- `TextShaping.AsU32`: Rust's `as u32` is modelled as saturating truncation.
  NaN is not modelled.
- `TextShaping.Div`: a zero-sized viewport gives 0 where `f32` division
  would give an infinity or NaN.
- The font atlas is a value: loading it from its file (in `Ui::new` and the
  renderer's constructor) is I/O. The model requires a positive line height
  (`ValidAtlas`) so that the scale is defined.
- Vulkan plumbing: pipelines, descriptor sets, command-buffer recording,
  push constants and the GPU upload of the vertex buffer are out. So is the
  lazy re-locking of nodes by the walk iterator.
- The `offset` and `len` fields of a vertex group are unbounded naturals;
  their `u32` conversion is not modelled.
- `WindowDecor.DecorateWindow`: requires the container handle to be one the
  counter has issued. A handle only `upsert` can create could collide with
  the new handles. Every insert is unwrapped in the program, so a missing
  container is a precondition here rather than a panic.
- `UiArena.Ui.Upsert`: the insert closure is a partial function value. The
  chat scroll passes one that no input can call, as its slots are always
  stored (the program's `unimplemented!()`).
- `InputModes.InputSystem.HandleKeyboard`: the effects on the shared game
  state (terminate, resize, movement, field-of-view, blur and bloom
  adjustments) are returned as an `Effect` value instead of being written
  into the state.
- Mouse input, the event loop (`run` / `_run`), throttling and shutdown
  messages are I/O and are left out; cursor movement is a no-op.
- The commented-out test in `src/ui/mod.rs` targets an older interface and
  expects pre-order; the model follows the live post-order code.
- Networking, the camera and terrain, configuration, logging and the
  statistics overlay are not part of this model.
