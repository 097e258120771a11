/** `UiWindow::decorate_window`: a fixed builder that hangs the nine-slice
    border images, an optional title and an inner window under an existing
    window, each with `add_element(.., Some(handle)).unwrap()`.  The tiles are
    12 pixels square, so the inner window is inset by 12 pixels on every
    side. */
module WindowDecor {
  import opened Base
  import opened Geometry
  import opened Elements
  import opened UiArena

  // ----- The layout constants ------------------------------------------------

  const BorderWidth := NewDim(0.0, WindowLeft.width.Floor)
  const BorderHeight := NewDim(0.0, WindowTop.height.Floor)

  const OuterLeft := Near(0.0, 0)
  const OuterRight := Far(0.0, 0)
  const InnerLeft := Near(0.0, WindowLeft.width.Floor)
  const InnerRight := Far(0.0, (-WindowRight.width).Floor)

  const OuterTop := Near(0.0, 0)
  const InnerTop := Near(0.0, WindowTop.height.Floor)
  const InnerBottom := Far(0.0, (-WindowBottom.height).Floor)
  const OuterBottom := Far(0.0, 0)

  /** An image whose texture tile is pinned to, and drawn over, the same rectangle. */
  function Tile(widget: AbsRect, r: Rect): UiElement
  {
    Image(UiImage(widget, r, r))
  }

  const TlCornerImage := Tile(WindowTlCorner, Rect(LeftWidth(OuterLeft, BorderWidth), TopHeight(OuterTop, BorderHeight)))
  const TrCornerImage := Tile(WindowTrCorner, Rect(RightWidth(OuterRight, BorderWidth), TopHeight(OuterTop, BorderHeight)))
  const TopImage := Image(UiImage(WindowTop,
    Rect(LeftWidth(InnerLeft, BorderWidth), TopHeight(OuterTop, BorderHeight)),
    Rect(LeftRight(InnerLeft, InnerRight), TopHeight(OuterTop, BorderHeight))))
  const LeftImage := Image(UiImage(WindowLeft,
    Rect(LeftWidth(OuterLeft, BorderWidth), TopHeight(InnerTop, BorderHeight)),
    Rect(LeftWidth(OuterLeft, BorderWidth), TopBottom(InnerTop, InnerBottom))))
  const RightImage := Image(UiImage(WindowRight,
    Rect(RightWidth(OuterRight, BorderWidth), TopHeight(InnerTop, BorderHeight)),
    Rect(RightWidth(OuterRight, BorderWidth), TopBottom(InnerTop, InnerBottom))))
  const PaneImage := Image(UiImage(WindowPane,
    Rect(LeftWidth(InnerLeft, BorderWidth), TopHeight(InnerTop, BorderHeight)),
    Rect(LeftRight(InnerLeft, InnerRight), TopBottom(InnerTop, InnerBottom))))
  const BlCornerImage := Tile(WindowBlCorner, Rect(LeftWidth(OuterLeft, BorderWidth), BottomHeight(OuterBottom, BorderHeight)))
  const BrCornerImage := Tile(WindowBrCorner, Rect(RightWidth(OuterRight, BorderWidth), BottomHeight(OuterBottom, BorderHeight)))
  const BottomImage := Image(UiImage(WindowBottom,
    Rect(LeftWidth(InnerLeft, BorderWidth), BottomHeight(OuterBottom, BorderHeight)),
    Rect(LeftRight(InnerLeft, InnerRight), BottomHeight(OuterBottom, BorderHeight))))

  /** The nine border images, in the order they are added. */
  const BorderImages: seq<UiElement> := [
    TlCornerImage, TrCornerImage, TopImage,
    LeftImage, RightImage, PaneImage,
    BlCornerImage, BrCornerImage, BottomImage]

  /** The title line: 17 pixels in, 10 down, 8 pixels high, opaque black monospace. */
  function TitleText(title: string): UiElement
  {
    Text(TextLine(Point(Near(0.0, WindowLeft.width.Floor + 5), Near(0.0, WindowTop.height.Floor - 2)),
                  (WindowTop.height.Floor - 4) as Byte, Black, None, Mono, 255, title))
  }

  /** The title sits at near(0, 17), near(0, 10) with line height 8. */
  lemma TitlePlacement(title: string)
    ensures TitleText(title) == Text(TextLine(Point(Near(0.0, 17), Near(0.0, 10)), 8, Black, None, Mono, 255, title))
  {
  }

  const InnerRect := Rect(LeftRight(InnerLeft, InnerRight), TopBottom(InnerTop, InnerBottom))

  /** The transparent inner window, passing its children's alpha through. */
  const InnerWindow := Window(UiWindow(InnerRect, Rgba(0.0, 0.0, 0.0, 0.0), 1.0))

  /** Every element the decorator adds, in order. */
  function Decorations(title: Option<string>): (es: seq<UiElement>)
    ensures |es| == if title.Some? then 11 else 10
  {
    BorderImages + (if title.Some? then [TitleText(title.value)] else []) + [InnerWindow]
  }

  // ----- What the decoration is ---------------------------------------------

  /** Nine images first, then the title as the only text (and only when there
      is a title), and the inner window last, as the only window. */
  lemma DecorationsShape(title: Option<string>)
    ensures var es := Decorations(title);
      && (forall i :: 0 <= i < 9 ==> es[i].Image?)
      && (forall i :: 0 <= i < |es| ==> (es[i].Text? <==> title.Some? && i == 9))
      && (forall i :: 0 <= i < |es| ==> (es[i].Window? <==> i == |es| - 1))
      && (title.Some? ==> es[9] == TitleText(title.value))
      && es[|es| - 1] == InnerWindow
  {
    var es := Decorations(title);
    assert es[..9] == BorderImages;
    forall i | 0 <= i < 9
      ensures es[i].Image?
    {
      assert es[i] == BorderImages[i];
    }
  }

  /** The four corners repeat nothing: each is pinned to exactly the area it
      is drawn over. */
  lemma CornersPinWhereDrawn()
    ensures forall e :: e in {TlCornerImage, TrCornerImage, BlCornerImage, BrCornerImage} ==>
      e.Image? && e.img.widgetPinRect == e.img.screenDrawRect
  {
  }

  /** The inner window is the parent inset by the 12-pixel border on every
      side; it has non-negative extent exactly when the parent is at least
      24 pixels each way. */
  lemma InnerWindowInset(parent: AbsRect)
    ensures Absolute(InnerRect, parent)
         == AbsRect(parent.x + 12.0, parent.y + 12.0, parent.width - 24.0, parent.height - 24.0)
    ensures Absolute(InnerRect, parent).width >= 0.0 <==> parent.width >= 24.0
    ensures Absolute(InnerRect, parent).height >= 0.0 <==> parent.height >= 24.0
  {
  }

  /** In a parent at least one tile each way, the corner tiles each cover the
      12-pixel square at their corner. */
  lemma CornerTilesResolve(parent: AbsRect)
    requires parent.width >= 12.0 && parent.height >= 12.0
    ensures Absolute(TlCornerImage.img.screenDrawRect, parent) == AbsRect(parent.x, parent.y, 12.0, 12.0)
    ensures Absolute(TrCornerImage.img.screenDrawRect, parent)
         == AbsRect(parent.x + parent.width - 12.0, parent.y, 12.0, 12.0)
    ensures Absolute(BlCornerImage.img.screenDrawRect, parent)
         == AbsRect(parent.x, parent.y + parent.height - 12.0, 12.0, 12.0)
    ensures Absolute(BrCornerImage.img.screenDrawRect, parent)
         == AbsRect(parent.x + parent.width - 12.0, parent.y + parent.height - 12.0, 12.0, 12.0)
  {
  }

  // ----- Attaching a run of children ----------------------------------------

  /** The handles `id`, `id + 1`, ..., `id + n - 1`. */
  function Range(id: nat, n: nat): (r: seq<Handle>)
    ensures |r| == n && forall i :: 0 <= i < n ==> r[i] == id + i
  {
    seq(n, i => id + i)
  }

  /** The store after `es` have been attached under `p`, one after another,
      with the handles from `id` on. */
  function AttachAll(m: NodeMap, p: Handle, id: Handle, es: seq<UiElement>): (r: NodeMap)
    requires p in m && p < id
    ensures p in r
  {
    if es == [] then m
    else Attach(AttachAll(m, p, id, es[..|es| - 1]), Some(p), id + |es| - 1, es[|es| - 1])
  }

  lemma AttachAllSnoc(m: NodeMap, p: Handle, id: Handle, es: seq<UiElement>, e: UiElement)
    requires p in m && p < id
    ensures AttachAll(m, p, id, es + [e]) == Attach(AttachAll(m, p, id, es), Some(p), id + |es|, e)
  {
    assert (es + [e])[..|es|] == es;
  }

  /** Attaching a run appends its handles to `p`'s children in order, stores
      each element childless under its handle, and leaves every other node
      alone. */
  lemma {:induction false} AttachAllShape(m: NodeMap, p: Handle, id: Handle, es: seq<UiElement>)
    requires p in m && p < id
    ensures var r := AttachAll(m, p, id, es);
      && r[p] == UiNode(m[p].element, m[p].children + Range(id, |es|))
      && (forall i :: 0 <= i < |es| ==> id + i in r && r[id + i] == UiNode(es[i], []))
      && (forall k :: k in m && k != p && !(id <= k < id + |es|) ==> k in r && r[k] == m[k])
      && (forall k :: k in r <==> k in m || id <= k < id + |es|)
  {
    if es != [] {
      var es' := es[..|es| - 1];
      AttachAllShape(m, p, id, es');
      var r' := AttachAll(m, p, id, es');
      var r := AttachAll(m, p, id, es);
      assert r == Attach(r', Some(p), id + |es'|, es[|es| - 1]);
      assert Range(id, |es'|) + [id + |es'|] == Range(id, |es|);
      forall i | 0 <= i < |es|
        ensures id + i in r && r[id + i] == UiNode(es[i], [])
      {
        if i < |es'| {
          assert es'[i] == es[i];
        }
      }
    }
  }

  /** The decorated window gains the decorations as its last children, and
      the last of them is the childless inner window. */
  lemma DecoratedStore(m0: NodeMap, p: Handle, n0: Handle, title: Option<string>)
    requires p in m0 && p < n0
    ensures var r := AttachAll(m0, p, n0, Decorations(title));
      var n := |Decorations(title)|;
      && r[p] == UiNode(m0[p].element, m0[p].children + Range(n0, n))
      && n0 + n - 1 in r && r[n0 + n - 1] == UiNode(InnerWindow, [])
  {
    var es := Decorations(title);
    AttachAllShape(m0, p, n0, es);
    DecorationsShape(title);
    assert n0 + (|es| - 1) == n0 + |es| - 1;
  }

  // ----- The builder -------------------------------------------------------------

  /** `add_element(e, Some(parent)).unwrap()` with `parent` known to exist,
      where `e` is element `k` of the planned run `plan` attached since `m0`. */
  method AddChild(ui: Ui, parent: Handle, e: UiElement,
                  ghost m0: NodeMap, ghost n0: nat, ghost plan: seq<UiElement>, ghost k: nat)
    returns (h: Handle)
    requires ui.Valid() && parent in m0 && parent < n0
    requires k < |plan| && plan[k] == e
    requires ui.store == AttachAll(m0, parent, n0, plan[..k]) && ui.nextUnusedId == n0 + k
    modifies ui
    ensures ui.Valid() && ui.atlas == old(ui.atlas) && ui.roots == old(ui.roots)
    ensures h == old(ui.nextUnusedId) && ui.nextUnusedId == h + 1
    ensures ui.store == AttachAll(m0, parent, n0, plan[..k + 1])
    ensures ui.textIsDirty == (old(ui.textIsDirty) || e.Text?)
    ensures ui.winIsDirty == (old(ui.winIsDirty) || e.Window?)
    ensures ui.imageIsDirty == (old(ui.imageIsDirty) || e.Image?)
  {
    var r := ui.AddElement(e, Some(parent));
    h := r.value;
    AttachAllSnoc(m0, parent, n0, plan[..k], e);
    assert plan[..k] + [e] == plan[..k + 1];
  }

  /** Three planned elements `k`, `k + 1` and `k + 2` in a row. */
  method AddThree(ui: Ui, parent: Handle, a: UiElement, b: UiElement, c: UiElement,
                  ghost m0: NodeMap, ghost n0: nat, ghost plan: seq<UiElement>, ghost k: nat)
    requires ui.Valid() && parent in m0 && parent < n0
    requires k + 2 < |plan| && plan[k] == a && plan[k + 1] == b && plan[k + 2] == c
    requires ui.store == AttachAll(m0, parent, n0, plan[..k]) && ui.nextUnusedId == n0 + k
    modifies ui
    ensures ui.Valid() && ui.atlas == old(ui.atlas) && ui.roots == old(ui.roots)
    ensures ui.store == AttachAll(m0, parent, n0, plan[..k + 3]) && ui.nextUnusedId == n0 + k + 3
    ensures ui.textIsDirty == (old(ui.textIsDirty) || a.Text? || b.Text? || c.Text?)
    ensures ui.winIsDirty == (old(ui.winIsDirty) || a.Window? || b.Window? || c.Window?)
    ensures ui.imageIsDirty == (old(ui.imageIsDirty) || a.Image? || b.Image? || c.Image?)
  {
    var h: Handle;
    h := AddChild(ui, parent, a, m0, n0, plan, k);
    h := AddChild(ui, parent, b, m0, n0, plan, k + 1);
    h := AddChild(ui, parent, c, m0, n0, plan, k + 2);
  }

  /** Every border piece is an image. */
  lemma BorderAreImages()
    ensures TlCornerImage.Image? && TrCornerImage.Image? && TopImage.Image?
    ensures LeftImage.Image? && RightImage.Image? && PaneImage.Image?
    ensures BlCornerImage.Image? && BrCornerImage.Image? && BottomImage.Image?
  {
  }

  /** A plan that starts with the border images has them at its first nine
      positions. */
  lemma BorderPlan(plan: seq<UiElement>)
    requires |plan| >= 9 && plan[..9] == BorderImages
    ensures plan[0] == TlCornerImage && plan[1] == TrCornerImage && plan[2] == TopImage
    ensures plan[3] == LeftImage && plan[4] == RightImage && plan[5] == PaneImage
    ensures plan[6] == BlCornerImage && plan[7] == BrCornerImage && plan[8] == BottomImage
  {
    assert forall i :: 0 <= i < 9 ==> plan[i] == plan[..9][i];
  }

  /** The nine border images, top row first, then the sides and pane, then
      the bottom row, as the first nine elements of `plan`. */
  method AddBorder(ui: Ui, handle: Handle, ghost m0: NodeMap, ghost n0: nat, ghost plan: seq<UiElement>)
    requires ui.Valid() && handle in m0 && handle < n0
    requires ui.store == m0 && ui.nextUnusedId == n0
    requires |plan| >= 9 && plan[..9] == BorderImages
    modifies ui
    ensures ui.Valid() && ui.atlas == old(ui.atlas) && ui.roots == old(ui.roots)
    ensures ui.store == AttachAll(m0, handle, n0, plan[..9])
    ensures ui.nextUnusedId == n0 + 9
    ensures ui.imageIsDirty && ui.winIsDirty == old(ui.winIsDirty) && ui.textIsDirty == old(ui.textIsDirty)
  {
    assert plan[..0] == [];
    BorderPlan(plan);
    BorderAreImages();
    AddThree(ui, handle, TlCornerImage, TrCornerImage, TopImage, m0, n0, plan, 0);
    AddThree(ui, handle, LeftImage, RightImage, PaneImage, m0, n0, plan, 3);
    AddThree(ui, handle, BlCornerImage, BrCornerImage, BottomImage, m0, n0, plan, 6);
  }

  /** After the border: the title line when there is one, then the inner
      window, which is the last element of the plan. */
  method AddTail(ui: Ui, handle: Handle, title: Option<string>, ghost m0: NodeMap, ghost n0: nat)
    returns (inner: Handle)
    requires ui.Valid() && handle in m0 && handle < n0
    requires ui.store == AttachAll(m0, handle, n0, Decorations(title)[..9]) && ui.nextUnusedId == n0 + 9
    modifies ui
    ensures ui.Valid() && ui.atlas == old(ui.atlas) && ui.roots == old(ui.roots)
    ensures ui.store == AttachAll(m0, handle, n0, Decorations(title))
    ensures ui.nextUnusedId == n0 + |Decorations(title)| && inner == ui.nextUnusedId - 1
    ensures ui.winIsDirty && ui.imageIsDirty == old(ui.imageIsDirty)
    ensures ui.textIsDirty == (old(ui.textIsDirty) || title.Some?)
  {
    ghost var plan := Decorations(title);
    DecorationsShape(title);
    var h: Handle;
    if title.Some? {
      h := AddChild(ui, handle, TitleText(title.value), m0, n0, plan, 9);
    }
    inner := AddChild(ui, handle, InnerWindow, m0, n0, plan, |plan| - 1);
    assert plan[..|plan|] == plan;
  }

  /** Decorate the window `handle` and return the inner window to put content
      in: the last child added, with no children of its own. */
  method DecorateWindow(ui: Ui, handle: Handle, title: Option<string>) returns (inner: Handle)
    requires ui.Valid() && handle in ui.store && handle < ui.nextUnusedId
    modifies ui
    ensures ui.Valid() && ui.atlas == old(ui.atlas) && ui.roots == old(ui.roots)
    ensures ui.store == AttachAll(old(ui.store), handle, old(ui.nextUnusedId), Decorations(title))
    ensures ui.nextUnusedId == old(ui.nextUnusedId) + |Decorations(title)|
    ensures ui.store[handle].element == old(ui.store)[handle].element
    ensures ui.store[handle].children
         == old(ui.store)[handle].children + Range(old(ui.nextUnusedId), |Decorations(title)|)
    ensures inner == ui.nextUnusedId - 1 && inner > handle
    ensures inner in ui.store && ui.store[inner] == UiNode(InnerWindow, [])
    ensures ui.imageIsDirty && ui.winIsDirty
    ensures ui.textIsDirty == (old(ui.textIsDirty) || title.Some?)
  {
    ghost var m0, n0 := ui.store, ui.nextUnusedId;
    ghost var plan := Decorations(title);
    DecorationsShape(title);
    assert plan[..9] == BorderImages;
    AddBorder(ui, handle, m0, n0, plan);
    inner := AddTail(ui, handle, title, m0, n0);
    DecoratedStore(m0, handle, n0, title);
  }
}
