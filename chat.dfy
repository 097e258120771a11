/** The scrolling text terminal (`chat::Chat`): a decorated window holding ten
    text lines used as a ring.  `next` counts the scrolls; before each new
    line every slot is repositioned by its distance from the newest slot, so
    the newest line sits at the bottom and the oldest, nine lines up, is the
    next one overwritten. */
module ChatRing {
  import opened Base
  import opened Geometry
  import opened Elements
  import opened UiArena
  import opened WindowDecor

  const Slots := 10

  /** Pixels between the bottom edge and the newest line. */
  const LineDrop := 5

  /** How many lines above the newest one slot `slot` is drawn, when the
      counter is at `next`. */
  function Distance(next: nat, slot: nat): (d: nat)
    requires slot < Slots
    ensures d < Slots
  {
    (next + Slots - slot) % Slots
  }

  /** A text line moved to `distance` lines above the bottom; anything but a
      text line is left alone.  Only the vertical coordinate changes: it is
      anchored to the bottom edge, one line height higher per step of
      distance. */
  function Reposition(e: UiElement, distance: nat): (r: UiElement)
    ensures !e.Text? ==> r == e
    ensures e.Text? ==> r.Text? && r.line.(uiCoordinates := e.line.uiCoordinates) == e.line
    ensures e.Text? ==> r.line.uiCoordinates.x == e.line.uiCoordinates.x
    ensures e.Text? ==>
      && r.line.uiCoordinates.y.anchor == BottomOrRight
      && r.line.uiCoordinates.y.dim.fraction == 0.0
      && r.line.uiCoordinates.y.dim.pixelOffset == -LineDrop - e.line.lineheight * distance
  {
    if e.Text? then
      Text(e.line.(uiCoordinates := e.line.uiCoordinates.(
        y := Far(0.0, -LineDrop - e.line.lineheight * distance))))
    else e
  }

  /** A text line with its string replaced, as `set_text` does it. */
  function WithText(e: UiElement, text: string): UiElement
  {
    if e.Text? then Text(e.line.(text := text)) else e
  }

  /** The empty white monospace line every slot starts as. */
  const BlankLine := TextLine(Point(Near(0.0, 0), Far(0.0, 0)), 15, White, None, Mono, 255, "")

  /** The chat window: 470 by 150 pixels, 6 pixels in from the bottom left
      corner, its children drawn at 80% alpha. */
  const ChatWindow := UiWindow(
    Rect(LeftWidth(Near(0.0, 6), NewDim(0.0, 470)), BottomHeight(Far(0.0, -6), NewDim(0.0, 150))),
    Rgba(0.0, 0.0, 0.0, 0.0), 0.8)

  // ----- The ring arithmetic ----------------------------------------------------

  /** The slot `emit_line` writes after the scroll that took the counter to
      `next + 1` has distance 0 in that scroll: the newest line is at the
      bottom. */
  lemma NewestAtBottom(next: nat)
    ensures (next + 1 - 1) % Slots < Slots
    ensures Distance(next, (next + 1 - 1) % Slots) == 0
  {
  }

  /** Each scroll moves every slot one line further up, wrapping from 9 to 0. */
  lemma DistanceGrows(next: nat, slot: nat)
    requires slot < Slots
    ensures Distance(next + 1, slot) == (Distance(next, slot) + 1) % Slots
  {
  }

  /** The slot nine lines up is exactly the one the next line overwrites. */
  lemma OldestIsNextOverwritten(next: nat, slot: nat)
    requires slot < Slots
    ensures Distance(next, slot) == Slots - 1 <==> slot == (next + 1) % Slots
  {
    var q, r := next / Slots, next % Slots;
    assert next == Slots * q + r;
    assert Distance(next, slot) == (r + Slots - slot) % Slots;
    assert (next + 1) % Slots == (r + 1) % Slots;
  }

  /** No two slots are drawn at the same height. */
  lemma DistancesDistinct(next: nat, s: nat, t: nat)
    requires s < Slots && t < Slots && s != t
    ensures Distance(next, s) != Distance(next, t)
  {
  }

  /** Every height 0..9 is taken by some slot. */
  lemma EveryDistanceTaken(next: nat, d: nat)
    requires d < Slots
    ensures (next + Slots - d) % Slots < Slots
    ensures Distance(next, (next + Slots - d) % Slots) == d
  {
  }

  /** Repositioning changes only the vertical coordinate of a text line, which
      is then `LineDrop + lineheight * distance` pixels above the parent's
      bottom edge; the higher the distance, the higher the line. */
  lemma RepositionPlacesLine(e: UiElement, distance: nat, parent: AbsRect)
    requires e.Text?
    ensures var e' := Reposition(e, distance);
      && e'.Text?
      && e'.line == e.line.(uiCoordinates := e'.line.uiCoordinates)
      && e'.line.uiCoordinates.x == e.line.uiCoordinates.x
      && YPoint(e'.line.uiCoordinates.y, parent)
         == parent.y + parent.height - (LineDrop + e.line.lineheight * distance) as real
  {
  }

  lemma OlderLinesHigher(e: UiElement, d1: nat, d2: nat, parent: AbsRect)
    requires e.Text? && e.line.lineheight > 0 && d1 < d2
    ensures YPoint(Reposition(e, d2).line.uiCoordinates.y, parent)
          < YPoint(Reposition(e, d1).line.uiCoordinates.y, parent)
  {
    RepositionPlacesLine(e, d1, parent);
    RepositionPlacesLine(e, d2, parent);
    assert e.line.lineheight * d1 < e.line.lineheight * d2;
  }

  // ----- The terminal -----------------------------------------------------------

  class Chat {
    var next: nat
    var handles: array<Handle>
    var innerWinHandle: Handle
    var winHandle: Handle
    var win: UiWindow

    /** The ten slots are distinct text nodes of the arena. */
    ghost predicate Valid(ui: Ui)
      reads this, handles, ui
    {
      && handles.Length == Slots
      && ui.Valid()
      && (forall s :: 0 <= s < Slots ==> handles[s] in ui.store && ui.store[handles[s]].element.Text?)
      && (forall s, t :: 0 <= s < t < Slots ==> handles[s] != handles[t])
    }

    /** Open the chat window as a new root, decorate it with the title
        "Chat", put ten blank lines in the inner window and position them. */
    constructor (ui: Ui)
      requires ui.Valid()
      modifies ui
      ensures Valid(ui) && fresh(handles)
      ensures winHandle == old(ui.nextUnusedId) && ui.roots == old(ui.roots) + [winHandle]
      ensures win == ChatWindow && next == Slots
      ensures winHandle in ui.store && ui.store[winHandle].element == Window(ChatWindow)
      ensures innerWinHandle in ui.store[winHandle].children
      ensures innerWinHandle in ui.store && ui.store[innerWinHandle].element == InnerWindow
      ensures ui.store[innerWinHandle].children == handles[..]
      ensures forall s :: 0 <= s < Slots ==>
        ui.store[handles[s]] == UiNode(Reposition(Text(BlankLine), Distance(Slots - 1, s)), [])
    {
      var wh, inner := OpenWindow(ui);
      ghost var n1 := ui.nextUnusedId;
      var hs := AddSlots(ui, inner);
      next := Slots - 1;
      handles := hs;
      innerWinHandle := inner;
      winHandle := wh;
      win := ChatWindow;
      new;
      assert forall s :: 0 <= s < Slots ==> handles[s] == n1 + s;
      assert wh !in handles[..] && inner !in handles[..];
      // the scroll places every slot at its height
      Scroll(ui);
    }

    /** The chat window as a new root, decorated with the title "Chat"; its
        inner window is the newest node and has no children yet. */
    static method OpenWindow(ui: Ui) returns (wh: Handle, inner: Handle)
      requires ui.Valid()
      modifies ui
      ensures ui.Valid() && wh == old(ui.nextUnusedId) && ui.roots == old(ui.roots) + [wh]
      ensures inner in ui.store && inner < ui.nextUnusedId && ui.store[inner] == UiNode(InnerWindow, [])
      ensures wh in ui.store && ui.store[wh].element == Window(ChatWindow)
      ensures inner in ui.store[wh].children && wh < inner
    {
      var r := ui.AddElement(Window(ChatWindow), None);
      wh := r.value;
      ghost var n0 := ui.nextUnusedId;
      inner := DecorateWindow(ui, wh, Some("Chat"));
      assert ui.store[wh].children == Range(n0, |Decorations(Some("Chat"))|);
      assert ui.store[wh].children[|Decorations(Some("Chat"))| - 1] == inner;
    }

    /** The planned slots: ten blank lines. */
    static function BlankSlots(): (r: seq<UiElement>)
      ensures |r| == Slots && forall i :: 0 <= i < Slots ==> r[i] == Text(BlankLine)
    {
      seq(Slots, _ => Text(BlankLine))
    }

    /** Attaching the blank slots under an empty node gives it exactly those
        children, each a childless blank line, and leaves the older nodes alone. */
    static lemma SlotsAttached(m0: NodeMap, inner: Handle, n1: Handle)
      requires inner in m0 && inner < n1 && m0[inner].children == []
      ensures var r := AttachAll(m0, inner, n1, BlankSlots());
        && inner in r && r[inner] == UiNode(m0[inner].element, Range(n1, Slots))
        && (forall k :: n1 <= k < n1 + Slots ==> k in r && r[k] == UiNode(Text(BlankLine), []))
        && (forall h :: h in m0 && h < n1 && h != inner ==> h in r && r[h] == m0[h])
    {
      var plan := BlankSlots();
      var r := AttachAll(m0, inner, n1, plan);
      AttachAllShape(m0, inner, n1, plan);
      forall k | n1 <= k < n1 + Slots
        ensures k in r && r[k] == UiNode(Text(BlankLine), [])
      {
        var i := k - n1;
        assert n1 + i == k && plan[i] == Text(BlankLine);
      }
    }

    /** The ten blank lines, attached in order under the empty inner window
        with the next free handles. */
    static method AddSlots(ui: Ui, inner: Handle) returns (hs: array<Handle>)
      requires ui.Valid() && inner in ui.store && inner < ui.nextUnusedId && ui.store[inner].children == []
      modifies ui
      ensures fresh(hs) && hs.Length == Slots
      ensures ui.Valid() && ui.roots == old(ui.roots) && ui.nextUnusedId == old(ui.nextUnusedId) + Slots
      ensures hs[..] == Range(old(ui.nextUnusedId), Slots)
      ensures inner in ui.store && ui.store[inner].children == hs[..]
      ensures forall k :: old(ui.nextUnusedId) <= k < old(ui.nextUnusedId) + Slots ==>
        k in ui.store && ui.store[k] == UiNode(Text(BlankLine), [])
      ensures ui.store[inner].element == old(ui.store)[inner].element
      ensures forall h :: h in old(ui.store) && h < old(ui.nextUnusedId) && h != inner ==>
        h in ui.store && ui.store[h] == old(ui.store)[h]
    {
      hs := new Handle[Slots](_ => 0);
      ghost var n1 := ui.nextUnusedId;
      ghost var m0 := ui.store;
      ghost var plan := BlankSlots();
      for slot := 0 to Slots
        invariant ui.Valid() && ui.roots == old(ui.roots) && ui.nextUnusedId == n1 + slot
        invariant ui.store == AttachAll(m0, inner, n1, plan[..slot])
        invariant hs[..slot] == Range(n1, slot)
      {
        var h := AddChild(ui, inner, Text(BlankLine), m0, n1, plan, slot);
        hs[slot] := h;
        assert hs[..slot + 1] == hs[..slot] + [h];
        assert Range(n1, slot + 1) == Range(n1, slot) + [n1 + slot];
      }
      assert hs[..Slots] == hs[..] && plan[..Slots] == plan;
      SlotsAttached(m0, inner, n1);
    }

    /** Scroll, then write `text` into the slot that is now at the bottom. */
    method EmitLine(ui: Ui, text: string)
      requires Valid(ui)
      modifies this`next, ui
      ensures Valid(ui) && next == old(next) + 1
      ensures ui.store.Keys == old(ui.store).Keys
      ensures ui.store[handles[old(next) % Slots]]
           == UiNode(WithText(Reposition(old(ui.store)[handles[old(next) % Slots]].element, 0), text),
                     old(ui.store)[handles[old(next) % Slots]].children)
      ensures forall s :: 0 <= s < Slots && s != old(next) % Slots ==>
        ui.store[handles[s]] == UiNode(Reposition(old(ui.store)[handles[s]].element, Distance(old(next), s)),
                                       old(ui.store)[handles[s]].children)
      ensures forall h :: h in old(ui.store) && h !in handles[..] ==> ui.store[h] == old(ui.store)[h]
      ensures ui.roots == old(ui.roots) && ui.nextUnusedId == old(ui.nextUnusedId) && ui.textIsDirty
      ensures ui.atlas == old(ui.atlas) && ui.winIsDirty == old(ui.winIsDirty) && ui.imageIsDirty == old(ui.imageIsDirty)
    {
      Scroll(ui);
      ghost var m1 := ui.store;
      var n := (next - 1) % Slots;
      assert n == old(next) % Slots;
      NewestAtBottom(old(next));
      var ok := ui.SetText(handles[n], text);
      assert ok;
      assert ui.store == m1[handles[n] := UiNode(WithText(m1[handles[n]].element, text), m1[handles[n]].children)];
    }

    /** Move every slot to its distance from the newest one and advance the
        counter.  Nothing but the slots' vertical positions changes. */
    method Scroll(ui: Ui)
      requires Valid(ui)
      modifies this`next, ui
      ensures Valid(ui) && next == old(next) + 1
      ensures ui.store.Keys == old(ui.store).Keys
      ensures forall s :: 0 <= s < Slots ==>
        ui.store[handles[s]] == UiNode(Reposition(old(ui.store)[handles[s]].element, Distance(old(next), s)),
                                       old(ui.store)[handles[s]].children)
      ensures forall h :: h in old(ui.store) && h !in handles[..] ==> ui.store[h] == old(ui.store)[h]
      ensures ui.roots == old(ui.roots) && ui.nextUnusedId == old(ui.nextUnusedId) && ui.atlas == old(ui.atlas)
      ensures ui.textIsDirty && ui.winIsDirty == old(ui.winIsDirty) && ui.imageIsDirty == old(ui.imageIsDirty)
    {
      ghost var m0 := ui.store;
      for slot := 0 to Slots
        invariant ui.Valid() && ui.store.Keys == m0.Keys && next == old(next)
        invariant ui.roots == old(ui.roots) && ui.nextUnusedId == old(ui.nextUnusedId) && ui.atlas == old(ui.atlas)
        invariant slot > 0 ==> ui.textIsDirty
        invariant ui.textIsDirty == (old(ui.textIsDirty) || slot > 0)
        invariant ui.winIsDirty == old(ui.winIsDirty) && ui.imageIsDirty == old(ui.imageIsDirty)
        invariant forall s :: 0 <= s < slot ==>
          ui.store[handles[s]] == UiNode(Reposition(m0[handles[s]].element, Distance(next, s)), m0[handles[s]].children)
        invariant forall s :: slot <= s < Slots ==> ui.store[handles[s]] == m0[handles[s]]
        invariant forall h :: h in m0 && h !in handles[..] ==> ui.store[h] == m0[h]
      {
        var distanceUp := Distance(next, slot);
        ui.Upsert(handles[slot], () requires false => Text(BlankLine), e => Reposition(e, distanceUp));
      }
      next := next + 1;
    }
  }
}
