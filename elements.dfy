/** The three kinds of UI element and the data they carry: windows
    (`ui::window`), images cut from the UI texture (`ui::image`) and text lines
    (`ui::text`), with the per-element rectangle and alpha that the tree walk
    reads. */
module Elements {
  import opened Base
  import opened Geometry

  datatype TextColor = Black | White | Red | Gray | Gold | Green | Blue | Lavender

  datatype Font = Main | Mono | Title | Fantasy

  /** The discriminant of a colour (`#[repr(u8)]`); every colour fits in three bits. */
  function ColorId(c: TextColor): (id: nat)
    ensures id < 8
  {
    match c
    case Black => 0
    case White => 1
    case Red => 2
    case Gray => 3
    case Gold => 4
    case Green => 5
    case Blue => 6
    case Lavender => 7
  }

  /** The discriminant of a font; every font fits in two bits. */
  function FontId(f: Font): (id: nat)
    ensures id < 4
  {
    match f
    case Main => 0
    case Mono => 1
    case Title => 2
    case Fantasy => 3
  }

  /** One line of text, placed by a relative point inside its parent. */
  datatype TextLine = TextLine(
    uiCoordinates: Point,
    lineheight: Byte,
    color: TextColor,
    outline: Option<TextColor>,
    font: Font,
    alpha: Byte,
    text: string)

  /** An RGBA background colour (`[f32; 4]`). */
  datatype Rgba = Rgba(r: real, g: real, b: real, a: real)

  /** A window: its own relative rectangle, a background colour and the alpha
      multiplier applied to its subtree. */
  datatype UiWindow = UiWindow(rect: Rect, color: Rgba, childAlpha: real)

  /** A region of the UI texture (`widget`), the rectangle it is stretched to
      (`widgetPinRect`) and the area over which it repeats (`screenDrawRect`). */
  datatype UiImage = UiImage(widget: AbsRect, widgetPinRect: Rect, screenDrawRect: Rect)

  datatype UiElement = Window(win: UiWindow) | Image(img: UiImage) | Text(line: TextLine)

  /** The nine-slice tiles of the window decoration in the UI texture; each is
      12 by 12 pixels. */
  const WindowTlCorner := AbsRect(0.0, 0.0, 12.0, 12.0)
  const WindowTrCorner := AbsRect(24.0, 0.0, 12.0, 12.0)
  const WindowBlCorner := AbsRect(0.0, 36.0, 12.0, 12.0)
  const WindowBrCorner := AbsRect(24.0, 36.0, 12.0, 12.0)
  const WindowTop := AbsRect(12.0, 0.0, 12.0, 12.0)
  const WindowBottom := AbsRect(12.0, 36.0, 12.0, 12.0)
  const WindowLeft := AbsRect(0.0, 12.0, 12.0, 12.0)
  const WindowRight := AbsRect(24.0, 12.0, 12.0, 12.0)
  const WindowPane := AbsRect(12.0, 12.0, 12.0, 12.0)
  const WindowLRule := AbsRect(0.0, 24.0, 12.0, 12.0)
  const WindowRRule := AbsRect(24.0, 24.0, 12.0, 12.0)
  const WindowRule := AbsRect(12.0, 24.0, 12.0, 12.0)

  /** Only a window has a rectangle of its own; images and text take their
      parent's. */
  function GetRect(e: UiElement): (r: Option<Rect>)
    ensures r.Some? <==> e.Window?
    ensures r.Some? ==> r.value == e.win.rect
  {
    match e
    case Window(win) => Some(win.rect)
    case Image(_) => None
    case Text(_) => None
  }

  /** The alpha an element contributes: a window's child alpha, 1 for an
      image, and a text line's 8-bit alpha scaled into [0, 1]. */
  function GetAlpha(e: UiElement): (a: real)
    ensures e.Window? ==> a == e.win.childAlpha
    ensures e.Image? ==> a == 1.0
    ensures e.Text? ==> 0.0 <= a <= 1.0 && a * 255.0 == e.line.alpha as real
  {
    match e
    case Window(win) => win.childAlpha
    case Image(_) => 1.0
    case Text(tl) => tl.alpha as real / 255.0
  }
}
