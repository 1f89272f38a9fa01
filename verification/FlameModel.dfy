/** Flame graphs of span trees: the frames, and what is drawn for them. */
module FlameModel {
  import opened SpanTree

  datatype Frame = Frame(name: string, service: string, spanId: string, value: int, duration: real, children: seq<Frame>)

  /** Rounding towards zero, as the conversion to an integer does. */
  function Truncate(r: real): int {
    if r >= 0.0 then r.Floor else -((-r).Floor)
  }

  function FrameName(info: Info): string {
    var name := info.serviceName + ":" + info.operation;
    if info.protocol == "" then name else name + " [" + info.protocol + "]"
  }

  /** The frames of a tree, child by child. */
  function FrameOf(t: Span): Frame {
    Frame(FrameName(t.info), t.info.serviceName, t.info.spanId, Truncate(t.info.durationMs * 1000.0), t.info.durationMs,
          seq(|t.children|, i requires 0 <= i < |t.children| => FrameOf(t.children[i])))
  }

  // ---------- drawing ----------

  datatype Rect = Rect(x: real, y: real, width: real, height: real, depth: nat)

  datatype Picture = Picture(total: real, width: int, rowHeight: int)

  /** The width of a value on the picture. */
  function WidthOf(pic: Picture, value: int): real
    requires pic.total != 0.0
  {
    value as real / pic.total * pic.width as real
  }

  /** The rectangles of a frame and everything above it; too narrow ones are left out with all above them. */
  function Draw(pic: Picture, f: Frame, x: real, y: real, width: real, depth: nat): seq<Rect>
    requires pic.total != 0.0
    decreases f, 0
  {
    if width < 0.5 then []
    else
      var height := pic.rowHeight as real;
      [Rect(x, y, width, height - 1.0, depth)] + DrawAll(pic, f.children, x, y + height, depth + 1)
  }

  /** Frames side by side from x on, each as wide as its value. */
  function DrawAll(pic: Picture, fs: seq<Frame>, x: real, y: real, depth: nat): seq<Rect>
    requires pic.total != 0.0
    decreases fs, 1
  {
    if fs == [] then []
    else
      var n := |fs| - 1;
      DrawAll(pic, fs[..n], x, y, depth) + Draw(pic, fs[n], x + WidthsOf(pic, fs[..n]), y, WidthOf(pic, fs[n].value), depth)
  }

  function WidthsOf(pic: Picture, fs: seq<Frame>): real
    requires pic.total != 0.0
  {
    if fs == [] then 0.0 else WidthsOf(pic, fs[..|fs| - 1]) + WidthOf(pic, fs[|fs| - 1].value)
  }

  function Depth(f: Frame): nat { 1 + DepthAll(f.children) }

  function DepthAll(fs: seq<Frame>): nat {
    if fs == [] then 0
    else
      var d, rest := Depth(fs[|fs| - 1]), DepthAll(fs[..|fs| - 1]);
      if d > rest then d else rest
  }

  /** The scale: the root's value fills the width, or the value 1 if the root has none. */
  function PictureOf(root: Frame, width: int, rowHeight: int): (pic: Picture)
    ensures pic.total != 0.0
  {
    Picture(if root.value == 0 then 1.0 else root.value as real, width, rowHeight)
  }

  function DrawRoot(root: Frame, width: int, rowHeight: int): seq<Rect> {
    Draw(PictureOf(root, width, rowHeight), root, 0.0, 25.0, width as real, 0)
  }

  /** The height of the whole picture, below a title and above a footer. */
  function HeightOf(root: Frame, rowHeight: int): int { 20 + Depth(root) * rowHeight + 40 }

  function ValuesOf(fs: seq<Frame>): int {
    if fs == [] then 0 else ValuesOf(fs[..|fs| - 1]) + fs[|fs| - 1].value
  }

  /** No frame's children need more than the frame has. */
  predicate Nested(f: Frame) {
    f.value >= 0 && ValuesOf(f.children) <= f.value && forall kid <- f.children :: Nested(kid)
  }
}
