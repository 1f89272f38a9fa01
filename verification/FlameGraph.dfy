/** Building and drawing a flame graph as the program does it: the walk over a trace sorts its lists of children
    on the way, and the walk over the frames moves a position along and writes rectangles. */
module FlameGraph {
  import opened SpanTree
  import opened FlameModel

  /** The frame of a span, and the trace as it is left. */
  method ConvertSpan(order: Order, t: Span) returns (frame: Frame, sorted: Span)
    requires Sorts(order)
    ensures sorted == SortTree(order, t) && frame == FrameOf(sorted)
    decreases t
  {
    hide Sorts, SortTree, FrameName, Truncate;
    var name := FrameName(t.info);
    var kids: seq<Frame>, spans: seq<Span> := [], [];
    var p := OrderOf(order, t);
    for k := 0 to |p|
      invariant |kids| == |spans| == k
      invariant forall i :: 0 <= i < k ==> spans[i] == SortTree(order, t.children[p[i]]) && kids[i] == FrameOf(spans[i])
    {
      var kid, span := ConvertSpan(order, t.children[p[k]]);
      kids := kids + [kid];
      spans := spans + [span];
    }
    SortedFrom(order, t, spans);
    sorted := t.(children := spans);
    frame := Frame(name, t.info.serviceName, t.info.spanId, Truncate(t.info.durationMs * 1000.0), t.info.durationMs, kids);
    assert kids == FrameOf(sorted).children;
  }

  lemma SortedFrom(order: Order, t: Span, spans: seq<Span>)
    requires Sorts(order) && |spans| == |t.children|
    requires forall i :: 0 <= i < |spans| ==> spans[i] == SortTree(order, t.children[OrderOf(order, t)[i]])
    ensures SortTree(order, t) == t.(children := spans)
  {
    hide SortTree, Sorts, OrderOf;
    var p := SortTreeIs(order, t);
    assert SortTree(order, t).children == spans;
  }

  method CalculateMaxDepth(f: Frame, currentDepth: nat) returns (depth: nat)
    ensures depth + 1 == currentDepth + Depth(f)
    decreases f
  {
    if |f.children| == 0 {
      return currentDepth;
    }
    depth := currentDepth;
    for k := 0 to |f.children|
      invariant depth == currentDepth + DepthAll(f.children[..k])
    {
      assert f.children[..k + 1][..k] == f.children[..k];
      var d := CalculateMaxDepth(f.children[k], currentDepth + 1);
      if d > depth {
        depth := d;
      }
    }
    assert f.children[..|f.children|] == f.children;
  }

  class Canvas {
    var rects: seq<Rect>

    constructor ()
      ensures rects == []
    {
      rects := [];
    }

    method DrawFrame(pic: Picture, f: Frame, x: real, y: real, width: real, depth: nat)
      requires pic.total != 0.0
      modifies this
      ensures rects == old(rects) + Draw(pic, f, x, y, width, depth)
      decreases f
    {
      hide WidthOf;
      if width < 0.5 {
        return;
      }
      var height := pic.rowHeight as real;
      ghost var before := rects;
      ghost var own := [Rect(x, y, width, height - 1.0, depth)];
      rects := rects + [Rect(x, y, width, height - 1.0, depth)];
      var childX := x;
      for k := 0 to |f.children|
        invariant childX == x + WidthsOf(pic, f.children[..k])
        invariant rects == before + (own + DrawAll(pic, f.children[..k], x, y + height, depth + 1))
      {
        var child := f.children[k];
        assert f.children[..k + 1][..k] == f.children[..k];
        var childWidth := WidthOf(pic, child.value);
        DrawFrame(pic, child, childX, y + height, childWidth, depth + 1);
        childX := childX + childWidth;
      }
      assert f.children[..|f.children|] == f.children;
    }
  }

  /** The rectangles of the picture, and its height. */
  method ToSvg(root: Frame, width: int, rowHeight: int) returns (rects: seq<Rect>, height: int)
    ensures rects == DrawRoot(root, width, rowHeight) && height == HeightOf(root, rowHeight)
  {
    var maxDepth := CalculateMaxDepth(root, 1);
    height := 20 + maxDepth * rowHeight + 40;
    var totalValue := root.value as real;
    if totalValue == 0.0 {
      totalValue := 1.0;
    }
    var canvas := new Canvas();
    canvas.DrawFrame(Picture(totalValue, width, rowHeight), root, 0.0, 25.0, width as real, 0);
    rects := canvas.rects;
  }
}
