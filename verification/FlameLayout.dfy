/** The layout of flame graphs: inside, in order, never overlapping. */
module FlameLayout {
  import opened RealAlgebra
  import opened Permutations
  import opened SpanTree
  import opened FlameModel

  // ---------- widths ----------

  predicate Scaled(pic: Picture) { pic.total > 0.0 && pic.width >= 0 }

  lemma DivideSum(a: real, b: real, c: real)
    requires c != 0.0
    ensures (a + b) / c == a / c + b / c
  {
    assert (a / c + b / c) * c == a + b;
  }

  lemma WidthAdds(pic: Picture, a: int, b: int)
    requires pic.total != 0.0
    ensures WidthOf(pic, a + b) == WidthOf(pic, a) + WidthOf(pic, b)
  {
    DivideSum(a as real, b as real, pic.total);
    var p, q, w := a as real / pic.total, b as real / pic.total, pic.width as real;
    assert (p + q) * w == p * w + q * w;
  }

  lemma WidthNonNegative(pic: Picture, a: int)
    requires Scaled(pic) && a >= 0
    ensures WidthOf(pic, a) >= 0.0
  {
    assert a as real / pic.total >= 0.0;
    NonNegative(a as real / pic.total, pic.width as real);
  }

  lemma WidthOfZero(pic: Picture)
    requires pic.total != 0.0
    ensures WidthOf(pic, 0) == 0.0
  {
    assert 0.0 / pic.total == 0.0;
  }

  lemma WidthMonotone(pic: Picture, a: int, b: int)
    requires Scaled(pic) && a <= b
    ensures WidthOf(pic, a) <= WidthOf(pic, b)
  {
    hide WidthOf;
    WidthAdds(pic, a, b - a);
    WidthNonNegative(pic, b - a);
  }

  lemma {:induction false} WidthsAreValues(pic: Picture, fs: seq<Frame>)
    requires pic.total != 0.0
    ensures WidthsOf(pic, fs) == WidthOf(pic, ValuesOf(fs))
  {
    hide WidthOf;
    if fs == [] {
      WidthOfZero(pic);
    } else {
      var n := |fs| - 1;
      WidthsAreValues(pic, fs[..n]);
      WidthAdds(pic, ValuesOf(fs[..n]), fs[n].value);
    }
  }

  /** The widths of nested children fit into their parent's. */
  lemma ChildrenFit(pic: Picture, f: Frame)
    requires Scaled(pic) && Nested(f)
    ensures WidthsOf(pic, f.children) <= WidthOf(pic, f.value)
  {
    hide WidthOf, WidthsOf;
    WidthsAreValues(pic, f.children);
    WidthMonotone(pic, ValuesOf(f.children), f.value);
  }

  // ---------- the picture ----------

  ghost predicate Within(rects: seq<Rect>, left: real, right: real) {
    forall i :: 0 <= i < |rects| ==> left <= rects[i].x && rects[i].x + rects[i].width <= right && rects[i].width > 0.0
  }

  /** Rectangles of one row come from left to right and do not overlap. */
  ghost predicate InRows(rects: seq<Rect>) {
    forall i, j :: 0 <= i < j < |rects| && rects[i].depth == rects[j].depth ==> rects[i].x + rects[i].width <= rects[j].x
  }

  predicate Above(r: Rect, p: Rect) {
    p.depth + 1 == r.depth && p.x <= r.x && r.x + r.width <= p.x + p.width
  }

  /** Every rectangle above the lowest row stands on one that is at least as wide. */
  ghost predicate Standing(rects: seq<Rect>, lowest: nat) {
    forall i :: 0 <= i < |rects| ==> rects[i].depth == lowest || exists j :: 0 <= j < |rects| && Above(rects[i], rects[j])
  }

  ghost predicate Rows(rects: seq<Rect>, pic: Picture, y: real, lowest: nat, rows: nat) {
    forall i :: 0 <= i < |rects| ==>
      var r := rects[i];
      && lowest <= r.depth < lowest + rows && r.height == pic.rowHeight as real - 1.0
      && r.y == y + ((r.depth - lowest) * pic.rowHeight) as real
  }

  function RowWidth(rects: seq<Rect>, depth: nat): real {
    if rects == [] then 0.0
    else RowWidth(rects[..|rects| - 1], depth) + if rects[|rects| - 1].depth == depth then rects[|rects| - 1].width else 0.0
  }

  lemma {:induction false} RowWidthConcat(a: seq<Rect>, b: seq<Rect>, depth: nat)
    ensures RowWidth(a + b, depth) == RowWidth(a, depth) + RowWidth(b, depth)
  {
    if b == [] {
      assert a + b == a;
    } else {
      var n := |b| - 1;
      assert (a + b)[..|a + b| - 1] == a + b[..n];
      RowWidthConcat(a, b[..n], depth);
    }
  }

  /** Side by side, left part and right part. */
  lemma Beside(a: seq<Rect>, b: seq<Rect>, left: real, mid: real, right: real)
    requires Within(a, left, mid) && Within(b, mid, right) && left <= mid <= right
    requires InRows(a) && InRows(b)
    ensures Within(a + b, left, right) && InRows(a + b)
  {
    var c := a + b;
    forall i, j | 0 <= i < j < |c| && c[i].depth == c[j].depth
      ensures c[i].x + c[i].width <= c[j].x
    {
      if i < |a| <= j {
        assert c[i] == a[i] && c[j] == b[j - |a|];
      } else if j < |a| {
        assert c[i] == a[i] && c[j] == a[j];
      } else {
        assert c[i] == b[i - |a|] && c[j] == b[j - |a|];
      }
    }
  }

  lemma StandingTogether(a: seq<Rect>, b: seq<Rect>, lowest: nat)
    requires Standing(a, lowest) && Standing(b, lowest)
    ensures Standing(a + b, lowest)
  {
    hide Above;
    var c := a + b;
    forall i | 0 <= i < |c|
      ensures c[i].depth == lowest || exists j :: 0 <= j < |c| && Above(c[i], c[j])
    {
      if i < |a| && a[i].depth != lowest {
        var j :| 0 <= j < |a| && Above(a[i], a[j]);
        assert c[j] == a[j];
      } else if i >= |a| && b[i - |a|].depth != lowest {
        var j :| 0 <= j < |b| && Above(b[i - |a|], b[j]);
        assert c[|a| + j] == b[j];
      }
    }
  }

  /** One rectangle with everything that stands on it. */
  lemma OnTop(r: Rect, above: seq<Rect>)
    requires r.width > 0.0 && Within(above, r.x, r.x + r.width) && InRows(above) && Standing(above, r.depth + 1)
    requires forall i :: 0 <= i < |above| ==> above[i].depth > r.depth
    ensures Within([r] + above, r.x, r.x + r.width) && InRows([r] + above) && Standing([r] + above, r.depth)
  {
    hide Standing, Above;
    var c := [r] + above;
    assert forall i :: 0 < i < |c| ==> c[i] == above[i - 1];
    StandingOnTop(r, above);
  }

  lemma StandingOnTop(r: Rect, above: seq<Rect>)
    requires Within(above, r.x, r.x + r.width) && Standing(above, r.depth + 1)
    ensures Standing([r] + above, r.depth)
  {
    hide Standing;
    var c := [r] + above;
    forall i | 0 < i < |c|
      ensures exists j :: 0 <= j < |c| && Above(c[i], c[j])
    {
      assert c[i] == above[i - 1];
      if c[i].depth == r.depth + 1 {
        assert Above(c[i], c[0]);
      } else {
        hide Above;
        var j := Stands(above, r.depth + 1, i - 1);
        assert c[j + 1] == above[j];
      }
    }
    AllStand(c, r.depth);
  }

  lemma AllStand(rects: seq<Rect>, lowest: nat)
    requires rects != [] && rects[0].depth == lowest
    requires forall i :: 0 < i < |rects| ==> exists j :: 0 <= j < |rects| && Above(rects[i], rects[j])
    ensures Standing(rects, lowest)
  {
    hide Above;
  }

  lemma Stands(rects: seq<Rect>, lowest: nat, i: nat) returns (j: nat)
    requires Standing(rects, lowest) && i < |rects| && rects[i].depth != lowest
    ensures j < |rects| && Above(rects[i], rects[j])
  {
    j :| j < |rects| && Above(rects[i], rects[j]);
  }

  ghost predicate LaidOut(rects: seq<Rect>, left: real, right: real, lowest: nat) {
    Within(rects, left, right) && InRows(rects) && Standing(rects, lowest)
  }

  lemma {:induction false} DrawLaysOut(pic: Picture, f: Frame, x: real, y: real, width: real, depth: nat)
    requires Scaled(pic) && Nested(f) && WidthsOf(pic, f.children) <= width
    ensures LaidOut(Draw(pic, f, x, y, width, depth), x, x + width, depth)
    ensures forall r <- Draw(pic, f, x, y, width, depth) :: r.depth >= depth
    decreases f, 0
  {
    hide Nested, WidthOf, WidthsOf, Standing, InRows;
    if width < 0.5 {
      EmptyLaidOut(x, x + width, depth);
    } else {
      var height := pic.rowHeight as real;
      var above := DrawAll(pic, f.children, x, y + height, depth + 1);
      assert forall kid <- f.children :: Nested(kid) by {
        NestedKids(f);
      }
      DrawAllLaysOut(pic, f.children, x, y + height, depth + 1);
      WithinWider(above, x, x + WidthsOf(pic, f.children), x + width);
      assert forall i :: 0 <= i < |above| ==> above[i] in above;
      OnTop(Rect(x, y, width, height - 1.0, depth), above);
    }
  }

  lemma NestedKids(f: Frame)
    requires Nested(f)
    ensures forall kid <- f.children :: Nested(kid)
  {
  }

  lemma EmptyLaidOut(left: real, right: real, lowest: nat)
    ensures LaidOut([], left, right, lowest)
  {
  }

  lemma WithinWider(rects: seq<Rect>, left: real, mid: real, right: real)
    requires Within(rects, left, mid) && mid <= right
    ensures Within(rects, left, right)
  {
  }

  lemma {:induction false} DrawAllLaysOut(pic: Picture, fs: seq<Frame>, x: real, y: real, depth: nat)
    requires Scaled(pic) && forall f <- fs :: Nested(f)
    ensures LaidOut(DrawAll(pic, fs, x, y, depth), x, x + WidthsOf(pic, fs), depth) && WidthsOf(pic, fs) >= 0.0
    ensures forall r <- DrawAll(pic, fs, x, y, depth) :: r.depth >= depth
    decreases fs, 1
  {
    hide Nested, WidthOf, Standing, InRows, Within;
    if fs == [] {
      EmptyLaidOut(x, x, depth);
    } else {
      var n := |fs| - 1;
      var f, mid := fs[n], x + WidthsOf(pic, fs[..n]);
      DrawAllLaysOut(pic, fs[..n], x, y, depth);
      NestedValue(f);
      WidthNonNegative(pic, f.value);
      ChildrenFit(pic, f);
      var a, b := DrawAll(pic, fs[..n], x, y, depth), Draw(pic, f, mid, y, WidthOf(pic, f.value), depth);
      DrawLaysOut(pic, f, mid, y, WidthOf(pic, f.value), depth);
      Beside(a, b, x, mid, mid + WidthOf(pic, f.value));
      StandingTogether(a, b, depth);
    }
  }

  lemma NestedValue(f: Frame)
    requires Nested(f)
    ensures f.value >= 0
  {
  }

  // ---------- rows ----------

  lemma {:induction false} DrawRows(pic: Picture, f: Frame, x: real, y: real, width: real, depth: nat)
    requires pic.total != 0.0
    ensures Rows(Draw(pic, f, x, y, width, depth), pic, y, depth, Depth(f))
    decreases f, 0
  {
    if width >= 0.5 {
      DrawAllRows(pic, f.children, x, y + pic.rowHeight as real, depth + 1);
      RowsOnTop(Rect(x, y, width, pic.rowHeight as real - 1.0, depth),
                DrawAll(pic, f.children, x, y + pic.rowHeight as real, depth + 1), pic, y, DepthAll(f.children));
    }
  }

  lemma RowsOnTop(r: Rect, above: seq<Rect>, pic: Picture, y: real, rows: nat)
    requires r.y == y && r.height == pic.rowHeight as real - 1.0
    requires Rows(above, pic, y + pic.rowHeight as real, r.depth + 1, rows)
    ensures Rows([r] + above, pic, y, r.depth, rows + 1)
  {
    var c := [r] + above;
    forall i | 0 <= i < |c|
      ensures r.depth <= c[i].depth < r.depth + rows + 1 && c[i].height == pic.rowHeight as real - 1.0
      ensures c[i].y == y + ((c[i].depth - r.depth) * pic.rowHeight) as real
    {
      if i > 0 {
        assert c[i] == above[i - 1];
        NextRow(c[i].depth - r.depth - 1, pic.rowHeight);
      } else {
        assert (c[0].depth - r.depth) * pic.rowHeight == 0;
      }
    }
  }

  lemma NextRow(k: int, h: int)
    ensures (k * h) as real + h as real == ((k + 1) * h) as real
  {
    assert (k + 1) * h == k * h + h;
  }

  lemma {:induction false} DrawAllRows(pic: Picture, fs: seq<Frame>, x: real, y: real, depth: nat)
    requires pic.total != 0.0
    ensures Rows(DrawAll(pic, fs, x, y, depth), pic, y, depth, DepthAll(fs))
    decreases fs, 1
  {
    if fs != [] {
      var n := |fs| - 1;
      var mid, w := x + WidthsOf(pic, fs[..n]), WidthOf(pic, fs[n].value);
      DrawAllRows(pic, fs[..n], x, y, depth);
      DrawRows(pic, fs[n], mid, y, w, depth);
      RowsTogether(DrawAll(pic, fs[..n], x, y, depth), Draw(pic, fs[n], mid, y, w, depth), pic, y, depth,
                   DepthAll(fs[..n]), Depth(fs[n]), DepthAll(fs));
    }
  }

  lemma RowsTogether(a: seq<Rect>, b: seq<Rect>, pic: Picture, y: real, lowest: nat, rowsA: nat, rowsB: nat, rows: nat)
    requires Rows(a, pic, y, lowest, rowsA) && Rows(b, pic, y, lowest, rowsB) && rowsA <= rows && rowsB <= rows
    ensures Rows(a + b, pic, y, lowest, rows)
  {
  }

  // ---------- widths of rows ----------

  lemma {:induction false} DrawRowWidth(pic: Picture, f: Frame, x: real, y: real, width: real, depth: nat, row: nat)
    requires Scaled(pic) && Nested(f) && 0.0 <= width && WidthsOf(pic, f.children) <= width
    ensures RowWidth(Draw(pic, f, x, y, width, depth), row) <= width
    decreases f, 0
  {
    hide Nested, WidthOf, WidthsOf, LaidOut;
    if width >= 0.5 {
      var height := pic.rowHeight as real;
      var r, above := Rect(x, y, width, height - 1.0, depth), DrawAll(pic, f.children, x, y + height, depth + 1);
      RowWidthConcat([r], above, row);
      assert [r][..0] == [];
      NestedKids(f);
      if row == depth {
        DrawAllLaysOut(pic, f.children, x, y + height, depth + 1);
        NoneInRow(above, row);
      } else {
        DrawAllRowWidth(pic, f.children, x, y + height, depth + 1, row);
      }
    }
  }

  lemma {:induction false} NoneInRow(rects: seq<Rect>, row: nat)
    requires forall r <- rects :: r.depth > row
    ensures RowWidth(rects, row) == 0.0
  {
    if rects != [] {
      var n := |rects| - 1;
      assert rects[n] in rects;
      assert forall r <- rects[..n] :: r in rects;
      NoneInRow(rects[..n], row);
    }
  }

  lemma {:induction false} DrawAllRowWidth(pic: Picture, fs: seq<Frame>, x: real, y: real, depth: nat, row: nat)
    requires Scaled(pic) && forall f <- fs :: Nested(f)
    ensures RowWidth(DrawAll(pic, fs, x, y, depth), row) <= WidthsOf(pic, fs)
    decreases fs, 1
  {
    hide Nested, WidthOf;
    if fs != [] {
      var n := |fs| - 1;
      var f, mid := fs[n], x + WidthsOf(pic, fs[..n]);
      DrawAllRowWidth(pic, fs[..n], x, y, depth, row);
      NestedValue(f);
      WidthNonNegative(pic, f.value);
      ChildrenFit(pic, f);
      DrawRowWidth(pic, f, mid, y, WidthOf(pic, f.value), depth, row);
      RowWidthConcat(DrawAll(pic, fs[..n], x, y, depth), Draw(pic, f, mid, y, WidthOf(pic, f.value), depth), row);
    }
  }

  // ---------- the whole flame graph ----------

  lemma WholeWidth(pic: Picture, value: int)
    requires pic.total == value as real != 0.0
    ensures WidthOf(pic, value) == pic.width as real
  {
    assert value as real / pic.total == 1.0;
  }

  lemma RootFits(root: Frame, width: int, rowHeight: int)
    requires Nested(root) && width >= 0
    ensures var pic := PictureOf(root, width, rowHeight);
            Scaled(pic) && WidthsOf(pic, root.children) <= width as real
  {
    hide WidthOf, WidthsOf;
    var pic := PictureOf(root, width, rowHeight);
    ChildrenFit(pic, root);
    if root.value == 0 {
      WidthOfZero(pic);
    } else {
      WholeWidth(pic, root.value);
    }
  }

  /** When no frame's children need more than the frame has, the rectangles lie within the width, those of one
      row from left to right without overlapping, each one on a rectangle of the row below that is at least as
      wide; a row is never wider than the picture. */
  lemma FlamesNest(root: Frame, width: int, rowHeight: int, row: nat)
    requires Nested(root)
    ensures var rects := DrawRoot(root, width, rowHeight);
            && Within(rects, 0.0, width as real) && InRows(rects) && Standing(rects, 0)
            && (width >= 0 ==> RowWidth(rects, row) <= width as real)
  {
    if width >= 0 {
      hide Nested, WidthOf, WidthsOf, Within, InRows, Standing, Draw;
      var pic := PictureOf(root, width, rowHeight);
      RootFits(root, width, rowHeight);
      DrawLaysOut(pic, root, 0.0, 25.0, width as real, 0);
      DrawRowWidth(pic, root, 0.0, 25.0, width as real, 0, row);
    } else {
      assert DrawRoot(root, width, rowHeight) == [];
    }
  }

  /** Every rectangle, whether values nest or not, lies below the title and above the footer of the picture, next to
      them if it is in the first or in the last row;
      its height is not negative exactly when rows are at least one high. */
  lemma FlamesFitHeight(root: Frame, width: int, rowHeight: int, i: nat)
    requires i < |DrawRoot(root, width, rowHeight)|
    ensures var r := DrawRoot(root, width, rowHeight)[i];
            && r.depth < Depth(root) && (r.height >= 0.0 <==> rowHeight >= 1)
            && (rowHeight >= 0 ==> 25.0 <= r.y && r.y + r.height <= HeightOf(root, rowHeight) as real - 36.0)
            && (r.depth == 0 ==> r.y == 25.0)
            && (r.depth == Depth(root) - 1 ==> r.y + r.height == HeightOf(root, rowHeight) as real - 36.0)
  {
    hide Draw, Depth;
    var pic := PictureOf(root, width, rowHeight);
    DrawRows(pic, root, 0.0, 25.0, width as real, 0);
    var r := DrawRoot(root, width, rowHeight)[i];
    var d := r.depth;
    var below := d * rowHeight;
    assert r.y == 25.0 + below as real && r.height == rowHeight as real - 1.0;
    RowsBelow(d, Depth(root), rowHeight);
  }

  /** The height of d rows, among n. */
  lemma RowsBelow(d: nat, n: nat, h: int)
    requires d < n
    ensures d == 0 ==> d * h == 0
    ensures d == n - 1 ==> d * h + h == n * h
    ensures h >= 0 ==> 0 <= d * h && d * h + h <= n * h
  {
    var rest := n - d - 1;
    NextRows(d, h);
    RowsApart(d + 1, rest, h);
    if h >= 0 {
      RowsHigh(d, h);
      RowsHigh(rest, h);
    }
    if rest == 0 {
      assert d + 1 == n;
    }
  }

  lemma NextRows(d: nat, h: int)
    ensures (d + 1) * h == d * h + h
  {
  }

  lemma RowsApart(a: nat, b: nat, h: int)
    ensures (a + b) * h == a * h + b * h
  {
  }

  lemma {:induction false} RowsHigh(d: nat, h: nat)
    ensures 0 <= d * h
  {
    if d > 0 {
      RowsHigh(d - 1, h);
      NextRows(d - 1, h);
    }
  }

  // ---------- frames of spans ----------

  function Durations(ts: seq<Span>): real {
    if ts == [] then 0.0 else Durations(ts[..|ts| - 1]) + ts[|ts| - 1].info.durationMs
  }

  /** No span's children take longer, together, than the span. */
  predicate NestedTimes(t: Span) {
    t.info.durationMs >= 0.0 && Durations(t.children) <= t.info.durationMs && forall kid <- t.children :: NestedTimes(kid)
  }

  function DurationAt(ts: seq<Span>): nat -> real {
    (k: nat) => if k < |ts| then ts[k].info.durationMs else 0.0
  }

  lemma {:induction false} DurationsPermuted(ts: seq<Span>, us: seq<Span>, p: seq<nat>)
    requires |us| == |p| && forall i :: 0 <= i < |p| ==> p[i] < |ts| && us[i].info == ts[p[i]].info
    ensures Durations(us) == SumAt(DurationAt(ts), p)
  {
    if us != [] {
      DurationsPermuted(ts, us[..|us| - 1], p[..|p| - 1]);
    }
  }

  lemma {:induction false} DurationsAreSum(ts: seq<Span>, k: nat)
    requires k <= |ts|
    ensures Durations(ts[..k]) == SumBelow(DurationAt(ts), k)
  {
    if k > 0 {
      DurationsAreSum(ts, k - 1);
      assert ts[..k][..k - 1] == ts[..k - 1];
    }
  }

  lemma SortKeepsDurations(order: Order, t: Span)
    requires Sorts(order)
    ensures Durations(SortTree(order, t).children) == Durations(t.children)
  {
    hide SortTree, Sorts, IsPermutation;
    var p := SortTreeIs(order, t);
    var n, s := |t.children|, SortTree(order, t);
    forall i | 0 <= i < n
      ensures s.children[i].info == t.children[p[i]].info
    {
      var q := SortTreeIs(order, t.children[p[i]]);
    }
    DurationsPermuted(t.children, s.children, p);
    SumPermuted(DurationAt(t.children), p, n);
    DurationsAreSum(t.children, n);
    assert t.children[..n] == t.children;
  }

  lemma SortedKid(order: Order, t: Span, kid: Span) returns (from: Span)
    requires Sorts(order) && kid in SortTree(order, t).children
    ensures from in t.children && kid == SortTree(order, from)
  {
    hide SortTree, Sorts, IsPermutation;
    var p := SortTreeIs(order, t);
    var i :| 0 <= i < |p| && SortTree(order, t).children[i] == kid;
    from := t.children[p[i]];
  }

  /** Sorting keeps what the children of each span take together. */
  lemma {:induction false} SortKeepsTimes(order: Order, t: Span)
    requires Sorts(order) && NestedTimes(t)
    ensures NestedTimes(SortTree(order, t))
    decreases t
  {
    var s := SortTree(order, t);
    assert s.info == t.info;
    hide SortTree, Sorts, Durations;
    SortKeepsDurations(order, t);
    forall kid | kid in s.children
      ensures NestedTimes(kid)
    {
      var from := SortedKid(order, t, kid);
      SortKeepsTimes(order, from);
    }
  }

  lemma {:induction false} ValuesBelowDurations(ts: seq<Span>, fs: seq<Frame>)
    requires |fs| == |ts| && forall i :: 0 <= i < |ts| ==> ts[i].info.durationMs >= 0.0 && fs[i] == FrameOf(ts[i])
    ensures ValuesOf(fs) as real <= Durations(ts) * 1000.0
  {
    if ts != [] {
      var n := |ts| - 1;
      ValuesBelowDurations(ts[..n], fs[..n]);
    }
  }

  /** Rounding to whole units keeps nested times nested. */
  lemma {:induction false} FramesNest(t: Span)
    requires NestedTimes(t)
    ensures Nested(FrameOf(t))
    decreases t
  {
    var f := FrameOf(t);
    forall i | 0 <= i < |t.children|
      ensures t.children[i].info.durationMs >= 0.0 && Nested(f.children[i])
    {
      assert t.children[i] in t.children;
      FramesNest(t.children[i]);
    }
    ValuesBelowDurations(t.children, f.children);
  }

  /** A trace whose spans' children take no longer than the spans is drawn as a nested flame graph. */
  lemma {:induction false} NestedTracesNest(order: Order, t: Span)
    requires Sorts(order) && NestedTimes(t)
    ensures Nested(FrameOf(SortTree(order, t)))
  {
    hide SortTree, FrameOf;
    SortKeepsTimes(order, t);
    FramesNest(SortTree(order, t));
  }
}
