/** Flame graphs whose values do not nest: which rectangles reach beyond the one they stand on. */
module FlameOverhang {
  import opened RealAlgebra
  import opened FlameModel
  import opened FlameLayout

  // ---------- a picture that overlaps ----------

  function Plain(value: int, children: seq<Frame>): Frame {
    Frame("", "", "", value, 0.0, children)
  }

  lemma DrawLeaf(pic: Picture, value: int, x: real, y: real, depth: nat)
    requires pic.total != 0.0 && WidthOf(pic, value) >= 0.5
    ensures Draw(pic, Plain(value, []), x, y, WidthOf(pic, value), depth) ==
            [Rect(x, y, WidthOf(pic, value), pic.rowHeight as real - 1.0, depth)]
  {
  }

  lemma DrawOneKid(pic: Picture, value: int, kid: Frame, x: real, y: real, depth: nat)
    requires pic.total != 0.0 && WidthOf(pic, value) >= 0.5
    ensures var h := pic.rowHeight as real;
            Draw(pic, Plain(value, [kid]), x, y, WidthOf(pic, value), depth) ==
            [Rect(x, y, WidthOf(pic, value), h - 1.0, depth)] + Draw(pic, kid, x, y + h, WidthOf(pic, kid.value), depth + 1)
  {
    hide WidthOf;
    var fs, h := [kid], pic.rowHeight as real;
    assert fs[..0] == [];
    assert DrawAll(pic, fs, x, y + h, depth + 1) == [] + Draw(pic, kid, x + 0.0, y + h, WidthOf(pic, kid.value), depth + 1);
  }

  /** Two calls of 5 in a root of 10, the first with a call of 10 in it, the second with one of 5: the rectangles
      of the two innermost calls overlap. */
  lemma ConcurrentCallsOverlap()
    ensures var root := Plain(10, [Plain(5, [Plain(10, [])]), Plain(5, [Plain(5, [])])]);
            !InRows(DrawRoot(root, 1200, 18))
  {
    var pic := Picture(10.0, 1200, 18);
    var a, b := Plain(5, [Plain(10, [])]), Plain(5, [Plain(5, [])]);
    var root := Plain(10, [a, b]);
    assert WidthOf(pic, 5) == 600.0 && WidthOf(pic, 10) == 1200.0;
    assert pic == PictureOf(root, 1200, 18);
    DrawOneKid(pic, 5, Plain(10, []), 0.0, 43.0, 1);
    DrawLeaf(pic, 10, 0.0, 61.0, 2);
    DrawOneKid(pic, 5, Plain(5, []), 600.0, 43.0, 1);
    DrawLeaf(pic, 5, 600.0, 61.0, 2);
    var left := [Rect(0.0, 43.0, 600.0, 17.0, 1), Rect(0.0, 61.0, 1200.0, 17.0, 2)];
    var right := [Rect(600.0, 43.0, 600.0, 17.0, 1), Rect(600.0, 61.0, 600.0, 17.0, 2)];
    TwoKids(pic, a, b, 0.0, 43.0, 1);
    var rects := DrawRoot(root, 1200, 18);
    assert rects == [Rect(0.0, 25.0, 1200.0, 17.0, 0)] + (left + right);
    assert rects[2] == left[1] && rects[4] == right[1];
  }

  lemma TwoKids(pic: Picture, a: Frame, b: Frame, x: real, y: real, depth: nat)
    requires pic.total != 0.0
    ensures DrawAll(pic, [a, b], x, y, depth) ==
            Draw(pic, a, x, y, WidthOf(pic, a.value), depth) +
            Draw(pic, b, x + WidthOf(pic, a.value), y, WidthOf(pic, b.value), depth)
  {
    hide WidthOf, Draw;
    var fs := [a, b];
    assert fs[..1] == [a] && [a][..0] == [];
    assert WidthsOf(pic, [a]) == WidthOf(pic, a.value);
    assert DrawAll(pic, [a], x, y, depth) == [] + Draw(pic, a, x + 0.0, y, WidthOf(pic, a.value), depth);
  }

  // ---------- exactly which pictures stay on their parents ----------

  /** If child i of a drawn frame is drawn, its rectangle lies on the frame's, and so on for the child. */
  predicate KidOnParent(pic: Picture, f: Frame, x: real, y: real, width: real, depth: nat, i: nat)
    requires pic.total != 0.0 && i < |f.children| && Draw(pic, f, x, y, width, depth) != []
    decreases f, 0
  {
    var kid, kidX, kidY := f.children[i], x + WidthsOf(pic, f.children[..i]), y + pic.rowHeight as real;
    var drawn := Draw(pic, kid, kidX, kidY, WidthOf(pic, kid.value), depth + 1);
    && (drawn != [] ==> Above(drawn[0], Draw(pic, f, x, y, width, depth)[0]))
    && KidsOnParents(pic, kid, kidX, kidY, WidthOf(pic, kid.value), depth + 1)
  }

  /** Every rectangle that is drawn for a child lies on the one that is drawn for its own parent. */
  predicate KidsOnParents(pic: Picture, f: Frame, x: real, y: real, width: real, depth: nat)
    requires pic.total != 0.0
    decreases f, 1
  {
    Draw(pic, f, x, y, width, depth) != [] ==>
      forall i :: 0 <= i < |f.children| ==> KidOnParent(pic, f, x, y, width, depth, i)
  }

  predicate Drawn(pic: Picture, value: int)
    requires pic.total != 0.0
  {
    WidthOf(pic, value) >= 0.5
  }

  /** If child i is drawn, the values before it are at least zero together, and with its own they are at most the
      value; and so on for the child. */
  predicate KidFits(pic: Picture, f: Frame, value: int, i: nat)
    requires pic.total != 0.0 && i < |f.children|
    decreases f, 0
  {
    Drawn(pic, f.children[i].value) ==>
      && AtMost(pic, 0, ValuesOf(f.children[..i])) && AtMost(pic, ValuesOf(f.children[..i + 1]), value)
      && Fits(pic, f.children[i], f.children[i].value)
  }

  predicate Fits(pic: Picture, f: Frame, value: int)
    requires pic.total != 0.0
    decreases f, 1
  {
    forall i :: 0 <= i < |f.children| ==> KidFits(pic, f, value, i)
  }

  /** a is at most b, as the scale has it: under a negative root it is the other way round. */
  predicate AtMost(pic: Picture, a: int, b: int) {
    if pic.total > 0.0 then a <= b else b <= a
  }

  lemma WidthPositive(pic: Picture, a: int)
    requires pic.total != 0.0 && pic.width > 0 && !AtMost(pic, a, 0)
    ensures WidthOf(pic, a) > 0.0
  {
    var p, w := a as real / pic.total, pic.width as real;
    assert p * pic.total == a as real;
    if p <= 0.0 {
      NonNegative(-p, if pic.total > 0.0 then pic.total else -pic.total);
      assert false;
    }
    StrictlyMonotone(p, 0.0, w);
  }

  lemma WidthCompares(pic: Picture, a: int, b: int)
    requires pic.total != 0.0 && pic.width > 0
    ensures WidthOf(pic, a) <= WidthOf(pic, b) <==> AtMost(pic, a, b)
  {
    hide WidthOf;
    if AtMost(pic, a, b) {
      WidthAdds(pic, a, b - a);
      WidthOfZero(pic);
      if a != b {
        WidthPositive(pic, b - a);
      }
    } else {
      WidthAdds(pic, b, a - b);
      WidthPositive(pic, a - b);
    }
  }

  lemma HeadOf(pic: Picture, f: Frame, x: real, y: real, width: real, depth: nat)
    requires pic.total != 0.0
    ensures var rects := Draw(pic, f, x, y, width, depth);
            if width >= 0.5 then rects != [] && rects[0] == Rect(x, y, width, pic.rowHeight as real - 1.0, depth) else rects == []
  {
  }

  /** One child, in numbers. */
  lemma KidOnParentIff(pic: Picture, fs: seq<Frame>, i: nat, x: real, value: int)
    requires pic.total != 0.0 && pic.width > 0 && i < |fs|
    ensures var kidX := x + WidthsOf(pic, fs[..i]);
            x <= kidX && kidX + WidthOf(pic, fs[i].value) <= x + WidthOf(pic, value) <==>
            AtMost(pic, 0, ValuesOf(fs[..i])) && AtMost(pic, ValuesOf(fs[..i + 1]), value)
  {
    hide WidthOf;
    assert fs[..i + 1][..i] == fs[..i];
    WidthsAreValues(pic, fs[..i]);
    WidthsAreValues(pic, fs[..i + 1]);
    WidthOfZero(pic);
    WidthCompares(pic, 0, ValuesOf(fs[..i]));
    WidthCompares(pic, ValuesOf(fs[..i + 1]), value);
    assert WidthsOf(pic, fs[..i + 1]) == WidthsOf(pic, fs[..i]) + WidthOf(pic, fs[i].value);
  }

  lemma {:induction false} KidIff(pic: Picture, f: Frame, x: real, y: real, value: int, depth: nat, i: nat)
    requires pic.total != 0.0 && pic.width > 0 && Drawn(pic, value) && i < |f.children|
    requires Draw(pic, f, x, y, WidthOf(pic, value), depth) != []
    ensures KidOnParent(pic, f, x, y, WidthOf(pic, value), depth, i) <==> KidFits(pic, f, value, i)
    decreases f, 0
  {
    hide WidthOf, Draw, WidthsOf, ValuesOf, Fits;
    var kid, kidX, kidY := f.children[i], x + WidthsOf(pic, f.children[..i]), y + pic.rowHeight as real;
    HeadOf(pic, f, x, y, WidthOf(pic, value), depth);
    HeadOf(pic, kid, kidX, kidY, WidthOf(pic, kid.value), depth + 1);
    KidOnParentIff(pic, f.children, i, x, value);
    if Drawn(pic, kid.value) {
      OnParentsIff(pic, kid, kidX, kidY, kid.value, depth + 1);
    }
  }

  lemma {:induction false} OnParentsIff(pic: Picture, f: Frame, x: real, y: real, value: int, depth: nat)
    requires pic.total != 0.0 && pic.width > 0 && Drawn(pic, value)
    ensures KidsOnParents(pic, f, x, y, WidthOf(pic, value), depth) <==> Fits(pic, f, value)
    decreases f, 1
  {
    HeadOf(pic, f, x, y, WidthOf(pic, value), depth);
    hide WidthOf, Draw, KidOnParent, KidFits;
    forall i | 0 <= i < |f.children|
      ensures KidOnParent(pic, f, x, y, WidthOf(pic, value), depth, i) <==> KidFits(pic, f, value, i)
    {
      KidIff(pic, f, x, y, value, depth, i);
    }
  }

  /** What the root's width stands for. */
  function RootValue(root: Frame): int { if root.value == 0 then 1 else root.value }

  /** In the picture of a flame graph every drawn child lies on its own parent's rectangle exactly when the values
      fit, whatever they are in frames that are not drawn. A picture without width shows nothing. */
  lemma PictureOnParentsIff(root: Frame, width: int, rowHeight: int)
    ensures var pic := PictureOf(root, width, rowHeight);
            KidsOnParents(pic, root, 0.0, 25.0, width as real, 0) <==> width <= 0 || Fits(pic, root, RootValue(root))
  {
    hide WidthOf, KidOnParent, Fits;
    var pic := PictureOf(root, width, rowHeight);
    if width > 0 {
      WholeWidth(pic, RootValue(root));
      OnParentsIff(pic, root, 0.0, 25.0, RootValue(root), 0);
    } else {
      HeadOf(pic, root, 0.0, 25.0, width as real, 0);
    }
  }

  // ---------- values that are not negative ----------

  predicate NoneNegative(f: Frame) {
    f.value >= 0 && forall kid <- f.children :: NoneNegative(kid)
  }

  /** The children up to and including the last one that is drawn. */
  function UpToDrawn(pic: Picture, fs: seq<Frame>): (n: nat)
    requires pic.total != 0.0
    ensures n <= |fs|
  {
    if fs == [] then 0
    else if Drawn(pic, fs[|fs| - 1].value) then |fs|
    else UpToDrawn(pic, fs[..|fs| - 1])
  }

  predicate FitsUpToDrawn(pic: Picture, f: Frame, value: int)
    requires pic.total != 0.0
    decreases f
  {
    && ValuesOf(f.children[..UpToDrawn(pic, f.children)]) <= value
    && forall i :: 0 <= i < |f.children| && Drawn(pic, f.children[i].value) ==>
         FitsUpToDrawn(pic, f.children[i], f.children[i].value)
  }

  lemma {:induction false} PrefixesGrow(fs: seq<Frame>, i: nat, j: nat)
    requires i <= j <= |fs| && forall f <- fs :: f.value >= 0
    ensures 0 <= ValuesOf(fs[..i]) <= ValuesOf(fs[..j])
    decreases j
  {
    if i < j {
      PrefixesGrow(fs, i, j - 1);
      assert fs[..j][..j - 1] == fs[..j - 1];
    } else if j > 0 {
      PrefixesGrow(fs, j - 1, j - 1);
      assert fs[..j][..j - 1] == fs[..j - 1];
    }
  }

  lemma {:induction false} LastDrawn(pic: Picture, fs: seq<Frame>)
    requires pic.total != 0.0
    ensures var n := UpToDrawn(pic, fs);
            && (n > 0 ==> Drawn(pic, fs[n - 1].value))
            && forall i :: n <= i < |fs| ==> !Drawn(pic, fs[i].value)
  {
    hide Drawn;
    if fs != [] && !Drawn(pic, fs[|fs| - 1].value) {
      LastDrawn(pic, fs[..|fs| - 1]);
    }
  }

  /** Then it is enough, for each drawn frame, that the values up to and including its last drawn child add up to no
      more than its value. */
  lemma {:induction false} FitsIff(pic: Picture, f: Frame, value: int)
    requires pic.total > 0.0 && NoneNegative(f) && value >= 0
    ensures Fits(pic, f, value) <==> FitsUpToDrawn(pic, f, value)
    decreases f
  {
    hide Drawn;
    var fs := f.children;
    var n := UpToDrawn(pic, fs);
    assert forall kid <- fs :: kid.value >= 0 && NoneNegative(kid);
    LastDrawn(pic, fs);
    assert fs[..0] == [];
    if n > 0 && Fits(pic, f, value) {
      assert KidFits(pic, f, value, n - 1);
    }
    forall i | 0 <= i < |fs|
      ensures FitsUpToDrawn(pic, f, value) ==> KidFits(pic, f, value, i)
      ensures KidFits(pic, f, value, i) && Drawn(pic, fs[i].value) ==> FitsUpToDrawn(pic, fs[i], fs[i].value)
    {
      FitsIff(pic, fs[i], fs[i].value);
      PrefixesGrow(fs, i, i);
      if i < n {
        PrefixesGrow(fs, i + 1, n);
      }
    }
  }

  /** If no duration is negative, every drawn child lies on its own parent's rectangle exactly when for each
      drawn frame the values up to and including its last drawn child add up to no more than its value. */
  lemma NoOverhangIff(root: Frame, width: int, rowHeight: int)
    requires NoneNegative(root)
    ensures var pic := PictureOf(root, width, rowHeight);
            KidsOnParents(pic, root, 0.0, 25.0, width as real, 0) <==> width <= 0 || FitsUpToDrawn(pic, root, RootValue(root))
  {
    hide KidsOnParents, Fits, FitsUpToDrawn;
    PictureOnParentsIff(root, width, rowHeight);
    FitsIff(PictureOf(root, width, rowHeight), root, RootValue(root));
  }

  // ---------- nested values ----------

  lemma {:induction false} NestedFits(pic: Picture, f: Frame, value: int)
    requires pic.total > 0.0 && Nested(f) && f.value <= value
    ensures NoneNegative(f) && FitsUpToDrawn(pic, f, value)
    decreases f
  {
    hide Drawn;
    var fs := f.children;
    forall i | 0 <= i < |fs|
      ensures NoneNegative(fs[i]) && FitsUpToDrawn(pic, fs[i], fs[i].value)
    {
      assert fs[i] in fs;
      NestedFits(pic, fs[i], fs[i].value);
    }
    assert fs[..|fs|] == fs;
    PrefixesGrow(fs, UpToDrawn(pic, fs), |fs|);
  }

  /** When no frame's children need more than the frame has, every rectangle stands on its own parent's. */
  lemma NestedOnParents(root: Frame, width: int, rowHeight: int)
    requires Nested(root)
    ensures KidsOnParents(PictureOf(root, width, rowHeight), root, 0.0, 25.0, width as real, 0)
  {
    hide KidsOnParents, FitsUpToDrawn, Nested, NoneNegative;
    NestedValue(root);
    NestedFits(PictureOf(root, width, rowHeight), root, RootValue(root));
    NoOverhangIff(root, width, rowHeight);
  }

  // ---------- rows that overlap ----------

  /** What a rectangle stands for: where it starts and ends among the values of its row. */
  datatype Bar = Bar(start: int, end: int, depth: nat)

  function Bars(pic: Picture, f: Frame, start: int, value: int, depth: nat): seq<Bar>
    requires pic.total != 0.0
    decreases f, 0
  {
    if !Drawn(pic, value) then []
    else [Bar(start, start + value, depth)] + BarsOfAll(pic, f.children, start, depth + 1)
  }

  function BarsOfAll(pic: Picture, fs: seq<Frame>, start: int, depth: nat): seq<Bar>
    requires pic.total != 0.0
    decreases fs, 1
  {
    if fs == [] then []
    else
      var n := |fs| - 1;
      BarsOfAll(pic, fs[..n], start, depth) + Bars(pic, fs[n], start + ValuesOf(fs[..n]), fs[n].value, depth)
  }

  /** Each bar ends before any later one of its row starts. */
  predicate InTurn(pic: Picture, bars: seq<Bar>) {
    forall i, j :: 0 <= i < j < |bars| && bars[i].depth == bars[j].depth ==> AtMost(pic, bars[i].end, bars[j].start)
  }

  ghost predicate StandsAt(pic: Picture, r: Rect, b: Bar)
    requires pic.total != 0.0
  {
    r.x == WidthOf(pic, b.start) && r.x + r.width == WidthOf(pic, b.end) && r.depth == b.depth
  }

  ghost predicate StandFor(pic: Picture, rects: seq<Rect>, bars: seq<Bar>)
    requires pic.total != 0.0
  {
    |rects| == |bars| && forall i :: 0 <= i < |rects| ==> StandsAt(pic, rects[i], bars[i])
  }

  lemma {:induction false} DrawStandsFor(pic: Picture, f: Frame, start: int, y: real, value: int, depth: nat)
    requires pic.total != 0.0
    ensures StandFor(pic, Draw(pic, f, WidthOf(pic, start), y, WidthOf(pic, value), depth), Bars(pic, f, start, value, depth))
    decreases f, 0
  {
    hide WidthOf, DrawAll, BarsOfAll;
    if Drawn(pic, value) {
      WidthAdds(pic, start, value);
      DrawAllStandsFor(pic, f.children, start, y + pic.rowHeight as real, depth + 1);
    }
  }

  lemma {:induction false} DrawAllStandsFor(pic: Picture, fs: seq<Frame>, start: int, y: real, depth: nat)
    requires pic.total != 0.0
    ensures StandFor(pic, DrawAll(pic, fs, WidthOf(pic, start), y, depth), BarsOfAll(pic, fs, start, depth))
    decreases fs, 1
  {
    hide WidthOf, Draw, Bars, WidthsOf, ValuesOf, StandsAt;
    if fs != [] {
      var n := |fs| - 1;
      WidthsAreValues(pic, fs[..n]);
      WidthAdds(pic, start, ValuesOf(fs[..n]));
      DrawAllStandsFor(pic, fs[..n], start, y, depth);
      DrawStandsFor(pic, fs[n], start + ValuesOf(fs[..n]), y, fs[n].value, depth);
    }
  }

  lemma StandForInRows(pic: Picture, rects: seq<Rect>, bars: seq<Bar>)
    requires pic.total != 0.0 && pic.width > 0 && StandFor(pic, rects, bars)
    ensures InRows(rects) <==> InTurn(pic, bars)
  {
    hide WidthOf, AtMost;
    assert forall i :: 0 <= i < |rects| ==> StandsAt(pic, rects[i], bars[i]);
    forall i, j | 0 <= i < j < |rects|
      ensures rects[i].x + rects[i].width <= rects[j].x <==> AtMost(pic, bars[i].end, bars[j].start)
    {
      WidthCompares(pic, bars[i].end, bars[j].start);
    }
  }

  /** The rectangles of one row come in order and do not overlap exactly when the sums of values that they stand for
      do, whatever the values are. */
  lemma InRowsIff(root: Frame, width: int, rowHeight: int)
    ensures var pic := PictureOf(root, width, rowHeight);
            InRows(DrawRoot(root, width, rowHeight)) <==> width <= 0 || InTurn(pic, Bars(pic, root, 0, RootValue(root), 0))
  {
    var pic := PictureOf(root, width, rowHeight);
    if width > 0 {
      hide WidthOf, Draw, Bars, InRows, InTurn;
      WholeWidth(pic, RootValue(root));
      WidthOfZero(pic);
      DrawStandsFor(pic, root, 0, 25.0, RootValue(root), 0);
      StandForInRows(pic, DrawRoot(root, width, rowHeight), Bars(pic, root, 0, RootValue(root), 0));
    } else {
      HeadOf(pic, root, 0.0, 25.0, width as real, 0);
    }
  }
}
