/** What a frame takes from its span, and what the folded form says of each frame. */
module FlameTexts {
  import opened Decimal
  import opened SpanTree
  import opened FlameModel
  import opened FlameStats
  import opened FlameFolded

  // ---------- frames ----------

  /** The frame of a span: the duration in microseconds, cut towards zero, and the texts. */
  predicate Shows(f: Frame, t: Span) {
    var us := 1000.0 * t.info.durationMs;
    && f.duration == t.info.durationMs && f.service == t.info.serviceName && f.spanId == t.info.spanId
    && (if us >= 0.0 then f.value as real <= us < f.value as real + 1.0 else f.value as real - 1.0 < us <= f.value as real)
    && f.name == t.info.serviceName + ":" + t.info.operation +
                 (if t.info.protocol == "" then "" else " [" + t.info.protocol + "]")
  }

  /** So for every span of the tree, child by child. */
  predicate ShowsAll(f: Frame, t: Span) {
    && Shows(f, t) && |f.children| == |t.children|
    && forall i :: 0 <= i < |t.children| ==> ShowsAll(f.children[i], t.children[i])
  }

  lemma FrameShows(t: Span)
    ensures Shows(FrameOf(t), t)
  {
    var name := t.info.serviceName + ":" + t.info.operation;
    assert name + "" == name;
    assert name + " [" + t.info.protocol + "]" == name + (" [" + t.info.protocol + "]");
  }

  lemma {:induction false} FramesShow(t: Span)
    ensures ShowsAll(FrameOf(t), t)
    decreases t
  {
    hide Shows;
    FrameShows(t);
    forall i | 0 <= i < |t.children|
      ensures ShowsAll(FrameOf(t).children[i], t.children[i])
    {
      FramesShow(t.children[i]);
    }
  }

  // ---------- lines ----------

  /** Names with semicolons between them. */
  function Chain(names: seq<string>): string
    requires names != []
  {
    if |names| == 1 then names[0] else names[0] + ";" + Chain(names[1..])
  }

  lemma {:induction false} ChainSnoc(names: seq<string>, name: string)
    requires names != []
    ensures Chain(names + [name]) == Chain(names) + ";" + name
  {
    if |names| == 1 {
      assert names + [name] == [names[0], name] && (names + [name])[1..] == [name];
    } else {
      assert (names + [name])[1..] == names[1..] + [name];
      ChainSnoc(names[1..], name);
      assert names[0] + ";" + (Chain(names[1..]) + ";" + name) == names[0] + ";" + Chain(names[1..]) + ";" + name;
    }
  }

  lemma {:induction false} JoinIsChain(names: seq<string>)
    requires names != []
    ensures Join(names, ";") == Chain(names)
  {
    if |names| > 1 {
      var n := |names| - 1;
      JoinIsChain(names[..n]);
      ChainSnoc(names[..n], names[n]);
      assert names[..n] + [names[n]] == names;
    }
  }

  /** Entry i belongs to frame i: it has its value, and its path ends in its name. */
  predicate Belongs(e: Entry, f: Frame) {
    e.value == f.value && e.path != [] && e.path[|e.path| - 1] == f.name
  }

  /** Entry i goes on from the entry of frame i's parent. */
  ghost predicate GoesOn(es: seq<Entry>, fs: seq<Frame>, i: nat)
    requires i < |es| == |fs|
  {
    exists j :: 0 <= j < i && es[i].path == es[j].path + [fs[i].name] && fs[i] in fs[j].children
  }

  /** The entries belong to the frames one by one; each starts at one of the tops, or goes on from another one. */
  ghost predicate Follow(es: seq<Entry>, fs: seq<Frame>, tops: seq<Frame>) {
    && |es| == |fs|
    && forall i :: 0 <= i < |es| ==>
         Belongs(es[i], fs[i]) && ((es[i].path == [fs[i].name] && fs[i] in tops) || GoesOn(es, fs, i))
  }

  lemma {:induction false} PathsFollow(f: Frame)
    ensures Follow(Paths(f), Preorder(f), [f])
    decreases f, 0
  {
    hide Belongs, GoesOn;
    PathsAllFollow(f.children);
    var es, fs := PathsAll(f.children), PreorderAll(f.children);
    UnderFollows(f, es, fs);
  }

  lemma UnderBelongs(name: string, e: Entry, f: Frame)
    requires Belongs(e, f)
    ensures Belongs(Entry([name] + e.path, e.value), f)
  {
  }

  /** Entry j and a later one that goes on from it. */
  predicate Extends(e: Entry, parent: Entry, f: Frame, above: Frame) {
    e.path == parent.path + [f.name] && f in above.children
  }

  lemma GoesOnFrom(es: seq<Entry>, fs: seq<Frame>, i: nat, j: nat)
    requires j < i < |es| == |fs| && Extends(es[i], es[j], fs[i], fs[j])
    ensures GoesOn(es, fs, i)
  {
  }

  lemma ParentOf(es: seq<Entry>, fs: seq<Frame>, i: nat) returns (j: nat)
    requires i < |es| == |fs| && GoesOn(es, fs, i)
    ensures j < i && Extends(es[i], es[j], fs[i], fs[j])
  {
    j :| 0 <= j < i && es[i].path == es[j].path + [fs[i].name] && fs[i] in fs[j].children;
  }

  lemma UnderExtends(name: string, e: Entry, parent: Entry, f: Frame, above: Frame)
    requires Extends(e, parent, f, above)
    ensures Extends(Entry([name] + e.path, e.value), Entry([name] + parent.path, parent.value), f, above)
  {
    assert [name] + (parent.path + [f.name]) == [name] + parent.path + [f.name];
  }

  lemma UnderAt(name: string, first: Entry, es: seq<Entry>, f: Frame, fs: seq<Frame>, i: nat)
    requires 0 < i <= |es| == |fs|
    ensures ([first] + Under([name], es))[i] == Entry([name] + es[i - 1].path, es[i - 1].value) && ([f] + fs)[i] == fs[i - 1]
  {
  }

  lemma UnderFollows(f: Frame, es: seq<Entry>, fs: seq<Frame>)
    requires Follow(es, fs, f.children)
    ensures Follow([Entry([f.name], f.value)] + Under([f.name], es), [f] + fs, [f])
  {
    hide Belongs, GoesOn, Extends, Under;
    var first := Entry([f.name], f.value);
    var all, frames := [first] + Under([f.name], es), [f] + fs;
    UnderSize([f.name], es);
    FirstBelongs(f);
    forall i | 0 < i < |all|
      ensures Belongs(all[i], frames[i]) && GoesOn(all, frames, i)
    {
      UnderAt(f.name, first, es, f, fs, i);
      UnderBelongs(f.name, es[i - 1], fs[i - 1]);
      if GoesOn(es, fs, i - 1) {
        var j := ParentOf(es, fs, i - 1);
        UnderAt(f.name, first, es, f, fs, j + 1);
        UnderExtends(f.name, es[i - 1], es[j], fs[i - 1], fs[j]);
        GoesOnFrom(all, frames, i, j + 1);
      } else {
        TopExtends(f, all[i], fs[i - 1]);
        GoesOnFrom(all, frames, i, 0);
      }
    }
  }

  lemma FirstBelongs(f: Frame)
    ensures Belongs(Entry([f.name], f.value), f)
  {
  }

  lemma TopExtends(f: Frame, e: Entry, kid: Frame)
    requires e.path == [f.name] + [kid.name] && kid in f.children
    ensures Extends(e, Entry([f.name], f.value), kid, f)
  {
  }

  lemma UnderSize(names: seq<string>, es: seq<Entry>)
    ensures |Under(names, es)| == |es|
  {
  }

  lemma {:induction false} PathsAllFollow(fs: seq<Frame>)
    ensures Follow(PathsAll(fs), PreorderAll(fs), fs)
    decreases fs, 1
  {
    hide Follow;
    if fs == [] {
      NothingFollows(fs);
    } else {
      var n := |fs| - 1;
      PathsAllFollow(fs[..n]);
      PathsFollow(fs[n]);
      FollowTogether(PathsAll(fs[..n]), PreorderAll(fs[..n]), fs[..n], Paths(fs[n]), Preorder(fs[n]), [fs[n]]);
      assert fs[..n] + [fs[n]] == fs;
    }
  }

  lemma NothingFollows(tops: seq<Frame>)
    ensures Follow([], [], tops)
  {
  }

  lemma FollowTogether(es: seq<Entry>, fs: seq<Frame>, tops: seq<Frame>, es': seq<Entry>, fs': seq<Frame>, tops': seq<Frame>)
    requires Follow(es, fs, tops) && Follow(es', fs', tops')
    ensures Follow(es + es', fs + fs', tops + tops')
  {
    hide Belongs, GoesOn, Extends;
    var all, frames := es + es', fs + fs';
    forall i | 0 <= i < |all|
      ensures Belongs(all[i], frames[i])
      ensures (all[i].path == [frames[i].name] && frames[i] in tops + tops') || GoesOn(all, frames, i)
    {
      if i < |es| {
        if GoesOn(es, fs, i) {
          var j := ParentOf(es, fs, i);
          GoesOnFrom(all, frames, i, j);
        }
      } else if GoesOn(es', fs', i - |es|) {
        var j := ParentOf(es', fs', i - |es|);
        GoesOnFrom(all, frames, i, |es| + j);
      }
    }
  }

  /** A line of the folded form: the names of a path with semicolons between them, and the value of its last frame.
      There is one for each frame in preorder, and each path but the first goes on from that of the frame's parent. */
  lemma FoldedSays(root: Frame)
    ensures var lines, es, fs := Lines(Paths(root)), Paths(root), Preorder(root);
            && |lines| == |es| && Follow(es, fs, [root])
            && forall i :: 0 <= i < |lines| ==>
                 es[i].path != [] &&
                 lines[i] == Chain(es[i].path) + " " + (if fs[i].value < 0 then "-" + Itoa(-fs[i].value) else Itoa(fs[i].value))
  {
    hide Paths, Preorder, Itoa, Join, Chain;
    PathsFollow(root);
    var es, fs := Paths(root), Preorder(root);
    forall i | 0 <= i < |es|
      ensures es[i].path != [] && es[i].value == fs[i].value && Join(es[i].path, ";") == Chain(es[i].path)
    {
      assert Belongs(es[i], fs[i]);
      JoinIsChain(es[i].path);
    }
  }
}
