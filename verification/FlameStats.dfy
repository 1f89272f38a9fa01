/** The statistics of a flame graph by name, gathered in one walk over the frames. */
module FlameStats {
  import opened Options
  import opened FlameModel

  /** The share is None where dividing by the root's duration gives no number. */
  datatype FrameStats = FrameStats(totalTime: real, selfTime: real, callCount: nat, percentage: Option<real>)

  type Table = map<string, FrameStats>

  function Share(root: real, total: real): Option<real> {
    if root == 0.0 then None else Some(total / root * 100.0)
  }

  function ChildTime(fs: seq<Frame>): real {
    if fs == [] then 0.0 else ChildTime(fs[..|fs| - 1]) + fs[|fs| - 1].duration
  }

  function SelfTime(f: Frame): real { f.duration - ChildTime(f.children) }

  function Enter(root: real, f: Frame, table: Table): Table {
    if f.name in table then
      var s := table[f.name];
      table[f.name := s.(totalTime := s.totalTime + f.duration, callCount := s.callCount + 1)]
    else table[f.name := FrameStats(f.duration, 0.0, 1, Share(root, f.duration))]
  }

  function Leave(root: real, f: Frame, table: Table): Table
    requires f.name in table
  {
    table[f.name := table[f.name].(selfTime := SelfTime(f), percentage := Share(root, table[f.name].totalTime))]
  }

  function Collect(root: real, f: Frame, table: Table): (r: Table)
    ensures table.Keys <= r.Keys && f.name in r
    decreases f, 0
  {
    Leave(root, f, CollectAll(root, f.children, Enter(root, f, table)))
  }

  function CollectAll(root: real, fs: seq<Frame>, table: Table): (r: Table)
    ensures table.Keys <= r.Keys
    decreases fs, 1
  {
    if fs == [] then table else Collect(root, fs[|fs| - 1], CollectAll(root, fs[..|fs| - 1], table))
  }

  // ---------- what the statistics should be ----------

  function Preorder(f: Frame): seq<Frame> { [f] + PreorderAll(f.children) }

  function PreorderAll(fs: seq<Frame>): seq<Frame> {
    if fs == [] then [] else PreorderAll(fs[..|fs| - 1]) + Preorder(fs[|fs| - 1])
  }

  function Postorder(f: Frame): seq<Frame> { PostorderAll(f.children) + [f] }

  function PostorderAll(fs: seq<Frame>): seq<Frame> {
    if fs == [] then [] else PostorderAll(fs[..|fs| - 1]) + Postorder(fs[|fs| - 1])
  }

  function CountNamed(fs: seq<Frame>, name: string): nat {
    if fs == [] then 0 else CountNamed(fs[..|fs| - 1], name) + if fs[|fs| - 1].name == name then 1 else 0
  }

  function TimeNamed(fs: seq<Frame>, name: string): real {
    if fs == [] then 0.0
    else TimeNamed(fs[..|fs| - 1], name) + if fs[|fs| - 1].name == name then fs[|fs| - 1].duration else 0.0
  }

  function LastNamed(fs: seq<Frame>, name: string): Option<Frame> {
    if fs == [] then None
    else if fs[|fs| - 1].name == name then Some(fs[|fs| - 1])
    else LastNamed(fs[..|fs| - 1], name)
  }

  // ---------- lists of frames ----------

  lemma {:induction false} NamedConcat(a: seq<Frame>, b: seq<Frame>, name: string)
    ensures CountNamed(a + b, name) == CountNamed(a, name) + CountNamed(b, name)
    ensures TimeNamed(a + b, name) == TimeNamed(a, name) + TimeNamed(b, name)
    ensures LastNamed(a + b, name) == if LastNamed(b, name).Some? then LastNamed(b, name) else LastNamed(a, name)
  {
    if b == [] {
      assert a + b == a;
    } else {
      assert (a + b)[..|a + b| - 1] == a + b[..|b| - 1];
      NamedConcat(a, b[..|b| - 1], name);
    }
  }

  lemma NamedOne(f: Frame, name: string)
    ensures CountNamed([f], name) == if f.name == name then 1 else 0
    ensures TimeNamed([f], name) == if f.name == name then f.duration else 0.0
    ensures LastNamed([f], name) == if f.name == name then Some(f) else None
  {
    assert [f][..0] == [];
  }

  // ---------- what the walk gathers ----------

  function CountIn(table: Table, name: string): nat { if name in table then table[name].callCount else 0 }

  function TimeIn(table: Table, name: string): real { if name in table then table[name].totalTime else 0.0 }

  /** How the walk over the frames before (in preorder) and after (in postorder) changes what the table says of a
      name: frames are counted and their times added up; the share is of the final total; the time of its own is
      that of the frame that was left last. */
  ghost predicate Gathers(root: real, table: Table, r: Table, before: seq<Frame>, after: seq<Frame>, name: string) {
    && CountIn(r, name) == CountIn(table, name) + CountNamed(before, name)
    && TimeIn(r, name) == TimeIn(table, name) + TimeNamed(before, name)
    && (CountNamed(before, name) == 0 <==> LastNamed(after, name) == None)
    && if CountNamed(before, name) == 0 then
         (name in r <==> name in table) && (name in r ==> r[name] == table[name])
       else
         && name in r
         && r[name].percentage == Share(root, r[name].totalTime)
         && r[name].selfTime == SelfTime(LastNamed(after, name).value)
  }

  lemma GathersBoth(root: real, table: Table, mid: Table, r: Table, before1: seq<Frame>, after1: seq<Frame>,
                    before2: seq<Frame>, after2: seq<Frame>, name: string)
    requires Gathers(root, table, mid, before1, after1, name) && Gathers(root, mid, r, before2, after2, name)
    ensures Gathers(root, table, r, before1 + before2, after1 + after2, name)
  {
    NamedConcat(before1, before2, name);
    NamedConcat(after1, after2, name);
  }

  lemma EnterCounts(root: real, f: Frame, table: Table, name: string)
    ensures var r := Enter(root, f, table);
            && CountIn(r, name) == CountIn(table, name) + CountNamed([f], name)
            && TimeIn(r, name) == TimeIn(table, name) + TimeNamed([f], name)
            && (name != f.name ==> (name in r <==> name in table) && (name in r ==> r[name] == table[name]))
  {
    NamedOne(f, name);
  }

  /** Entering a frame, gathering its children and leaving it. */
  lemma GathersFrame(root: real, f: Frame, table: Table, mid: Table, before: seq<Frame>, after: seq<Frame>, name: string)
    requires f.name in mid && Gathers(root, Enter(root, f, table), mid, before, after, name)
    ensures Gathers(root, table, Leave(root, f, mid), [f] + before, after + [f], name)
  {
    hide Enter, SelfTime, Share;
    EnterCounts(root, f, table, name);
    NamedConcat([f], before, name);
    NamedConcat(after, [f], name);
    NamedOne(f, name);
  }

  lemma {:induction false} CollectGathers(root: real, f: Frame, table: Table, name: string)
    ensures Gathers(root, table, Collect(root, f, table), Preorder(f), Postorder(f), name)
    decreases f, 0
  {
    hide Gathers, Enter, Leave;
    var start := Enter(root, f, table);
    CollectAllGathers(root, f.children, start, name);
    EnteredIn(root, f, table);
    GathersFrame(root, f, table, CollectAll(root, f.children, start), PreorderAll(f.children), PostorderAll(f.children), name);
  }

  lemma EnteredIn(root: real, f: Frame, table: Table)
    ensures f.name in Enter(root, f, table)
  {
  }

  lemma GathersNothing(root: real, table: Table, name: string)
    ensures Gathers(root, table, table, [], [], name)
  {
  }

  lemma {:induction false} CollectAllGathers(root: real, fs: seq<Frame>, table: Table, name: string)
    ensures Gathers(root, table, CollectAll(root, fs, table), PreorderAll(fs), PostorderAll(fs), name)
    decreases fs, 1
  {
    hide Gathers, Collect, Preorder, Postorder;
    if fs == [] {
      GathersNothing(root, table, name);
    } else {
      var n := |fs| - 1;
      CollectAllGathers(root, fs[..n], table, name);
      var mid := CollectAll(root, fs[..n], table);
      CollectGathers(root, fs[n], mid, name);
      GathersBoth(root, table, mid, Collect(root, fs[n], mid), PreorderAll(fs[..n]), PostorderAll(fs[..n]),
                  Preorder(fs[n]), Postorder(fs[n]), name);
    }
  }

  /** What the finished table says of every name: how many frames have it, the sum of their durations, that sum's
      share of the root's duration, and the time that the last of them in postorder spent itself. */
  lemma {:induction false} StatsExplained(root: Frame, name: string)
    ensures var frames, stats := Preorder(root), Collect(root.duration, root, map[]);
            && (name in stats <==> CountNamed(frames, name) > 0)
            && (name in stats ==>
                 var s := stats[name];
                 && s.callCount == CountNamed(frames, name)
                 && s.totalTime == TimeNamed(frames, name)
                 && (s.percentage.Some? <==> root.duration != 0.0)
                 && (s.percentage.Some? ==> s.percentage.value * root.duration == 100.0 * TimeNamed(frames, name))
                 && var last := LastNamed(Postorder(root), name);
                    last.Some? && s.selfTime == last.value.duration - TotalTime(last.value.children))
  {
    hide Collect, Preorder, Postorder, Share, SelfTime;
    CollectGathers(root.duration, root, map[], name);
    ShareIs(root.duration, TimeNamed(Preorder(root), name));
    if LastNamed(Postorder(root), name).Some? {
      SelfTimeIs(LastNamed(Postorder(root), name).value);
    }
  }

  /** The durations of some frames together. */
  function TotalTime(fs: seq<Frame>): real {
    if fs == [] then 0.0 else fs[0].duration + TotalTime(fs[1..])
  }

  lemma {:induction false} TotalTimeSnoc(fs: seq<Frame>, f: Frame)
    ensures TotalTime(fs + [f]) == TotalTime(fs) + f.duration
  {
    if fs == [] {
      assert (fs + [f])[1..] == [];
    } else {
      assert (fs + [f])[1..] == fs[1..] + [f];
      TotalTimeSnoc(fs[1..], f);
    }
  }

  lemma {:induction false} ChildTimeIs(fs: seq<Frame>)
    ensures ChildTime(fs) == TotalTime(fs)
  {
    if fs != [] {
      var n := |fs| - 1;
      ChildTimeIs(fs[..n]);
      TotalTimeSnoc(fs[..n], fs[n]);
      assert fs[..n] + [fs[n]] == fs;
    }
  }

  lemma SelfTimeIs(f: Frame)
    ensures SelfTime(f) == f.duration - TotalTime(f.children)
  {
    ChildTimeIs(f.children);
  }

  lemma ShareIs(root: real, total: real)
    ensures Share(root, total).Some? <==> root != 0.0
    ensures root != 0.0 ==> Share(root, total).value * root == 100.0 * total
  {
    if root != 0.0 {
      var q := total / root;
      assert q * root == total;
      assert q * 100.0 * root == 100.0 * (q * root);
    }
  }

  // ---------- the walk ----------

  class StatsTable {
    var stats: Table

    constructor ()
      ensures stats == map[]
    {
      stats := map[];
    }

    method CollectFrameStats(root: real, f: Frame)
      modifies this
      ensures stats == Collect(root, f, old(stats))
      decreases f
    {
      hide Share;
      EnterThis(root, f);
      ghost var entered := stats;
      hide Enter;
      var childTime := 0.0;
      for k := 0 to |f.children|
        invariant stats == CollectAll(root, f.children[..k], entered) && childTime == ChildTime(f.children[..k])
      {
        hide Collect;
        assert f.children[..k + 1][..k] == f.children[..k];
        childTime := childTime + f.children[k].duration;
        CollectFrameStats(root, f.children[k]);
      }
      assert f.children[..|f.children|] == f.children;
      assert f.name in entered;
      stats := stats[f.name := stats[f.name].(selfTime := f.duration - childTime)];
      stats := stats[f.name := stats[f.name].(percentage := Share(root, stats[f.name].totalTime))];
    }

    method EnterThis(root: real, f: Frame)
      modifies this
      ensures stats == Enter(root, f, old(stats)) && f.name in stats
    {
      if f.name in stats {
        var s := stats[f.name];
        stats := stats[f.name := s.(totalTime := s.totalTime + f.duration, callCount := s.callCount + 1)];
      } else {
        stats := stats[f.name := FrameStats(f.duration, 0.0, 1, Share(root, f.duration))];
      }
    }
  }

  method GetFrameStats(root: Frame) returns (stats: Table)
    ensures stats == Collect(root.duration, root, map[])
  {
    var table := new StatsTable();
    table.CollectFrameStats(root.duration, root);
    stats := table.stats;
  }
}
