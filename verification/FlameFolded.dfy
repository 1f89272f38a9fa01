/** The folded form of a flame graph: one line for every path from the root to a frame. The stack of names is a
    slice, and appending to a slice may write into the array that other slices share. */
module FlameFolded {
  import opened Decimal
  import opened FlameModel

  function Join(parts: seq<string>, separator: string): string {
    if |parts| == 0 then ""
    else if |parts| == 1 then parts[0]
    else Join(parts[..|parts| - 1], separator) + separator + parts[|parts| - 1]
  }

  function Number(n: int): string { if n < 0 then "-" + Itoa(-n) else Itoa(n) }

  datatype Entry = Entry(path: seq<string>, value: int)

  function Line(e: Entry): string { Join(e.path, ";") + " " + Number(e.value) }

  function Lines(es: seq<Entry>): seq<string> {
    seq(|es|, i requires 0 <= i < |es| => Line(es[i]))
  }

  /** All entries with names put before their paths. */
  function Under(names: seq<string>, es: seq<Entry>): seq<Entry> {
    seq(|es|, i requires 0 <= i < |es| => Entry(names + es[i].path, es[i].value))
  }

  /** The paths from this frame to every frame above it, in preorder. */
  function Paths(f: Frame): seq<Entry> {
    [Entry([f.name], f.value)] + Under([f.name], PathsAll(f.children))
  }

  function PathsAll(fs: seq<Frame>): seq<Entry> {
    if fs == [] then [] else PathsAll(fs[..|fs| - 1]) + Paths(fs[|fs| - 1])
  }

  lemma UnderTwice(a: seq<string>, b: seq<string>, es: seq<Entry>)
    ensures Under(a, Under(b, es)) == Under(a + b, es)
  {
    forall i | 0 <= i < |es|
      ensures Under(a, Under(b, es))[i] == Under(a + b, es)[i]
    {
      assert a + (b + es[i].path) == (a + b) + es[i].path;
    }
  }

  lemma UnderPaths(names: seq<string>, f: Frame)
    ensures Under(names, Paths(f)) == [Entry(names + [f.name], f.value)] + Under(names + [f.name], PathsAll(f.children))
  {
    var kids := PathsAll(f.children);
    UnderTwice(names, [f.name], kids);
    assert Under(names, Paths(f)) == [Entry(names + [f.name], f.value)] + Under(names, Under([f.name], kids));
  }

  lemma LinesConcat(a: seq<Entry>, b: seq<Entry>)
    ensures Lines(a + b) == Lines(a) + Lines(b)
  {
  }

  lemma UnderConcat(names: seq<string>, a: seq<Entry>, b: seq<Entry>)
    ensures Under(names, a + b) == Under(names, a) + Under(names, b)
  {
  }

  lemma OneLine(path: seq<string>, value: int)
    ensures Lines([Entry(path, value)]) == [Join(path, ";") + " " + Number(value)]
  {
    hide Join, Number;
  }

  /** The line of a frame and then those of its children. */
  lemma LinesTogether(names: seq<string>, f: Frame, before: seq<string>, mid: seq<string>, after: seq<string>)
    requires mid == before + [Join(names + [f.name], ";") + " " + Number(f.value)]
    requires after == mid + Lines(Under(names + [f.name], PathsAll(f.children)))
    ensures after == before + Lines(Under(names, Paths(f)))
  {
    UnderPaths(names, f);
    hide Join, Number, Paths, PathsAll, Under, Lines;
    var own := names + [f.name];
    OneLine(own, f.value);
    LinesConcat([Entry(own, f.value)], Under(own, PathsAll(f.children)));
    var head, kids := Lines([Entry(own, f.value)]), Lines(Under(own, PathsAll(f.children)));
    assert before + head + kids == before + (head + kids);
  }

  lemma NoLines(names: seq<string>)
    ensures Lines(Under(names, PathsAll([]))) == []
  {
  }

  lemma UnderNothing(es: seq<Entry>)
    ensures Under([], es) == es
  {
    forall i | 0 <= i < |es|
      ensures Under([], es)[i] == es[i]
    {
      assert [] + es[i].path == es[i].path;
    }
  }

  lemma NextPaths(names: seq<string>, fs: seq<Frame>, k: nat)
    requires k < |fs|
    ensures Lines(Under(names, PathsAll(fs[..k + 1]))) ==
            Lines(Under(names, PathsAll(fs[..k]))) + Lines(Under(names, Paths(fs[k])))
  {
    assert fs[..k + 1][..k] == fs[..k];
    UnderConcat(names, PathsAll(fs[..k]), Paths(fs[k]));
    LinesConcat(Under(names, PathsAll(fs[..k])), Under(names, Paths(fs[k])));
  }

  // ---------- slices ----------

  /** The first len elements of an array that other slices may share. */
  datatype Slice = Slice(base: array<string>, len: nat) {
    ghost predicate Valid() { len <= base.Length }

    function View(): seq<string>
      reads base
      requires Valid()
    {
      base[..len]
    }
  }

  /** Appends in place if the array has room, otherwise in a new array that has some more. */
  method Append(s: Slice, x: string, spare: nat -> nat) returns (r: Slice)
    requires s.Valid()
    modifies s.base
    ensures r.Valid() && r.len == s.len + 1 && r.View() == old(s.View()) + [x]
    ensures s.View() == old(s.View())
    ensures if s.len < s.base.Length then r.base == s.base else fresh(r.base)
  {
    if s.len < s.base.Length {
      s.base[s.len] := x;
      return Slice(s.base, s.len + 1);
    }
    var bigger := new string[s.len + 1 + spare(s.len)];
    for i := 0 to s.len
      invariant s.base[..] == old(s.base[..])
      invariant forall j :: 0 <= j < i ==> bigger[j] == s.base[j]
    {
      bigger[i] := s.base[i];
    }
    bigger[s.len] := x;
    assert bigger[..s.len + 1] == s.base[..s.len] + [x];
    return Slice(bigger, s.len + 1);
  }

  class Output {
    var lines: seq<string>

    constructor ()
      ensures lines == []
    {
      lines := [];
    }
  }

  /** Writes one line a frame. The caller sees its own stack unchanged, although its array is shared and
      written to. */
  method CollectFolded(f: Frame, stack: Slice, out: Output, spare: nat -> nat)
    requires stack.Valid()
    modifies stack.base, out
    ensures stack.View() == old(stack.View())
    ensures out.lines == old(out.lines) + Lines(Under(old(stack.View()), Paths(f)))
    decreases f, 0
  {
    hide Join, Number, Paths, PathsAll, Under, Lines;
    ghost var names, before := stack.View(), out.lines;
    var current := Append(stack, f.name, spare);
    assert current.View() == names + [f.name];
    out.lines := out.lines + [Join(current.View(), ";") + " " + Number(f.value)];
    ghost var mid := out.lines;
    CollectChildren(f.children, current, out, spare);
    LinesTogether(names, f, before, mid, out.lines);
  }

  method CollectChildren(fs: seq<Frame>, current: Slice, out: Output, spare: nat -> nat)
    requires current.Valid()
    modifies current.base, out
    ensures current.View() == old(current.View())
    ensures out.lines == old(out.lines) + Lines(Under(old(current.View()), PathsAll(fs)))
    decreases fs, 1
  {
    hide Join, Number, Paths, PathsAll, Under, Lines;
    ghost var own, before := current.View(), out.lines;
    NoLines(own);
    assert fs[..0] == [] && before + [] == before;
    for k := 0 to |fs|
      invariant current.View() == own
      invariant out.lines == before + Lines(Under(own, PathsAll(fs[..k])))
    {
      CollectFolded(fs[k], current, out, spare);
      NextPaths(own, fs, k);
    }
    assert fs[..|fs|] == fs;
  }

  /** The lines of all paths from the root, whatever room appending leaves in the arrays. */
  method ToFolded(root: Frame, spare: nat -> nat) returns (text: string)
    ensures text == Join(Lines(Paths(root)), "\n")
  {
    hide Join, Lines, Paths, Under;
    var out := new Output();
    var none := new string[0];
    var stack := Slice(none, 0);
    assert stack.View() == [];
    CollectFolded(root, stack, out, spare);
    UnderNothing(Paths(root));
    assert [] + Lines(Paths(root)) == Lines(Paths(root));
    text := Join(out.lines, "\n");
  }
}
