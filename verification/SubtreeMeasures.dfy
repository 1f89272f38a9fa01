/** What else a signature says of a subtree: its operations in preorder, and its depth. */
module SubtreeMeasures {
  import opened Permutations
  import opened SpanTree
  import opened SubtreeStructure

  /** The operations in preorder. */
  function Operations(t: Span): seq<string> { [t.info.operation] + OperationsAll(t.children) }

  function OperationsAll(ts: seq<Span>): seq<string> {
    if ts == [] then [] else OperationsAll(ts[..|ts| - 1]) + Operations(ts[|ts| - 1])
  }

  function Size(t: Span): nat { 1 + SizeAll(t.children) }

  function SizeAll(ts: seq<Span>): nat {
    if ts == [] then 0 else SizeAll(ts[..|ts| - 1]) + Size(ts[|ts| - 1])
  }

  lemma {:induction false} OperationsCount(t: Span)
    ensures |Operations(t)| == Size(t)
    decreases t, 0
  {
    OperationsCountAll(t.children);
  }

  lemma {:induction false} OperationsCountAll(ts: seq<Span>)
    ensures |OperationsAll(ts)| == SizeAll(ts)
    decreases ts, 1
  {
    if ts != [] {
      OperationsCountAll(ts[..|ts| - 1]);
      OperationsCount(ts[|ts| - 1]);
    }
  }

  function SizeAt(ts: seq<Span>): nat -> real {
    (k: nat) => if k < |ts| then Size(ts[k]) as real else 0.0
  }

  lemma {:induction false} SizeAllPermuted(ts: seq<Span>, us: seq<Span>, p: seq<nat>)
    requires |us| == |p| && forall i :: 0 <= i < |p| ==> p[i] < |ts| && Size(us[i]) == Size(ts[p[i]])
    ensures SizeAll(us) as real == SumAt(SizeAt(ts), p)
  {
    if us != [] {
      SizeAllPermuted(ts, us[..|us| - 1], p[..|p| - 1]);
    }
  }

  lemma {:induction false} SizeAllIsSum(ts: seq<Span>, k: nat)
    requires k <= |ts|
    ensures SizeAll(ts[..k]) as real == SumBelow(SizeAt(ts), k)
  {
    if k > 0 {
      SizeAllIsSum(ts, k - 1);
      assert ts[..k][..k - 1] == ts[..k - 1];
    }
  }

  /** Sorting loses no span: the tree has as many afterwards. */
  lemma {:induction false} SortKeepsSize(order: Order, t: Span)
    requires Sorts(order)
    ensures Size(SortTree(order, t)) == Size(t)
    decreases t
  {
    hide SortTree, Sorts;
    var p := SortTreeIs(order, t);
    var s := SortTree(order, t);
    forall i | 0 <= i < |p|
      ensures Size(s.children[i]) == Size(t.children[p[i]])
    {
      SortKeepsSize(order, t.children[p[i]]);
    }
    var n := |t.children|;
    SizeAllPermuted(t.children, s.children, p);
    SizeAllIsSum(t.children, n);
    SumPermuted(SizeAt(t.children), p, n);
    assert t.children[..n] == t.children;
  }

  /** Labels that do not look like indentation or like further lines. */
  predicate OneLine(t: Span) {
    && '\n' !in Label(t) && Label(t)[0] != ' '
    && forall kid <- t.children :: OneLine(kid)
  }

  function Larger(a: int, b: int): int { if a >= b then a else b }

  /** The deepest indentation among the lines of a text; run spaces of the current line have been read, and
      counting says whether only spaces. */
  function Indentation(s: string, run: nat, counting: bool): nat {
    if s == "" then 0
    else if s[0] == '\n' then Indentation(s[1..], 0, true)
    else if counting && s[0] == ' ' then Indentation(s[1..], run + 1, true)
    else Larger(if counting then run else 0, Indentation(s[1..], run, false))
  }

  function Spaces(n: nat): string { seq(n, _ => ' ') }

  lemma {:induction false} RestOfLine(rest: string, run: nat, more: string)
    requires '\n' !in rest
    ensures Indentation(rest + "\n" + more, run, false) == Indentation(more, 0, true)
  {
    if rest == "" {
      assert (rest + "\n" + more)[1..] == more;
    } else {
      assert (rest + "\n" + more)[1..] == rest[1..] + "\n" + more;
      RestOfLine(rest[1..], run, more);
    }
  }

  lemma {:induction false} IndentedLine(n: nat, run: nat, line: string, more: string)
    requires line != "" && line[0] != ' ' && '\n' !in line
    ensures Indentation(Spaces(n) + line + "\n" + more, run, true) == Larger(run + n, Indentation(more, 0, true))
  {
    var s := Spaces(n) + line + "\n" + more;
    if n == 0 {
      assert s == line + "\n" + more && s[0] == line[0] && line[0] in line;
      assert s[1..] == line[1..] + "\n" + more;
      RestOfLine(line[1..], run, more);
    } else {
      assert s[1..] == Spaces(n - 1) + line + "\n" + more;
      IndentedLine(n - 1, run + 1, line, more);
    }
  }

  lemma {:induction false} PrintIndentation(t: Span, n: nat, more: string)
    requires OneLine(t)
    ensures Indentation(Print(t, Spaces(n)) + more, 0, true) == Larger(n + 2 * (Height(t) - 1), Indentation(more, 0, true))
    decreases t, 0
  {
    hide Indentation, Print, PrintAll;
    if t.children == [] {
      PrintLeaf(t, Spaces(n), more);
      IndentedLine(n, 0, Label(t), more);
    } else {
      var after := Spaces(n) + "]" + "\n" + more;
      PrintNode(t, n, more);
      IndentedLine(n, 0, Label(t) + "[", PrintAll(t.children, Spaces(n + 2)) + after);
      PrintAllIndentation(t.children, n + 2, after);
      IndentedLine(n, 0, "]", more);
    }
  }

  lemma PrintLeaf(t: Span, indent: string, more: string)
    requires t.children == []
    ensures Print(t, indent) + more == indent + Label(t) + "\n" + more
  {
    assert Print(t, indent) == indent + Label(t) + "" + "\n";
  }

  lemma PrintNode(t: Span, n: nat, more: string)
    requires t.children != []
    ensures Print(t, Spaces(n)) + more ==
            Spaces(n) + (Label(t) + "[") + "\n" + (PrintAll(t.children, Spaces(n + 2)) + (Spaces(n) + "]" + "\n" + more))
  {
    hide PrintAll, Label;
    assert Spaces(n) + STEP == Spaces(n + 2);
    var kids := PrintAll(t.children, Spaces(n + 2));
    assert "[\n" == "[" + "\n";
    assert Print(t, Spaces(n)) == Spaces(n) + Label(t) + ("[\n" + kids + Spaces(n) + "]") + "\n";
  }

  lemma {:induction false} PrintAllIndentation(ts: seq<Span>, n: nat, more: string)
    requires forall t <- ts :: OneLine(t)
    ensures Indentation(PrintAll(ts, Spaces(n)) + more, 0, true) ==
            Larger(if ts == [] then 0 else n + 2 * (HeightAll(ts) - 1), Indentation(more, 0, true))
    decreases ts, 1
  {
    hide Indentation, Print;
    if ts == [] {
      assert "" + more == more;
    } else {
      var rest := PrintAll(ts[1..], Spaces(n)) + more;
      assert (Print(ts[0], Spaces(n)) + PrintAll(ts[1..], Spaces(n))) + more == Print(ts[0], Spaces(n)) + rest;
      PrintIndentation(ts[0], n, rest);
      PrintAllIndentation(ts[1..], n, more);
      HeightAllCons(ts);
    }
  }

  lemma {:induction false} HeightAllCons(ts: seq<Span>)
    requires ts != []
    ensures HeightAll(ts) == Larger(Height(ts[0]), HeightAll(ts[1..])) && HeightAll(ts) >= 1
  {
    if |ts| > 1 {
      HeightAllCons(ts[..|ts| - 1]);
      assert ts[..|ts| - 1][1..] == ts[1..][..|ts[1..]| - 1];
    }
  }

  /** The depth of a tree is one plus half of the deepest indentation of its text. */
  lemma DepthIsIndentation(t: Span)
    requires OneLine(t)
    ensures 2 * (Height(t) - 1) == Indentation(Print(t, ""), 0, true)
  {
    hide Print;
    PrintIndentation(t, 0, "");
    assert Spaces(0) == "" && Print(t, "") + "" == Print(t, "");
  }
}
