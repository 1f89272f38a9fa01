/** The tree that a flat list of spans makes: who is whose parent, and what hangs under the root. Nothing is
    assumed about the list: ids may repeat, parents may be missing, and parents may run in circles. */
module TraceTreeModel {
  import opened Options
  import opened Permutations

  datatype Record = Record(id: string, parentId: string)

  /** The last of the first k spans with this id. */
  function LastWith(recs: seq<Record>, id: string, k: nat): (r: Option<nat>)
    requires k <= |recs|
    ensures r.Some? ==> r.value < k && recs[r.value].id == id
  {
    if k == 0 then None else if recs[k - 1].id == id then Some(k - 1) else LastWith(recs, id, k - 1)
  }

  /** The last of the first k spans without a parent id. */
  function RootAmong(recs: seq<Record>, k: nat): (r: Option<nat>)
    requires k <= |recs|
    ensures r.Some? ==> r.value < k && recs[r.value].parentId == ""
  {
    if k == 0 then None else if recs[k - 1].parentId == "" then Some(k - 1) else RootAmong(recs, k - 1)
  }

  function Root(recs: seq<Record>): Option<nat> { RootAmong(recs, |recs|) }

  /** The span that this one is hung under. */
  function Parent(recs: seq<Record>, j: nat): (r: Option<nat>)
    requires j < |recs|
    ensures r.Some? ==> r.value < |recs|
  {
    if recs[j].parentId == "" then None else LastWith(recs, recs[j].parentId, |recs|)
  }

  /** The spans among the first k that are hung under span i, in the order of the list. */
  function ChildrenAmong(recs: seq<Record>, i: nat, k: nat): (r: seq<nat>)
    requires k <= |recs|
    ensures forall c <- r :: c < k && Parent(recs, c) == Some(i)
  {
    if k == 0 then []
    else ChildrenAmong(recs, i, k - 1) + if Parent(recs, k - 1) == Some(i) then [k - 1] else []
  }

  function Children(recs: seq<Record>, i: nat): seq<nat> { ChildrenAmong(recs, i, |recs|) }

  predicate Increasing(s: seq<nat>) {
    forall a, b :: 0 <= a < b < |s| ==> s[a] < s[b]
  }

  /** Children come in the order of the list. */
  lemma {:induction false} ChildrenInOrder(recs: seq<Record>, i: nat, k: nat)
    requires k <= |recs|
    ensures Increasing(ChildrenAmong(recs, i, k))
  {
    if k > 0 {
      ChildrenInOrder(recs, i, k - 1);
      var before := ChildrenAmong(recs, i, k - 1);
      assert before + [] == before;
      forall a | 0 <= a < |before|
        ensures before[a] < k - 1
      {
        assert before[a] in before;
      }
    }
  }

  datatype Tree = Node(span: nat, kids: seq<Tree>)

  function Roots(ts: seq<Tree>): seq<nat> {
    seq(|ts|, k requires 0 <= k < |ts| => ts[k].span)
  }

  /** Every node of the tree has exactly its children under it, in order. */
  predicate IsTreeOf(recs: seq<Record>, t: Tree) {
    t.span < |recs| && Roots(t.kids) == Children(recs, t.span) && forall kid <- t.kids :: IsTreeOf(recs, kid)
  }

  function Preorder(t: Tree): seq<nat> { [t.span] + PreorderAll(t.kids) }

  function PreorderAll(ts: seq<Tree>): seq<nat> {
    if ts == [] then [] else PreorderAll(ts[..|ts| - 1]) + Preorder(ts[|ts| - 1])
  }

  /** The span reached after k steps from child to parent. */
  function Ancestor(recs: seq<Record>, j: nat, k: nat): (r: Option<nat>)
    requires j < |recs|
    ensures r.Some? ==> r.value < |recs|
  {
    if k == 0 then Some(j)
    else
      var a := Ancestor(recs, j, k - 1);
      if a.None? then None else Parent(recs, a.value)
  }

  ghost predicate Descends(recs: seq<Record>, j: nat, from: nat)
    requires j < |recs|
  {
    exists k: nat :: Ancestor(recs, j, k) == Some(from)
  }

  // ---------- counting ----------

  function Here(x: nat, y: nat): nat { if x == y then 1 else 0 }

  lemma CountPreorder(x: nat, t: Tree)
    ensures Count(x, Preorder(t)) == Here(x, t.span) + Count(x, PreorderAll(t.kids))
  {
    CountConcat(x, [t.span], PreorderAll(t.kids));
    CountOne(x, t.span);
  }

  lemma CountPreorderAll(x: nat, ts: seq<Tree>)
    requires ts != []
    ensures Count(x, PreorderAll(ts)) == Count(x, PreorderAll(ts[..|ts| - 1])) + Count(x, Preorder(ts[|ts| - 1]))
  {
    CountConcat(x, PreorderAll(ts[..|ts| - 1]), Preorder(ts[|ts| - 1]));
  }

  /** Every span is the child of its parent once, and of nobody else. */
  lemma {:induction false} ChildOnce(recs: seq<Record>, i: nat, j: nat, k: nat)
    requires k <= |recs| && j < |recs|
    ensures Count(j, ChildrenAmong(recs, i, k)) == if j < k && Parent(recs, j) == Some(i) then 1 else 0
  {
    hide Parent;
    if k > 0 {
      ChildOnce(recs, i, j, k - 1);
      if Parent(recs, k - 1) == Some(i) {
        CountConcat(j, ChildrenAmong(recs, i, k - 1), [k - 1]);
        CountOne(j, k - 1);
      } else {
        assert ChildrenAmong(recs, i, k) == ChildrenAmong(recs, i, k - 1);
      }
    }
  }

  // ---------- what a tree contains ----------

  /** How often span j comes in the preorder: as the tree's own root, and as often as its parent comes. */
  lemma {:induction false} CountStep(recs: seq<Record>, t: Tree, j: nat)
    requires IsTreeOf(recs, t) && j < |recs|
    ensures var p := Parent(recs, j);
            Count(j, Preorder(t)) == Here(j, t.span) + if p.Some? then Count(p.value, Preorder(t)) else 0
    decreases t, 0
  {
    var p := Parent(recs, j);
    CountPreorder(j, t);
    if p.Some? {
      CountPreorder(p.value, t);
    }
    CountStepAll(recs, t.kids, j);
    ChildOnce(recs, t.span, j, |recs|);
  }

  lemma {:induction false} CountStepAll(recs: seq<Record>, ts: seq<Tree>, j: nat)
    requires j < |recs| && forall t <- ts :: IsTreeOf(recs, t)
    ensures var p := Parent(recs, j);
            Count(j, PreorderAll(ts)) == Count(j, Roots(ts)) + if p.Some? then Count(p.value, PreorderAll(ts)) else 0
    decreases ts, 1
  {
    if ts != [] {
      var n := |ts| - 1;
      var p := Parent(recs, j);
      CountStepAll(recs, ts[..n], j);
      CountStep(recs, ts[n], j);
      CountPreorderAll(j, ts);
      if p.Some? {
        CountPreorderAll(p.value, ts);
      }
      assert Roots(ts)[..n] == Roots(ts[..n]) && Roots(ts)[n] == ts[n].span;
    }
  }

  lemma AncestorStep(recs: seq<Record>, j: nat, k: nat)
    requires j < |recs|
    ensures var p := Parent(recs, j);
            Ancestor(recs, j, k + 1) == if p.Some? then Ancestor(recs, p.value, k) else None
  {
    if k > 0 {
      AncestorStep(recs, j, k - 1);
    }
  }

  /** Only descendants of the root of a tree are in it. */
  lemma {:induction false} MembersDescend(recs: seq<Record>, t: Tree, j: nat)
    requires IsTreeOf(recs, t) && j in Preorder(t)
    ensures j < |recs| && Descends(recs, j, t.span)
    decreases t
  {
    if j == t.span {
      assert Ancestor(recs, j, 0) == Some(j);
    } else {
      var kid := MemberOfKid(t.kids, j);
      MembersDescend(recs, kid, j);
      var k: nat :| Ancestor(recs, j, k) == Some(kid.span);
      KidIsChild(recs, t, kid);
      assert Ancestor(recs, j, k + 1) == Some(t.span);
    }
  }

  lemma {:induction false} MemberOfKid(ts: seq<Tree>, j: nat) returns (kid: Tree)
    requires j in PreorderAll(ts)
    ensures kid in ts && j in Preorder(kid)
  {
    var n := |ts| - 1;
    if j in Preorder(ts[n]) {
      kid := ts[n];
    } else {
      kid := MemberOfKid(ts[..n], j);
    }
  }

  lemma KidIsChild(recs: seq<Record>, t: Tree, kid: Tree)
    requires IsTreeOf(recs, t) && kid in t.kids
    ensures kid.span < |recs| && Parent(recs, kid.span) == Some(t.span)
  {
    var k :| 0 <= k < |t.kids| && t.kids[k] == kid;
    assert Roots(t.kids)[k] == kid.span;
    assert kid.span in Children(recs, t.span);
  }

  lemma {:induction false} CountFromAncestor(recs: seq<Record>, t: Tree, j: nat, k: nat)
    requires IsTreeOf(recs, t) && j < |recs| && Parent(recs, t.span) == None
    requires Ancestor(recs, j, k) == Some(t.span)
    ensures Count(j, Preorder(t)) == 1
    decreases k
  {
    CountStep(recs, t, j);
    if k > 0 {
      AncestorStep(recs, j, k - 1);
      CountFromAncestor(recs, t, Parent(recs, j).value, k - 1);
    }
  }

  /** The preorder of the tree under a span without parent has each of its descendants exactly once, and
      nothing else. */
  lemma PreorderHasDescendantsOnce(recs: seq<Record>, t: Tree, j: nat)
    requires IsTreeOf(recs, t) && j < |recs| && Parent(recs, t.span) == None
    ensures Count(j, Preorder(t)) == if Descends(recs, j, t.span) then 1 else 0
  {
    CountMember(j, Preorder(t));
    if Descends(recs, j, t.span) {
      var k: nat :| Ancestor(recs, j, k) == Some(t.span);
      CountFromAncestor(recs, t, j, k);
    } else if j in Preorder(t) {
      MembersDescend(recs, t, j);
    }
  }

  // ---------- that there is a tree ----------

  /** A path from the root downwards, without repetition. */
  ghost predicate IsPath(recs: seq<Record>, path: seq<nat>) {
    && path != []
    && (forall k :: 0 <= k < |path| ==> path[k] < |recs|)
    && Parent(recs, path[0]) == None
    && (forall k :: 0 < k < |path| ==> Parent(recs, path[k]) == Some(path[k - 1]))
    && (forall a, b :: 0 <= a < b < |path| ==> path[a] != path[b])
  }

  lemma PathExtends(recs: seq<Record>, path: seq<nat>, c: nat)
    requires IsPath(recs, path) && c < |recs| && Parent(recs, c) == Some(path[|path| - 1])
    ensures c !in path && IsPath(recs, path + [c])
  {
    hide Parent;
    forall a | 0 <= a < |path|
      ensures path[a] != c
    {
      if a > 0 {
        assert Parent(recs, path[a]) == Some(path[a - 1]);
      }
    }
  }

  /** The spans not on the path: what is left to descend into. */
  ghost function Off(recs: seq<Record>, path: seq<nat>): set<nat> {
    set x: nat | x < |recs| && x !in path
  }

  lemma {:induction false} TreeUnder(recs: seq<Record>, path: seq<nat>) returns (t: Tree)
    requires IsPath(recs, path)
    ensures IsTreeOf(recs, t) && t.span == path[|path| - 1]
    decreases Off(recs, path), |recs| + 1
  {
    var i := path[|path| - 1];
    var cs := Children(recs, i);
    ChildrenFew(recs, i, |recs|);
    var kids := TreesUnder(recs, path, cs);
    t := Node(i, kids);
    assert Roots(kids) == cs;
  }

  lemma {:induction false} ChildrenFew(recs: seq<Record>, i: nat, k: nat)
    requires k <= |recs|
    ensures |ChildrenAmong(recs, i, k)| <= k
  {
    if k > 0 {
      ChildrenFew(recs, i, k - 1);
    }
  }

  lemma {:induction false} TreesUnder(recs: seq<Record>, path: seq<nat>, cs: seq<nat>) returns (ts: seq<Tree>)
    requires IsPath(recs, path) && |cs| <= |recs|
    requires forall c <- cs :: c < |recs| && Parent(recs, c) == Some(path[|path| - 1])
    ensures |ts| == |cs| && forall k :: 0 <= k < |cs| ==> IsTreeOf(recs, ts[k]) && ts[k].span == cs[k]
    decreases Off(recs, path), |cs|
  {
    if cs == [] {
      ts := [];
    } else {
      var n := |cs| - 1;
      ts := TreesUnder(recs, path, cs[..n]);
      assert cs[n] in cs;
      PathExtends(recs, path, cs[n]);
      assert cs[n] in Off(recs, path) && cs[n] !in Off(recs, path + [cs[n]]);
      var t := TreeUnder(recs, path + [cs[n]]);
      ts := ts + [t];
    }
  }

  /** There is only one tree with a given root. */
  lemma {:induction false} TreeUnique(recs: seq<Record>, t: Tree, u: Tree)
    requires IsTreeOf(recs, t) && IsTreeOf(recs, u) && t.span == u.span
    ensures t == u
    decreases t
  {
    assert |Roots(t.kids)| == |Roots(u.kids)|;
    forall k | 0 <= k < |t.kids|
      ensures t.kids[k] == u.kids[k]
    {
      assert Roots(t.kids)[k] == Roots(u.kids)[k];
      assert t.kids[k] in t.kids && u.kids[k] in u.kids;
      TreeUnique(recs, t.kids[k], u.kids[k]);
    }
    assert t.kids == u.kids;
  }

  /** Whatever the list, the root has one finite tree under it. */
  lemma RootTree(recs: seq<Record>) returns (t: Tree)
    requires Root(recs).Some?
    ensures IsTreeOf(recs, t) && t.span == Root(recs).value && Parent(recs, t.span) == None
    ensures forall u :: IsTreeOf(recs, u) && u.span == t.span ==> u == t
  {
    t := TreeUnder(recs, [Root(recs).value]);
    forall u | IsTreeOf(recs, u) && u.span == t.span
      ensures u == t
    {
      TreeUnique(recs, u, t);
    }
  }

  // ---------- when the tree spans the list ----------

  /** Following parents from span j comes to an end. */
  ghost predicate Ends(recs: seq<Record>, j: nat)
    requires j < |recs|
  {
    exists k: nat :: Ancestor(recs, j, k) == None
  }

  lemma PermutationEnds(recs: seq<Record>, t: Tree, j: nat)
    requires IsTreeOf(recs, t) && Parent(recs, t.span) == None && j < |recs| && Count(j, Preorder(t)) == 1
    ensures Ends(recs, j) && (j != t.span ==> Parent(recs, j).Some?)
  {
    hide Parent, IsTreeOf, Preorder;
    PreorderHasDescendantsOnce(recs, t, j);
    var k: nat :| Ancestor(recs, j, k) == Some(t.span);
    assert Ancestor(recs, j, k + 1) == None;
    if k > 0 {
      AncestorStep(recs, j, k - 1);
    }
  }

  lemma EndsCounted(recs: seq<Record>, t: Tree, j: nat)
    requires IsTreeOf(recs, t) && Parent(recs, t.span) == None && j < |recs| && Ends(recs, j)
    requires forall i: nat :: i < |recs| && i != t.span ==> Parent(recs, i).Some?
    ensures Count(j, Preorder(t)) == 1
  {
    assert t.span < |recs|;
    hide Parent, IsTreeOf, Preorder;
    var k: nat :| Ancestor(recs, j, k) == None;
    EndsAtRoot(recs, t.span, j, k);
    PreorderHasDescendantsOnce(recs, t, j);
  }

  /** The preorder under the root is a permutation of all spans exactly when the root is the only span without
      a parent in the list and parents do not run in circles. */
  lemma {:induction false} SpansIff(recs: seq<Record>, t: Tree)
    requires Root(recs).Some? && IsTreeOf(recs, t) && t.span == Root(recs).value
    ensures IsPermutation(Preorder(t), |recs|) <==>
            && (forall j: nat :: j < |recs| && j != t.span ==> Parent(recs, j).Some?)
            && (forall j: nat :: j < |recs| ==> Ends(recs, j))
  {
    assert Parent(recs, t.span) == None;
    hide Parent, IsTreeOf, Preorder, Ends;
    forall x | x in Preorder(t)
      ensures x < |recs|
    {
      MembersDescend(recs, t, x);
    }
    if IsPermutation(Preorder(t), |recs|) {
      forall j: nat | j < |recs|
        ensures Ends(recs, j) && (j != t.span ==> Parent(recs, j).Some?)
      {
        PermutationEnds(recs, t, j);
      }
    } else if && (forall j: nat :: j < |recs| && j != t.span ==> Parent(recs, j).Some?)
              && forall j: nat :: j < |recs| ==> Ends(recs, j) {
      forall j: nat | j < |recs|
        ensures Count(j, Preorder(t)) == 1
      {
        EndsCounted(recs, t, j);
      }
    }
  }

  lemma {:induction false} EndsAtRoot(recs: seq<Record>, root: nat, j: nat, k: nat)
    requires root < |recs| && j < |recs| && Ancestor(recs, j, k) == None
    requires forall i: nat :: i < |recs| && i != root ==> Parent(recs, i).Some?
    ensures Descends(recs, j, root)
  {
    var a := Ancestor(recs, j, k - 1);
    if a == None {
      EndsAtRoot(recs, root, j, k - 1);
    } else {
      assert a == Some(root);
    }
  }

  /** In the usual case, with unique ids, one span without parent id, every other parent id present and no
      circle, the tree spans the list. */
  lemma {:induction false} UsualCaseSpans(recs: seq<Record>, t: Tree)
    requires Root(recs).Some? && IsTreeOf(recs, t) && t.span == Root(recs).value
    requires forall j: nat :: j < |recs| && j != t.span ==>
               recs[j].parentId != "" && exists i: nat :: i < |recs| && recs[i].id == recs[j].parentId
    requires forall j: nat :: j < |recs| ==> Ends(recs, j)
    ensures IsPermutation(Preorder(t), |recs|)
  {
    forall j: nat | j < |recs| && j != t.span
      ensures Parent(recs, j).Some?
    {
      var i: nat :| i < |recs| && recs[i].id == recs[j].parentId;
      LastWithFinds(recs, recs[j].parentId, |recs|, i);
    }
    SpansIff(recs, t);
  }

  lemma {:induction false} LastWithFinds(recs: seq<Record>, id: string, k: nat, i: nat)
    requires i < k <= |recs| && recs[i].id == id
    ensures LastWith(recs, id, k).Some? && LastWith(recs, id, k).value >= i
  {
    if recs[k - 1].id != id {
      LastWithFinds(recs, id, k - 1, i);
    }
  }

  /** With unique ids, the parent is the span whose id is the parent id. */
  lemma ParentIs(recs: seq<Record>, j: nat, p: nat)
    requires j < |recs| && p < |recs| && recs[j].parentId != ""
    requires forall a, b :: 0 <= a < b < |recs| ==> recs[a].id != recs[b].id
    ensures Parent(recs, j) == Some(p) <==> recs[p].id == recs[j].parentId
  {
    if recs[p].id == recs[j].parentId {
      LastWithFinds(recs, recs[j].parentId, |recs|, p);
    }
  }

  lemma {:induction false} RootAmongIff(recs: seq<Record>, k: nat, i: nat)
    requires k <= |recs|
    ensures RootAmong(recs, k) == Some(i) <==>
            i < k && recs[i].parentId == "" && forall j :: i < j < k ==> recs[j].parentId != ""
  {
    if k > 0 {
      RootAmongIff(recs, k - 1, i);
    }
  }

  /** The root is the last span without a parent id. */
  lemma RootIff(recs: seq<Record>, i: nat)
    ensures Root(recs) == Some(i) <==>
            i < |recs| && recs[i].parentId == "" && forall j :: i < j < |recs| ==> recs[j].parentId != ""
  {
    RootAmongIff(recs, |recs|, i);
  }

  lemma {:induction false} LastWithIff(recs: seq<Record>, id: string, k: nat, i: nat)
    requires k <= |recs|
    ensures LastWith(recs, id, k) == Some(i) <==> i < k && recs[i].id == id && forall m :: i < m < k ==> recs[m].id != id
  {
    if k > 0 {
      LastWithIff(recs, id, k - 1, i);
    }
  }

  /** The parent of a span is the last one whose id is its parent id, if that is not empty. */
  lemma ParentIff(recs: seq<Record>, j: nat, i: nat)
    requires j < |recs|
    ensures Parent(recs, j) == Some(i) <==>
            && recs[j].parentId != "" && i < |recs| && recs[i].id == recs[j].parentId
            && forall m :: i < m < |recs| ==> recs[m].id != recs[j].parentId
  {
    hide LastWith;
    LastWithIff(recs, recs[j].parentId, |recs|, i);
  }
}
