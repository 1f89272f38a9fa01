/** The text that stands for the shape of a subtree: one line a span, indented by depth, with the service and
    the operation. What it says about the tree depends on the characters in those labels. */
module SubtreeStructure {
  import opened Options
  import opened SpanTree
  import opened Text

  const STEP := "  "

  function Label(t: Span): string { t.info.serviceName + ":" + t.info.operation }

  function Print(t: Span, indent: string): string {
    indent + Label(t) + (if t.children != [] then "[\n" + PrintAll(t.children, indent + STEP) + indent + "]" else "") + "\n"
  }

  function PrintAll(ts: seq<Span>, indent: string): string {
    if ts == [] then "" else Print(ts[0], indent) + PrintAll(ts[1..], indent)
  }

  lemma {:induction false} PrintAllSnoc(ts: seq<Span>, t: Span, indent: string)
    ensures PrintAll(ts + [t], indent) == PrintAll(ts, indent) + Print(t, indent)
  {
    if ts == [] {
      assert ts + [t] == [t] && [t][1..] == [];
      assert Print(t, indent) + "" == Print(t, indent);
    } else {
      PrintAllSnoc(ts[1..], t, indent);
      assert (ts + [t])[1..] == ts[1..] + [t] && (ts + [t])[0] == ts[0];
      assert Print(ts[0], indent) + (PrintAll(ts[1..], indent) + Print(t, indent)) ==
             (Print(ts[0], indent) + PrintAll(ts[1..], indent)) + Print(t, indent);
    }
  }

  /** Nothing that can be taken for the end of a label: no bracket and no newline in it. */
  predicate Clean(t: Span) {
    && '[' !in Label(t) && '\n' !in Label(t)
    && forall kid <- t.children :: Clean(kid)
  }

  /** Services end at their colon, and operations cannot be taken for the end of a label. */
  predicate Plain(t: Span) {
    && ':' !in t.info.serviceName && '[' !in t.info.operation && '\n' !in t.info.operation
    && forall kid <- t.children :: Plain(kid)
  }

  /** The same tree of labels. */
  predicate SameLabels(t: Span, u: Span) {
    && Label(t) == Label(u) && |t.children| == |u.children|
    && forall i :: 0 <= i < |t.children| ==> SameLabels(t.children[i], u.children[i])
  }

  /** The same tree of services and operations. */
  predicate SameShape(t: Span, u: Span) {
    && t.info.serviceName == u.info.serviceName && t.info.operation == u.info.operation
    && |t.children| == |u.children|
    && forall i :: 0 <= i < |t.children| ==> SameShape(t.children[i], u.children[i])
  }

  // ---------- reading the text back ----------

  /** What follows the operation: the delimiter and the rest. */
  function Tail(t: Span, indent: string): string {
    if t.children != [] then "\n" + PrintAll(t.children, indent + STEP) + indent + "]\n" else ""
  }

  function Delimiter(t: Span): char { if t.children != [] then '[' else '\n' }

  lemma PrintParts(t: Span, indent: string, x: string)
    ensures Print(t, indent) + x ==
            indent + (t.info.serviceName + [':'] + (t.info.operation + [Delimiter(t)] + (Tail(t, indent) + x)))
  {
    hide PrintAll;
    var s, o := t.info.serviceName, t.info.operation;
    if t.children != [] {
      var kids := PrintAll(t.children, indent + STEP);
      assert Print(t, indent) == indent + (s + ":" + o) + ("[\n" + kids + indent + "]") + "\n";
      assert "[\n" == ['['] + "\n" && "]\n" == "]" + "\n";
      assert Tail(t, indent) == "\n" + kids + indent + "]\n";
      assert Print(t, indent) + x == indent + (s + [':'] + (o + ['['] + ("\n" + kids + indent + "]\n" + x)));
    } else {
      assert Print(t, indent) == indent + (s + ":" + o) + "" + "\n";
    }
  }

  lemma TailParts(t: Span, indent: string, x: string)
    requires t.children != []
    ensures Tail(t, indent) + x == "\n" + (PrintAll(t.children, indent + STEP) + (indent + ("]\n" + x)))
  {
    hide PrintAll;
    var kids := PrintAll(t.children, indent + STEP);
    assert Tail(t, indent) == "\n" + kids + indent + "]\n";
  }

  /** Both trees of one kind: the text can be read back. */
  predicate Readable(t: Span, u: Span) { (Clean(t) && Clean(u)) || (Plain(t) && Plain(u)) }

  predicate AllReadable(ts: seq<Span>, us: seq<Span>) {
    || ((forall t <- ts :: Clean(t)) && forall u <- us :: Clean(u))
    || ((forall t <- ts :: Plain(t)) && forall u <- us :: Plain(u))
  }

  /** The label and its delimiter are read off first. */
  lemma LabelReads(t: Span, u: Span, indent: string, x: string, y: string)
    requires Readable(t, u) && Print(t, indent) + x == Print(u, indent) + y
    ensures Label(t) == Label(u) && Delimiter(t) == Delimiter(u) && Tail(t, indent) + x == Tail(u, indent) + y
  {
    hide Print, PrintAll, Tail;
    PrintParts(t, indent, x);
    PrintParts(u, indent, y);
    var restT, restU := Tail(t, indent) + x, Tail(u, indent) + y;
    var afterT := t.info.operation + [Delimiter(t)] + restT;
    var afterU := u.info.operation + [Delimiter(u)] + restU;
    CutPrefix(indent, t.info.serviceName + [':'] + afterT, u.info.serviceName + [':'] + afterU);
    if Clean(t) && Clean(u) {
      assert t.info.serviceName + [':'] + afterT == Label(t) + [Delimiter(t)] + restT;
      assert u.info.serviceName + [':'] + afterU == Label(u) + [Delimiter(u)] + restU;
      CutAtEither('[', '\n', Label(t), Delimiter(t), restT, Label(u), Delimiter(u), restU);
    } else {
      CutAt(':', t.info.serviceName, afterT, u.info.serviceName, afterU);
      CutAtEither('[', '\n', t.info.operation, Delimiter(t), restT, u.info.operation, Delimiter(u), restU);
    }
  }

  /** A printed tree can be told apart from whatever follows it, and its labels can be read off. */
  lemma {:induction false} PrintReads(t: Span, u: Span, indent: string, x: string, y: string)
    requires Readable(t, u) && Print(t, indent) + x == Print(u, indent) + y
    ensures SameLabels(t, u) && x == y
    decreases t, 0
  {
    hide Print, PrintAll, Tail, Label;
    LabelReads(t, u, indent, x, y);
    TailReads(t, u, indent, x, y);
  }

  lemma {:induction false} TailReads(t: Span, u: Span, indent: string, x: string, y: string)
    requires Readable(t, u) && Delimiter(t) == Delimiter(u)
    requires Tail(t, indent) + x == Tail(u, indent) + y
    ensures |t.children| == |u.children| && x == y
    ensures forall i :: 0 <= i < |t.children| ==> SameLabels(t.children[i], u.children[i])
    decreases t.children, 2
  {
    hide Print, PrintAll;
    if t.children != [] {
      TailParts(t, indent, x);
      TailParts(u, indent, y);
      CutPrefix("\n", PrintAll(t.children, indent + STEP) + (indent + ("]\n" + x)),
                PrintAll(u.children, indent + STEP) + (indent + ("]\n" + y)));
      PrintAllReads(t.children, u.children, indent, x, y);
    } else {
      assert Tail(t, indent) + x == x && Tail(u, indent) + y == y;
    }
  }

  /** A further child is indented deeper than the closing bracket. */
  lemma NextChar(ts: seq<Span>, indent: string, x: string)
    ensures var text := PrintAll(ts, indent + STEP) + (indent + ("]\n" + x));
            |text| > |indent| && text[|indent|] == if ts == [] then ']' else ' '
  {
    hide Print;
    var text := PrintAll(ts, indent + STEP) + (indent + ("]\n" + x));
    if ts == [] {
      assert text == indent + ("]\n" + x);
    } else {
      var more := PrintAll(ts[1..], indent + STEP) + (indent + ("]\n" + x));
      assert text == Print(ts[0], indent + STEP) + more;
      PrintParts(ts[0], indent + STEP, more);
      assert (indent + STEP)[|indent|] == STEP[0];
    }
  }

  lemma {:induction false} PrintAllReads(ts: seq<Span>, us: seq<Span>, indent: string, x: string, y: string)
    requires AllReadable(ts, us)
    requires PrintAll(ts, indent + STEP) + (indent + ("]\n" + x)) == PrintAll(us, indent + STEP) + (indent + ("]\n" + y))
    ensures |ts| == |us| && x == y
    ensures forall i :: 0 <= i < |ts| ==> SameLabels(ts[i], us[i])
    decreases ts, 1
  {
    hide Print;
    var endX, endY := indent + ("]\n" + x), indent + ("]\n" + y);
    NextChar(ts, indent, x);
    NextChar(us, indent, y);
    if ts == [] {
      assert "" + endX == endX && "" + endY == endY;
      CutPrefix(indent, "]\n" + x, "]\n" + y);
      CutPrefix("]\n", x, y);
    } else {
      var restX, restY := PrintAll(ts[1..], indent + STEP) + endX, PrintAll(us[1..], indent + STEP) + endY;
      assert (Print(ts[0], indent + STEP) + PrintAll(ts[1..], indent + STEP)) + endX == Print(ts[0], indent + STEP) + restX;
      assert (Print(us[0], indent + STEP) + PrintAll(us[1..], indent + STEP)) + endY == Print(us[0], indent + STEP) + restY;
      PrintReads(ts[0], us[0], indent + STEP, restX, restY);
      PrintAllReads(ts[1..], us[1..], indent, x, y);
      forall i | 0 <= i < |ts|
        ensures SameLabels(ts[i], us[i])
      {
        if i > 0 {
          assert ts[i] == ts[1..][i - 1] && us[i] == us[1..][i - 1];
        }
      }
    }
  }

  lemma {:induction false} SameLabelsPrint(t: Span, u: Span, indent: string)
    requires SameLabels(t, u)
    ensures Print(t, indent) == Print(u, indent)
    decreases t
  {
    hide Label;
    SameLabelsPrintAll(t.children, u.children, indent + STEP);
  }

  lemma {:induction false} SameLabelsPrintAll(ts: seq<Span>, us: seq<Span>, indent: string)
    requires |ts| == |us| && forall i :: 0 <= i < |ts| ==> SameLabels(ts[i], us[i])
    ensures PrintAll(ts, indent) == PrintAll(us, indent)
    decreases ts
  {
    if ts != [] {
      SameLabelsPrint(ts[0], us[0], indent);
      SameLabelsPrintAll(ts[1..], us[1..], indent);
    }
  }

  /** Trees of one kind have the same text exactly when they are the same tree of labels. */
  lemma PrintSaysLabels(t: Span, u: Span)
    requires Readable(t, u)
    ensures Print(t, "") == Print(u, "") <==> SameLabels(t, u)
  {
    hide Print, SameLabels, Readable;
    if Print(t, "") == Print(u, "") {
      assert Print(t, "") + "" == Print(u, "") + "";
      PrintReads(t, u, "", "", "");
    }
    if SameLabels(t, u) {
      SameLabelsPrint(t, u, "");
    }
  }

  // ---------- from labels to services and operations ----------

  lemma {:induction false} SameShapeSameLabels(t: Span, u: Span)
    requires SameShape(t, u)
    ensures SameLabels(t, u)
    decreases t
  {
    forall i | 0 <= i < |t.children|
      ensures SameLabels(t.children[i], u.children[i])
    {
      SameShapeSameLabels(t.children[i], u.children[i]);
    }
  }

  lemma {:induction false} PlainLabelsSplit(t: Span, u: Span)
    requires Plain(t) && Plain(u) && SameLabels(t, u)
    ensures SameShape(t, u)
    decreases t
  {
    CutAt(':', t.info.serviceName, t.info.operation, u.info.serviceName, u.info.operation);
    forall i | 0 <= i < |t.children|
      ensures SameShape(t.children[i], u.children[i])
    {
      assert t.children[i] in t.children && u.children[i] in u.children;
      PlainLabelsSplit(t.children[i], u.children[i]);
    }
  }

  /** For services without colons and operations without brackets and newlines, the text says exactly the tree of
      services and operations. */
  lemma PrintSaysShape(t: Span, u: Span)
    requires Plain(t) && Plain(u)
    ensures Print(t, "") == Print(u, "") <==> SameShape(t, u)
  {
    hide Print, SameLabels, SameShape, Plain;
    PrintSaysLabels(t, u);
    if SameShape(t, u) {
      SameShapeSameLabels(t, u);
    }
    if SameLabels(t, u) {
      PlainLabelsSplit(t, u);
    }
  }

  /** No colon anywhere but between a service and its operation. */
  predicate NoColons(t: Span) {
    && ':' !in t.info.serviceName && ':' !in t.info.operation
    && forall kid <- t.children :: NoColons(kid)
  }

  /** A label with one colon is split there. */
  lemma OneColonSplits(s: string, o: string, s': string, o': string)
    requires ':' !in s && ':' !in o && s + ":" + o == s' + ":" + o'
    ensures s == s' && o == o'
  {
    var w, w' := s + ":" + o, s' + ":" + o';
    assert w'[|s'|] == ':';
    assert forall i :: 0 <= i < |w| && i != |s| ==> w[i] in s || w[i] in o;
    assert |s'| == |s|;
    assert s == w[..|s|] && s' == w'[..|s'|];
    assert o == w[|s| + 1..] && o' == w'[|s'| + 1..];
  }

  lemma {:induction false} NoColonsSplit(t: Span, u: Span)
    requires NoColons(t) && SameLabels(t, u)
    ensures SameShape(t, u)
    decreases t
  {
    OneColonSplits(t.info.serviceName, t.info.operation, u.info.serviceName, u.info.operation);
    forall i | 0 <= i < |t.children|
      ensures SameShape(t.children[i], u.children[i])
    {
      assert t.children[i] in t.children;
      NoColonsSplit(t.children[i], u.children[i]);
    }
  }

  /** Another way to split a label that has a further colon. */
  lemma SplitElsewhere(s: string, o: string) returns (s': string, o': string)
    requires ':' in s || ':' in o
    ensures s' + ":" + o' == s + ":" + o && s' != s
  {
    if ':' in s {
      var k :| 0 <= k < |s| && s[k] == ':';
      s', o' := s[..k], s[k + 1..] + ":" + o;
      assert s == s' + ":" + s[k + 1..];
      assert |s'| < |s|;
    } else {
      var k :| 0 <= k < |o| && o[k] == ':';
      s', o' := s + ":" + o[..k], o[k + 1..];
      assert o == o[..k] + ":" + o';
      assert |s'| > |s|;
    }
  }

  /** A tree with a further colon in it has a companion with the same labels that are split differently. */
  lemma {:induction false} OtherSplit(t: Span) returns (u: Span)
    requires !NoColons(t)
    ensures SameLabels(t, u) && !SameShape(t, u)
    decreases t
  {
    if ':' in t.info.serviceName || ':' in t.info.operation {
      var s, o := SplitElsewhere(t.info.serviceName, t.info.operation);
      u := t.(info := t.info.(serviceName := s, operation := o));
      forall i | 0 <= i < |t.children|
        ensures SameLabels(t.children[i], u.children[i])
      {
        SameLabelsSelf(t.children[i]);
      }
    } else {
      var i :| 0 <= i < |t.children| && !NoColons(t.children[i]);
      var kid := OtherSplit(t.children[i]);
      u := t.(children := t.children[i := kid]);
      forall j | 0 <= j < |t.children|
        ensures SameLabels(t.children[j], u.children[j])
      {
        SameLabelsSelf(t.children[j]);
      }
      assert !SameShape(t.children[i], u.children[i]);
    }
  }

  lemma {:induction false} SameLabelsSelf(t: Span)
    ensures SameLabels(t, t)
    decreases t
  {
    forall i | 0 <= i < |t.children|
      ensures SameLabels(t.children[i], t.children[i])
    {
      SameLabelsSelf(t.children[i]);
    }
  }

  lemma {:induction false} SameLabelsClean(t: Span, u: Span)
    requires SameLabels(t, u) && Clean(t)
    ensures Clean(u)
    decreases t
  {
    forall kid | kid in u.children
      ensures Clean(kid)
    {
      var i :| 0 <= i < |u.children| && u.children[i] == kid;
      assert t.children[i] in t.children;
      SameLabelsClean(t.children[i], kid);
    }
  }

  /** Exactly when the text identifies a tree: among trees without brackets and newlines in their services and
      operations, all that have its text have its shape if and only if it has no further colons. */
  lemma OnlyShapeIff(t: Span)
    requires Clean(t)
    ensures (forall u: Span :: Clean(u) && Print(u, "") == Print(t, "") ==> SameShape(t, u)) <==> NoColons(t)
  {
    hide Print, SameLabels, SameShape, NoColons, Clean;
    if NoColons(t) {
      forall u: Span | Clean(u) && Print(u, "") == Print(t, "")
        ensures SameShape(t, u)
      {
        PrintSaysLabels(t, u);
        NoColonsSplit(t, u);
      }
    } else {
      var u := OtherSplit(t);
      SameLabelsClean(t, u);
      PrintSaysLabels(t, u);
    }
  }

  // ---------- different trees with one text ----------

  /** An operation that contains a bracket can print like a tree. */
  lemma BracketNotInjective(info: Info)
    ensures exists t, u :: Print(t, "") == Print(u, "") && !SameShape(t, u) && '[' in t.info.operation
  {
    var kid := Span(info.(serviceName := "", operation := ""), None, []);
    var tree := Span(kid.info, None, [kid]);
    var leaf := Span(info.(serviceName := "", operation := "[\n  :\n]"), None, []);
    assert Print(kid, "" + STEP) == "  :\n";
    assert PrintAll([kid], "" + STEP) == "  :\n" by {
      assert [kid][1..] == [];
    }
    assert Print(tree, "") == ":[\n  :\n]\n";
    assert Print(leaf, "") == ":[\n  :\n]\n";
    assert '[' == leaf.info.operation[0];
    assert !SameShape(leaf, tree);
  }

  /** A service that contains a colon can take over a part of the operation. */
  lemma ColonNotInjective(info: Info)
    ensures exists t, u :: Print(t, "") == Print(u, "") && !SameShape(t, u) && ':' in t.info.serviceName
  {
    var one := Span(info.(serviceName := "a:b", operation := "c"), None, []);
    var two := Span(info.(serviceName := "a", operation := "b:c"), None, []);
    assert Print(one, "") == "a:b:c\n" == Print(two, "");
    assert ':' == one.info.serviceName[1] && !SameShape(one, two) by {
      assert |one.info.serviceName| == 3 && |two.info.serviceName| == 1;
    }
  }

  /** A newline in an operation can pretend that there is a second child. */
  lemma NewlineNotInjective(info: Info)
    ensures exists t, u :: Print(t, "") == Print(u, "") && !SameShape(t, u) && t.children != [] && '\n' in t.children[0].info.operation
  {
    var kid := Span(info.(serviceName := "", operation := ""), None, []);
    var odd := Span(info.(serviceName := "", operation := "\n  :"), None, []);
    var one, two := Span(kid.info, None, [odd]), Span(kid.info, None, [kid, kid]);
    assert Print(kid, "" + STEP) == "  :\n" && Print(odd, "" + STEP) == "  :\n  :\n";
    assert PrintAll([odd], "" + STEP) == "  :\n  :\n" by {
      assert [odd][1..] == [];
    }
    assert PrintAll([kid, kid], "" + STEP) == "  :\n  :\n" by {
      assert [kid, kid][1..] == [kid] && [kid][1..] == [];
    }
    assert Print(one, "") == ":[\n  :\n  :\n]\n" == Print(two, "");
    assert odd.info.operation[0] == '\n' && !SameShape(one, two);
  }
}
