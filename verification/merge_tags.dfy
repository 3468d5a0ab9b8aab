/** `mergeConsecutiveHTMLTags`: before the editor imports converted HTML, runs of sibling
    `STRONG`, `SPAN` or `I` elements that hold only text are joined into one element. The DOM is
    an immutable tree here, and the in-place walk becomes a rewrite returning the new tree. */
module MergeTags {

  /** A DOM node: a text node, or an element with its attributes (by name) and child nodes. */
  datatype Node = Text(data: string) | Elem(tag: string, attrs: map<string, string>, kids: seq<Node>)

  const MergeableTags: seq<string> := ["STRONG", "SPAN", "I"]

  /** `children.length === 0`: no element children, though there may be text. */
  predicate IsLeaf(n: Node) {
    n.Elem? && forall k :: k in n.kids ==> k.Text?
  }

  /** `textContent`: the text of every text node below, in document order. */
  function TextContent(n: Node): string {
    match n
    case Text(s) => s
    case Elem(_, _, kids) => TextAll(kids)
  }

  function TextAll(ns: seq<Node>): string {
    if |ns| == 0 then "" else TextContent(ns[0]) + TextAll(ns[1..])
  }

  /** The number of elements in a tree, the measure every merge decreases. */
  function Elements(n: Node): nat {
    match n
    case Text(_) => 0
    case Elem(_, _, kids) => 1 + ElementsAll(kids)
  }

  function ElementsAll(ns: seq<Node>): nat {
    if |ns| == 0 then 0 else Elements(ns[0]) + ElementsAll(ns[1..])
  }

  lemma {:induction false} TextAllAppend(a: seq<Node>, b: seq<Node>)
    ensures TextAll(a + b) == TextAll(a) + TextAll(b)
  {
    if |a| == 0 {
      assert a + b == b;
    } else {
      assert (a + b)[1..] == a[1..] + b;
      TextAllAppend(a[1..], b);
    }
  }

  lemma {:induction false} ElementsAllAppend(a: seq<Node>, b: seq<Node>)
    ensures ElementsAll(a + b) == ElementsAll(a) + ElementsAll(b)
  {
    if |a| == 0 {
      assert a + b == b;
    } else {
      assert (a + b)[1..] == a[1..] + b;
      ElementsAllAppend(a[1..], b);
    }
  }

  lemma {:induction false} NoElementsInText(ns: seq<Node>)
    requires forall k :: k in ns ==> k.Text?
    ensures ElementsAll(ns) == 0
  {
    if |ns| > 0 {
      assert ns[0] in ns;
      NoElementsInText(ns[1..]);
    }
  }

  /** Replacing one node changes the counts and the text only at its place. */
  lemma SplitAt(kids: seq<Node>, i: nat, c: Node)
    requires i < |kids|
    ensures ElementsAll(kids[i := c]) == ElementsAll(kids) - Elements(kids[i]) + Elements(c)
    ensures Elements(kids[i]) <= ElementsAll(kids)
    ensures TextContent(c) == TextContent(kids[i]) ==> TextAll(kids[i := c]) == TextAll(kids)
  {
    assert kids == kids[..i] + [kids[i]] + kids[i + 1..];
    assert kids[i := c] == kids[..i] + [c] + kids[i + 1..];
    ElementsAllAppend(kids[..i] + [kids[i]], kids[i + 1..]);
    ElementsAllAppend(kids[..i], [kids[i]]);
    ElementsAllAppend(kids[..i] + [c], kids[i + 1..]);
    ElementsAllAppend(kids[..i], [c]);
    TextAllAppend(kids[..i] + [kids[i]], kids[i + 1..]);
    TextAllAppend(kids[..i], [kids[i]]);
    TextAllAppend(kids[..i] + [c], kids[i + 1..]);
    TextAllAppend(kids[..i], [c]);
  }

  /** `nextElementSibling`: the first element at or after `from`, or `|kids|` for none. */
  function NextElement(kids: seq<Node>, from: nat): (k: nat)
    requires from <= |kids|
    ensures from <= k <= |kids|
    ensures k < |kids| ==> kids[k].Elem?
    ensures forall m :: from <= m < k ==> kids[m].Text?
    decreases |kids| - from
  {
    if from == |kids| || kids[from].Elem? then from else NextElement(kids, from + 1)
  }

  /** The sibling a leaf at `i` is compared with: the next element sibling as written, or with
      `adjacentOnly` the very next node, provided it is an element. */
  function MergePartner(kids: seq<Node>, i: nat, adjacentOnly: bool): (j: nat)
    requires i < |kids|
    ensures i < j <= |kids|
    ensures j < |kids| ==> kids[j].Elem?
    ensures adjacentOnly && j < |kids| ==> j == i + 1
  {
    if adjacentOnly then (if i + 1 < |kids| && kids[i + 1].Elem? then i + 1 else |kids|)
    else NextElement(kids, i + 1)
  }

  /** `shouldMerge` and the non-empty text test: both leaves, one mergeable tag, both with text. */
  predicate CanMerge(c: Node, s: Node) {
    && IsLeaf(c) && IsLeaf(s)
    && s.tag == c.tag && s.tag in MergeableTags
    && TextContent(c) != "" && TextContent(s) != ""
  }

  function Merged(kids: seq<Node>, i: nat, j: nat): Node
    requires i < j < |kids| && kids[i].Elem?
  {
    Elem(kids[i].tag, kids[i].attrs, [Text(TextContent(kids[i]) + TextContent(kids[j]))])
  }

  /** The merge itself: the leaf's text becomes both texts joined, the sibling is removed. Only
      the tag names are compared, so the leaf keeps its own attributes and the sibling's are
      lost with it. */
  function MergeAt(kids: seq<Node>, i: nat, j: nat): (r: seq<Node>)
    requires i < j < |kids| && CanMerge(kids[i], kids[j])
    ensures |r| == |kids| - 1
    ensures r[i] == Merged(kids, i, j)
    ensures r[i].tag == kids[i].tag && r[i].attrs == kids[i].attrs
    ensures ElementsAll(r) == ElementsAll(kids) - 1
    ensures j == i + 1 ==> TextAll(r) == TextAll(kids)
    ensures r[..i] == kids[..i] && r[i + 1..] == kids[i + 1..j] + kids[j + 1..]
  {
    MergeAccounting(kids, i, j);
    kids[..i] + [Merged(kids, i, j)] + kids[i + 1..j] + kids[j + 1..]
  }

  lemma ElementsAround(a: seq<Node>, x: Node, b: seq<Node>)
    ensures ElementsAll(a + [x] + b) == ElementsAll(a) + Elements(x) + ElementsAll(b)
  {
    ElementsAllAppend(a + [x], b);
    ElementsAllAppend(a, [x]);
  }

  lemma TextAround(a: seq<Node>, x: Node, b: seq<Node>)
    ensures TextAll(a + [x] + b) == TextAll(a) + TextContent(x) + TextAll(b)
  {
    TextAllAppend(a + [x], b);
    TextAllAppend(a, [x]);
    assert [x][1..] == [];
  }

  lemma MergeAccounting(kids: seq<Node>, i: nat, j: nat)
    requires i < j < |kids| && CanMerge(kids[i], kids[j])
    ensures var r := kids[..i] + [Merged(kids, i, j)] + kids[i + 1..j] + kids[j + 1..];
            && ElementsAll(r) == ElementsAll(kids) - 1
            && (j == i + 1 ==> TextAll(r) == TextAll(kids))
  {
    var front, between, back := kids[..i], kids[i + 1..j], kids[j + 1..];
    var merged := Merged(kids, i, j);
    assert kids == (front + [kids[i]] + between) + [kids[j]] + back;
    NoElementsInText(kids[i].kids);
    NoElementsInText(kids[j].kids);
    NoElementsInText(merged.kids);
    ElementsAround(front + [kids[i]] + between, kids[j], back);
    ElementsAround(front, kids[i], between);
    ElementsAllAppend(front + [merged] + between, back);
    ElementsAround(front, merged, between);
    if j == i + 1 {
      assert between == [] && back == kids[i + 2..];
      assert front + [merged] + between + back == front + [merged] + back;
      MergeAccountingText(kids, i);
    }
  }

  lemma MergeAccountingText(kids: seq<Node>, i: nat)
    requires i + 1 < |kids| && kids[i].Elem?
    ensures TextAll(kids[..i] + [Merged(kids, i, i + 1)] + kids[i + 2..]) == TextAll(kids)
  {
    Decompose(kids, i);
    MergedText(kids, i, i + 1);
    JoinText(kids[..i], kids[i], kids[i + 1], kids[i + 2..], Merged(kids, i, i + 1));
  }

  lemma Decompose(kids: seq<Node>, i: nat)
    requires i + 1 < |kids|
    ensures kids == kids[..i] + [kids[i]] + ([kids[i + 1]] + kids[i + 2..])
  {
  }

  /** Putting one node in place of two neighbours with the same text joined keeps the text. */
  lemma JoinText(front: seq<Node>, x: Node, y: Node, back: seq<Node>, m: Node)
    requires TextContent(m) == TextContent(x) + TextContent(y)
    ensures TextAll(front + [m] + back) == TextAll(front + [x] + ([y] + back))
  {
    var tail := [y] + back;
    TextAround(front, x, tail);
    assert tail[0] == y && tail[1..] == back;
    TextAround(front, m, back);
  }

  lemma MergedText(kids: seq<Node>, i: nat, j: nat)
    requires i < j < |kids| && kids[i].Elem?
    ensures TextContent(Merged(kids, i, j)) == TextContent(kids[i]) + TextContent(kids[j])
  {
    var t := TextContent(kids[i]) + TextContent(kids[j]);
    assert Merged(kids, i, j).kids == [Text(t)];
    assert [Text(t)][1..] == [];
    assert TextAll([Text(t)]) == t + TextAll([]);
    assert t + "" == t;
  }

  /** The walk over an element that has element children: each child is visited in turn; a
      leaf that merged is visited again, any other child is rewritten below and left behind. */
  function ProcessElem(n: Node, adjacentOnly: bool): (r: Node)
    requires n.Elem?
    ensures r.Elem? && r.tag == n.tag && r.attrs == n.attrs
    ensures Elements(r) <= Elements(n)
    ensures adjacentOnly ==> TextContent(r) == TextContent(n)
    ensures IsLeaf(n) ==> r == n
    decreases Elements(n), 0, 0
  {
    if IsLeaf(n) then n
    else Elem(n.tag, n.attrs, ProcessKids(n.kids, NextElement(n.kids, 0), adjacentOnly))
  }

  function ProcessKids(kids: seq<Node>, i: nat, adjacentOnly: bool): (r: seq<Node>)
    requires i <= |kids| && (i < |kids| ==> kids[i].Elem?)
    ensures ElementsAll(r) <= ElementsAll(kids)
    ensures adjacentOnly ==> TextAll(r) == TextAll(kids)
    decreases ElementsAll(kids), 1, |kids| - i
  {
    if i == |kids| then kids
    else if IsLeaf(kids[i]) then
      var j := MergePartner(kids, i, adjacentOnly);
      if j < |kids| && CanMerge(kids[i], kids[j]) then ProcessKids(MergeAt(kids, i, j), i, adjacentOnly)
      else ProcessKids(kids, NextElement(kids, i + 1), adjacentOnly)
    else
      SplitAt(kids, i, kids[i]);
      var c := ProcessElem(kids[i], adjacentOnly);
      SplitAt(kids, i, c);
      ProcessKids(kids[i := c], NextElement(kids[i := c], i + 1), adjacentOnly)
  }

  /** `mergeConsecutiveHTMLTags(dom.body)` as written: the body keeps its tag, loses elements
      only, and is returned unchanged when it holds no element. */
  function MergeConsecutiveTagsAsWritten(root: Node): (r: Node)
    requires root.Elem?
    ensures r.Elem? && r.tag == root.tag && r.attrs == root.attrs
    ensures Elements(r) <= Elements(root)
    ensures IsLeaf(root) ==> r == root
  {
    ProcessElem(root, false)
  }

  /** The merge with only an immediately adjacent sibling element, which cannot move text. */
  function MergeConsecutiveTags(root: Node): (r: Node)
    requires root.Elem?
    ensures r.Elem? && r.tag == root.tag && r.attrs == root.attrs
    ensures TextContent(r) == TextContent(root)
    ensures Elements(r) <= Elements(root)
  {
    ProcessElem(root, true)
  }

  // ---------------------------------------------------------------------------
  // Properties

  /** A run of text-only siblings of one mergeable tag, each with text. */
  predicate IsRun(kids: seq<Node>, tag: string) {
    && |kids| >= 1
    && tag in MergeableTags
    && forall k :: 0 <= k < |kids| ==> IsLeaf(kids[k]) && kids[k].tag == tag && TextContent(kids[k]) != ""
  }

  /** A run collapses into one element holding the whole run's text, in either version. */
  lemma {:induction false} RunCollapses(kids: seq<Node>, tag: string, adjacentOnly: bool)
    requires IsRun(kids, tag)
    ensures var r := ProcessKids(kids, 0, adjacentOnly);
            |r| == 1 && IsLeaf(r[0]) && r[0].tag == tag && TextContent(r[0]) == TextAll(kids)
    decreases |kids|
  {
    if |kids| == 1 {
      assert NextElement(kids, 1) == 1;
      assert MergePartner(kids, 0, adjacentOnly) == 1;
      assert ProcessKids(kids, 0, adjacentOnly) == ProcessKids(kids, 1, adjacentOnly);
      assert kids[1..] == [];
    } else {
      assert kids[1].Elem?;
      assert MergePartner(kids, 0, adjacentOnly) == 1;
      assert CanMerge(kids[0], kids[1]);
      var next := MergeAt(kids, 0, 1);
      assert next[1..] == kids[2..];
      var merged := Merged(kids, 0, 1);
      assert next[0] == merged;
      assert TextAll(merged.kids) == TextContent(kids[0]) + TextContent(kids[1]);
      assert IsLeaf(merged);
      assert forall k :: 1 <= k < |next| ==> next[k] == kids[k + 1];
      assert IsRun(next, tag);
      RunCollapses(next, tag, adjacentOnly);
    }
  }

  /** Where no leaf can merge with the node right after it, the corrected walk changes
      nothing: a leaf that is not merged stays as it is. */
  lemma {:induction false} NothingToMergeUnchanged(kids: seq<Node>, i: nat)
    requires i <= |kids| && (i < |kids| ==> kids[i].Elem?)
    requires forall k :: 0 <= k < |kids| && kids[k].Elem? ==> IsLeaf(kids[k])
    requires forall k :: 0 <= k < |kids| - 1 ==> !CanMerge(kids[k], kids[k + 1])
    ensures ProcessKids(kids, i, true) == kids
    decreases |kids| - i
  {
    if i < |kids| {
      var j := MergePartner(kids, i, true);
      NothingToMergeUnchanged(kids, NextElement(kids, i + 1));
    }
  }

  /** Bold text either side of a space. */
  function SpacedBold(): Node {
    Elem("BODY", map[], [Elem("STRONG", map[], [Text("a")]), Text(" "), Elem("STRONG", map[], [Text("b")])])
  }

  /** As written, the second element is found past the space and merged, so the space moves to
      the end and the text reads "ab " instead of "a b". */
  lemma SpacedBoldReordered()
    ensures MergeConsecutiveTagsAsWritten(SpacedBold()) ==
              Elem("BODY", map[], [Elem("STRONG", map[], [Text("ab")]), Text(" ")])
    ensures TextContent(SpacedBold()) == "a b"
    ensures TextContent(MergeConsecutiveTagsAsWritten(SpacedBold())) == "ab "
  {
    var kids := SpacedBold().kids;
    assert !IsLeaf(SpacedBold()) by {
      assert kids[0] in SpacedBold().kids;
    }
    assert NextElement(kids, 0) == 0;
    SpacedBoldFirstMerge();
    var next := [Elem("STRONG", map[], [Text("ab")]), Text(" ")];
    assert NextElement(next, 1) == 2;
    assert MergePartner(next, 0, false) == 2;
    assert ProcessKids(next, 0, false) == ProcessKids(next, 2, false);
    SpacedBoldTexts();
  }

  /** The leaf "a" is compared with the element "b" past the space, and the two are merged. */
  lemma SpacedBoldFirstMerge()
    ensures var kids := SpacedBold().kids;
            && IsLeaf(kids[0]) && MergePartner(kids, 0, false) == 2 && CanMerge(kids[0], kids[2])
            && MergeAt(kids, 0, 2) == [Elem("STRONG", map[], [Text("ab")]), Text(" ")]
  {
    var kids := SpacedBold().kids;
    assert TextContent(kids[0]) == "a" by {
      assert kids[0].kids[1..] == [];
    }
    assert TextContent(kids[2]) == "b" by {
      assert kids[2].kids[1..] == [];
    }
    assert NextElement(kids, 1) == 2;
    assert "a" + "b" == "ab";
    assert Merged(kids, 0, 2) == Elem("STRONG", map[], [Text("ab")]);
    assert kids[1..2] == [Text(" ")] && kids[3..] == [];
  }

  lemma SpacedBoldTexts()
    ensures TextAll(SpacedBold().kids) == "a b"
    ensures TextAll([Elem("STRONG", map[], [Text("ab")]), Text(" ")]) == "ab "
  {
    var next := [Elem("STRONG", map[], [Text("ab")]), Text(" ")];
    assert TextContent(next[0]) == "ab" by {
      assert next[0].kids[1..] == [];
    }
    assert next[1..][1..] == [];
    var kids := SpacedBold().kids;
    assert kids[1..][1..][1..] == [];
    assert kids[0].kids[1..] == [] && kids[2].kids[1..] == [];
  }

  /** The corrected walk leaves the same tree alone: the node after the first element is the
      space. */
  lemma SpacedBoldKept()
    ensures MergeConsecutiveTags(SpacedBold()) == SpacedBold()
  {
    var kids := SpacedBold().kids;
    assert !IsLeaf(SpacedBold()) by {
      assert kids[0] in SpacedBold().kids;
    }
    assert NextElement(kids, 0) == 0;
    assert forall k :: 0 <= k < |kids| && kids[k].Elem? ==> IsLeaf(kids[k]);
    NothingToMergeUnchanged(kids, 0);
  }

  /** Two adjacent spans with different classes. */
  function ClassedSpans(): Node {
    Elem("BODY", map[], [Elem("SPAN", map["class" := "a"], [Text("x")]), Elem("SPAN", map["class" := "b"], [Text("y")])])
  }

  /** Both walks merge the two spans into the first: "y" now carries class "a", and class "b"
      is gone from the tree. */
  lemma ClassedSpansLoseSecondClass()
    ensures MergeConsecutiveTagsAsWritten(ClassedSpans()) ==
              Elem("BODY", map[], [Elem("SPAN", map["class" := "a"], [Text("xy")])])
    ensures MergeConsecutiveTags(ClassedSpans()) == MergeConsecutiveTagsAsWritten(ClassedSpans())
  {
    var kids := ClassedSpans().kids;
    assert !IsLeaf(ClassedSpans()) by {
      assert kids[0] in ClassedSpans().kids;
    }
    assert NextElement(kids, 0) == 0;
    assert TextContent(kids[0]) == "x" by {
      assert kids[0].kids[1..] == [];
    }
    assert TextContent(kids[1]) == "y" by {
      assert kids[1].kids[1..] == [];
    }
    assert "x" + "y" == "xy";
    var merged := [Elem("SPAN", map["class" := "a"], [Text("xy")])];
    assert MergeAt(kids, 0, 1) == merged by {
      assert kids[1..1] == [] && kids[2..] == [];
    }
    assert NextElement(merged, 1) == 1;
    forall adjacentOnly: bool
      ensures ProcessKids(kids, 0, adjacentOnly) == merged
    {
      assert MergePartner(kids, 0, adjacentOnly) == 1;
      assert MergePartner(merged, 0, adjacentOnly) == 1;
      assert ProcessKids(merged, 0, adjacentOnly) == ProcessKids(merged, 1, adjacentOnly);
    }
  }
}
