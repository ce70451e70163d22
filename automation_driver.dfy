/**
 * The UI tree and process tree of the automation driver: depth-first search from the front and from
 * the back, sibling navigation through the parent's child list, conversion of a node to a JSON value,
 * and the flattening of the windows of a process tree.
 */
module AutomationDriver {
  import opened Wrappers
  import opened Seqs

  datatype Point = Point(x: int, y: int)
  datatype Rect = Rect(topLeft: Point, bottomRight: Point)

  /** The JSON values `toJson` builds (numbers are integers here). */
  datatype Json = JNum(n: int) | JStr(s: string) | JUndefined | JArr(items: seq<Json>) | JObj(fields: seq<Field>)
  datatype Field = Field(key: string, value: Json)

  /**
   * A UI element: id, control type, optional text and bounding rectangle, the extra properties,
   * and the children in order. The parent link is not a field: navigation takes the parent as an argument.
   */
  datatype UINode = UINode(id: string, nodeType: string, text: Option<string>, rect: Option<Rect>,
                           props: seq<Field>, children: seq<UINode>)

  // ---------------------------------------------------------------- search

  /** `find`: the node itself if it matches, otherwise the first match among the children, left to right. */
  function Find(n: UINode, p: UINode -> bool): Option<UINode>
    decreases n, 1
  {
    if p(n) then Some(n) else FindInChildren(n, 0, p)
  }

  function FindInChildren(n: UINode, i: nat, p: UINode -> bool): Option<UINode>
    requires i <= |n.children|
    decreases n, 0, |n.children| - i
  {
    if i == |n.children| then None
    else
      var r := Find(n.children[i], p);
      if r.Some? then r else FindInChildren(n, i + 1, p)
  }

  /** `findLast`: the node itself if it matches, otherwise the first match among the children, right to left. */
  function FindLast(n: UINode, p: UINode -> bool): Option<UINode>
    decreases n, 1
  {
    if p(n) then Some(n) else FindLastInChildren(n, |n.children|, p)
  }

  function FindLastInChildren(n: UINode, k: nat, p: UINode -> bool): Option<UINode>
    requires k <= |n.children|
    decreases n, 0, k
  {
    if k == 0 then None
    else
      var r := FindLast(n.children[k - 1], p);
      if r.Some? then r else FindLastInChildren(n, k - 1, p)
  }

  /** The nodes of the subtree in pre-order: the node, then each child's subtree from left to right. */
  function PreOrder(n: UINode): seq<UINode>
    decreases n, 1
  {
    [n] + Flatten(ChildOrders(n))
  }

  function ChildOrders(n: UINode): (r: seq<seq<UINode>>)
    ensures |r| == |n.children|
    decreases n, 0
  {
    seq(|n.children|, i requires 0 <= i < |n.children| => PreOrder(n.children[i]))
  }

  /** The nodes of the subtree in mirrored pre-order: the node, then each child's subtree from right to left. */
  function MirrorOrder(n: UINode): seq<UINode>
    decreases n, 1
  {
    [n] + Flatten(MirrorChildOrders(n))
  }

  function MirrorChildOrders(n: UINode): (r: seq<seq<UINode>>)
    ensures |r| == |n.children|
    decreases n, 0
  {
    seq(|n.children|, i requires 0 <= i < |n.children| => MirrorOrder(n.children[|n.children| - 1 - i]))
  }

  /** `find` returns the first matching node of the subtree in pre-order, and nothing when no node matches. */
  lemma {:induction false} FindIsFirstInPreOrder(n: UINode, p: UINode -> bool)
    ensures Find(n, p) == FirstMatch(PreOrder(n), p)
    decreases n, 1
  {
    FirstMatchAppend([n], Flatten(ChildOrders(n)), p);
    assert FirstMatch([n], p) == if p(n) then Some(n) else None;
    assert ChildOrders(n)[0..] == ChildOrders(n);
    FindInChildrenIsFirst(n, 0, p);
  }

  lemma {:induction false} FindInChildrenIsFirst(n: UINode, i: nat, p: UINode -> bool)
    requires i <= |n.children|
    ensures FindInChildren(n, i, p) == FirstMatch(Flatten(ChildOrders(n)[i..]), p)
    decreases n, 0, |n.children| - i
  {
    var rest := ChildOrders(n)[i..];
    if i < |n.children| {
      assert rest[0] == PreOrder(n.children[i]);
      assert rest[1..] == ChildOrders(n)[i + 1..];
      FirstMatchAppend(rest[0], Flatten(rest[1..]), p);
      FindIsFirstInPreOrder(n.children[i], p);
      FindInChildrenIsFirst(n, i + 1, p);
    }
  }

  /** `findLast` returns the first matching node of the subtree in mirrored pre-order: a matching ancestor wins. */
  lemma {:induction false} FindLastIsFirstInMirrorOrder(n: UINode, p: UINode -> bool)
    ensures FindLast(n, p) == FirstMatch(MirrorOrder(n), p)
    decreases n, 1
  {
    FirstMatchAppend([n], Flatten(MirrorChildOrders(n)), p);
    assert FirstMatch([n], p) == if p(n) then Some(n) else None;
    assert MirrorChildOrders(n)[|n.children| - |n.children|..] == MirrorChildOrders(n);
    FindLastInChildrenIsFirst(n, |n.children|, p);
  }

  lemma {:induction false} FindLastInChildrenIsFirst(n: UINode, k: nat, p: UINode -> bool)
    requires k <= |n.children|
    ensures FindLastInChildren(n, k, p) == FirstMatch(Flatten(MirrorChildOrders(n)[|n.children| - k..]), p)
    decreases n, 0, k
  {
    var rest := MirrorChildOrders(n)[|n.children| - k..];
    if k > 0 {
      assert rest[0] == MirrorOrder(n.children[k - 1]);
      assert rest[1..] == MirrorChildOrders(n)[|n.children| - (k - 1)..];
      FirstMatchAppend(rest[0], Flatten(rest[1..]), p);
      FindLastIsFirstInMirrorOrder(n.children[k - 1], p);
      FindLastInChildrenIsFirst(n, k - 1, p);
    }
  }

  /** Both orders visit the same nodes, each as often. */
  lemma {:induction false} SameNodesBothOrders(n: UINode)
    ensures multiset(PreOrder(n)) == multiset(MirrorOrder(n))
    decreases n
  {
    var pre := ChildOrders(n);
    var mir := MirrorChildOrders(n);
    forall i | 0 <= i < |pre|
      ensures multiset(pre[i]) == multiset(mir[|mir| - 1 - i])
    {
      SameNodesBothOrders(n.children[i]);
    }
    FlattenReversedBag(pre, mir);
  }

  /** `find` and `findLast` agree on whether the subtree holds a match. */
  lemma FindAndFindLastAgree(n: UINode, p: UINode -> bool)
    ensures Find(n, p).None? <==> FindLast(n, p).None?
  {
    FindIsFirstInPreOrder(n, p);
    FindLastIsFirstInMirrorOrder(n, p);
    SameNodesBothOrders(n);
    var pre := PreOrder(n);
    var mir := MirrorOrder(n);
    if Find(n, p).Some? {
      var x := Find(n, p).value;
      assert x in multiset(pre);
      assert x in mir;
    }
    if FindLast(n, p).Some? {
      var x := FindLast(n, p).value;
      assert x in multiset(mir);
      assert x in pre;
    }
  }

  // ---------------------------------------------------------------- siblings

  /** `indexOf`: the first position of `x` in `cs`, or -1. */
  function IndexOf(cs: seq<UINode>, x: UINode): (r: int)
    ensures -1 <= r < |cs|
    ensures r >= 0 ==> cs[r] == x && forall j :: 0 <= j < r ==> cs[j] != x
    ensures r == -1 <==> x !in cs
    decreases |cs|
  {
    if |cs| == 0 then -1
    else if cs[0] == x then 0
    else
      var k := IndexOf(cs[1..], x);
      assert forall j :: 1 <= j < |cs| ==> cs[j] == cs[1..][j - 1];
      if k == -1 then -1 else k + 1
  }

  /** `previousSibling`: nothing for a root; otherwise the child before the node in its parent's list, if any. */
  function PreviousSibling(parent: Option<UINode>, node: UINode): (r: Option<UINode>)
    ensures parent.None? ==> r.None?
    ensures r.Some? ==> r.value in parent.value.children
  {
    if parent.None? then None
    else
      var cs := parent.value.children;
      var index := IndexOf(cs, node);
      if index > 0 then Some(cs[index - 1]) else None
  }

  /** `nextSibling`: nothing for a root; otherwise the child after the node in its parent's list, if any. */
  function NextSibling(parent: Option<UINode>, node: UINode): (r: Option<UINode>)
    ensures parent.None? ==> r.None?
    ensures r.Some? ==> r.value in parent.value.children
  {
    if parent.None? then None
    else
      var cs := parent.value.children;
      var index := IndexOf(cs, node);
      if index < |cs| - 1 then Some(cs[index + 1]) else None
  }

  /** No two children are the same node (the source compares children by reference). */
  predicate DistinctChildren(parent: UINode)
  {
    forall i, j :: 0 <= i < j < |parent.children| ==> parent.children[i] != parent.children[j]
  }

  lemma IndexOfDistinct(cs: seq<UINode>, i: int)
    requires 0 <= i < |cs|
    requires forall a, b :: 0 <= a < b < |cs| ==> cs[a] != cs[b]
    ensures IndexOf(cs, cs[i]) == i
  {
    var k := IndexOf(cs, cs[i]);
    assert cs[k] == cs[i];
  }

  /** The child at position i has the child at i-1 as previous sibling, and none when it is the first child. */
  lemma PreviousSiblingAt(parent: UINode, i: int)
    requires 0 <= i < |parent.children|
    requires DistinctChildren(parent)
    ensures PreviousSibling(Some(parent), parent.children[i]) == if i > 0 then Some(parent.children[i - 1]) else None
  {
    IndexOfDistinct(parent.children, i);
  }

  /** The child at position i has the child at i+1 as next sibling, and none when it is the last child. */
  lemma NextSiblingAt(parent: UINode, i: int)
    requires 0 <= i < |parent.children|
    requires DistinctChildren(parent)
    ensures NextSibling(Some(parent), parent.children[i]) == if i < |parent.children| - 1 then Some(parent.children[i + 1]) else None
  {
    IndexOfDistinct(parent.children, i);
  }

  /** Stepping back and then forward returns to the same child, and the other way round. */
  lemma SiblingsInverse(parent: UINode, node: UINode, other: UINode)
    requires DistinctChildren(parent) && node in parent.children
    ensures PreviousSibling(Some(parent), node) == Some(other) ==> NextSibling(Some(parent), other) == Some(node)
    ensures NextSibling(Some(parent), node) == Some(other) ==> PreviousSibling(Some(parent), other) == Some(node)
  {
    var cs := parent.children;
    var i := IndexOf(cs, node);
    if 0 < i {
      IndexOfDistinct(cs, i - 1);
    }
    if 0 <= i < |cs| - 1 {
      IndexOfDistinct(cs, i + 1);
    }
  }

  /**
   * A node missing from its parent's child list gets index -1, so it has no previous sibling and the
   * parent's first child as its next sibling.
   */
  lemma DetachedNodeSiblings(parent: UINode, node: UINode)
    requires node !in parent.children && |parent.children| > 0
    ensures PreviousSibling(Some(parent), node).None?
    ensures NextSibling(Some(parent), node) == Some(parent.children[0])
  {
  }

  // ---------------------------------------------------------------- toJson

  function PointJson(p: Point): Json
  {
    JObj([Field("x", JNum(p.x)), Field("y", JNum(p.y))])
  }

  function RectJson(r: Option<Rect>): Json
  {
    match r
    case None => JUndefined
    case Some(rect) => JObj([Field("topLeft", PointJson(rect.topLeft)), Field("bottomRight", PointJson(rect.bottomRight))])
  }

  function TextJson(t: Option<string>): Json
  {
    match t
    case None => JUndefined
    case Some(s) => JStr(s)
  }

  /** `toJson`: id, type, text, rect and props as they are, and the children converted one by one in order. */
  function ToJson(n: UINode): Json
    decreases n, 1
  {
    JObj([Field("id", JStr(n.id)), Field("type", JStr(n.nodeType)), Field("text", TextJson(n.text)),
          Field("rect", RectJson(n.rect)), Field("props", JObj(n.props)), Field("children", ChildrenJson(n))])
  }

  function ChildrenJson(n: UINode): (j: Json)
    ensures j.JArr? && |j.items| == |n.children|
    decreases n, 0
  {
    JArr(seq(|n.children|, i requires 0 <= i < |n.children| => ToJson(n.children[i])))
  }

  function PointFromJson(j: Json): Option<Point>
  {
    if j.JObj? && |j.fields| == 2 && j.fields[0].key == "x" && j.fields[0].value.JNum?
       && j.fields[1].key == "y" && j.fields[1].value.JNum?
    then Some(Point(j.fields[0].value.n, j.fields[1].value.n))
    else None
  }

  function RectFromJson(j: Json): Option<Option<Rect>>
  {
    if j.JUndefined? then Some(None)
    else if j.JObj? && |j.fields| == 2 && j.fields[0].key == "topLeft" && j.fields[1].key == "bottomRight" then
      var tl := PointFromJson(j.fields[0].value);
      var br := PointFromJson(j.fields[1].value);
      if tl.Some? && br.Some? then Some(Some(Rect(tl.value, br.value))) else None
    else None
  }

  function TextFromJson(j: Json): Option<Option<string>>
  {
    if j.JUndefined? then Some(None) else if j.JStr? then Some(Some(j.s)) else None
  }

  /** Reads back a node from the value `toJson` produces; nothing for any other shape. */
  function FromJson(j: Json): Option<UINode>
    decreases j, 1
  {
    if !j.JObj? || |j.fields| != 6 then None
    else
      var f := j.fields;
      if f[0].key != "id" || !f[0].value.JStr? || f[1].key != "type" || !f[1].value.JStr? then None
      else if f[2].key != "text" || TextFromJson(f[2].value).None? then None
      else if f[3].key != "rect" || RectFromJson(f[3].value).None? then None
      else if f[4].key != "props" || !f[4].value.JObj? then None
      else if f[5].key != "children" || !f[5].value.JArr? then None
      else
        var children := ChildrenFromJson(f[5].value, 0);
        if children.None? then None
        else Some(UINode(f[0].value.s, f[1].value.s, TextFromJson(f[2].value).value,
                         RectFromJson(f[3].value).value, f[4].value.fields, children.value))
  }

  function ChildrenFromJson(a: Json, i: nat): Option<seq<UINode>>
    requires a.JArr? && i <= |a.items|
    decreases a, 0, |a.items| - i
  {
    if i == |a.items| then Some([])
    else
      var c := FromJson(a.items[i]);
      var rest := ChildrenFromJson(a, i + 1);
      if c.Some? && rest.Some? then Some([c.value] + rest.value) else None
  }

  /** `toJson` loses nothing: the node can be read back from its JSON value. */
  lemma {:induction false} JsonRoundTrip(n: UINode)
    ensures FromJson(ToJson(n)) == Some(n)
    decreases n, 1
  {
    ChildrenRoundTrip(n, 0);
    assert n.children[0..] == n.children;
    match n.rect {
      case None =>
      case Some(rect) =>
        assert PointFromJson(PointJson(rect.topLeft)) == Some(rect.topLeft);
        assert PointFromJson(PointJson(rect.bottomRight)) == Some(rect.bottomRight);
    }
  }

  lemma {:induction false} ChildrenRoundTrip(n: UINode, i: nat)
    requires i <= |n.children|
    ensures ChildrenFromJson(ChildrenJson(n), i) == Some(n.children[i..])
    decreases n, 0, |n.children| - i
  {
    if i < |n.children| {
      var a := ChildrenJson(n);
      assert a.items[i] == ToJson(n.children[i]);
      JsonRoundTrip(n.children[i]);
      ChildrenRoundTrip(n, i + 1);
      assert FromJson(a.items[i]) == Some(n.children[i]);
      assert ChildrenFromJson(a, i + 1) == Some(n.children[i + 1..]);
      assert n.children[i..] == [n.children[i]] + n.children[i + 1..];
      assert ChildrenFromJson(a, i) == Some([n.children[i]] + n.children[i + 1..]);
    } else {
      assert n.children[i..] == [];
    }
  }

  /** Different nodes give different JSON values. */
  lemma ToJsonInjective(a: UINode, b: UINode)
    requires ToJson(a) == ToJson(b)
    ensures a == b
  {
    JsonRoundTrip(a);
    JsonRoundTrip(b);
  }

  // ---------------------------------------------------------------- process tree windows

  /** A process handle, known by its id. */
  datatype Process = Process(id: int)

  /** A process with its child processes and its top-level windows. */
  datatype ProcessTree = ProcessTree(process: Process, children: seq<ProcessTree>, windows: seq<UINode>)

  datatype WindowEntry = WindowEntry(window: UINode, process: Process)

  /** The process's own windows, each paired with the process. */
  function OwnWindows(t: ProcessTree): (r: seq<WindowEntry>)
    ensures |r| == |t.windows|
  {
    seq(|t.windows|, i requires 0 <= i < |t.windows| => WindowEntry(t.windows[i], t.process))
  }

  /** What `getAllWindows` lists: the tree's own windows, then each child's list from left to right. */
  function AllWindows(t: ProcessTree): seq<WindowEntry>
    decreases t, 1
  {
    OwnWindows(t) + Flatten(ChildWindows(t))
  }

  function ChildWindows(t: ProcessTree): (r: seq<seq<WindowEntry>>)
    ensures |r| == |t.children|
    decreases t, 0
  {
    seq(|t.children|, i requires 0 <= i < |t.children| => AllWindows(t.children[i]))
  }

  /** `getAllWindows`, with the recursive helper pushing into one result list. */
  method GetAllWindows(t: ProcessTree) returns (result: seq<WindowEntry>)
    ensures result == AllWindows(t)
  {
    result := AddFromProcessTree(t, []);
  }

  method AddFromProcessTree(tree: ProcessTree, result0: seq<WindowEntry>) returns (result: seq<WindowEntry>)
    ensures result == result0 + AllWindows(tree)
    decreases tree
  {
    result := result0;
    var own := OwnWindows(tree);
    for i := 0 to |tree.windows|
      invariant result == result0 + own[..i]
    {
      assert own[..i + 1] == own[..i] + [WindowEntry(tree.windows[i], tree.process)];
      result := result + [WindowEntry(tree.windows[i], tree.process)];
    }
    assert own[..|tree.windows|] == own;
    var cw := ChildWindows(tree);
    for i := 0 to |tree.children|
      invariant result == result0 + own + Flatten(cw[..i])
    {
      result := AddFromProcessTree(tree.children[i], result);
      assert cw[..i + 1] == cw[..i] + [cw[i]];
      FlattenAppend(cw[..i], [cw[i]]);
      assert Flatten([cw[i]]) == cw[i] + Flatten([]);
    }
    assert cw[..|tree.children|] == cw;
  }

  /** The number of windows in the tree, counted independently of the listing. */
  function WindowCount(t: ProcessTree): nat
    decreases t, 1
  {
    |t.windows| + ChildWindowCount(t, |t.children|)
  }

  function ChildWindowCount(t: ProcessTree, k: nat): nat
    requires k <= |t.children|
    decreases t, 0, k
  {
    if k == 0 then 0 else ChildWindowCount(t, k - 1) + WindowCount(t.children[k - 1])
  }

  /** `getAllWindows` lists every window of the tree exactly as often as it is counted. */
  lemma {:induction false} AllWindowsLength(t: ProcessTree)
    ensures |AllWindows(t)| == WindowCount(t)
    decreases t, 1
  {
    FlattenLength(ChildWindows(t));
    ChildWindowsLength(t, |t.children|);
    assert ChildWindows(t)[..|t.children|] == ChildWindows(t);
  }

  lemma {:induction false} ChildWindowsLength(t: ProcessTree, k: nat)
    requires k <= |t.children|
    ensures TotalLength(ChildWindows(t)[..k]) == ChildWindowCount(t, k)
    decreases t, 0, k
  {
    if k > 0 {
      var cw := ChildWindows(t);
      assert cw[..k][..k - 1] == cw[..k - 1];
      AllWindowsLength(t.children[k - 1]);
      ChildWindowsLength(t, k - 1);
    }
  }

  /** The processes of the tree in pre-order. */
  function ProcessOrder(t: ProcessTree): seq<ProcessTree>
    decreases t, 1
  {
    [t] + Flatten(ChildProcessOrders(t))
  }

  function ChildProcessOrders(t: ProcessTree): (r: seq<seq<ProcessTree>>)
    ensures |r| == |t.children|
    decreases t, 0
  {
    seq(|t.children|, i requires 0 <= i < |t.children| => ProcessOrder(t.children[i]))
  }

  /** The own windows of each process in a list of processes, one process after the other. */
  function WindowsOf(ps: seq<ProcessTree>): seq<WindowEntry>
    decreases |ps|
  {
    if |ps| == 0 then [] else OwnWindows(ps[0]) + WindowsOf(ps[1..])
  }

  lemma {:induction false} WindowsOfAppend(a: seq<ProcessTree>, b: seq<ProcessTree>)
    ensures WindowsOf(a + b) == WindowsOf(a) + WindowsOf(b)
    decreases |a|
  {
    if |a| == 0 {
      assert a + b == b;
    } else {
      assert (a + b)[0] == a[0];
      assert (a + b)[1..] == a[1..] + b;
      WindowsOfAppend(a[1..], b);
    }
  }

  /**
   * The listing groups the windows by process, and the processes come in pre-order: windows of a parent
   * precede those of its descendants, and a left subtree's windows precede a right subtree's.
   */
  lemma {:induction false} AllWindowsByProcessPreOrder(t: ProcessTree)
    ensures AllWindows(t) == WindowsOf(ProcessOrder(t))
    decreases t, 1
  {
    WindowsOfAppend([t], Flatten(ChildProcessOrders(t)));
    assert WindowsOf([t]) == OwnWindows(t) + WindowsOf([]);
    ChildrenByProcessPreOrder(t, |t.children|);
    assert ChildWindows(t)[..|t.children|] == ChildWindows(t);
    assert ChildProcessOrders(t)[..|t.children|] == ChildProcessOrders(t);
  }

  lemma {:induction false} ChildrenByProcessPreOrder(t: ProcessTree, k: nat)
    requires k <= |t.children|
    ensures Flatten(ChildWindows(t)[..k]) == WindowsOf(Flatten(ChildProcessOrders(t)[..k]))
    decreases t, 0, k
  {
    var cw := ChildWindows(t);
    var po := ChildProcessOrders(t);
    if k == 0 {
      assert cw[..0] == [] && po[..0] == [];
    } else {
      assert cw[..k] == cw[..k - 1] + [cw[k - 1]];
      assert po[..k] == po[..k - 1] + [po[k - 1]];
      FlattenAppend(cw[..k - 1], [cw[k - 1]]);
      FlattenAppend(po[..k - 1], [po[k - 1]]);
      assert Flatten([cw[k - 1]]) == cw[k - 1] + Flatten([]);
      assert Flatten([po[k - 1]]) == po[k - 1] + Flatten([]);
      WindowsOfAppend(Flatten(po[..k - 1]), po[k - 1]);
      assert cw[k - 1] == AllWindows(t.children[k - 1]);
      assert po[k - 1] == ProcessOrder(t.children[k - 1]);
      AllWindowsByProcessPreOrder(t.children[k - 1]);
      ChildrenByProcessPreOrder(t, k - 1);
      assert Flatten(cw[..k]) == Flatten(cw[..k - 1]) + cw[k - 1];
      assert Flatten(po[..k]) == Flatten(po[..k - 1]) + po[k - 1];
    }
  }
}
