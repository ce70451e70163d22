/**
 * The process forest of the Windows driver. `CreateSnapshot` turns a list of (pid, name, parent pid)
 * records into a forest rooted at the parent pids that were never enumerated; `GetProcessTrees` lists the
 * matching subtrees; `CreateFrom` builds the tree below one process from a parent-to-children table;
 * `GetAll` and `ToString(depth)` walk a tree in pre-order. The process enumeration itself is the input.
 */
module ProcessWithChildren {
  import opened Wrappers
  import opened Text
  import opened Seqs

  /** One record of the process enumeration: pid, executable name, parent pid. */
  datatype ProcessInfo = ProcessInfo(id: int, execName: string, parentPid: int)

  /** A tree: an item with the trees of its children, in order. */
  datatype Tree<T> = Tree(item: T, children: seq<Tree<T>>)

  /** `ProcessInfoTree`: a process record with the trees of its child processes. */
  type InfoTree = Tree<ProcessInfo>

  /** `ProcessTree`: a process handle, known by its pid, with the trees of its child processes. */
  type ProcessTree = Tree<int>

  /** What the snapshot's dictionary holds for one pid: its record, its parent's pid, its children's pids. */
  datatype ProcessNode = ProcessNode(info: Option<ProcessInfo>, parent: Option<int>, children: seq<int>)

  const EmptyNode := ProcessNode(None, None, [])

  // ---------------------------------------------------------------- the node table

  /** The last record enumerated for pid `k`. */
  function LastRecord(rs: seq<ProcessInfo>, k: int): (r: Option<ProcessInfo>)
    ensures r.Some? ==> r.value.id == k && r.value in rs
    ensures r.None? <==> forall i :: 0 <= i < |rs| ==> rs[i].id != k
    decreases |rs|
  {
    if |rs| == 0 then None
    else if rs[|rs| - 1].id == k then Some(rs[|rs| - 1])
    else
      var r := LastRecord(rs[..|rs| - 1], k);
      assert forall i :: 0 <= i < |rs| - 1 ==> rs[..|rs| - 1][i] == rs[i];
      r
  }

  /** The pids of the records naming `k` as parent, in enumeration order. */
  function ChildIds(rs: seq<ProcessInfo>, k: int): seq<int>
    decreases |rs|
  {
    if |rs| == 0 then []
    else ChildIds(rs[..|rs| - 1], k) + (if rs[|rs| - 1].parentPid == k then [rs[|rs| - 1].id] else [])
  }

  /** The dictionary's keys in insertion order: each record adds its pid, then its parent pid, when new. */
  function KeyOrder(rs: seq<ProcessInfo>): seq<int>
    decreases |rs|
  {
    if |rs| == 0 then []
    else
      var r := rs[|rs| - 1];
      var ks := KeyOrder(rs[..|rs| - 1]);
      var withId := if r.id in ks then ks else ks + [r.id];
      if r.parentPid in withId then withId else withId + [r.parentPid]
  }

  /** The node the dictionary holds for `k` after all records: last record, its parent pid, all its children. */
  function NodeOf(rs: seq<ProcessInfo>, k: int): ProcessNode
  {
    var info := LastRecord(rs, k);
    ProcessNode(info, if info.Some? then Some(info.value.parentPid) else None, ChildIds(rs, k))
  }

  lemma NodeOfStep(rs: seq<ProcessInfo>, r: ProcessInfo, k: int)
    ensures NodeOf(rs + [r], k) ==
      ProcessNode(if r.id == k then Some(r) else NodeOf(rs, k).info,
                  if r.id == k then Some(r.parentPid) else NodeOf(rs, k).parent,
                  NodeOf(rs, k).children + if r.parentPid == k then [r.id] else [])
  {
    assert (rs + [r])[..|rs|] == rs;
  }

  /** What the snapshot's dictionary and its key order look like after the records `rs`. */
  ghost predicate TableAfter(rs: seq<ProcessInfo>, nodes: map<int, ProcessNode>, keys: seq<int>)
  {
    && keys == KeyOrder(rs)
    && Distinct(keys)
    && nodes.Keys == (set k | k in keys)
    && (forall k :: k in nodes ==> nodes[k] == NodeOf(rs, k))
    && (forall k :: k !in nodes ==> NodeOf(rs, k) == EmptyNode)
  }

  /** The node for `k` once the record `r` has been linked into the table `nodes0`. */
  function Linked(nodes0: map<int, ProcessNode>, r: ProcessInfo, k: int): ProcessNode
  {
    var before := if k in nodes0 then nodes0[k] else EmptyNode;
    ProcessNode(if r.id == k then Some(r) else before.info,
                if r.id == k then Some(r.parentPid) else before.parent,
                before.children + if r.parentPid == k then [r.id] else [])
  }

  /** The keys after `r`: its pid, then its parent's pid, appended when new. */
  function KeysWith(keys0: seq<int>, r: ProcessInfo): seq<int>
  {
    var withId := if r.id in keys0 then keys0 else keys0 + [r.id];
    if r.parentPid in withId then withId else withId + [r.parentPid]
  }

  /** One pass of the first loop of `CreateSnapshot`, for the record `r`. */
  method AddRecord(nodes0: map<int, ProcessNode>, keys0: seq<int>, r: ProcessInfo)
    returns (nodes: map<int, ProcessNode>, keys: seq<int>)
    requires nodes0.Keys == set k | k in keys0
    ensures nodes.Keys == nodes0.Keys + {r.id, r.parentPid}
    ensures forall k :: k in nodes ==> nodes[k] == Linked(nodes0, r, k)
    ensures keys == KeysWith(keys0, r)
  {
    nodes, keys := nodes0, keys0;
    if r.id !in nodes {
      nodes := nodes[r.id := EmptyNode];
      keys := keys + [r.id];
    }
    nodes := nodes[r.id := nodes[r.id].(info := Some(r))];
    if r.parentPid !in nodes {
      nodes := nodes[r.parentPid := EmptyNode];
      keys := keys + [r.parentPid];
    }
    nodes := nodes[r.id := nodes[r.id].(parent := Some(r.parentPid))];
    var p := nodes[r.parentPid];
    nodes := nodes[r.parentPid := p.(children := p.children + [r.id])];
  }

  lemma KeysStep(rs: seq<ProcessInfo>, r: ProcessInfo, keys0: seq<int>)
    requires keys0 == KeyOrder(rs) && Distinct(keys0)
    ensures KeysWith(keys0, r) == KeyOrder(rs + [r])
    ensures Distinct(KeysWith(keys0, r))
    ensures (set k | k in KeysWith(keys0, r)) == (set k | k in keys0) + {r.id, r.parentPid}
  {
    assert (rs + [r])[..|rs|] == rs;
    var withId := if r.id in keys0 then keys0 else keys0 + [r.id];
    assert Distinct(withId);
    assert (set k | k in withId) == (set k | k in keys0) + {r.id};
  }

  lemma TableStep(rs: seq<ProcessInfo>, r: ProcessInfo, nodes0: map<int, ProcessNode>, keys0: seq<int>,
                  nodes: map<int, ProcessNode>, keys: seq<int>)
    requires TableAfter(rs, nodes0, keys0)
    requires nodes.Keys == nodes0.Keys + {r.id, r.parentPid}
    requires forall k :: k in nodes ==> nodes[k] == Linked(nodes0, r, k)
    requires keys == KeysWith(keys0, r)
    ensures TableAfter(rs + [r], nodes, keys)
  {
    KeysStep(rs, r, keys0);
    LinkedNodesStep(rs, r, nodes0, nodes);
    AbsentNodesStep(rs, r, nodes0, nodes);
  }

  lemma LinkedNodesStep(rs: seq<ProcessInfo>, r: ProcessInfo, nodes0: map<int, ProcessNode>, nodes: map<int, ProcessNode>)
    requires forall k :: k in nodes0 ==> nodes0[k] == NodeOf(rs, k)
    requires forall k :: k !in nodes0 ==> NodeOf(rs, k) == EmptyNode
    requires forall k :: k in nodes ==> nodes[k] == Linked(nodes0, r, k)
    ensures forall k :: k in nodes ==> nodes[k] == NodeOf(rs + [r], k)
  {
    forall k | k in nodes
      ensures nodes[k] == NodeOf(rs + [r], k)
    {
      NodeOfStep(rs, r, k);
    }
  }

  lemma AbsentNodesStep(rs: seq<ProcessInfo>, r: ProcessInfo, nodes0: map<int, ProcessNode>, nodes: map<int, ProcessNode>)
    requires forall k :: k !in nodes0 ==> NodeOf(rs, k) == EmptyNode
    requires nodes.Keys == nodes0.Keys + {r.id, r.parentPid}
    ensures forall k :: k !in nodes ==> NodeOf(rs + [r], k) == EmptyNode
  {
    forall k | k !in nodes
      ensures NodeOf(rs + [r], k) == EmptyNode
    {
      NodeOfStep(rs, r, k);
    }
  }

  /**
   * The first loop of `CreateSnapshot`: for each record, create its node and its parent's node when
   * missing, store the record, link the node to its parent and append it to the parent's children.
   */
  method CollectNodes(records: seq<ProcessInfo>) returns (nodes: map<int, ProcessNode>, keys: seq<int>)
    ensures keys == KeyOrder(records)
    ensures Distinct(keys)
    ensures nodes.Keys == set k | k in keys
    ensures forall k :: k in nodes ==> nodes[k] == NodeOf(records, k)
    ensures forall k :: k !in nodes ==> NodeOf(records, k) == EmptyNode
  {
    nodes := map[];
    keys := [];
    for i := 0 to |records|
      invariant TableAfter(records[..i], nodes, keys)
    {
      assert records[..i + 1] == records[..i] + [records[i]];
      var nodes', keys' := AddRecord(nodes, keys, records[i]);
      TableStep(records[..i], records[i], nodes, keys, nodes', keys');
      nodes, keys := nodes', keys';
    }
    assert records[..|records|] == records;
    assert TableAfter(records, nodes, keys);
  }

  // ---------------------------------------------------------------- the forest

  /** A snapshot lists each process once. */
  predicate UniqueIds(rs: seq<ProcessInfo>)
  {
    forall i, j :: 0 <= i < j < |rs| ==> rs[i].id != rs[j].id
  }

  /** With one record per pid, a pid listed among the children of `k` has `k` as its parent. */
  lemma {:induction false} ChildHasParent(rs: seq<ProcessInfo>, k: int, c: int)
    requires UniqueIds(rs)
    requires c in ChildIds(rs, k)
    ensures LastRecord(rs, c).Some? && LastRecord(rs, c).value.parentPid == k
    decreases |rs|
  {
    var init := rs[..|rs| - 1];
    var last := rs[|rs| - 1];
    if !(last.parentPid == k && c == last.id) {
      assert c in ChildIds(init, k);
      assert UniqueIds(init);
      ChildHasParent(init, k, c);
      var rec := LastRecord(init, c).value;
      var j :| 0 <= j < |init| && init[j] == rec;
      assert rs[j].id == c;
      assert last.id != c;
    }
  }

  /**
   * The path of pids from a root down to the node being built: the root has no record, and every
   * later pid has a record naming the previous pid as parent.
   */
  predicate Chain(rs: seq<ProcessInfo>, path: seq<int>)
  {
    && |path| >= 1
    && LastRecord(rs, path[0]).None?
    && forall j :: 1 <= j < |path| ==> LastRecord(rs, path[j]).Some? && LastRecord(rs, path[j]).value.parentPid == path[j - 1]
  }

  lemma {:induction false} ChainDistinctAt(rs: seq<ProcessInfo>, path: seq<int>, a: int, b: int)
    requires Chain(rs, path)
    requires 0 <= a < b < |path|
    ensures path[a] != path[b]
    decreases a
  {
    if a > 0 {
      ChainDistinctAt(rs, path, a - 1, b - 1);
    }
  }

  /** A path down from a root never visits a pid twice, so it is at most one longer than the record list. */
  lemma ChainBound(rs: seq<ProcessInfo>, path: seq<int>)
    requires Chain(rs, path)
    ensures |path| <= |rs| + 1
  {
    var tail := path[1..];
    forall a, b | 0 <= a < b < |tail|
      ensures tail[a] != tail[b]
    {
      ChainDistinctAt(rs, path, a + 1, b + 1);
    }
    var ids := seq(|rs|, i requires 0 <= i < |rs| => rs[i].id);
    forall i | 0 <= i < |tail|
      ensures tail[i] in ids
    {
      assert LastRecord(rs, path[i + 1]).Some?;
      var rec := LastRecord(rs, tail[i]).value;
      var j :| 0 <= j < |rs| && rs[j] == rec;
      assert ids[j] == tail[i];
    }
    DistinctWithin(tail, ids);
  }

  lemma ChainExtend(rs: seq<ProcessInfo>, path: seq<int>, c: int)
    requires UniqueIds(rs) && Chain(rs, path)
    requires c in ChildIds(rs, path[|path| - 1])
    ensures Chain(rs, path + [c])
    ensures |path| + 1 <= |rs| + 1
  {
    ChildHasParent(rs, path[|path| - 1], c);
    var ext := path + [c];
    forall j | 1 <= j < |ext|
      ensures LastRecord(rs, ext[j]).Some? && LastRecord(rs, ext[j]).value.parentPid == ext[j - 1]
    {
      if j < |path| {
        assert ext[j] == path[j] && ext[j - 1] == path[j - 1];
      } else {
        assert ext[j] == c && ext[j - 1] == path[|path| - 1];
      }
    }
    assert ext[0] == path[0];
    ChainBound(rs, ext);
  }

  /** The record given to a root without one: the pid, the name `<unknown>`, and the parent's pid or 0. */
  function Placeholder(pid: int, parent: Option<int>): ProcessInfo
  {
    ProcessInfo(pid, "<unknown>", if parent.Some? then parent.value else 0)
  }

  /** `BuildProcessInfoTree` for the node at the end of `path`. */
  function BuildInfoTree(rs: seq<ProcessInfo>, path: seq<int>): InfoTree
    requires UniqueIds(rs) && Chain(rs, path)
    decreases |rs| + 1 - |path|, 1
  {
    ChainBound(rs, path);
    var pid := path[|path| - 1];
    var node := NodeOf(rs, pid);
    var info := if node.info.Some? then node.info.value else Placeholder(pid, node.parent);
    Tree(info, BuildChildren(rs, path, 0))
  }

  /** The trees of the children of the node at the end of `path`, from the i-th on. */
  function BuildChildren(rs: seq<ProcessInfo>, path: seq<int>, i: nat): seq<InfoTree>
    requires UniqueIds(rs) && Chain(rs, path)
    requires i <= |ChildIds(rs, path[|path| - 1])|
    decreases |rs| + 1 - |path|, 0, |ChildIds(rs, path[|path| - 1])| - i
  {
    var cs := ChildIds(rs, path[|path| - 1]);
    if i == |cs| then []
    else
      ChainExtend(rs, path, cs[i]);
      [BuildInfoTree(rs, path + [cs[i]])] + BuildChildren(rs, path, i + 1)
  }

  /** The dictionary keys, in order, whose node has no parent: the roots of the forest. */
  function RootKeys(rs: seq<ProcessInfo>, ks: seq<int>): seq<int>
    decreases |ks|
  {
    if |ks| == 0 then []
    else RootKeys(rs, ks[..|ks| - 1]) + if LastRecord(rs, ks[|ks| - 1]).None? then [ks[|ks| - 1]] else []
  }

  /** The trees built for the roots among the keys `ks`, in key order. */
  function SnapshotOf(rs: seq<ProcessInfo>, ks: seq<int>): seq<InfoTree>
    requires UniqueIds(rs)
    decreases |ks|
  {
    if |ks| == 0 then []
    else
      var k := ks[|ks| - 1];
      SnapshotOf(rs, ks[..|ks| - 1]) + if LastRecord(rs, k).None? then [BuildInfoTree(rs, [k])] else []
  }

  /**
   * `CreateSnapshot`: collect the node table, then build a tree for every node without a parent, in the
   * dictionary's order.
   */
  method CreateSnapshot(records: seq<ProcessInfo>) returns (roots: seq<InfoTree>)
    requires UniqueIds(records)
    ensures roots == SnapshotOf(records, KeyOrder(records))
  {
    var nodes, keys := CollectNodes(records);
    roots := [];
    for i := 0 to |keys|
      invariant roots == SnapshotOf(records, keys[..i])
    {
      assert keys[..i + 1][..i] == keys[..i];
      var node := nodes[keys[i]];
      assert node == NodeOf(records, keys[i]);
      if node.parent.None? {
        assert Chain(records, [keys[i]]);
        roots := roots + [BuildInfoTree(records, [keys[i]])];
      }
    }
    assert keys[..|keys|] == keys;
  }

  /** The dictionary's keys are exactly the pids and parent pids of the records. */
  lemma {:induction false} KeyOrderMembers(rs: seq<ProcessInfo>, k: int)
    ensures k in KeyOrder(rs) <==> exists i :: 0 <= i < |rs| && (rs[i].id == k || rs[i].parentPid == k)
    decreases |rs|
  {
    if |rs| > 0 {
      var init := rs[..|rs| - 1];
      KeyOrderMembers(init, k);
      assert forall i :: 0 <= i < |init| ==> init[i] == rs[i];
      if exists i :: 0 <= i < |rs| && (rs[i].id == k || rs[i].parentPid == k) {
        var i :| 0 <= i < |rs| && (rs[i].id == k || rs[i].parentPid == k);
        if i < |init| {
          assert init[i] == rs[i];
        }
      }
    }
  }

  lemma {:induction false} RootKeysMembers(rs: seq<ProcessInfo>, ks: seq<int>, k: int)
    ensures k in RootKeys(rs, ks) <==> k in ks && LastRecord(rs, k).None?
    decreases |ks|
  {
    if |ks| > 0 {
      RootKeysMembers(rs, ks[..|ks| - 1], k);
      assert ks == ks[..|ks| - 1] + [ks[|ks| - 1]];
    }
  }

  /** The forest's roots are exactly the parent pids that were never enumerated themselves. */
  lemma RootsAreUnenumeratedParents(rs: seq<ProcessInfo>, k: int)
    ensures k in RootKeys(rs, KeyOrder(rs)) <==>
      (exists i :: 0 <= i < |rs| && rs[i].parentPid == k) && forall i :: 0 <= i < |rs| ==> rs[i].id != k
  {
    RootKeysMembers(rs, KeyOrder(rs), k);
    KeyOrderMembers(rs, k);
  }

  /** Each tree of the forest is built for one root key, and that root carries the `<unknown>` record with parent 0. */
  lemma {:induction false} SnapshotRoots(rs: seq<ProcessInfo>, ks: seq<int>)
    requires UniqueIds(rs)
    ensures |SnapshotOf(rs, ks)| == |RootKeys(rs, ks)|
    ensures forall i :: 0 <= i < |RootKeys(rs, ks)| ==>
      LastRecord(rs, RootKeys(rs, ks)[i]).None? && SnapshotOf(rs, ks)[i] == BuildInfoTree(rs, [RootKeys(rs, ks)[i]])
    ensures forall i :: 0 <= i < |RootKeys(rs, ks)| ==>
      SnapshotOf(rs, ks)[i].item == ProcessInfo(RootKeys(rs, ks)[i], "<unknown>", 0)
    decreases |ks|
  {
    if |ks| > 0 {
      SnapshotRoots(rs, ks[..|ks| - 1]);
    }
  }

  // ---------------------------------------------------------------- parent cycles

  /** The parent pid recorded for `k`, if `k` was enumerated. */
  function Up(rs: seq<ProcessInfo>, k: int): Option<int>
  {
    var rec := LastRecord(rs, k);
    if rec.Some? then Some(rec.value.parentPid) else None
  }

  /** The pid reached from `k` by following the parent link `n` times, if every step has a record. */
  function Ancestor(rs: seq<ProcessInfo>, k: int, n: nat): Option<int>
    decreases n
  {
    if n == 0 then Some(k)
    else
      var p := Up(rs, k);
      if p.None? then None else Ancestor(rs, p.value, n - 1)
  }

  lemma {:induction false} AncestorCompose(rs: seq<ProcessInfo>, k: int, a: nat, b: nat)
    ensures Ancestor(rs, k, a + b) == if Ancestor(rs, k, a).None? then None else Ancestor(rs, Ancestor(rs, k, a).value, b)
    decreases a
  {
    if a > 0 && Up(rs, k).Some? {
      AncestorCompose(rs, Up(rs, k).value, a - 1, b);
    }
  }

  /** Going up from any pid of a path reaches the path's root. */
  lemma {:induction false} ChainAncestor(rs: seq<ProcessInfo>, path: seq<int>, j: int)
    requires Chain(rs, path) && 0 <= j < |path|
    ensures Ancestor(rs, path[j], j) == Some(path[0])
    decreases j
  {
    if j > 0 {
      ChainAncestor(rs, path, j - 1);
    }
  }

  /** A pid whose n-th ancestor is itself has an ancestor at every distance: its chain never ends. */
  lemma {:induction false} CycleNeverEnds(rs: seq<ProcessInfo>, k: int, n: nat, m: nat)
    requires n >= 1
    ensures Ancestor(rs, k, n) == Some(k) ==> Ancestor(rs, k, m).Some?
    decreases m
  {
    if Ancestor(rs, k, n) == Some(k) {
      if m <= n {
        AncestorCompose(rs, k, m, n - m);
      } else {
        AncestorCompose(rs, k, n, m - n);
        CycleNeverEnds(rs, k, n, m - n);
      }
    }
  }

  /** Whether the pid `x` is the pid of some node of the tree. */
  predicate Contains(t: InfoTree, x: int)
    decreases t
  {
    t.item.id == x || exists i :: 0 <= i < |t.children| && Contains(t.children[i], x)
  }

  /** Every pid in a tree built below `path` reaches the path's root by going up. */
  lemma {:induction false} ReachedFromRoot(rs: seq<ProcessInfo>, path: seq<int>, x: int) returns (d: nat)
    requires UniqueIds(rs) && Chain(rs, path)
    requires Contains(BuildInfoTree(rs, path), x)
    ensures Ancestor(rs, x, d) == Some(path[0])
    decreases |rs| + 1 - |path|, 1
  {
    ChainBound(rs, path);
    var t := BuildInfoTree(rs, path);
    if t.item.id == x {
      d := |path| - 1;
      ChainAncestor(rs, path, d);
    } else {
      assert t.children == BuildChildren(rs, path, 0);
      d := ReachedInChildren(rs, path, 0, x);
    }
  }

  lemma {:induction false} ReachedInChildren(rs: seq<ProcessInfo>, path: seq<int>, i: nat, x: int) returns (d: nat)
    requires UniqueIds(rs) && Chain(rs, path)
    requires i <= |ChildIds(rs, path[|path| - 1])|
    requires exists j :: 0 <= j < |BuildChildren(rs, path, i)| && Contains(BuildChildren(rs, path, i)[j], x)
    ensures Ancestor(rs, x, d) == Some(path[0])
    decreases |rs| + 1 - |path|, 0, |ChildIds(rs, path[|path| - 1])| - i
  {
    var cs := ChildIds(rs, path[|path| - 1]);
    var kids := BuildChildren(rs, path, i);
    var j :| 0 <= j < |kids| && Contains(kids[j], x);
    ChainExtend(rs, path, cs[i]);
    if j == 0 {
      d := ReachedFromRoot(rs, path + [cs[i]], x);
    } else {
      assert kids[j] == BuildChildren(rs, path, i + 1)[j - 1];
      d := ReachedInChildren(rs, path, i + 1, x);
    }
  }

  /** A pid on a parent cycle (its n-th ancestor is itself, e.g. a pid that is its own parent) is in no tree of the forest. */
  lemma CycleUnreachable(rs: seq<ProcessInfo>, k: int, n: nat, i: int)
    requires UniqueIds(rs) && n >= 1
    requires 0 <= i < |SnapshotOf(rs, KeyOrder(rs))|
    ensures Ancestor(rs, k, n) == Some(k) ==> !Contains(SnapshotOf(rs, KeyOrder(rs))[i], k)
  {
    if Contains(SnapshotOf(rs, KeyOrder(rs))[i], k) {
      var root := ForestRoot(rs, i);
      var m := AncestorsEndBelowRoot(rs, root, k);
      CycleNeverEnds(rs, k, n, m);
    }
  }

  /** The ancestors of a pid in the tree of a root run out: past the root there is none. */
  lemma AncestorsEndBelowRoot(rs: seq<ProcessInfo>, root: int, k: int) returns (m: nat)
    requires UniqueIds(rs) && LastRecord(rs, root).None? && Contains(BuildInfoTree(rs, [root]), k)
    ensures Ancestor(rs, k, m).None?
  {
    assert Chain(rs, [root]);
    var d := ReachedFromRoot(rs, [root], k);
    AncestorCompose(rs, k, d, 1);
    assert Ancestor(rs, root, 1).None?;
    m := d + 1;
  }

  /** The `i`-th tree of the forest is built for a pid without a record. */
  lemma ForestRoot(rs: seq<ProcessInfo>, i: int) returns (root: int)
    requires UniqueIds(rs) && 0 <= i < |SnapshotOf(rs, KeyOrder(rs))|
    ensures LastRecord(rs, root).None? && SnapshotOf(rs, KeyOrder(rs))[i] == BuildInfoTree(rs, [root])
  {
    SnapshotRoots(rs, KeyOrder(rs));
    root := RootKeys(rs, KeyOrder(rs))[i];
  }

  // ---------------------------------------------------------------- pre-order walks

  /** The subtrees of `t` in pre-order: the tree itself, then each child's subtrees from left to right. */
  function PreOrder<T>(t: Tree<T>): seq<Tree<T>>
    decreases t, 1
  {
    [t] + PreOrderFrom(t, |t.children|)
  }

  function PreOrderFrom<T>(t: Tree<T>, k: nat): seq<Tree<T>>
    requires k <= |t.children|
    decreases t, 0, k
  {
    if k == 0 then [] else PreOrderFrom(t, k - 1) + PreOrder(t.children[k - 1])
  }

  /** The number of nodes of the tree. */
  function Size<T>(t: Tree<T>): nat
    decreases t, 1
  {
    1 + SizeFrom(t, |t.children|)
  }

  function SizeFrom<T>(t: Tree<T>, k: nat): nat
    requires k <= |t.children|
    decreases t, 0, k
  {
    if k == 0 then 0 else SizeFrom(t, k - 1) + Size(t.children[k - 1])
  }

  /** `GetAll`: the tree itself, then the `GetAll` of each child appended in order. */
  method GetAll(t: ProcessTree) returns (all: seq<ProcessTree>)
    ensures all == PreOrder(t)
    decreases t
  {
    all := [t];
    for i := 0 to |t.children|
      invariant all == [t] + PreOrderFrom(t, i)
    {
      var sub := GetAll(t.children[i]);
      all := all + sub;
    }
  }

  /** `GetAll` lists every node once: its length is the size of the tree, and the tree itself comes first. */
  lemma {:induction false} PreOrderSize<T>(t: Tree<T>)
    ensures |PreOrder(t)| == Size(t)
    ensures PreOrder(t)[0] == t
    decreases t, 1
  {
    PreOrderFromSize(t, |t.children|);
  }

  lemma {:induction false} PreOrderFromSize<T>(t: Tree<T>, k: nat)
    requires k <= |t.children|
    ensures |PreOrderFrom(t, k)| == SizeFrom(t, k)
    decreases t, 0, k
  {
    if k > 0 {
      PreOrderFromSize(t, k - 1);
      PreOrderSize(t.children[k - 1]);
    }
  }

  // ---------------------------------------------------------------- GetProcessTrees

  /** `ToProcessInfoTree`: the same shape, each record replaced by the handle of its process. */
  function ToProcessTree(t: InfoTree): (r: ProcessTree)
    ensures r.item == t.item.id && |r.children| == |t.children|
    decreases t
  {
    Tree(t.item.id, seq(|t.children|, i requires 0 <= i < |t.children| => ToProcessTree(t.children[i])))
  }

  function Converted(ts: seq<InfoTree>): (r: seq<ProcessTree>)
    ensures |r| == |ts|
  {
    seq(|ts|, i requires 0 <= i < |ts| => ToProcessTree(ts[i]))
  }

  lemma ConvertedAppend(a: seq<InfoTree>, b: seq<InfoTree>)
    ensures Converted(a + b) == Converted(a) + Converted(b)
  {
    assert forall i :: 0 <= i < |a + b| ==> Converted(a + b)[i] == (Converted(a) + Converted(b))[i];
  }

  /** The subtrees whose record passes `f`, in pre-order; a match below a match is listed as well. */
  function Matches(t: InfoTree, f: ProcessInfo -> bool): seq<InfoTree>
    decreases t, 1
  {
    (if f(t.item) then [t] else []) + MatchesFrom(t, |t.children|, f)
  }

  function MatchesFrom(t: InfoTree, k: nat, f: ProcessInfo -> bool): seq<InfoTree>
    requires k <= |t.children|
    decreases t, 0, k
  {
    if k == 0 then [] else MatchesFrom(t, k - 1, f) + Matches(t.children[k - 1], f)
  }

  /** The matches of each tree of a forest, tree after tree. */
  function MatchesIn(ts: seq<InfoTree>, f: ProcessInfo -> bool): seq<InfoTree>
    decreases |ts|
  {
    if |ts| == 0 then [] else MatchesIn(ts[..|ts| - 1], f) + Matches(ts[|ts| - 1], f)
  }

  /** The trees of `ts` whose record passes `f`, in order. */
  function Keep(ts: seq<InfoTree>, f: ProcessInfo -> bool): seq<InfoTree>
    decreases |ts|
  {
    if |ts| == 0 then [] else Keep(ts[..|ts| - 1], f) + if f(ts[|ts| - 1].item) then [ts[|ts| - 1]] else []
  }

  lemma {:induction false} KeepAppend(a: seq<InfoTree>, b: seq<InfoTree>, f: ProcessInfo -> bool)
    ensures Keep(a + b, f) == Keep(a, f) + Keep(b, f)
    decreases |b|
  {
    if |b| == 0 {
      assert a + b == a;
    } else {
      assert (a + b)[..|a + b| - 1] == a + b[..|b| - 1];
      KeepAppend(a, b[..|b| - 1], f);
    }
  }

  /** The matches are exactly the nodes of the pre-order walk whose record passes the filter, in that order. */
  lemma {:induction false} MatchesArePreOrderFiltered(t: InfoTree, f: ProcessInfo -> bool)
    ensures Matches(t, f) == Keep(PreOrder(t), f)
    decreases t, 1
  {
    KeepAppend([t], PreOrderFrom(t, |t.children|), f);
    assert [t][..0] == [];
    MatchesFromFiltered(t, |t.children|, f);
  }

  lemma {:induction false} MatchesFromFiltered(t: InfoTree, k: nat, f: ProcessInfo -> bool)
    requires k <= |t.children|
    ensures MatchesFrom(t, k, f) == Keep(PreOrderFrom(t, k), f)
    decreases t, 0, k
  {
    if k > 0 {
      KeepAppend(PreOrderFrom(t, k - 1), PreOrder(t.children[k - 1]), f);
      MatchesFromFiltered(t, k - 1, f);
      MatchesArePreOrderFiltered(t.children[k - 1], f);
    }
  }

  /** `FindMatchingProcesses`: add the node when it matches, then search every child, into one list. */
  method FindMatchingProcesses(node: InfoTree, f: ProcessInfo -> bool, acc0: seq<ProcessTree>)
    returns (acc: seq<ProcessTree>)
    ensures acc == acc0 + Converted(Matches(node, f))
    decreases node
  {
    acc := acc0;
    ghost var own: seq<InfoTree> := if f(node.item) then [node] else [];
    if f(node.item) {
      acc := acc + [ToProcessTree(node)];
    }
    assert acc == acc0 + Converted(own);
    for i := 0 to |node.children|
      invariant acc == acc0 + Converted(own + MatchesFrom(node, i, f))
    {
      assert node.children[i] in node.children;
      ghost var before := acc;
      acc := FindMatchingProcesses(node.children[i], f, acc);
      FoundInChild(node, i, f, acc0, own, before);
    }
    assert own + MatchesFrom(node, |node.children|, f) == Matches(node, f);
  }

  /** Searching child `i` appends its matches after those found so far. */
  lemma FoundInChild(node: InfoTree, i: nat, f: ProcessInfo -> bool, acc0: seq<ProcessTree>, own: seq<InfoTree>, before: seq<ProcessTree>)
    requires i < |node.children|
    requires before == acc0 + Converted(own + MatchesFrom(node, i, f))
    ensures before + Converted(Matches(node.children[i], f)) == acc0 + Converted(own + MatchesFrom(node, i + 1, f))
  {
    ConvertedAppend(own + MatchesFrom(node, i, f), Matches(node.children[i], f));
    assert own + MatchesFrom(node, i + 1, f) == (own + MatchesFrom(node, i, f)) + Matches(node.children[i], f);
  }

  /**
   * `GetProcessTrees`: every node of the snapshot forest whose record passes the filter, in pre-order,
   * each converted to a process tree.
   */
  method GetProcessTrees(records: seq<ProcessInfo>, f: ProcessInfo -> bool) returns (matching: seq<ProcessTree>)
    requires UniqueIds(records)
    ensures matching == Converted(MatchesIn(SnapshotOf(records, KeyOrder(records)), f))
  {
    var tree := CreateSnapshot(records);
    matching := [];
    for i := 0 to |tree|
      invariant matching == Converted(MatchesIn(tree[..i], f))
    {
      assert tree[..i + 1][..i] == tree[..i];
      matching := FindMatchingProcesses(tree[i], f, matching);
      ConvertedAppend(MatchesIn(tree[..i], f), Matches(tree[i], f));
    }
    assert tree[..|tree|] == tree;
  }

  /** The number of nodes of the tree whose record passes `f`. */
  function Count(t: InfoTree, f: ProcessInfo -> bool): nat
    decreases t, 1
  {
    (if f(t.item) then 1 else 0) + CountFrom(t, |t.children|, f)
  }

  function CountFrom(t: InfoTree, k: nat, f: ProcessInfo -> bool): nat
    requires k <= |t.children|
    decreases t, 0, k
  {
    if k == 0 then 0 else CountFrom(t, k - 1, f) + Count(t.children[k - 1], f)
  }

  /** The matching nodes inside a list of trees, counted tree by tree (a node in two trees counts twice). */
  function CountIn(ts: seq<InfoTree>, f: ProcessInfo -> bool): nat
    decreases |ts|
  {
    if |ts| == 0 then 0 else CountIn(ts[..|ts| - 1], f) + Count(ts[|ts| - 1], f)
  }

  lemma {:induction false} CountInAppend(a: seq<InfoTree>, b: seq<InfoTree>, f: ProcessInfo -> bool)
    ensures CountIn(a + b, f) == CountIn(a, f) + CountIn(b, f)
    decreases |b|
  {
    if |b| == 0 {
      assert a + b == a;
    } else {
      assert (a + b)[..|a + b| - 1] == a + b[..|b| - 1];
      CountInAppend(a, b[..|b| - 1], f);
    }
  }

  function IsCodeExe(p: ProcessInfo): bool
  {
    p.execName == "Code.exe"
  }

  /** A `Code.exe` process started by another `Code.exe` process. */
  const NestedCodeExe: InfoTree :=
    Tree(ProcessInfo(2, "Code.exe", 1), [Tree(ProcessInfo(3, "Code.exe", 2), [])])

  /**
   * As written, the matches are not disjoint: a matching process and its matching child are both listed,
   * so the child's node is counted in two returned trees.
   */
  lemma NestedMatchesOverlap()
    ensures Matches(NestedCodeExe, IsCodeExe) == [NestedCodeExe, NestedCodeExe.children[0]]
    ensures CountIn(Matches(NestedCodeExe, IsCodeExe), IsCodeExe) == 3
    ensures Count(NestedCodeExe, IsCodeExe) == 2
  {
    NestedMatches();
    NestedCounts();
    var ms := Matches(NestedCodeExe, IsCodeExe);
    assert ms[..1] == [NestedCodeExe];
    assert ms[..1][..0] == [];
    assert CountIn(ms[..1], IsCodeExe) == 2;
  }

  lemma NestedMatches()
    ensures Matches(NestedCodeExe, IsCodeExe) == [NestedCodeExe, NestedCodeExe.children[0]]
  {
    var child := NestedCodeExe.children[0];
    assert IsCodeExe(NestedCodeExe.item) && IsCodeExe(child.item);
    assert Matches(child, IsCodeExe) == [child];
    assert MatchesFrom(NestedCodeExe, 1, IsCodeExe) == [child];
  }

  lemma NestedCounts()
    ensures Count(NestedCodeExe.children[0], IsCodeExe) == 1
    ensures Count(NestedCodeExe, IsCodeExe) == 2
  {
    var child := NestedCodeExe.children[0];
    assert IsCodeExe(NestedCodeExe.item) && IsCodeExe(child.item);
    assert CountFrom(child, 0, IsCodeExe) == 0;
    assert CountFrom(NestedCodeExe, 1, IsCodeExe) == 1;
  }

  /** The matching subtrees that have no matching ancestor: disjoint and maximal. */
  function MaximalMatches(t: InfoTree, f: ProcessInfo -> bool): seq<InfoTree>
    decreases t, 1
  {
    if f(t.item) then [t] else MaximalFrom(t, |t.children|, f)
  }

  function MaximalFrom(t: InfoTree, k: nat, f: ProcessInfo -> bool): seq<InfoTree>
    requires k <= |t.children|
    decreases t, 0, k
  {
    if k == 0 then [] else MaximalFrom(t, k - 1, f) + MaximalMatches(t.children[k - 1], f)
  }

  /**
   * The maximal matches hold every matching node of the tree exactly once: together they count as many
   * matching nodes as the tree, so none is missed and none lies in two of them.
   */
  lemma {:induction false} MaximalMatchesCountOnce(t: InfoTree, f: ProcessInfo -> bool)
    ensures CountIn(MaximalMatches(t, f), f) == Count(t, f)
    decreases t, 1
  {
    if f(t.item) {
      assert [t][..0] == [];
    } else {
      MaximalFromCountOnce(t, |t.children|, f);
    }
  }

  lemma {:induction false} MaximalFromCountOnce(t: InfoTree, k: nat, f: ProcessInfo -> bool)
    requires k <= |t.children|
    ensures CountIn(MaximalFrom(t, k, f), f) == CountFrom(t, k, f)
    decreases t, 0, k
  {
    if k > 0 {
      CountInAppend(MaximalFrom(t, k - 1, f), MaximalMatches(t.children[k - 1], f), f);
      MaximalFromCountOnce(t, k - 1, f);
      MaximalMatchesCountOnce(t.children[k - 1], f);
    }
  }

  /** Every maximal match is a subtree of the tree whose record passes the filter. */
  lemma {:induction false} MaximalMatchesAreMatches(t: InfoTree, f: ProcessInfo -> bool)
    ensures forall u :: u in MaximalMatches(t, f) ==> f(u.item) && u in PreOrder(t)
    decreases t, 1
  {
    if !f(t.item) {
      MaximalFromAreMatches(t, |t.children|, f);
    }
  }

  lemma {:induction false} MaximalFromAreMatches(t: InfoTree, k: nat, f: ProcessInfo -> bool)
    requires k <= |t.children|
    ensures forall u :: u in MaximalFrom(t, k, f) ==> f(u.item) && u in PreOrderFrom(t, k)
    decreases t, 0, k
  {
    if k > 0 {
      MaximalFromAreMatches(t, k - 1, f);
      MaximalMatchesAreMatches(t.children[k - 1], f);
    }
  }

  /** The subtrees of each tree of a forest in pre-order, tree after tree. */
  function PreOrderIn(ts: seq<InfoTree>): seq<InfoTree>
    decreases |ts|
  {
    if |ts| == 0 then [] else PreOrderIn(ts[..|ts| - 1]) + PreOrder(ts[|ts| - 1])
  }

  lemma {:induction false} PreOrderInAppend(a: seq<InfoTree>, b: seq<InfoTree>)
    ensures PreOrderIn(a + b) == PreOrderIn(a) + PreOrderIn(b)
    decreases |b|
  {
    if |b| == 0 {
      assert a + b == a;
    } else {
      assert (a + b)[..|a + b| - 1] == a + b[..|b| - 1];
      PreOrderInAppend(a, b[..|b| - 1]);
    }
  }

  /** The matching subtrees met walking a forest split in two are those of each part, in order. */
  lemma KeepPreOrderInAppend(a: seq<InfoTree>, b: seq<InfoTree>, f: ProcessInfo -> bool)
    ensures Keep(PreOrderIn(a + b), f) == Keep(PreOrderIn(a), f) + Keep(PreOrderIn(b), f)
  {
    PreOrderInAppend(a, b);
    KeepAppend(PreOrderIn(a), PreOrderIn(b), f);
  }

  /**
   * The maximal matches partition the matching nodes: walking them one after another meets exactly the
   * matching nodes of the tree, as often as the tree holds each, in the tree's pre-order. None is missed
   * and none is met twice.
   */
  lemma {:induction false} MaximalMatchesPartition(t: InfoTree, f: ProcessInfo -> bool)
    ensures Keep(PreOrderIn(MaximalMatches(t, f)), f) == Keep(PreOrder(t), f)
    decreases t, 1
  {
    if f(t.item) {
      assert [t][..0] == [];
      assert PreOrderIn([t]) == PreOrder(t);
    } else {
      MaximalFromPartition(t, |t.children|, f);
      KeepAppend([t], PreOrderFrom(t, |t.children|), f);
      assert [t][..0] == [];
      assert Keep([t], f) == [];
    }
  }

  lemma {:induction false} MaximalFromPartition(t: InfoTree, k: nat, f: ProcessInfo -> bool)
    requires k <= |t.children|
    ensures Keep(PreOrderIn(MaximalFrom(t, k, f)), f) == Keep(PreOrderFrom(t, k), f)
    decreases t, 0, k
  {
    if k > 0 {
      var c := t.children[k - 1];
      var init, last := MaximalFrom(t, k - 1, f), MaximalMatches(c, f);
      calc {
        Keep(PreOrderIn(MaximalFrom(t, k, f)), f);
        Keep(PreOrderIn(init + last), f);
        { KeepPreOrderInAppend(init, last, f); }
        Keep(PreOrderIn(init), f) + Keep(PreOrderIn(last), f);
        { MaximalFromPartition(t, k - 1, f); MaximalMatchesPartition(c, f); }
        Keep(PreOrderFrom(t, k - 1), f) + Keep(PreOrder(c), f);
        { KeepAppend(PreOrderFrom(t, k - 1), PreOrder(c), f); }
        Keep(PreOrderFrom(t, k - 1) + PreOrder(c), f);
        Keep(PreOrderFrom(t, k), f);
      }
    }
  }

  /** A tree is kept exactly when it is in the list and its record passes the filter. */
  lemma {:induction false} KeepMember(ts: seq<InfoTree>, f: ProcessInfo -> bool, u: InfoTree)
    ensures u in Keep(ts, f) <==> u in ts && f(u.item)
    decreases |ts|
  {
    if |ts| > 0 {
      var init := ts[..|ts| - 1];
      assert ts == init + [ts[|ts| - 1]];
      KeepMember(init, f, u);
    }
  }

  /** Filtering a list without repetitions gives a list without repetitions. */
  lemma {:induction false} KeepDistinct(ts: seq<InfoTree>, f: ProcessInfo -> bool)
    requires Distinct(ts)
    ensures Distinct(Keep(ts, f))
    decreases |ts|
  {
    if |ts| > 0 {
      var init := ts[..|ts| - 1];
      var last := ts[|ts| - 1];
      assert Distinct(init) by {
        forall i, j | 0 <= i < j < |init| ensures init[i] != init[j] {
          assert init[i] == ts[i] && init[j] == ts[j];
        }
      }
      KeepDistinct(init, f);
      KeepMember(init, f, last);
      assert last !in init by {
        forall i | 0 <= i < |init| ensures init[i] != last {
          assert init[i] == ts[i];
        }
      }
    }
  }

  /** A subtree met walking a forest lies in one of its trees. */
  lemma {:induction false} PreOrderInMember(ts: seq<InfoTree>, u: InfoTree) returns (i: nat)
    requires u in PreOrderIn(ts)
    ensures i < |ts| && u in PreOrder(ts[i])
    decreases |ts|
  {
    var init := ts[..|ts| - 1];
    if u in PreOrder(ts[|ts| - 1]) {
      i := |ts| - 1;
    } else {
      i := PreOrderInMember(init, u);
      assert ts[i] == init[i];
    }
  }

  /** In a list without repetitions, two parts apart from each other share no element. */
  lemma DistinctApart<T>(a: seq<T>, x: seq<T>, b: seq<T>, y: seq<T>, c: seq<T>)
    requires Distinct(a + x + b + y + c)
    ensures forall e :: e in x ==> e !in y
  {
    var s := a + x + b + y + c;
    forall e | e in x
      ensures e !in y
    {
      var p :| 0 <= p < |x| && x[p] == e;
      forall q | 0 <= q < |y|
        ensures y[q] != e
      {
        assert s[|a| + p] == x[p];
        assert s[|a| + |x| + |b| + q] == y[q];
      }
    }
  }

  lemma PreOrderInSingle(m: InfoTree)
    ensures PreOrderIn([m]) == PreOrder(m)
  {
    assert [m][..0] == [];
  }

  /** Walking five consecutive parts of a forest meets the matching nodes of each part in turn. */
  lemma KeepSplit(a: seq<InfoTree>, x: InfoTree, b: seq<InfoTree>, y: InfoTree, c: seq<InfoTree>, f: ProcessInfo -> bool)
    ensures Keep(PreOrderIn(a + [x] + b + [y] + c), f)
            == Keep(PreOrderIn(a), f) + Keep(PreOrder(x), f) + Keep(PreOrderIn(b), f)
               + Keep(PreOrder(y), f) + Keep(PreOrderIn(c), f)
  {
    PreOrderInSingle(x);
    PreOrderInSingle(y);
    KeepPreOrderInAppend(a + [x] + b + [y], c, f);
    KeepPreOrderInAppend(a + [x] + b, [y], f);
    KeepPreOrderInAppend(a + [x], b, f);
    KeepPreOrderInAppend(a, [x], f);
  }

  /**
   * Of two trees of a forest whose walk meets no matching node twice, neither lies inside the other
   * when its root matches.
   */
  lemma NotInsideAnother(ms: seq<InfoTree>, lo: nat, hi: nat, f: ProcessInfo -> bool)
    requires lo < hi < |ms|
    requires Distinct(Keep(PreOrderIn(ms), f))
    ensures f(ms[lo].item) ==> ms[lo] !in PreOrder(ms[hi])
    ensures f(ms[hi].item) ==> ms[hi] !in PreOrder(ms[lo])
  {
    var a, b, c := SplitAround(ms, lo, hi);
    var x, y := ms[lo], ms[hi];
    KeepSplit(a, x, b, y, c, f);
    DistinctApart(Keep(PreOrderIn(a), f), Keep(PreOrder(x), f), Keep(PreOrderIn(b), f),
                  Keep(PreOrder(y), f), Keep(PreOrderIn(c), f));
    PreOrderSize(x);
    PreOrderSize(y);
    KeepMember(PreOrder(x), f, x);
    KeepMember(PreOrder(y), f, x);
    KeepMember(PreOrder(x), f, y);
    KeepMember(PreOrder(y), f, y);
  }

  /** A list cut around two of its positions is the concatenation of the five pieces. */
  lemma SplitAround<T>(ms: seq<T>, lo: nat, hi: nat) returns (a: seq<T>, b: seq<T>, c: seq<T>)
    requires lo < hi < |ms|
    ensures ms == a + [ms[lo]] + b + [ms[hi]] + c
  {
    a, b, c := ms[..lo], ms[lo + 1..hi], ms[hi + 1..];
    assert ms == ms[..lo] + ms[lo..];
    assert ms[lo..] == [ms[lo]] + ms[lo + 1..];
    assert ms[lo + 1..] == ms[lo + 1..hi] + ms[hi..];
    assert ms[hi..] == [ms[hi]] + ms[hi + 1..];
  }

  /** Every matching node of the tree lies in one of the maximal matches. */
  lemma MaximalMatchesCover(t: InfoTree, f: ProcessInfo -> bool, u: InfoTree) returns (i: nat)
    requires u in PreOrder(t) && f(u.item)
    ensures i < |MaximalMatches(t, f)| && u in PreOrder(MaximalMatches(t, f)[i])
  {
    MaximalMatchesPartition(t, f);
    KeepMember(PreOrder(t), f, u);
    KeepMember(PreOrderIn(MaximalMatches(t, f)), f, u);
    i := PreOrderInMember(MaximalMatches(t, f), u);
  }

  /** Of two different maximal matches of a tree in which no subtree occurs twice, neither lies inside the other. */
  lemma MaximalMatchesApart(t: InfoTree, f: ProcessInfo -> bool, i: nat, j: nat)
    requires Distinct(PreOrder(t))
    requires i < |MaximalMatches(t, f)| && j < |MaximalMatches(t, f)| && i != j
    ensures MaximalMatches(t, f)[i] !in PreOrder(MaximalMatches(t, f)[j])
  {
    var ms := MaximalMatches(t, f);
    MaximalMatchesPartition(t, f);
    KeepDistinct(PreOrder(t), f);
    if i < j {
      NotInsideAnother(ms, i, j, f);
    } else {
      NotInsideAnother(ms, j, i, f);
    }
    MaximalMatchesAreMatches(t, f);
    assert ms[i] in ms;
  }

  /**
   * When no subtree occurs twice in the tree (as when no pid does), the maximal matches are what the
   * documentation of `GetProcessTrees` promises: every matching node lies in one of them, and none of
   * them lies inside another.
   */
  lemma MaximalMatchesDisjoint(t: InfoTree, f: ProcessInfo -> bool)
    requires Distinct(PreOrder(t))
    ensures forall u :: u in PreOrder(t) && f(u.item) ==>
      exists m :: m in MaximalMatches(t, f) && u in PreOrder(m)
    ensures forall i, j :: 0 <= i < |MaximalMatches(t, f)| && 0 <= j < |MaximalMatches(t, f)| && i != j ==>
      MaximalMatches(t, f)[i] !in PreOrder(MaximalMatches(t, f)[j])
  {
    var ms := MaximalMatches(t, f);
    forall u | u in PreOrder(t) && f(u.item)
      ensures exists m :: m in ms && u in PreOrder(m)
    {
      var i := MaximalMatchesCover(t, f, u);
      assert ms[i] in ms;
    }
    forall i, j | 0 <= i < |ms| && 0 <= j < |ms| && i != j
      ensures ms[i] !in PreOrder(ms[j])
    {
      MaximalMatchesApart(t, f, i, j);
    }
  }


  // ---------------------------------------------------------------- ToString(depth)

  const NewLine := "\r\n"

  /** The line of one process: `2*depth` spaces, then its label. */
  function Line(t: InfoTree, depth: nat): string
  {
    Repeat(' ', depth * 2) + Label(t)
  }

  /** The pid, name and number of children of a process. */
  function Label(t: InfoTree): string
  {
    "PID: " + IntToString(t.item.id) + ", Name: " + t.item.execName + ", Children: " + IntToString(|t.children|)
  }

  /**
   * The layout below is stated for any line format, so that proofs about it do not depend on how one line
   * is spelled; `ToString(depth)` uses `Line`.
   */
  type LineFormat = (InfoTree, nat) -> string

  /** The lines of the tree in pre-order, children one level deeper than their parent. */
  function Lines(line: LineFormat, t: InfoTree, depth: nat): (r: seq<string>)
    ensures |r| >= 1
    decreases t, 1
  {
    [line(t, depth)] + LinesFrom(line, t, depth, |t.children|)
  }

  function LinesFrom(line: LineFormat, t: InfoTree, depth: nat, k: nat): seq<string>
    requires k <= |t.children|
    decreases t, 0, k
  {
    if k == 0 then [] else LinesFrom(line, t, depth, k - 1) + Lines(line, t.children[k - 1], depth + 1)
  }

  /**
   * The text `ToString(depth)` holds after its first `k` children: the node's line, then the text of each
   * of those children at depth + 1, each after a new line.
   */
  function RenderedUpTo(line: LineFormat, t: InfoTree, depth: nat, k: nat): string
    requires k <= |t.children|
    decreases t, 0, k
  {
    if k == 0 then line(t, depth)
    else RenderedUpTo(line, t, depth, k - 1) + NewLine + Rendered(line, t.children[k - 1], depth + 1)
  }

  /** The text of a tree printed at `depth`. */
  function Rendered(line: LineFormat, t: InfoTree, depth: nat): string
    decreases t, 1
  {
    RenderedUpTo(line, t, depth, |t.children|)
  }

  /** `ToString(depth)`: the node's line, then each child's text at depth + 1 after a new line. */
  method ToStringAt(t: InfoTree, depth: nat) returns (result: string)
    ensures result == Rendered(Line, t, depth)
    decreases t
  {
    result := Line(t, depth);
    for i := 0 to |t.children|
      invariant result == RenderedUpTo(Line, t, depth, i)
    {
      assert t.children[i] in t.children;
      var child := ToStringAt(t.children[i], depth + 1);
      result := result + NewLine + child;
    }
  }

  /** The text is the tree's lines in pre-order joined by new lines. */
  lemma {:induction false} RenderedJoinsLines(line: LineFormat, t: InfoTree, depth: nat)
    ensures Rendered(line, t, depth) == Join(Lines(line, t, depth), NewLine)
    decreases t, 1
  {
    RenderedUpToJoinsLines(line, t, depth, |t.children|);
  }

  lemma {:induction false} RenderedUpToJoinsLines(line: LineFormat, t: InfoTree, depth: nat, k: nat)
    requires k <= |t.children|
    ensures RenderedUpTo(line, t, depth, k) == Join([line(t, depth)] + LinesFrom(line, t, depth, k), NewLine)
    decreases t, 0, k
  {
    if k == 0 {
      assert [line(t, depth)] + LinesFrom(line, t, depth, 0) == [line(t, depth)];
    } else {
      assert t.children[k - 1] in t.children;
      RenderedUpToJoinsLines(line, t, depth, k - 1);
      RenderedJoinsLines(line, t.children[k - 1], depth + 1);
      RenderedUpToStep(line, t, depth, k);
    }
  }

  /** One child more: its text after a new line on one side, its lines appended on the other. */
  lemma RenderedUpToStep(line: LineFormat, t: InfoTree, depth: nat, k: nat)
    requires 0 < k <= |t.children|
    requires RenderedUpTo(line, t, depth, k - 1) == Join([line(t, depth)] + LinesFrom(line, t, depth, k - 1), NewLine)
    requires Rendered(line, t.children[k - 1], depth + 1) == Join(Lines(line, t.children[k - 1], depth + 1), NewLine)
    ensures RenderedUpTo(line, t, depth, k) == Join([line(t, depth)] + LinesFrom(line, t, depth, k), NewLine)
  {
    var before := [line(t, depth)] + LinesFrom(line, t, depth, k - 1);
    var child := Lines(line, t.children[k - 1], depth + 1);
    JoinAppend(before, child, NewLine);
    assert before + child == [line(t, depth)] + LinesFrom(line, t, depth, k);
  }

  /** A format indents when the line of every node printed at `depth` starts with `2*depth` spaces. */
  ghost predicate Indents(line: LineFormat)
  {
    forall u: InfoTree, d: nat {:trigger line(u, d)} :: |line(u, d)| >= d * 2 && line(u, d)[..d * 2] == Repeat(' ', d * 2)
  }

  /** `Line` indents. */
  lemma LineIndents()
    ensures Indents(Line)
  {
    forall u: InfoTree, d: nat
      ensures |Line(u, d)| >= d * 2 && Line(u, d)[..d * 2] == Repeat(' ', d * 2)
    {
      assert Line(u, d)[..d * 2] == (Repeat(' ', d * 2) + Label(u))[..d * 2];
    }
  }

  /** One line per node, and with an indenting format every line of a tree printed at `depth` starts with `2*depth` spaces. */
  lemma {:induction false} LinesIndented(line: LineFormat, t: InfoTree, depth: nat)
    requires Indents(line)
    ensures |Lines(line, t, depth)| == Size(t)
    ensures forall j :: 0 <= j < |Lines(line, t, depth)| ==>
      |Lines(line, t, depth)[j]| >= depth * 2 && Lines(line, t, depth)[j][..depth * 2] == Repeat(' ', depth * 2)
    decreases t, 1
  {
    LinesFromIndented(line, t, depth, |t.children|);
    assert |line(t, depth)| >= depth * 2 && line(t, depth)[..depth * 2] == Repeat(' ', depth * 2);
  }

  lemma {:induction false} LinesFromIndented(line: LineFormat, t: InfoTree, depth: nat, k: nat)
    requires Indents(line) && k <= |t.children|
    ensures |LinesFrom(line, t, depth, k)| == SizeFrom(t, k)
    ensures forall j :: 0 <= j < |LinesFrom(line, t, depth, k)| ==>
      |LinesFrom(line, t, depth, k)[j]| >= depth * 2 && LinesFrom(line, t, depth, k)[j][..depth * 2] == Repeat(' ', depth * 2)
    decreases t, 0, k
  {
    if k > 0 {
      var c := t.children[k - 1];
      assert c in t.children;
      LinesFromIndented(line, t, depth, k - 1);
      LinesIndented(line, c, depth + 1);
      var deeper := Lines(line, c, depth + 1);
      forall j | 0 <= j < |deeper|
        ensures deeper[j][..depth * 2] == Repeat(' ', depth * 2)
      {
        assert deeper[j][..depth * 2] == deeper[j][..(depth + 1) * 2][..depth * 2];
      }
    }
  }

  // ---------------------------------------------------------------- CreateFrom

  lemma ChildIdsStep(rs: seq<ProcessInfo>, r: ProcessInfo, k: int)
    ensures ChildIds(rs + [r], k) == ChildIds(rs, k) + if r.parentPid == k then [r.id] else []
  {
    assert (rs + [r])[..|rs|] == rs;
  }

  /** A pid is listed among the children of `k` exactly when some record names it with parent `k`. */
  lemma {:induction false} ChildIdsMembers(rs: seq<ProcessInfo>, k: int, c: int)
    ensures c in ChildIds(rs, k) <==> exists i :: 0 <= i < |rs| && rs[i].id == c && rs[i].parentPid == k
    decreases |rs|
  {
    if |rs| > 0 {
      var init := rs[..|rs| - 1];
      ChildIdsMembers(init, k, c);
      assert forall i :: 0 <= i < |init| ==> init[i] == rs[i];
      if exists i :: 0 <= i < |rs| && rs[i].id == c && rs[i].parentPid == k {
        var i :| 0 <= i < |rs| && rs[i].id == c && rs[i].parentPid == k;
        if i < |init| {
          assert init[i] == rs[i];
        }
      }
    }
  }

  /** The table `CreateFrom` fills: for each parent pid other than 0, the pids of the records naming it, in order. */
  method BuildChildrenMap(records: seq<ProcessInfo>) returns (childrenMap: map<int, seq<int>>)
    ensures forall k :: k in childrenMap <==> k != 0 && ChildIds(records, k) != []
    ensures forall k :: k in childrenMap ==> childrenMap[k] == ChildIds(records, k)
  {
    childrenMap := map[];
    for i := 0 to |records|
      invariant forall k :: k in childrenMap <==> k != 0 && ChildIds(records[..i], k) != []
      invariant forall k :: k in childrenMap ==> childrenMap[k] == ChildIds(records[..i], k)
    {
      var r := records[i];
      assert records[..i + 1] == records[..i] + [r];
      forall k
        ensures ChildIds(records[..i + 1], k) == ChildIds(records[..i], k) + if r.parentPid == k then [r.id] else []
      {
        ChildIdsStep(records[..i], r, k);
      }
      if r.parentPid != 0 {
        var parentPid := r.parentPid;
        var pid := r.id;
        if parentPid !in childrenMap {
          childrenMap := childrenMap[parentPid := []];
        }
        childrenMap := childrenMap[parentPid := childrenMap[parentPid] + [pid]];
      }
    }
    assert records[..|records|] == records;
  }

  /** The children `CreateFrom` gives the process `pid`: none for pid 0, else the records naming it as parent. */
  function ChildPids(rs: seq<ProcessInfo>, pid: int): seq<int>
  {
    if pid == 0 then [] else ChildIds(rs, pid)
  }

  /**
   * The parent links of the records with a nonzero parent pid go strictly down in `rank`: the input has
   * no parent cycle, so the recursion of `CreateFrom` ends.
   */
  predicate Ranked(rs: seq<ProcessInfo>, rank: map<int, nat>)
  {
    forall i :: 0 <= i < |rs| && rs[i].parentPid != 0 ==>
      rs[i].id in rank && rs[i].parentPid in rank && rank[rs[i].id] < rank[rs[i].parentPid]
  }

  function Height(rank: map<int, nat>, pid: int): nat
  {
    if pid in rank then rank[pid] else 0
  }

  lemma ChildRanked(rs: seq<ProcessInfo>, rank: map<int, nat>, pid: int, c: int)
    requires Ranked(rs, rank)
    requires c in ChildPids(rs, pid)
    ensures Height(rank, c) < Height(rank, pid)
  {
    ChildIdsMembers(rs, pid, c);
    var i :| 0 <= i < |rs| && rs[i].id == c && rs[i].parentPid == pid;
  }

  /** `BuildProcessTree`: the process with the trees of its children, in the order the records named them. */
  function BuildProcessTree(rs: seq<ProcessInfo>, rank: map<int, nat>, pid: int): (r: ProcessTree)
    requires Ranked(rs, rank)
    ensures r.item == pid && |r.children| == |ChildPids(rs, pid)|
    ensures forall i :: 0 <= i < |r.children| ==> r.children[i].item == ChildPids(rs, pid)[i]
    decreases Height(rank, pid), 1
  {
    Tree(pid, BuildChildTrees(rs, rank, pid, 0))
  }

  function BuildChildTrees(rs: seq<ProcessInfo>, rank: map<int, nat>, pid: int, i: nat): (r: seq<ProcessTree>)
    requires Ranked(rs, rank)
    requires i <= |ChildPids(rs, pid)|
    ensures |r| == |ChildPids(rs, pid)| - i
    ensures forall j :: 0 <= j < |r| ==> r[j].item == ChildPids(rs, pid)[i + j]
    decreases Height(rank, pid), 0, |ChildPids(rs, pid)| - i
  {
    var cs := ChildPids(rs, pid);
    if i == |cs| then []
    else
      ChildRanked(rs, rank, pid, cs[i]);
      [BuildProcessTree(rs, rank, cs[i])] + BuildChildTrees(rs, rank, pid, i + 1)
  }

  /** The recursive helper of `CreateFrom`, reading the children from the filled table. */
  method BuildTreeFrom(childrenMap: map<int, seq<int>>, ghost rs: seq<ProcessInfo>, ghost rank: map<int, nat>, pid: int)
    returns (tree: ProcessTree)
    requires Ranked(rs, rank)
    requires forall k :: k in childrenMap <==> k != 0 && ChildIds(rs, k) != []
    requires forall k :: k in childrenMap ==> childrenMap[k] == ChildIds(rs, k)
    ensures tree == BuildProcessTree(rs, rank, pid)
    decreases Height(rank, pid)
  {
    var children: seq<ProcessTree> := [];
    if pid in childrenMap {
      var cs := childrenMap[pid];
      for i := 0 to |cs|
        invariant children + BuildChildTrees(rs, rank, pid, i) == BuildChildTrees(rs, rank, pid, 0)
      {
        ChildRanked(rs, rank, pid, cs[i]);
        var child := BuildTreeFrom(childrenMap, rs, rank, cs[i]);
        children := children + [child];
      }
    }
    tree := Tree(pid, children);
  }

  /** `CreateFrom`: fill the parent-to-children table from the records, then build the tree below `pid`. */
  method CreateFrom(records: seq<ProcessInfo>, ghost rank: map<int, nat>, pid: int) returns (tree: ProcessTree)
    requires Ranked(records, rank)
    ensures tree == BuildProcessTree(records, rank, pid)
  {
    var childrenMap := BuildChildrenMap(records);
    tree := BuildTreeFrom(childrenMap, records, rank, pid);
  }

  /** The records without those whose parent pid is 0. */
  function WithParent(rs: seq<ProcessInfo>): seq<ProcessInfo>
    decreases |rs|
  {
    if |rs| == 0 then []
    else WithParent(rs[..|rs| - 1]) + if rs[|rs| - 1].parentPid != 0 then [rs[|rs| - 1]] else []
  }

  lemma {:induction false} WithParentChildIds(rs: seq<ProcessInfo>, k: int)
    requires k != 0
    ensures ChildIds(WithParent(rs), k) == ChildIds(rs, k)
    decreases |rs|
  {
    if |rs| > 0 {
      var r := rs[|rs| - 1];
      WithParentChildIds(rs[..|rs| - 1], k);
      if r.parentPid != 0 {
        ChildIdsStep(WithParent(rs[..|rs| - 1]), r, k);
        assert WithParent(rs) == WithParent(rs[..|rs| - 1]) + [r];
      } else {
        assert WithParent(rs) == WithParent(rs[..|rs| - 1]);
      }
      assert ChildIds(rs, k) == ChildIds(rs[..|rs| - 1], k) + if r.parentPid == k then [r.id] else [];
    }
  }

  lemma {:induction false} WithParentRanked(rs: seq<ProcessInfo>, rank: map<int, nat>)
    requires Ranked(rs, rank)
    ensures Ranked(WithParent(rs), rank)
    ensures forall i :: 0 <= i < |WithParent(rs)| ==> WithParent(rs)[i] in rs
    decreases |rs|
  {
    if |rs| > 0 {
      var init := rs[..|rs| - 1];
      assert Ranked(init, rank) by {
        assert forall i :: 0 <= i < |init| ==> init[i] == rs[i];
      }
      WithParentRanked(init, rank);
      assert forall x :: x in init ==> x in rs;
    }
  }

  /** Records whose parent pid is 0 play no part in `CreateFrom`: dropping them builds the same tree. */
  lemma {:induction false} ParentZeroRecordsIgnored(rs: seq<ProcessInfo>, rank: map<int, nat>, pid: int)
    requires Ranked(rs, rank)
    ensures Ranked(WithParent(rs), rank)
    ensures BuildProcessTree(WithParent(rs), rank, pid) == BuildProcessTree(rs, rank, pid)
    decreases Height(rank, pid), 1
  {
    WithParentRanked(rs, rank);
    if pid != 0 {
      WithParentChildIds(rs, pid);
    }
    ParentZeroChildrenIgnored(rs, rank, pid, 0);
  }

  lemma {:induction false} ParentZeroChildrenIgnored(rs: seq<ProcessInfo>, rank: map<int, nat>, pid: int, i: nat)
    requires Ranked(rs, rank) && Ranked(WithParent(rs), rank)
    requires ChildPids(WithParent(rs), pid) == ChildPids(rs, pid)
    requires i <= |ChildPids(rs, pid)|
    ensures BuildChildTrees(WithParent(rs), rank, pid, i) == BuildChildTrees(rs, rank, pid, i)
    decreases Height(rank, pid), 0, |ChildPids(rs, pid)| - i
  {
    var cs := ChildPids(rs, pid);
    if i < |cs| {
      ChildRanked(rs, rank, pid, cs[i]);
      ParentZeroRecordsIgnored(rs, rank, cs[i]);
      ParentZeroChildrenIgnored(rs, rank, pid, i + 1);
    }
  }
}
