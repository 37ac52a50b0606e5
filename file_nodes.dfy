/**
 * `GitDBIndex.convertToIFileNodes` of `src/database/gitdb-index.ts`: the parsed
 * tree of an indexed file flattened, children before parents, into one node
 * record per tree node, each named by the path of child indexes and types that
 * leads to it from "root".
 */
module FileNodes {
  import opened Wrappers
  import opened JsString
  import opened IndexRecords
  import opened Seqs

  /** The number of nodes in a tree. */
  function Size(node: Node): nat
    decreases node, 1
  {
    1 + ChildrenSize(node, 0)
  }

  function ChildrenSize(parent: Node, i: nat): nat
    decreases parent, 0, |parent.children| - i
  {
    if i >= |parent.children| then 0 else Size(parent.children[i]) + ChildrenSize(parent, i + 1)
  }

  /** The separator-terminated start of every path below child `index`: `path.index.`. */
  function ChildPrefix(path: string, index: nat): string {
    path + "." + NatToString(index) + "."
  }

  /** `${path}.${index}.${child.type}`. */
  function ChildPath(path: string, index: nat, child: Node): (r: string)
    ensures StartsWith(r, ChildPrefix(path, index))
  {
    assert (ChildPrefix(path, index) + child.nodeType)[..|ChildPrefix(path, index)|] == ChildPrefix(path, index);
    ChildPrefix(path, index) + child.nodeType
  }

  /** The node record of one tree node: its value, else its check-box state as text, else none. */
  function NewNode(fileIndex: FileIndex, node: Node, path: string): (n: FileNode)
    ensures n.path == path && n.fileIndexId.None?
    ensures n.table == fileIndex.table && n.file == fileIndex.file
    ensures n.indexingVersion == fileIndex.indexingVersion && n.date == fileIndex.date
    ensures node.value.Some? ==> n.value == node.value
    ensures node.value.None? && node.checked.Some? ==> n.value == Some(if node.checked.value then "true" else "false")
    ensures node.value.None? && node.checked.None? ==> n.value.None?
  {
    var value :=
      if node.value.Some? then node.value
      else if node.checked.Some? then Some(if node.checked.value then "true" else "false")
      else None;
    FileNode(None, fileIndex.table, fileIndex.file, path, value, fileIndex.indexingVersion, fileIndex.date)
  }

  /** The records a node copies from its file index. */
  predicate FromIndex(n: FileNode, fileIndex: FileIndex) {
    n.fileIndexId.None? && n.table == fileIndex.table && n.file == fileIndex.file
    && n.indexingVersion == fileIndex.indexingVersion && n.date == fileIndex.date
  }

  lemma StartsWithTrans(s: string, p: string, q: string)
    requires StartsWith(s, p) && StartsWith(p, q)
    ensures StartsWith(s, q)
  {
    assert s[..|q|] == s[..|p|][..|q|];
  }

  /** `traverse(node, path)` as a value: the records of the subtree, post-order. */
  function Flatten(fileIndex: FileIndex, node: Node, path: string): (nodes: seq<FileNode>)
    ensures |nodes| == Size(node)
    ensures nodes[|nodes| - 1] == NewNode(fileIndex, node, path)
    ensures forall k :: 0 <= k < |nodes| ==> StartsWith(nodes[k].path, path) && FromIndex(nodes[k], fileIndex)
    decreases node, 1
  {
    var below := FlattenChildren(fileIndex, node, path, 0);
    assert forall k :: 0 <= k < |below| ==> StartsWith(below[k].path, path) by {
      forall k | 0 <= k < |below| ensures StartsWith(below[k].path, path) {
        StartsWithTrans(below[k].path, path + ".", path);
      }
    }
    below + [NewNode(fileIndex, node, path)]
  }

  /** The subtrees of children `i` onwards, one after another. */
  function FlattenChildren(fileIndex: FileIndex, parent: Node, path: string, i: nat): (nodes: seq<FileNode>)
    ensures |nodes| == ChildrenSize(parent, i)
    ensures forall k :: 0 <= k < |nodes| ==> StartsWith(nodes[k].path, path + ".") && FromIndex(nodes[k], fileIndex)
    decreases parent, 0, |parent.children| - i
  {
    if i >= |parent.children| then []
    else
      var child := parent.children[i];
      var here := Flatten(fileIndex, child, ChildPath(path, i, child));
      var rest := FlattenChildren(fileIndex, parent, path, i + 1);
      assert forall k :: 0 <= k < |here| ==> StartsWith(here[k].path, path + ".") by {
        forall k | 0 <= k < |here| ensures StartsWith(here[k].path, path + ".") {
          StartsWithTrans(here[k].path, ChildPath(path, i, child), ChildPrefix(path, i));
          StartsWithTrans(here[k].path, ChildPrefix(path, i), path + ".");
        }
      }
      here + rest
  }

  /** The characters of `ChildPrefix(path, k)` after `path.`: the digits of `k`, then the closing ".". */
  lemma ChildPrefixAt(path: string, k: nat, e: nat)
    requires e <= |NatToString(k)|
    ensures |path| + 1 + e < |ChildPrefix(path, k)|
    ensures ChildPrefix(path, k)[|path| + 1 + e] == if e < |NatToString(k)| then NatToString(k)[e] else '.'
  {
    var a := ChildPrefix(path, k);
    assert a == (path + ".") + NatToString(k) + ".";
  }

  /** Paths below two different child indexes differ: one index is not a prefix of the other up to the separator. */
  lemma PrefixesDiverge(s: string, path: string, k: nat, m: nat)
    requires k != m && StartsWith(s, ChildPrefix(path, k))
    ensures !StartsWith(s, ChildPrefix(path, m))
  {
    var nk := NatToString(k);
    var nm := NatToString(m);
    var e: nat;
    if |nk| < |nm| {
      e := |nk|;
    } else if |nm| < |nk| {
      e := |nm|;
    } else {
      if nk == nm {
        NatToStringInjective(k, m);
      }
      e :| e < |nk| && nk[e] != nm[e];
    }
    ChildPrefixAt(path, k, e);
    ChildPrefixAt(path, m, e);
    var a := ChildPrefix(path, k);
    var b := ChildPrefix(path, m);
    var d := |path| + 1 + e;
    assert a[d] != b[d];
    assert s[d] == a[d];
    assert |b| <= |s| ==> s[..|b|][d] != b[d];
  }

  /** Nothing below children `i` onwards lies under an earlier child. */
  lemma {:induction false} LaterChildrenApart(fileIndex: FileIndex, parent: Node, path: string, i: nat, k: nat)
    requires k < i
    ensures forall n :: n in FlattenChildren(fileIndex, parent, path, i) ==> !StartsWith(n.path, ChildPrefix(path, k))
    decreases |parent.children| - i
  {
    if i < |parent.children| {
      var child := parent.children[i];
      var here := Flatten(fileIndex, child, ChildPath(path, i, child));
      forall n | n in here ensures !StartsWith(n.path, ChildPrefix(path, k)) {
        StartsWithTrans(n.path, ChildPath(path, i, child), ChildPrefix(path, i));
        PrefixesDiverge(n.path, path, i, k);
      }
      LaterChildrenApart(fileIndex, parent, path, i + 1, k);
    }
  }

  /** No path occurs twice in the records of one subtree. */
  predicate DistinctPaths(nodes: seq<FileNode>) {
    forall a, b :: 0 <= a < b < |nodes| ==> nodes[a].path != nodes[b].path
  }

  /** The paths of a flattened file are pairwise distinct. */
  lemma {:induction false} FlattenDistinct(fileIndex: FileIndex, node: Node, path: string)
    ensures DistinctPaths(Flatten(fileIndex, node, path))
    decreases node, 1
  {
    var below := FlattenChildren(fileIndex, node, path, 0);
    FlattenChildrenDistinct(fileIndex, node, path, 0);
    var nodes := Flatten(fileIndex, node, path);
    assert nodes == below + [NewNode(fileIndex, node, path)];
    forall a | 0 <= a < |below| ensures below[a].path != path {
      assert |below[a].path| > |path|;
    }
  }

  lemma {:induction false} FlattenChildrenDistinct(fileIndex: FileIndex, parent: Node, path: string, i: nat)
    ensures DistinctPaths(FlattenChildren(fileIndex, parent, path, i))
    decreases parent, 0, |parent.children| - i
  {
    if i < |parent.children| {
      var child := parent.children[i];
      var here := Flatten(fileIndex, child, ChildPath(path, i, child));
      var rest := FlattenChildren(fileIndex, parent, path, i + 1);
      FlattenDistinct(fileIndex, child, ChildPath(path, i, child));
      FlattenChildrenDistinct(fileIndex, parent, path, i + 1);
      LaterChildrenApart(fileIndex, parent, path, i + 1, i);
      var nodes := here + rest;
      forall a, b | 0 <= a < b < |nodes| ensures nodes[a].path != nodes[b].path {
        if a < |here| && b >= |here| {
          StartsWithTrans(here[a].path, ChildPath(path, i, child), ChildPrefix(path, i));
          assert rest[b - |here|] in rest;
        }
      }
    }
  }

  /** `traverse`: pushes the records of the subtree onto `nodes`, children first. */
  method Traverse(fileIndex: FileIndex, node: Node, path: string, nodes: seq<FileNode>) returns (out: seq<FileNode>)
    ensures out == nodes + Flatten(fileIndex, node, path)
    decreases node
  {
    out := nodes;
    var index := 0;
    while index < |node.children|
      invariant 0 <= index <= |node.children|
      invariant out + FlattenChildren(fileIndex, node, path, index) == nodes + FlattenChildren(fileIndex, node, path, 0)
    {
      var child := node.children[index];
      var childPath := ChildPath(path, index, child);
      ghost var rest := FlattenChildren(fileIndex, node, path, index + 1);
      ghost var sub := Flatten(fileIndex, child, childPath);
      assert FlattenChildren(fileIndex, node, path, index) == sub + rest;
      ghost var before := out;
      out := Traverse(fileIndex, child, childPath, out);
      AppendAssoc(before, sub, rest);
      index := index + 1;
    }
    ghost var all := FlattenChildren(fileIndex, node, path, 0);
    assert FlattenChildren(fileIndex, node, path, index) == [];
    assert out + [] == out;
    var newNode := NewNode(fileIndex, node, path);
    assert Flatten(fileIndex, node, path) == all + [newNode];
    out := out + [newNode];
    AppendAssoc(nodes, all, [newNode]);
  }

  /** What `convertToIFileNodes` returns: an error for another indexing version, otherwise the flattened tree from "root". */
  function FileNodesOf(fileIndex: FileIndex): Result<seq<FileNode>, string> {
    if fileIndex.indexingVersion != IndexingVersion then
      Err("File index has incorrect indexing version: " + fileIndex.indexingVersion)
    else Ok(Flatten(fileIndex, fileIndex.record, "root"))
  }

  /** `convertToIFileNodes`. */
  method ConvertToIFileNodes(fileIndex: FileIndex) returns (r: Result<seq<FileNode>, string>)
    ensures r == FileNodesOf(fileIndex)
  {
    if fileIndex.indexingVersion != IndexingVersion {
      return Err("File index has incorrect indexing version: " + fileIndex.indexingVersion);
    }
    var nodes := Traverse(fileIndex, fileIndex.record, "root", []);
    assert nodes == Flatten(fileIndex, fileIndex.record, "root");
    return Ok(nodes);
  }

  /**
   * A current-version file index yields one record per tree node, the root's
   * last at "root", all with distinct paths under "root" and the index's
   * table, file, version and date; any other version is rejected.
   */
  lemma FileNodesShape(fileIndex: FileIndex)
    ensures FileNodesOf(fileIndex).Err? <==> fileIndex.indexingVersion != IndexingVersion
    ensures FileNodesOf(fileIndex).Ok? ==>
      var nodes := FileNodesOf(fileIndex).value;
      |nodes| == Size(fileIndex.record)
      && nodes[|nodes| - 1] == NewNode(fileIndex, fileIndex.record, "root")
      && DistinctPaths(nodes)
      && forall k :: 0 <= k < |nodes| ==> StartsWith(nodes[k].path, "root") && FromIndex(nodes[k], fileIndex)
  {
    FlattenDistinct(fileIndex, fileIndex.record, "root");
  }

  /** A leaf's record is the only one. */
  lemma LeafFlattens(fileIndex: FileIndex, leaf: Node, path: string)
    requires leaf.children == []
    ensures Flatten(fileIndex, leaf, path) == [NewNode(fileIndex, leaf, path)]
  {
  }

  /** A child's records come first, under `path.0.type`, then the parent's. */
  lemma OneChildFlattens(fileIndex: FileIndex, parent: Node, path: string)
    requires |parent.children| == 1 && parent.children[0].children == []
    ensures var child := parent.children[0];
      Flatten(fileIndex, parent, path)
      == [NewNode(fileIndex, child, path + ".0." + child.nodeType), NewNode(fileIndex, parent, path)]
  {
    var child := parent.children[0];
    assert NatToString(0) == "0";
    var childPath := ChildPath(path, 0, child);
    assert childPath == path + ".0." + child.nodeType;
    assert Flatten(fileIndex, child, childPath) == [NewNode(fileIndex, child, childPath)];
    assert FlattenChildren(fileIndex, parent, path, 1) == [];
    assert FlattenChildren(fileIndex, parent, path, 0) == Flatten(fileIndex, child, childPath) + FlattenChildren(fileIndex, parent, path, 1);
  }
}
