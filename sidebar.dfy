/**
 * The table-of-contents sidebar (`SidebarView`,
 * Sources/CHMReader/SidebarView.swift): the tree flattened into the rows
 * on screen, driven by the set of expanded nodes; expanding and collapsing;
 * the selection mark and what a tap does.
 */
module Sidebar {

  import opened Common
  import opened TableOfContents

  /**
   * A node's identity. The source gives every node a random UUID; here a
   * node is identified by its position: the child indices leading to it
   * from the top level.
   */
  type NodeId = seq<nat>

  /** A row on screen: the node, its identity and its indentation depth. */
  datatype Row = Row(node: TOCNode, id: NodeId, depth: nat)

  /**
   * The rows `walk` appends for `nodes`, which sit under `parent` starting
   * at child index `first`: each node at `depth`, followed by its subtree's
   * rows when it has children and is expanded.
   */
  function Rows(nodes: seq<TOCNode>, parent: NodeId, first: nat, depth: nat, expanded: set<NodeId>): seq<Row>
    decreases nodes
  {
    if nodes == [] then []
    else
      var id := parent + [first];
      [Row(nodes[0], id, depth)] +
      (if nodes[0].children != [] && id in expanded then Rows(nodes[0].children, id, 0, depth + 1, expanded) else []) +
      Rows(nodes[1..], parent, first + 1, depth, expanded)
  }

  /** The rows of the whole forest, as `visibleRows` lists them. */
  function VisibleRowsOf(nodes: seq<TOCNode>, expanded: set<NodeId>): seq<Row> {
    Rows(nodes, [], 0, 0, expanded)
  }

  /** The nodes of the rows at depth `d`, in order. */
  function NodesAtDepth(rows: seq<Row>, d: nat): seq<TOCNode>
    decreases |rows|
  {
    if rows == [] then []
    else (if rows[0].depth == d then [rows[0].node] else []) + NodesAtDepth(rows[1..], d)
  }

  lemma {:induction false} NodesAtDepthAppend(a: seq<Row>, b: seq<Row>, d: nat)
    ensures NodesAtDepth(a + b, d) == NodesAtDepth(a, d) + NodesAtDepth(b, d)
    decreases |a|
  {
    if a == [] {
      assert a + b == b;
    } else {
      assert (a + b)[1..] == a[1..] + b;
      NodesAtDepthAppend(a[1..], b, d);
    }
  }

  lemma {:induction false} NodesAtDepthNone(rows: seq<Row>, d: nat)
    requires forall r :: r in rows ==> r.depth != d
    ensures NodesAtDepth(rows, d) == []
    decreases |rows|
  {
    if rows != [] {
      assert rows[0] in rows;
      NodesAtDepthNone(rows[1..], d);
    }
  }

  /**
   * Every row lies at `depth` or deeper, and its identity extends `parent`
   * by one index per level from `depth` down to the row's own depth.
   */
  lemma {:induction false} RowsShape(nodes: seq<TOCNode>, parent: NodeId, first: nat, depth: nat, expanded: set<NodeId>)
    ensures forall r :: r in Rows(nodes, parent, first, depth, expanded) ==>
              r.depth >= depth && |r.id| == |parent| + 1 + (r.depth - depth) && r.id[..|parent|] == parent
    decreases nodes
  {
    if nodes != [] {
      var id := parent + [first];
      RowsShape(nodes[0].children, id, 0, depth + 1, expanded);
      RowsShape(nodes[1..], parent, first + 1, depth, expanded);
      var sub := Rows(nodes[0].children, id, 0, depth + 1, expanded);
      forall r | r in sub ensures r.id[..|parent|] == parent {
        assert r.id[..|id|] == id;
        assert r.id[..|parent|] == r.id[..|id|][..|parent|];
      }
    }
  }

  /** The rows at `depth` are exactly the given nodes, in order: the top level appears in order at depth 0. */
  lemma {:induction false} TopLevelInOrder(nodes: seq<TOCNode>, parent: NodeId, first: nat, depth: nat, expanded: set<NodeId>)
    ensures NodesAtDepth(Rows(nodes, parent, first, depth, expanded), depth) == nodes
    decreases nodes
  {
    if nodes != [] {
      var id := parent + [first];
      var head := [Row(nodes[0], id, depth)];
      var sub := if nodes[0].children != [] && id in expanded then Rows(nodes[0].children, id, 0, depth + 1, expanded) else [];
      var tail := Rows(nodes[1..], parent, first + 1, depth, expanded);
      assert Rows(nodes, parent, first, depth, expanded) == head + sub + tail;
      NodesAtDepthAppend(head + sub, tail, depth);
      NodesAtDepthAppend(head, sub, depth);
      RowsShape(nodes[0].children, id, 0, depth + 1, expanded);
      NodesAtDepthNone(sub, depth);
      TopLevelInOrder(nodes[1..], parent, first + 1, depth, expanded);
      assert NodesAtDepth(head, depth) == [nodes[0]];
    }
  }

  /** With nothing expanded, the rows are exactly the given nodes, side by side at `depth`. */
  lemma {:induction false} CollapsedShowsTopLevel(nodes: seq<TOCNode>, parent: NodeId, first: nat, depth: nat)
    ensures var rows := Rows(nodes, parent, first, depth, {});
            |rows| == |nodes| &&
            forall i :: 0 <= i < |nodes| ==> rows[i] == Row(nodes[i], parent + [first + i], depth)
    decreases nodes
  {
    if nodes != [] {
      CollapsedShowsTopLevel(nodes[1..], parent, first + 1, depth);
    }
  }

  /** A row is only visible when every node above it is expanded. */
  lemma {:induction false} VisibleOnlyUnderExpanded(nodes: seq<TOCNode>, parent: NodeId, first: nat, depth: nat, expanded: set<NodeId>)
    ensures forall r :: r in Rows(nodes, parent, first, depth, expanded) ==>
              forall k :: |parent| < k < |r.id| ==> r.id[..k] in expanded
    decreases nodes
  {
    if nodes != [] {
      var id := parent + [first];
      RowsShape(nodes[0].children, id, 0, depth + 1, expanded);
      VisibleOnlyUnderExpanded(nodes[0].children, id, 0, depth + 1, expanded);
      VisibleOnlyUnderExpanded(nodes[1..], parent, first + 1, depth, expanded);
      if nodes[0].children != [] && id in expanded {
        var sub := Rows(nodes[0].children, id, 0, depth + 1, expanded);
        forall r, k | r in sub && |parent| < k < |r.id| ensures r.id[..k] in expanded {
          if k == |id| {
            assert r.id[..k] == id;
          }
        }
      }
    }
  }

  /** The row of the `j`-th child of the node on `r`. */
  function ChildRow(r: Row, j: nat): Row
    requires j < |r.node.children|
  {
    Row(r.node.children[j], r.id + [j], r.depth + 1)
  }

  /** Each given node has its row, at `depth`. */
  lemma {:induction false} EveryNodeHasRow(nodes: seq<TOCNode>, parent: NodeId, first: nat, depth: nat, expanded: set<NodeId>)
    ensures forall j :: 0 <= j < |nodes| ==> Row(nodes[j], parent + [first + j], depth) in Rows(nodes, parent, first, depth, expanded)
    decreases nodes
  {
    if nodes != [] {
      var id := parent + [first];
      var sub := if nodes[0].children != [] && id in expanded then Rows(nodes[0].children, id, 0, depth + 1, expanded) else [];
      var tail := Rows(nodes[1..], parent, first + 1, depth, expanded);
      var rows := Rows(nodes, parent, first, depth, expanded);
      assert rows == [Row(nodes[0], id, depth)] + sub + tail;
      EveryNodeHasRow(nodes[1..], parent, first + 1, depth, expanded);
      forall j | 0 <= j < |nodes| ensures Row(nodes[j], parent + [first + j], depth) in rows {
        if j > 0 {
          assert nodes[1..][j - 1] == nodes[j];
          assert first + 1 + (j - 1) == first + j;
          assert Row(nodes[j], parent + [first + j], depth) in tail;
        }
      }
    }
  }

  /** Every child of a visible, expanded node has its row, one level deeper. */
  lemma {:induction false} ExpandedShowsChildren(nodes: seq<TOCNode>, parent: NodeId, first: nat, depth: nat, expanded: set<NodeId>)
    ensures var rows := Rows(nodes, parent, first, depth, expanded);
            forall r :: r in rows && r.id in expanded ==>
              forall j :: 0 <= j < |r.node.children| ==> ChildRow(r, j) in rows
    decreases nodes
  {
    if nodes != [] {
      var id := parent + [first];
      var rows := Rows(nodes, parent, first, depth, expanded);
      var sub := if nodes[0].children != [] && id in expanded then Rows(nodes[0].children, id, 0, depth + 1, expanded) else [];
      var tail := Rows(nodes[1..], parent, first + 1, depth, expanded);
      assert rows == [Row(nodes[0], id, depth)] + sub + tail;
      ExpandedShowsChildren(nodes[0].children, id, 0, depth + 1, expanded);
      ExpandedShowsChildren(nodes[1..], parent, first + 1, depth, expanded);
      EveryNodeHasRow(nodes[0].children, id, 0, depth + 1, expanded);
      forall r, j | r in rows && r.id in expanded && 0 <= j < |r.node.children| ensures ChildRow(r, j) in rows {
        if r == Row(nodes[0], id, depth) {
          assert ChildRow(r, j) == Row(nodes[0].children[j], id + [0 + j], depth + 1);
          assert ChildRow(r, j) in sub;
        } else if r in sub {
          assert ChildRow(r, j) in sub;
        } else {
          assert r in tail;
          assert ChildRow(r, j) in tail;
        }
      }
    }
  }

  // ---------------------------------------------------------------------
  // Expanding, collapsing and selecting
  // ---------------------------------------------------------------------

  /** `toggleExpansion`: `id` changes membership, every other identity keeps it. */
  function Toggled(expanded: set<NodeId>, id: NodeId): (r: set<NodeId>)
    ensures id in r <==> id !in expanded
    ensures r - {id} == expanded - {id}
  {
    if id in expanded then expanded - {id} else expanded + {id}
  }

  /** Toggling twice restores the expanded set. */
  lemma ToggleTwice(expanded: set<NodeId>, id: NodeId)
    ensures Toggled(Toggled(expanded, id), id) == expanded
  {
    var once := Toggled(expanded, id);
    var twice := Toggled(once, id);
    assert forall x :: x in twice <==> x in expanded by {
      forall x ensures x in twice <==> x in expanded {
        if x != id {
          assert x in twice <==> x in twice - {id};
          assert x in expanded <==> x in expanded - {id};
        }
      }
    }
  }

  /** The selection mark: the node has a path and it is the selected one. */
  predicate IsSelected(node: TOCNode, selectedPath: Option<string>) {
    node.path.Some? && node.path == selectedPath
  }

  /** `onSelect`: a node with a path becomes the selection; a node without one changes nothing. */
  function SelectedAfter(node: TOCNode, selectedPath: Option<string>): (r: Option<string>)
    ensures node.path.None? ==> r == selectedPath
  {
    if node.path.Some? then node.path else selectedPath
  }

  /**
   * After selecting a node with a path, the rows marked selected are
   * exactly those with the same path; selecting a path-less node changes no mark.
   */
  lemma SelectMarksSamePath(node: TOCNode, other: TOCNode, selectedPath: Option<string>)
    ensures IsSelected(other, SelectedAfter(node, selectedPath)) <==>
              if node.path.Some? then other.path == node.path else IsSelected(other, selectedPath)
  {
  }

  // ---------------------------------------------------------------------
  // The view
  // ---------------------------------------------------------------------

  /** `walk(nodes, depth)`: append each node's row, then, when it is expanded, its children's rows. */
  method Walk(nodes: seq<TOCNode>, parent: NodeId, depth: nat, expanded: set<NodeId>, acc: seq<Row>) returns (result: seq<Row>)
    ensures result == acc + Rows(nodes, parent, 0, depth, expanded)
    decreases nodes
  {
    result := acc;
    for i := 0 to |nodes|
      invariant result + Rows(nodes[i..], parent, i, depth, expanded) == acc + Rows(nodes, parent, 0, depth, expanded)
    {
      var node := nodes[i];
      ghost var before := result;
      ghost var rest := Rows(nodes[i + 1..], parent, i + 1, depth, expanded);
      RowsAt(nodes, parent, i, depth, expanded);
      result := result + [Row(node, parent + [i], depth)];
      if node.children != [] && parent + [i] in expanded {
        assert node in nodes;
        ghost var sub := Rows(node.children, parent + [i], 0, depth + 1, expanded);
        result := Walk(node.children, parent + [i], depth + 1, expanded, result);
        Regroup(before, [Row(node, parent + [i], depth)], sub, rest);
      } else {
        Regroup(before, [Row(node, parent + [i], depth)], [], rest);
      }
    }
  }

  /** The rows from the `i`-th node on: its row, its subtree's rows when expanded, then the rows of the nodes after it. */
  lemma RowsAt(nodes: seq<TOCNode>, parent: NodeId, i: nat, depth: nat, expanded: set<NodeId>)
    requires i < |nodes|
    ensures var id := parent + [i];
            Rows(nodes[i..], parent, i, depth, expanded) ==
              [Row(nodes[i], id, depth)] +
              (if nodes[i].children != [] && id in expanded then Rows(nodes[i].children, id, 0, depth + 1, expanded) else []) +
              Rows(nodes[i + 1..], parent, i + 1, depth, expanded)
  {
    assert nodes[i..][0] == nodes[i] && nodes[i..][1..] == nodes[i + 1..];
  }

  lemma Regroup(a: seq<Row>, b: seq<Row>, c: seq<Row>, d: seq<Row>)
    ensures a + b + c + d == a + (b + c + d) && a + b + d == a + (b + [] + d)
  {
  }

  class SidebarView {
    const nodes: seq<TOCNode>
    var selectedPath: Option<string>
    var expandedIDs: set<NodeId>

    constructor(nodes: seq<TOCNode>, selectedPath: Option<string>)
      ensures this.nodes == nodes && this.selectedPath == selectedPath && expandedIDs == {}
    {
      this.nodes := nodes;
      this.selectedPath := selectedPath;
      expandedIDs := {};
    }

    /** `visibleRows`. */
    method VisibleRows() returns (rows: seq<Row>)
      ensures rows == VisibleRowsOf(nodes, expandedIDs)
    {
      rows := Walk(nodes, [], 0, expandedIDs, []);
    }

    method ToggleExpansion(id: NodeId)
      modifies this
      ensures expandedIDs == Toggled(old(expandedIDs), id)
      ensures selectedPath == old(selectedPath)
    {
      if id in expandedIDs {
        expandedIDs := expandedIDs - {id};
      } else {
        expandedIDs := expandedIDs + {id};
      }
    }

    method Select(node: TOCNode)
      modifies this
      ensures selectedPath == SelectedAfter(node, old(selectedPath))
      ensures expandedIDs == old(expandedIDs)
    {
      if node.path.Some? {
        selectedPath := node.path;
      }
    }

    /** A tap on a row: a node with children toggles, then the node is selected. */
    method Tap(row: Row)
      modifies this
      ensures expandedIDs == if row.node.children != [] then Toggled(old(expandedIDs), row.id) else old(expandedIDs)
      ensures selectedPath == SelectedAfter(row.node, old(selectedPath))
    {
      if row.node.children != [] {
        ToggleExpansion(row.id);
      }
      Select(row.node);
    }
  }
}
