/** The workflow canvas: the editor's state, the derived flags, dropping a
    block from the palette onto the canvas, and saving the workflow. */
module Editor {

  import opened Wrappers
  import opened Strings
  import opened Types
  import opened ErrorKeys

  /** The editor's shared state. `activeItem` is the block being dragged. */
  datatype EditorState = EditorState(
    nodes: seq<Node>,
    edges: seq<Edge>,
    showSaveDialog: bool,
    workflowErrors: seq<string>,
    activeItem: Option<string>)

  /** The state the editor starts in: an empty canvas, no errors, no
      dialog, nothing dragged. */
  const InitialState := EditorState([], [], false, [], None)

  const StartPrefix := "start"
  const EndPrefix := "end"
  const OneStartMessage := "Only one Start Block is allowed"
  const OneEndMessage := "Only one End Block is allowed"

  // ---------------------------------------------------------------- derived flags

  /** `hasNodes`. An empty canvas has neither a start nor an end node. */
  predicate HasNodes(st: EditorState)
    ensures !HasNodes(st) ==> !HasStartNode(st) && !HasEndNode(st)
  {
    |st.nodes| > 0
  }

  /** Some node's id starts with `prefix`. */
  predicate HasNodeWithPrefix(nodes: seq<Node>, prefix: string)
    ensures HasNodeWithPrefix(nodes, prefix) <==> exists i :: 0 <= i < |nodes| && StartsWith(nodes[i].id, prefix)
  {
    if |nodes| == 0 then false
    else
      assert forall i :: 1 <= i < |nodes| ==> nodes[i] == nodes[1..][i - 1];
      StartsWith(nodes[0].id, prefix) || HasNodeWithPrefix(nodes[1..], prefix)
  }

  /** `hasStartNode`: judged by node id, not node type. */
  predicate HasStartNode(st: EditorState) {
    HasNodeWithPrefix(st.nodes, StartPrefix)
  }

  /** `hasEndNode`. */
  predicate HasEndNode(st: EditorState) {
    HasNodeWithPrefix(st.nodes, EndPrefix)
  }

  /** The number of nodes whose id starts with `prefix`. */
  function CountWithPrefix(nodes: seq<Node>, prefix: string): (n: nat)
    ensures n <= |nodes|
    ensures n == 0 <==> !HasNodeWithPrefix(nodes, prefix)
  {
    if |nodes| == 0 then 0
    else (if StartsWith(nodes[0].id, prefix) then 1 else 0) + CountWithPrefix(nodes[1..], prefix)
  }

  lemma {:induction false} CountAppend(nodes: seq<Node>, n: Node, prefix: string)
    ensures CountWithPrefix(nodes + [n], prefix) ==
              CountWithPrefix(nodes, prefix) + (if StartsWith(n.id, prefix) then 1 else 0)
  {
    if |nodes| == 0 {
      assert nodes + [n] == [n];
      assert [n][1..] == [];
    } else {
      CountAppend(nodes[1..], n, prefix);
      assert (nodes + [n])[1..] == nodes[1..] + [n];
    }
  }

  // ---------------------------------------------------------------- drag and drop

  /** `handleDragStart`: the dragged block becomes the active item. */
  function HandleDragStart(st: EditorState, activeId: string): (r: EditorState)
    ensures r.activeItem == Some(activeId) && r == st.(activeItem := r.activeItem)
  {
    st.(activeItem := Some(activeId))
  }

  /** The id of a dropped node: the block id itself on an empty canvas,
      else the block id, `_`, and one more than the node count. */
  function NewNodeId(st: EditorState, blockId: string): (r: string)
    ensures !HasNodes(st) ==> r == blockId
    ensures HasNodes(st) ==> r == blockId + "_" + DecimalString(|st.nodes| + 1)
    ensures r == NodeIdOf(blockId, if HasNodes(st) then Some(|st.nodes| + 1) else None)
    ensures forall p :: '_' !in p ==> (StartsWith(r, p) <==> StartsWith(blockId, p))
  {
    if HasNodes(st) then
      var r := blockId + "_" + DecimalString(|st.nodes| + 1);
      forall p | '_' !in p ensures StartsWith(r, p) <==> StartsWith(blockId, p) {
        StartsWithSeparated(blockId, '_', DecimalString(|st.nodes| + 1), p);
        if StartsWith(blockId, p) {
          StartsWithAppend(blockId, "_" + DecimalString(|st.nodes| + 1), p);
          assert blockId + ("_" + DecimalString(|st.nodes| + 1)) == r;
        }
      }
      r
    else blockId
  }

  /** The label of a dropped node. */
  function BlockLabel(blockId: string): (r: string)
    ensures StartsWith(blockId, StartPrefix) ==> r == "Start"
    ensures !StartsWith(blockId, StartPrefix) && StartsWith(blockId, EndPrefix) ==> r == "End"
    ensures !StartsWith(blockId, StartPrefix) && !StartsWith(blockId, EndPrefix) ==> r == "New Node"
  {
    if StartsWith(blockId, StartPrefix) then "Start"
    else if StartsWith(blockId, EndPrefix) then "End"
    else "New Node"
  }

  /** The node a drop creates: the new id, the block id as its type, the
      drop position, and a payload with the block's label, the block id as
      its type and an empty field list. */
  function DroppedNode(st: EditorState, blockId: string, position: Position): (r: Node)
    ensures r.id == NewNodeId(st, blockId) && r.nodeType == blockId && r.position == position
    ensures r.data.fields == Some([]) && r.data.blockType == Some(blockId)
    ensures r.data.labelText == Some(BlockLabel(blockId)) && r.data.customName == None
    ensures StartsWith(r.id, StartPrefix) <==> StartsWith(blockId, StartPrefix)
  {
    Node(NewNodeId(st, blockId), blockId, position,
         NodeData(Some(BlockLabel(blockId)), None, Some([]), Some(blockId)))
  }

  /** `[...errors, message]` unless `message` is already listed. */
  function AddOnce(errors: seq<string>, message: string): (r: seq<string>)
    ensures message in r
    ensures forall m :: m in r <==> m in errors || m == message
    ensures message in errors ==> r == errors
    ensures message !in errors ==> r == errors + [message]
  {
    if message in errors then errors else errors + [message]
  }

  /** `handleDragEnd`. A second start block, or a second end block, is
      refused with its message (listed once) and nothing else changes; the
      start check comes first. Without a drop target nothing happens.
      Otherwise one node is appended, built from the block id, and the
      active item is cleared. The drop position is a parameter because the
      model has no geometry. */
  function HandleDragEnd(st: EditorState, blockId: string, hasDropTarget: bool, position: Position)
    : (r: EditorState)
    ensures HasStartNode(st) && StartsWith(blockId, StartPrefix) ==>
              r == st.(workflowErrors := AddOnce(st.workflowErrors, OneStartMessage))
    ensures !(HasStartNode(st) && StartsWith(blockId, StartPrefix)) && HasEndNode(st) && StartsWith(blockId, EndPrefix) ==>
              r == st.(workflowErrors := AddOnce(st.workflowErrors, OneEndMessage))
    ensures r.nodes != st.nodes ==>
              && !(HasStartNode(st) && StartsWith(blockId, StartPrefix))
              && !(HasEndNode(st) && StartsWith(blockId, EndPrefix))
              && hasDropTarget
              && r == st.(nodes := st.nodes + [DroppedNode(st, blockId, position)], activeItem := None)
    ensures !hasDropTarget ==> r.nodes == st.nodes && r.activeItem == st.activeItem
    ensures !(HasStartNode(st) && StartsWith(blockId, StartPrefix)) && !(HasEndNode(st) && StartsWith(blockId, EndPrefix))
            ==> r == (if hasDropTarget then st.(nodes := st.nodes + [DroppedNode(st, blockId, position)], activeItem := None)
                      else st)
    ensures r.edges == st.edges && r.showSaveDialog == st.showSaveDialog
  {
    if HasStartNode(st) && StartsWith(blockId, StartPrefix) then
      st.(workflowErrors := AddOnce(st.workflowErrors, OneStartMessage))
    else if HasEndNode(st) && StartsWith(blockId, EndPrefix) then
      st.(workflowErrors := AddOnce(st.workflowErrors, OneEndMessage))
    else if !hasDropTarget then st
    else st.(nodes := st.nodes + [DroppedNode(st, blockId, position)], activeItem := None)
  }

  /** A drop onto the canvas that is not refused adds the block. */
  lemma DropAccepted(st: EditorState, blockId: string, position: Position)
    requires !(HasStartNode(st) && StartsWith(blockId, StartPrefix))
    requires !(HasEndNode(st) && StartsWith(blockId, EndPrefix))
    ensures var r := HandleDragEnd(st, blockId, true, position);
            |r.nodes| == |st.nodes| + 1 && r.nodes[..|st.nodes|] == st.nodes
            && r.nodes[|st.nodes|].nodeType == blockId && r.activeItem == None
            && r.workflowErrors == st.workflowErrors && r.edges == st.edges && r.showSaveDialog == st.showSaveDialog
  {
    var r := HandleDragEnd(st, blockId, true, position);
    assert r.nodes == st.nodes + [DroppedNode(st, blockId, position)];
  }

  /** Drops keep the canvas to at most one node whose id starts with
      `start`, and at most one whose id starts with `end`. */
  lemma DragEndKeepsSingleStartAndEnd(st: EditorState, blockId: string, hasDropTarget: bool, position: Position)
    requires CountWithPrefix(st.nodes, StartPrefix) <= 1 && CountWithPrefix(st.nodes, EndPrefix) <= 1
    ensures var r := HandleDragEnd(st, blockId, hasDropTarget, position);
            CountWithPrefix(r.nodes, StartPrefix) <= 1 && CountWithPrefix(r.nodes, EndPrefix) <= 1
  {
    var r := HandleDragEnd(st, blockId, hasDropTarget, position);
    if r.nodes != st.nodes {
      var n := DroppedNode(st, blockId, position);
      CountAppend(st.nodes, n, StartPrefix);
      CountAppend(st.nodes, n, EndPrefix);
      assert StartsWith(n.id, StartPrefix) <==> StartsWith(blockId, StartPrefix);
      assert StartsWith(n.id, EndPrefix) <==> StartsWith(blockId, EndPrefix);
    }
  }

  /** Once a start block is on the canvas, dropping another start block is
      refused and lists the message. */
  lemma SecondStartRefused(st: EditorState, position: Position, position2: Position)
    requires !HasStartNode(st)
    ensures var r := HandleDragEnd(st, "start", true, position);
            var r2 := HandleDragEnd(r, "start", true, position2);
            r2.nodes == r.nodes && OneStartMessage in r2.workflowErrors
  {
    var r := HandleDragEnd(st, "start", true, position);
    assert StartsWith("start", StartPrefix);
    assert !StartsWith("start", EndPrefix) by { assert "start"[..3][0] == 's' && EndPrefix[0] == 'e'; }
    var n := DroppedNode(st, "start", position);
    assert StartsWith(n.id, StartPrefix);
    assert r.nodes == st.nodes + [n];
    assert r.nodes[|st.nodes|] == n;
  }

  /** The number of times `m` is listed. */
  function Occurrences(s: seq<string>, m: string): (n: nat)
    ensures n == 0 <==> m !in s
  {
    if |s| == 0 then 0
    else (if s[0] == m then 1 else 0) + Occurrences(s[1..], m)
  }

  lemma {:induction false} OccurrencesAppend(s: seq<string>, x: string, m: string)
    ensures Occurrences(s + [x], m) == Occurrences(s, m) + (if x == m then 1 else 0)
  {
    if |s| == 0 {
      assert s + [x] == [x];
      assert [x][1..] == [];
    } else {
      OccurrencesAppend(s[1..], x, m);
      assert (s + [x])[1..] == s[1..] + [x];
    }
  }

  /** Repeated refused drops never list a message twice. */
  lemma RefusalMessagesListedOnce(st: EditorState, blockId: string, hasDropTarget: bool, position: Position, m: string)
    requires m == OneStartMessage || m == OneEndMessage
    requires Occurrences(st.workflowErrors, m) <= 1
    ensures Occurrences(HandleDragEnd(st, blockId, hasDropTarget, position).workflowErrors, m) <= 1
  {
    var r := HandleDragEnd(st, blockId, hasDropTarget, position);
    if r.workflowErrors != st.workflowErrors {
      var added := if HasStartNode(st) && StartsWith(blockId, StartPrefix) then OneStartMessage else OneEndMessage;
      assert added !in st.workflowErrors;
      assert r.workflowErrors == st.workflowErrors + [added];
      OccurrencesAppend(st.workflowErrors, added, m);
    }
  }

  // ---------------------------------------------------------------- save

  /** The configuration `handleSave` logs. The creation time is left out. */
  datatype WorkflowConfig = WorkflowConfig(nodes: seq<Node>, edges: seq<Edge>, name: string, version: string)

  const WorkflowName := "Sample Workflow"
  const WorkflowVersion := "1.0.0"

  /** `handleSave`: every node is projected to its id, type, position and
      payload, and every edge to its id, ends and label — exactly the fields
      the model keeps, so both lists come out as they are — under the fixed
      name and version; the save dialog opens and nothing else changes. */
  function HandleSave(st: EditorState): (r: (WorkflowConfig, EditorState))
    ensures r.0.nodes == st.nodes && r.0.edges == st.edges
    ensures r.0.name == WorkflowName && r.0.version == WorkflowVersion
    ensures r.1 == st.(showSaveDialog := true)
  {
    (WorkflowConfig(Project(st.nodes), st.edges, WorkflowName, WorkflowVersion), st.(showSaveDialog := true))
  }

  /** `nodes.map(n => ({ id, type, position, data }))`. */
  function Project(nodes: seq<Node>): (r: seq<Node>)
    ensures r == nodes
  {
    if |nodes| == 0 then []
    else [Node(nodes[0].id, nodes[0].nodeType, nodes[0].position, nodes[0].data)] + Project(nodes[1..])
  }

  /** The initial editor has no nodes, no start and no end node. */
  lemma InitialFlags()
    ensures !HasNodes(InitialState) && !HasStartNode(InitialState) && !HasEndNode(InitialState)
    ensures InitialState.activeItem == None && !InitialState.showSaveDialog && InitialState.workflowErrors == []
  {
  }
}
