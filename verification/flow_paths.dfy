/** The upstream form-field resolver of the API block form: a backward
    depth-first search from the API node over the edge list, then the
    fields of the form nodes the search passed through. */
module FlowPaths {

  import opened Wrappers
  import opened Strings
  import opened Seqs
  import opened Types

  // ---------------------------------------------------------------- graph vocabulary

  /** `edges.filter(edge => edge.target === id)`. */
  function Incoming(edges: seq<Edge>, id: string): (r: seq<Edge>)
    ensures forall e :: e in r <==> e in edges && e.target == id
  {
    var keep := (e: Edge) => e.target == id;
    FilterMembers(edges, keep);
    Filter(edges, keep)
  }

  /** Some edge runs from `s` to `t`. */
  predicate HasEdge(edges: seq<Edge>, s: string, t: string) {
    exists e :: e in edges && e.source == s && e.target == t
  }

  /** No edge ends at `n`. */
  predicate IsRoot(edges: seq<Edge>, n: string) {
    forall e :: e in edges ==> e.target != n
  }

  /** Each id of `p` is joined to the next by an edge. */
  predicate Linked(edges: seq<Edge>, p: seq<string>)
    decreases |p|
  {
    |p| <= 1 || (HasEdge(edges, p[0], p[1]) && Linked(edges, p[1..]))
  }

  /** No id occurs twice in `p`. */
  predicate Simple(p: seq<string>)
    decreases |p|
  {
    |p| == 0 || (p[0] !in p[1..] && Simple(p[1..]))
  }

  lemma {:induction false} LinkedMeans(edges: seq<Edge>, p: seq<string>)
    ensures Linked(edges, p) <==> forall i :: 0 <= i < |p| - 1 ==> HasEdge(edges, p[i], p[i + 1])
    decreases |p|
  {
    if |p| > 1 {
      LinkedMeans(edges, p[1..]);
      assert forall i :: 1 <= i < |p| - 1 ==> p[1..][i - 1] == p[i] && p[1..][i] == p[i + 1];
    }
  }

  lemma {:induction false} SimpleMeans(p: seq<string>)
    ensures Simple(p) <==> forall i, j :: 0 <= i < j < |p| ==> p[i] != p[j]
    decreases |p|
  {
    if |p| > 0 {
      SimpleMeans(p[1..]);
      assert forall i :: 1 <= i < |p| ==> p[1..][i - 1] == p[i];
      if p[0] in p[1..] {
        var j :| 1 <= j < |p| && p[j] == p[0];
      }
    }
  }

  /** `p` is a chain of edges ending at `target`. */
  predicate ChainTo(edges: seq<Edge>, p: seq<string>, target: string) {
    |p| >= 1 && p[|p| - 1] == target && Linked(edges, p)
  }

  /** `p` is a flow path to `target`: a chain without repeats that starts at
      a node nothing leads into. */
  predicate FlowPath(edges: seq<Edge>, p: seq<string>, target: string) {
    ChainTo(edges, p, target) && IsRoot(edges, p[0]) && Simple(p)
  }

  predicate AllFlowPaths(edges: seq<Edge>, paths: seq<seq<string>>, target: string) {
    forall k :: 0 <= k < |paths| ==> FlowPath(edges, paths[k], target)
  }

  /** No two paths start at the same id. */
  predicate DistinctRoots(paths: seq<seq<string>>) {
    forall i, j :: 0 <= i < j < |paths| && |paths[i]| > 0 && |paths[j]| > 0 ==> paths[i][0] != paths[j][0]
  }

  /** Every root from which a chain of edges leads to `target` starts one of `paths`. */
  ghost predicate CoversRoots(edges: seq<Edge>, paths: seq<seq<string>>, target: string) {
    forall q :: ChainTo(edges, q, target) && IsRoot(edges, q[0]) ==>
      exists k :: 0 <= k < |paths| && |paths[k]| > 0 && paths[k][0] == q[0]
  }

  /** The first ids of the non-empty paths. */
  function Heads(paths: seq<seq<string>>): set<string> {
    if |paths| == 0 then {}
    else
      var last := paths[|paths| - 1];
      Heads(paths[..|paths| - 1]) + (if |last| > 0 then {last[0]} else {})
  }

  lemma {:induction false} HeadsMeans(paths: seq<seq<string>>, x: string)
    ensures x in Heads(paths) <==> exists k :: 0 <= k < |paths| && |paths[k]| > 0 && paths[k][0] == x
  {
    if |paths| > 0 {
      var init := paths[..|paths| - 1];
      HeadsMeans(init, x);
      assert forall k :: 0 <= k < |init| ==> init[k] == paths[k];
    }
  }

  // ---------------------------------------------------------------- findFlowPaths

  /** An entry of the search stack: a node to expand and the path from it to the target. */
  datatype Frame = Frame(nodeId: string, path: seq<string>)

  /** The node ids of the frames on the stack. */
  function StackIds(stack: seq<Frame>): set<string> {
    if |stack| == 0 then {} else StackIds(stack[..|stack| - 1]) + {stack[|stack| - 1].nodeId}
  }

  /** A frame's path starts at its node, is a simple chain to the target,
      and all of it but its first id has been expanded already. */
  predicate FrameOk(edges: seq<Edge>, target: string, visited: set<string>, f: Frame) {
    && ChainTo(edges, f.path, target)
    && f.path[0] == f.nodeId
    && Simple(f.path)
    && forall x :: x in f.path[1..] ==> x in visited
  }

  predicate FramesOk(edges: seq<Edge>, target: string, visited: set<string>, stack: seq<Frame>) {
    forall k :: 0 <= k < |stack| ==> FrameOk(edges, target, visited, stack[k])
  }

  /** The search's working state: expanded ids, the stack, the paths emitted. */
  datatype SearchState = SearchState(visited: set<string>, stack: seq<Frame>, paths: seq<seq<string>>)

  /** What holds between iterations of the worklist loop. */
  ghost predicate SearchInv(edges: seq<Edge>, target: string, universe: set<string>, st: SearchState) {
    && StackIds(st.stack) <= universe
    && FramesOk(edges, target, st.visited, st.stack)
    && AllFlowPaths(edges, st.paths, target)
    && Heads(st.paths) <= st.visited
    && DistinctRoots(st.paths)
    && target in st.visited + StackIds(st.stack)
    && (forall e :: e in edges && e.target in st.visited ==> e.source in st.visited + StackIds(st.stack))
    && (forall v :: v in st.visited && IsRoot(edges, v) ==> v in Heads(st.paths))
    && (IsRoot(edges, target) ==>
          (st.visited == {} && st.stack == [Frame(target, [target])] && st.paths == [])
          || (st.stack == [] && st.paths == [[target]]))
  }

  /** `findFlowPaths(targetId)`: `[]` when the target id is missing or empty
      or the edge list is missing; otherwise every path returned is a simple
      chain of edges from a root to the target, no two start at the same
      root, every root that leads to the target starts one of them, and a
      target nothing leads into gives exactly `[[target]]`. */
  method FindFlowPaths(targetId: Option<string>, edges: Option<seq<Edge>>) returns (paths: seq<seq<string>>)
    ensures targetId == None || targetId == Some("") || edges == None ==> paths == []
    ensures targetId.Some? && targetId.value != "" && edges.Some? ==>
              && AllFlowPaths(edges.value, paths, targetId.value)
              && DistinctRoots(paths)
              && CoversRoots(edges.value, paths, targetId.value)
              && (IsRoot(edges.value, targetId.value) ==> paths == [[targetId.value]])
  {
    if targetId == None || targetId == Some("") || edges == None {
      return [];
    }
    paths := Search(targetId.value, edges.value);
  }

  /** The worklist loop of `findFlowPaths` for a present target and edge list. */
  method Search(target: string, edges: seq<Edge>) returns (paths: seq<seq<string>>)
    ensures AllFlowPaths(edges, paths, target)
    ensures DistinctRoots(paths)
    ensures CoversRoots(edges, paths, target)
    ensures IsRoot(edges, target) ==> paths == [[target]]
  {
    ghost var universe := {target} + set e | e in edges :: e.source;
    assert forall e :: e in edges ==> e.source in universe;
    var st := SearchState({}, [Frame(target, [target])], []);
    assert StackIds(st.stack) == {target};
    assert [target][1..] == [];
    assert FrameOk(edges, target, {}, st.stack[0]);
    while |st.stack| > 0
      invariant SearchInv(edges, target, universe, st)
      decreases universe - st.visited, |st.stack|
    {
      st := Step(edges, target, universe, st);
    }
    ChainsInsideVisited(edges, st.visited, target);
    forall q | ChainTo(edges, q, target) && IsRoot(edges, q[0])
      ensures exists k :: 0 <= k < |st.paths| && |st.paths[k]| > 0 && st.paths[k][0] == q[0]
    {
      HeadsMeans(st.paths, q[0]);
    }
    paths := st.paths;
  }

  /** One iteration: pop a frame; skip it if its node was expanded already;
      otherwise expand it, emitting its path if nothing leads into the node
      and pushing a frame per unexpanded source otherwise. */
  method Step(edges: seq<Edge>, target: string, ghost universe: set<string>, st: SearchState)
    returns (st': SearchState)
    requires forall e :: e in edges ==> e.source in universe
    requires |st.stack| > 0 && SearchInv(edges, target, universe, st)
    ensures SearchInv(edges, target, universe, st')
    ensures universe - st'.visited < universe - st.visited
            || (st'.visited == st.visited && |st'.stack| < |st.stack|)
  {
    var f := st.stack[|st.stack| - 1];
    var rest := st.stack[..|st.stack| - 1];
    assert StackIds(st.stack) == StackIds(rest) + {f.nodeId};
    assert FramesOk(edges, target, st.visited, rest);
    if f.nodeId in st.visited {
      st' := st.(stack := rest);
    } else {
      var visited := st.visited + {f.nodeId};
      assert FrameOk(edges, target, st.visited, f);
      var incoming := Incoming(edges, f.nodeId);
      if |incoming| == 0 {
        st' := EmitRoot(edges, target, universe, st, f, rest);
      } else {
        assert incoming[0] in edges;
        var stack := PushSources(edges, target, visited, universe, rest, f, incoming);
        st' := SearchState(visited, stack, st.paths);
        forall e | e in edges && e.target in visited
          ensures e.source in visited + StackIds(stack)
        {
          if e.target == f.nodeId {
            assert e in incoming;
            var j :| 0 <= j < |incoming| && incoming[j] == e;
          }
        }
      }
    }
  }

  /** Expanding a node nothing leads into emits its frame's path. */
  method EmitRoot(edges: seq<Edge>, target: string, ghost universe: set<string>, st: SearchState,
                  f: Frame, rest: seq<Frame>)
    returns (st': SearchState)
    requires |st.stack| > 0 && f == st.stack[|st.stack| - 1] && rest == st.stack[..|st.stack| - 1]
    requires SearchInv(edges, target, universe, st)
    requires StackIds(st.stack) == StackIds(rest) + {f.nodeId}
    requires FramesOk(edges, target, st.visited, rest) && FrameOk(edges, target, st.visited, f)
    requires f.nodeId !in st.visited && IsRoot(edges, f.nodeId)
    ensures st' == SearchState(st.visited + {f.nodeId}, rest, st.paths + [f.path])
    ensures SearchInv(edges, target, universe, st')
  {
    st' := SearchState(st.visited + {f.nodeId}, rest, st.paths + [f.path]);
    EmitRootStack(edges, target, universe, st, f, rest, st');
    EmitRootPaths(edges, target, universe, st, f, rest, st');
    EmitRootClosure(edges, target, universe, st, f, rest, st');
  }

  lemma EmitRootStack(edges: seq<Edge>, target: string, universe: set<string>, st: SearchState, f: Frame, rest: seq<Frame>, st': SearchState)
    requires |st.stack| > 0 && f == st.stack[|st.stack| - 1] && rest == st.stack[..|st.stack| - 1]
    requires SearchInv(edges, target, universe, st)
    requires StackIds(st.stack) == StackIds(rest) + {f.nodeId}
    requires FramesOk(edges, target, st.visited, rest) && FrameOk(edges, target, st.visited, f)
    requires f.nodeId !in st.visited && IsRoot(edges, f.nodeId)
    requires st' == SearchState(st.visited + {f.nodeId}, rest, st.paths + [f.path])
    ensures StackIds(st'.stack) <= universe
    ensures FramesOk(edges, target, st'.visited, st'.stack)
    ensures target in st'.visited + StackIds(st'.stack)
  {
  }

  lemma EmitRootPaths(edges: seq<Edge>, target: string, universe: set<string>, st: SearchState, f: Frame, rest: seq<Frame>, st': SearchState)
    requires |st.stack| > 0 && f == st.stack[|st.stack| - 1] && rest == st.stack[..|st.stack| - 1]
    requires SearchInv(edges, target, universe, st)
    requires StackIds(st.stack) == StackIds(rest) + {f.nodeId}
    requires FramesOk(edges, target, st.visited, rest) && FrameOk(edges, target, st.visited, f)
    requires f.nodeId !in st.visited && IsRoot(edges, f.nodeId)
    requires st' == SearchState(st.visited + {f.nodeId}, rest, st.paths + [f.path])
    ensures AllFlowPaths(edges, st'.paths, target)
    ensures Heads(st'.paths) <= st'.visited
    ensures DistinctRoots(st'.paths)
  {
    assert Heads(st'.paths) == Heads(st.paths) + {f.nodeId} by {
      assert st'.paths[..|st'.paths| - 1] == st.paths;
    }
    forall i, j | 0 <= i < j < |st'.paths| && |st'.paths[i]| > 0 && |st'.paths[j]| > 0
      ensures st'.paths[i][0] != st'.paths[j][0]
    {
      if j == |st.paths| {
        HeadsMeans(st.paths, st'.paths[i][0]);
      }
    }
  }

  lemma EmitRootClosure(edges: seq<Edge>, target: string, universe: set<string>, st: SearchState, f: Frame, rest: seq<Frame>, st': SearchState)
    requires |st.stack| > 0 && f == st.stack[|st.stack| - 1] && rest == st.stack[..|st.stack| - 1]
    requires SearchInv(edges, target, universe, st)
    requires StackIds(st.stack) == StackIds(rest) + {f.nodeId}
    requires FramesOk(edges, target, st.visited, rest) && FrameOk(edges, target, st.visited, f)
    requires f.nodeId !in st.visited && IsRoot(edges, f.nodeId)
    requires st' == SearchState(st.visited + {f.nodeId}, rest, st.paths + [f.path])
    ensures forall e :: e in edges && e.target in st'.visited ==> e.source in st'.visited + StackIds(st'.stack)
    ensures forall v :: v in st'.visited && IsRoot(edges, v) ==> v in Heads(st'.paths)
    ensures IsRoot(edges, target) ==> st'.stack == [] && st'.paths == [[target]]
  {
    assert Heads(st'.paths) == Heads(st.paths) + {f.nodeId} by {
      assert st'.paths[..|st'.paths| - 1] == st.paths;
    }
  }

  /** The inner loop of `findFlowPaths`: push a frame for each source of an
      incoming edge of the frame just expanded that is not expanded yet. */
  method PushSources(edges: seq<Edge>, target: string, visited: set<string>, ghost universe: set<string>,
                     stack0: seq<Frame>, f: Frame, incoming: seq<Edge>)
    returns (stack: seq<Frame>)
    requires f.nodeId in visited && FrameOk(edges, target, visited - {f.nodeId}, f)
    requires FramesOk(edges, target, visited - {f.nodeId}, stack0)
    requires forall e :: e in incoming ==> e in edges && e.target == f.nodeId
    requires forall e :: e in edges ==> e.source in universe
    ensures FramesOk(edges, target, visited, stack)
    ensures StackIds(stack0) <= StackIds(stack) <= StackIds(stack0) + universe
    ensures forall j :: 0 <= j < |incoming| ==> incoming[j].source in visited + StackIds(stack)
  {
    stack := stack0;
    var k := 0;
    while k < |incoming|
      invariant 0 <= k <= |incoming|
      invariant FramesOk(edges, target, visited, stack)
      invariant StackIds(stack0) <= StackIds(stack) <= StackIds(stack0) + universe
      invariant forall j :: 0 <= j < k ==> incoming[j].source in visited + StackIds(stack)
    {
      var src := incoming[k].source;
      if src !in visited {
        var g := Frame(src, [src] + f.path);
        ExtendFrame(edges, target, visited, f, incoming[k]);
        PushFrame(edges, target, visited, stack, g);
        stack := stack + [g];
      }
      k := k + 1;
    }
  }

  /** Prefixing the source of an edge into the frame just expanded gives a
      well-formed frame, provided the source is not expanded yet. */
  lemma ExtendFrame(edges: seq<Edge>, target: string, visited: set<string>, f: Frame, e: Edge)
    requires f.nodeId in visited && FrameOk(edges, target, visited - {f.nodeId}, f)
    requires e in edges && e.target == f.nodeId && e.source !in visited
    ensures FrameOk(edges, target, visited, Frame(e.source, [e.source] + f.path))
  {
    var p := [e.source] + f.path;
    assert p[1..] == f.path;
    assert HasEdge(edges, p[0], p[1]);
    forall x | x in f.path ensures x in visited {
      assert f.path == [f.path[0]] + f.path[1..];
    }
  }

  lemma PushFrame(edges: seq<Edge>, target: string, visited: set<string>, stack: seq<Frame>, g: Frame)
    requires FramesOk(edges, target, visited, stack) && FrameOk(edges, target, visited, g)
    ensures FramesOk(edges, target, visited, stack + [g])
    ensures StackIds(stack + [g]) == StackIds(stack) + {g.nodeId}
  {
    assert (stack + [g])[..|stack|] == stack;
  }

  /** Once expansion is closed under incoming edges, every chain to the
      target starts inside the expanded set. */
  lemma ChainsInsideVisited(edges: seq<Edge>, visited: set<string>, target: string)
    requires target in visited
    requires forall e :: e in edges && e.target in visited ==> e.source in visited
    ensures forall q :: ChainTo(edges, q, target) ==> q[0] in visited
  {
    forall q | ChainTo(edges, q, target) ensures q[0] in visited {
      ChainInside(edges, visited, q, target);
    }
  }

  lemma {:induction false} ChainInside(edges: seq<Edge>, visited: set<string>, q: seq<string>, target: string)
    requires target in visited
    requires forall e :: e in edges && e.target in visited ==> e.source in visited
    requires ChainTo(edges, q, target)
    ensures q[0] in visited
    decreases |q|
  {
    if |q| > 1 {
      ChainInside(edges, visited, q[1..], target);
      assert HasEdge(edges, q[0], q[1]);
    }
  }

  // ---------------------------------------------------------------- available form fields

  /** `edges.filter(edge => edge.target === modalData?.id)`: a missing id matches no edge. */
  function EntryEdges(edges: seq<Edge>, modalId: Option<string>): (r: seq<Edge>)
    ensures forall e :: e in r <==> e in edges && modalId == Some(e.target)
  {
    var keep := (e: Edge) => modalId == Some(e.target);
    FilterMembers(edges, keep);
    Filter(edges, keep)
  }

  /** `hasEntryEdge`: some edge ends at the modal's node. */
  predicate HasEntryEdge(edges: seq<Edge>, modalId: Option<string>) {
    |EntryEdges(edges, modalId)| > 0
  }

  /** There is an entry edge exactly when the modal's node is not a root. */
  lemma HasEntryEdgeIff(edges: seq<Edge>, modalId: Option<string>)
    ensures HasEntryEdge(edges, modalId) <==> modalId.Some? && !IsRoot(edges, modalId.value)
  {
    if HasEntryEdge(edges, modalId) {
      assert EntryEdges(edges, modalId)[0] in EntryEdges(edges, modalId);
    }
  }

  /** `paths.flat()`. */
  function Flatten(paths: seq<seq<string>>): (r: seq<string>)
    ensures forall x :: x in r <==> exists k :: 0 <= k < |paths| && x in paths[k]
  {
    if |paths| == 0 then []
    else
      var rest := Flatten(paths[1..]);
      assert forall k :: 1 <= k < |paths| ==> paths[k] == paths[1..][k - 1];
      paths[0] + rest
  }

  /** `previousFormNodes`: the ids on the flow paths that start with `form`. */
  function PreviousFormNodes(paths: seq<seq<string>>): (r: seq<string>)
    ensures forall x :: x in r <==> StartsWith(x, "form") && exists k :: 0 <= k < |paths| && x in paths[k]
  {
    var keep := (x: string) => StartsWith(x, "form");
    FilterMembers(Flatten(paths), keep);
    Filter(Flatten(paths), keep)
  }

  /** The reducer's test: a `form`-typed node whose id is among `previous`. */
  predicate Contributes(n: Node, previous: seq<string>) {
    n.nodeType == "form" && n.id in previous
  }

  /** `node?.data?.fields || []`. */
  function NodeFields(n: Node): seq<FormField> {
    n.data.fields.GetOr([])
  }

  /** `availableFormFields`: `nodes.reduce` appending the fields of each
      contributing node; a field is offered exactly when some contributing
      node holds it. */
  function AvailableFormFields(nodes: seq<Node>, previous: seq<string>): (r: seq<FormField>)
    ensures forall f :: f in r <==>
              exists i :: 0 <= i < |nodes| && Contributes(nodes[i], previous) && f in NodeFields(nodes[i])
    decreases |nodes|
  {
    if |nodes| == 0 then []
    else
      var init, last := nodes[..|nodes| - 1], nodes[|nodes| - 1];
      var acc := AvailableFormFields(init, previous);
      assert forall i :: 0 <= i < |init| ==> init[i] == nodes[i];
      acc + (if Contributes(last, previous) then NodeFields(last) else [])
  }

  /** The fields are gathered in node order: the result for `a + b` is the
      result for `a` followed by the result for `b`. */
  lemma {:induction false} AvailableAppend(a: seq<Node>, b: seq<Node>, previous: seq<string>)
    ensures AvailableFormFields(a + b, previous) == AvailableFormFields(a, previous) + AvailableFormFields(b, previous)
    decreases |b|
  {
    if |b| > 0 {
      var b' := b[..|b| - 1];
      AvailableAppend(a, b', previous);
      assert (a + b)[..|a + b| - 1] == a + b';
      assert (a + b)[|a + b| - 1] == b[|b| - 1];
    } else {
      assert a + b == a;
    }
  }

  /** `hasAvailableFormFields`: some contributing node has a non-empty field
      list; a contributing node with `fields: []` adds nothing. */
  lemma HasAvailableIff(nodes: seq<Node>, previous: seq<string>)
    ensures |AvailableFormFields(nodes, previous)| > 0 <==>
              exists i :: 0 <= i < |nodes| && Contributes(nodes[i], previous) && |NodeFields(nodes[i])| > 0
  {
    var r := AvailableFormFields(nodes, previous);
    if exists i :: 0 <= i < |nodes| && Contributes(nodes[i], previous) && |NodeFields(nodes[i])| > 0 {
      var i :| 0 <= i < |nodes| && Contributes(nodes[i], previous) && |NodeFields(nodes[i])| > 0;
      assert NodeFields(nodes[i])[0] in r;
    }
    if |r| > 0 {
      assert r[0] in r;
    }
  }

  /** With no flow paths no field is offered. */
  lemma {:induction false} NothingPrevious(nodes: seq<Node>)
    ensures AvailableFormFields(nodes, PreviousFormNodes([])) == []
    decreases |nodes|
  {
    assert PreviousFormNodes([]) == [];
    if |nodes| > 0 {
      NothingPrevious(nodes[..|nodes| - 1]);
    }
  }

  /** The resolver as the API block form runs it: the flow paths are only
      computed when an edge enters the API node; the offered fields are
      those of the `form` nodes, with an id starting `form`, that lie on a
      flow path; `hasAvailableFormFields` says whether there are any. */
  method ResolveUpstreamFields(modalId: Option<string>, edges: seq<Edge>, nodes: seq<Node>)
    returns (flowPaths: seq<seq<string>>, fields: seq<FormField>, hasFields: bool)
    ensures !HasEntryEdge(edges, modalId) ==> flowPaths == [] && fields == [] && !hasFields
    ensures HasEntryEdge(edges, modalId) ==> modalId.Some? && !IsRoot(edges, modalId.value)
    ensures HasEntryEdge(edges, modalId) && modalId.Some? && modalId.value != "" ==>
              && AllFlowPaths(edges, flowPaths, modalId.value)
              && CoversRoots(edges, flowPaths, modalId.value)
    ensures forall f :: f in fields <==>
              exists i :: 0 <= i < |nodes| && nodes[i].nodeType == "form" && StartsWith(nodes[i].id, "form")
                && (exists k :: 0 <= k < |flowPaths| && nodes[i].id in flowPaths[k])
                && f in NodeFields(nodes[i])
    ensures fields == AvailableFormFields(nodes, PreviousFormNodes(flowPaths))
    ensures hasFields <==> |fields| > 0
  {
    HasEntryEdgeIff(edges, modalId);
    if HasEntryEdge(edges, modalId) {
      flowPaths := FindFlowPaths(modalId, Some(edges));
    } else {
      flowPaths := [];
      NothingPrevious(nodes);
    }
    var previous := PreviousFormNodes(flowPaths);
    fields := AvailableFormFields(nodes, previous);
    hasFields := |fields| > 0;
  }
}
