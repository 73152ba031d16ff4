/** The call graph read from a disassembly listing in one pass, with each line taken for what the line
    classifiers make of it. */
module CallGraph {
  import opened Wrappers

  type Symbol = string

  /** A call instruction may show its target inline; a relocation line names the target of the
      instruction above it. */
  datatype Line =
    | Header(section: Symbol)
    | Relocation(target: Symbol)
    | Instruction(calls: bool, inline: Option<Symbol>)
    | Blank
    | Other

  datatype Edge = Edge(caller: Symbol, callee: Symbol)

  type Graph = map<Symbol, seq<Symbol>>

  predicate IsCall(line: Line) { line.Instruction? && line.calls }

  // ---- What the graph should be ----

  /** The function whose section line `k` lies in. */
  function OwnerAt(lines: seq<Line>, k: nat): Option<Symbol>
    requires k <= |lines|
  {
    if k == 0 then None
    else if lines[k - 1].Header? then Some(lines[k - 1].section)
    else OwnerAt(lines, k - 1)
  }

  /** The first line from `i` on that the scan reacts to. */
  function NextReal(lines: seq<Line>, i: nat): (j: nat)
    requires i <= |lines|
    ensures i <= j <= |lines| && (j < |lines| ==> !lines[j].Other?)
    ensures forall k :: i <= k < j ==> lines[k].Other?
    decreases |lines| - i
  {
    if i == |lines| || !lines[i].Other? then i else NextReal(lines, i + 1)
  }

  /** A call's target: the relocation that follows it, else the inline target. */
  function TargetOf(lines: seq<Line>, i: nat): Option<Symbol>
    requires i < |lines| && IsCall(lines[i])
  {
    var j := NextReal(lines, i + 1);
    if j < |lines| && lines[j].Relocation? then Some(lines[j].target) else lines[i].inline
  }

  function EdgeAt(lines: seq<Line>, i: nat): seq<Edge>
    requires i < |lines|
  {
    if !IsCall(lines[i]) || OwnerAt(lines, i).None? || TargetOf(lines, i).None? then []
    else [Edge(OwnerAt(lines, i).value, TargetOf(lines, i).value)]
  }

  /** The edges of the calls before line `k`, in order. */
  function EdgesBefore(lines: seq<Line>, k: nat): seq<Edge>
    requires k <= |lines|
  {
    if k == 0 then [] else EdgesBefore(lines, k - 1) + EdgeAt(lines, k - 1)
  }

  /** A graph with an edge added, unless it is there already. */
  function Recorded(g: Graph, e: Edge): Graph {
    var callees := if e.caller in g then g[e.caller] else [];
    if e.callee in callees then g else g[e.caller := callees + [e.callee]]
  }

  function GraphOf(edges: seq<Edge>): Graph {
    if edges == [] then map[] else Recorded(GraphOf(edges[..|edges| - 1]), edges[|edges| - 1])
  }

  predicate HasEdge(g: Graph, caller: Symbol, callee: Symbol) { caller in g && callee in g[caller] }

  /** The graph has exactly the edges of the list, each callee once, and no empty entry. */
  lemma {:induction false} GraphHasTheEdges(edges: seq<Edge>)
    ensures forall f, t :: HasEdge(GraphOf(edges), f, t) <==> Edge(f, t) in edges
    ensures forall f :: f in GraphOf(edges) ==> GraphOf(edges)[f] != [] && NoDuplicates(GraphOf(edges)[f])
  {
    if edges != [] {
      var init, e := edges[..|edges| - 1], edges[|edges| - 1];
      GraphHasTheEdges(init);
      assert edges == init + [e];
      var g, g' := GraphOf(init), GraphOf(edges);
      forall f, t ensures HasEdge(g', f, t) <==> Edge(f, t) in edges {
        assert HasEdge(g', f, t) <==> HasEdge(g, f, t) || Edge(f, t) == e;
      }
    }
  }

  predicate NoDuplicates(s: seq<Symbol>) {
    forall i, j :: 0 <= i < j < |s| ==> s[i] != s[j]
  }

  /** So (f, t) is an edge exactly when some call in f's section has t for its target. */
  lemma EdgeIffSomeCall(lines: seq<Line>, f: Symbol, t: Symbol)
    ensures HasEdge(GraphOf(EdgesBefore(lines, |lines|)), f, t) <==>
              exists i :: 0 <= i < |lines| && IsCall(lines[i]) && OwnerAt(lines, i) == Some(f)
                          && TargetOf(lines, i) == Some(t)
  {
    GraphHasTheEdges(EdgesBefore(lines, |lines|));
    EdgesAreCalls(lines, |lines|, Edge(f, t));
    if Edge(f, t) in EdgesBefore(lines, |lines|) {
      var i: nat :| i < |lines| && EdgeAt(lines, i) == [Edge(f, t)];
      assert IsCall(lines[i]);
    }
    if i: nat :| i < |lines| && IsCall(lines[i]) && OwnerAt(lines, i) == Some(f) && TargetOf(lines, i) == Some(t) {
      assert EdgeAt(lines, i) == [Edge(f, t)];
    }
  }

  lemma {:induction false} EdgesAreCalls(lines: seq<Line>, k: nat, e: Edge)
    requires k <= |lines|
    ensures e in EdgesBefore(lines, k) <==> exists i: nat :: i < k && EdgeAt(lines, i) == [e]
  {
    if k > 0 {
      EdgesAreCalls(lines, k - 1, e);
      assert e in EdgeAt(lines, k - 1) <==> EdgeAt(lines, k - 1) == [e];
    }
  }

  /** No edge comes from a call above the first header. */
  lemma NoEdgeBeforeAHeader(lines: seq<Line>, k: nat)
    requires k <= |lines| && forall i :: 0 <= i < k ==> !lines[i].Header?
    ensures EdgesBefore(lines, k) == []
  {
    if k > 0 {
      NoEdgeBeforeAHeader(lines, k - 1);
      NoOwnerYet(lines, k - 1);
    }
  }

  lemma {:induction false} NoOwnerYet(lines: seq<Line>, k: nat)
    requires k <= |lines| && forall i :: 0 <= i < k ==> !lines[i].Header?
    ensures OwnerAt(lines, k).None?
  {
    if k > 0 { NoOwnerYet(lines, k - 1); }
  }

  // ---- The scan ----

  /** The last line before `k` that the scan reacted to. */
  function LastReal(lines: seq<Line>, k: nat): (r: Option<nat>)
    requires k <= |lines|
    ensures r.Some? ==> r.value < k && !lines[r.value].Other? && forall j :: r.value < j < k ==> lines[j].Other?
    ensures r.None? ==> forall j :: 0 <= j < k ==> lines[j].Other?
  {
    if k == 0 then None else if !lines[k - 1].Other? then Some(k - 1) else LastReal(lines, k - 1)
  }

  /** The call still waiting to learn its target, if the line above is one. */
  function Waiting(lines: seq<Line>, k: nat): (r: Option<nat>)
    requires k <= |lines|
    ensures r.Some? ==> r.value < k && IsCall(lines[r.value])
  {
    var last := LastReal(lines, k);
    if last.Some? && IsCall(lines[last.value]) then last else None
  }

  /** How far the edges are decided: up to the waiting call, else up to here. */
  function Decided(lines: seq<Line>, k: nat): (n: nat)
    requires k <= |lines|
    ensures n <= k
  {
    if Waiting(lines, k).Some? then Waiting(lines, k).value else k
  }

  lemma {:induction false} NoCallsNoEdges(lines: seq<Line>, a: nat, b: nat)
    requires a <= b <= |lines| && forall i :: a <= i < b ==> !IsCall(lines[i])
    ensures EdgesBefore(lines, b) == EdgesBefore(lines, a)
    decreases b
  {
    if a < b { NoCallsNoEdges(lines, a, b - 1); }
  }

  lemma {:induction false} OwnerOverOthers(lines: seq<Line>, a: nat, b: nat)
    requires a <= b <= |lines| && forall i :: a <= i < b ==> !lines[i].Header?
    ensures OwnerAt(lines, b) == OwnerAt(lines, a)
    decreases b
  {
    if a < b { OwnerOverOthers(lines, a, b - 1); }
  }

  lemma NextRealIs(lines: seq<Line>, i: nat, k: nat)
    requires i <= k <= |lines| && (forall j :: i <= j < k ==> lines[j].Other?) && (k < |lines| ==> !lines[k].Other?)
    ensures NextReal(lines, i) == k
  {
  }

  /** The edge that line `k` settles: that of the call waiting for it. */
  function SettledBy(lines: seq<Line>, k: nat): seq<Edge>
    requires k <= |lines|
  {
    var i := Waiting(lines, k);
    if i.None? || OwnerAt(lines, k).None? then []
    else
      var target := if k < |lines| && lines[k].Relocation? then Some(lines[k].target) else lines[i.value].inline;
      if target.None? then [] else [Edge(OwnerAt(lines, k).value, target.value)]
  }

  lemma Settle(lines: seq<Line>, k: nat)
    requires k <= |lines| && (k < |lines| ==> !lines[k].Other?)
    ensures EdgesBefore(lines, k) == EdgesBefore(lines, Decided(lines, k)) + SettledBy(lines, k)
  {
    hide EdgesBefore, NextReal, LastReal, OwnerAt;
    var w := Waiting(lines, k);
    if w.Some? {
      var i := w.value;
      NextRealIs(lines, i + 1, k);
      OwnerOverOthers(lines, i, k);
      NoCallsNoEdges(lines, i + 1, k);
      OneMore(lines, i);
    } else {
      assert EdgesBefore(lines, k) + [] == EdgesBefore(lines, k);
    }
  }

  lemma OneMore(lines: seq<Line>, i: nat)
    requires i < |lines|
    ensures EdgesBefore(lines, i + 1) == EdgesBefore(lines, i) + EdgeAt(lines, i)
  {
  }

  lemma Start(lines: seq<Line>)
    ensures OwnerAt(lines, 0).None? && Waiting(lines, 0).None? && GraphOf(EdgesBefore(lines, 0)) == map[]
  {
  }

  /** What a line changes. */
  lemma Step(lines: seq<Line>, k: nat)
    requires k < |lines|
    ensures OwnerAt(lines, k + 1) == if lines[k].Header? then Some(lines[k].section) else OwnerAt(lines, k)
    ensures Waiting(lines, k + 1) ==
            if lines[k].Other? then Waiting(lines, k) else if IsCall(lines[k]) then Some(k) else None
    ensures !IsCall(lines[k]) ==> EdgesBefore(lines, k + 1) == EdgesBefore(lines, k)
  {
  }

  method Scan(lines: seq<Line>) returns (graph: Graph)
    ensures graph == GraphOf(EdgesBefore(lines, |lines|))
  {
    hide EdgesBefore, OwnerAt, Waiting, GraphOf;
    Start(lines);
    graph := map[];
    var current: Option<Symbol> := None;
    var lastWasCall := false;
    var pending: Option<Symbol> := None;
    var k := 0;
    while k < |lines|
      invariant 0 <= k <= |lines| && current == OwnerAt(lines, k)
      invariant lastWasCall == Waiting(lines, k).Some?
      invariant pending == if lastWasCall then lines[Waiting(lines, k).value].inline else None
      invariant graph == GraphOf(EdgesBefore(lines, Decided(lines, k)))
    {
      if !lines[k].Other? { Settle(lines, k); }
      Step(lines, k);
      match lines[k] {
        case Header(f) =>
          graph := Flush(graph, current, pending, EdgesBefore(lines, Decided(lines, k)));
          current, pending, lastWasCall := Some(f), None, false;
        case Relocation(target) =>
          graph := Flush(graph, current, if lastWasCall then Some(target) else None, EdgesBefore(lines, Decided(lines, k)));
          pending, lastWasCall := None, false;
        case Instruction(calls, inline) =>
          graph := Flush(graph, current, pending, EdgesBefore(lines, Decided(lines, k)));
          pending, lastWasCall := if calls then inline else None, calls;
        case Blank =>
          graph := Flush(graph, current, pending, EdgesBefore(lines, Decided(lines, k)));
          pending, lastWasCall := None, false;
        case Other =>
      }
      k := k + 1;
    }
    Settle(lines, k);
    graph := Flush(graph, current, pending, EdgesBefore(lines, Decided(lines, k)));
  }

  /** Records the edge once both ends are known. */
  method Flush(g: Graph, caller: Option<Symbol>, target: Option<Symbol>, ghost edges: seq<Edge>) returns (r: Graph)
    requires g == GraphOf(edges)
    ensures r == GraphOf(edges + if caller.Some? && target.Some? then [Edge(caller.value, target.value)] else [])
  {
    if caller.Some? && target.Some? {
      ghost var e := Edge(caller.value, target.value);
      assert (edges + [e])[..|edges|] == edges;
      return Recorded(g, Edge(caller.value, target.value));
    }
    assert edges + [] == edges;
    return g;
  }
}
