/** The call graph's operations as methods of the symbol table.  Each one is proved to take the
    graph to the value its specification function gives, and to keep the invariant exactly under
    the condition stated. */
module SymbolTables {
  import opened Common
  import opened CallGraphTypes
  import opened SummaryIds
  import opened EdgePools
  import opened CallSites
  import opened CallGraphSteps
  import opened CallGraphInvariants
  import opened CallGraphDirect
  import opened CallGraphMakeDirect
  import opened CallGraphHeap
  import opened CallSiteHash
  import opened CallGraphLinks
  import opened CallGraphSpeculate
  import opened CallGraphResolve
  import opened CallGraphSettle
  import opened CallGraphDirectHeap
  import opened CallGraphStmts
  import opened CallGraphUpdates
  import opened CallGraphNodes
  import opened CallGraphRemoval
  import opened CallGraphRemovalHeap
  import opened CallGraphOutcomes

  class SymbolTable {
    const pool: EdgePool
    /** The graph value the heap represents, and the call site tables. */
    ghost var graph: Graph
    ghost var tables: Tables

    /** The heap represents the graph, whose lists and edges agree, and all live edges are counted. */
    ghost predicate Linked()
      reads this, pool, graph.nodes.Keys, graph.edges.Keys
    {
      ListsOK(graph) && Complete(graph) && Represents(graph, tables) && pool.Tracks(graph.edges.Keys)
    }

    /** Moreover every call site is well formed, and every table answers like the scan. */
    ghost predicate Valid()
      reads this, pool, graph.nodes.Keys, graph.edges.Keys
    {
      Linked() && WellFormed(graph) && HashesOK(tables, graph)
    }

    constructor ()
      ensures Valid() && graph == Graph(map[], map[]) && fresh(pool)
    {
      pool := new EdgePool();
      graph, tables := Graph(map[], map[]), map[];
    }

    /** cgraph_node::get_edge: the first direct edge of the statement, else its indirect edge,
        whether the table answers or the scan. */
    method GetEdge(n: Node, t: Stmt) returns (e: Edge?)
      requires Valid() && n in graph.nodes
      modifies this`graph, this`tables, n`callSiteHash
      ensures Valid() && graph == old(graph)
      ensures e == Representative(SiteIn(graph, n, t)) && Answers(graph, n, t, e)
    {
      hide Represents, HashesOK, ListsOK, Complete, Answers;
      RepresentativeAnswers(graph, n, t);
      WellFormedScannable(graph, n);
      assert SiteOK(SiteIn(graph, n, t));
      ghost var hs';
      e, hs' := LookUp(n, t, graph, tables);
      Record(graph, hs');
    }

    /** A new edge is counted; g and hs are what the heap represents with it. */
    method Admit(e: Edge, ghost g: Graph, ghost hs: Tables)
      requires Represents(g, hs) && pool.Tracks(graph.edges.Keys)
      requires e !in graph.edges && g.edges.Keys == graph.edges.Keys + {e}
      modifies pool, this`graph, this`tables
      ensures graph == g && tables == hs && Represents(g, hs) && pool.Tracks(g.edges.Keys)
    {
      hide FieldsOK, CalleeLinksOK, CallerLinksOK, NodesOK, EdgePool.Tracks, IdsOK, NoneLost, Allocate, FieldsRep;
      pool.Register(e, graph.edges.Keys);
      graph, tables := g, hs;
    }

    /** The edges an operation has taken out are freed; g and hs are what the heap represents now. */
    method Dismiss(freed: seq<Edge>, ghost g: Graph, ghost hs: Tables)
      requires Represents(g, hs) && pool.Tracks(graph.edges.Keys)
      requires Freed(graph.edges.Keys, g.edges.Keys, freed)
      modifies pool, this`graph, this`tables
      ensures graph == g && tables == hs && Represents(g, hs) && pool.Tracks(g.edges.Keys)
    {
      hide Represents;
      pool.FreeAll(freed, graph.edges.Keys, g.edges.Keys);
      graph, tables := g, hs;
    }

    /** A new function, without calls. */
    method CreateNode(symbol: nat) returns (n: Node)
      requires Valid()
      modifies this
      ensures fresh(n) && n.symbol == symbol && n !in old(graph.nodes)
      ensures graph == AddNode(old(graph), n) && Valid()
    {
      hide HashesOK, SitesOK;
      ghost var g, hs := graph, tables;
      n := new Node(symbol);
      AddNodeHashes(hs, g, n);
      AddNodeRep(g, hs, n);
      Record(AddNode(g, n), hs[n := None]);
    }

    /** What the heap represents by now. */
    ghost method Record(g: Graph, hs: Tables)
      requires Represents(g, hs) && pool.Tracks(g.edges.Keys)
      modifies this`graph, this`tables
      ensures graph == g && tables == hs && Represents(g, hs) && pool.Tracks(g.edges.Keys)
    {
      hide Represents;
      graph, tables := g, hs;
    }

    /** cgraph_node::create_edge. */
    method CreateEdge(caller: Node, callee: Node, t: Stmt, count: int) returns (e: Edge)
      requires Valid() && caller in graph.nodes && callee in graph.nodes && OpenSite(SiteIn(graph, caller, t))
      modifies this, pool, caller`callSiteHash
      modifies graph.nodes.Keys`callees, graph.nodes.Keys`indirectCalls, graph.nodes.Keys`callers
      modifies graph.edges.Keys`prevCallee, graph.edges.Keys`nextCallee
      modifies graph.edges.Keys`prevCaller, graph.edges.Keys`nextCaller
      ensures fresh(e) && e !in old(graph.edges) && e.caller == caller
      ensures graph == CallGraphSteps.CreateEdge(old(graph), e, callee, t, count)
      ensures graph.edges == old(graph).edges[e := EdgeRec(callee, t, false, false, 0, count, None)]
      ensures Linked() && HashesOK(tables, graph)
      ensures Valid() <==> EmptySite(SiteIn(old(graph), caller, t))
    {
      hide Represents, HashesOK, ListsOK, Complete, SitesOK, NodeScannable, Entered, OpenSite, EmptySite;
      ghost var g := graph;
      WellFormedScannable(g, caller);
      ghost var hs';
      e, hs' := LinkNewEdge(caller, callee, t, count, g, tables);
      NewEdgeFields(g, e, callee, t, count);
      CreateEdgeEffect(hs', g, e, callee, t, count);
      CreateEdgeKeeps(g, e, callee, t, count);
      Admit(e, CallGraphSteps.CreateEdge(g, e, callee, t, count), hs');
    }

    /** cgraph_node::create_indirect_edge. */
    method CreateIndirectEdge(caller: Node, t: Stmt, count: int) returns (e: Edge)
      requires Valid() && caller in graph.nodes
      requires EmptySite(SiteIn(graph, caller, t)) || SpeculativeSite(SiteIn(graph, caller, t))
      modifies this, pool, caller`callSiteHash
      modifies graph.nodes.Keys`callees, graph.nodes.Keys`indirectCalls
      modifies graph.edges.Keys`prevCallee, graph.edges.Keys`nextCallee
      ensures fresh(e) && e !in old(graph.edges) && e.caller == caller
      ensures graph == CallGraphSteps.CreateIndirectEdge(old(graph), e, t, count)
      ensures graph.edges == old(graph).edges[e := EdgeRec(null, t, false, true, 0, count, Some(0))]
      ensures Linked() && HashesOK(tables, graph)
      ensures Valid() <==> EmptySite(SiteIn(old(graph), caller, t))
    {
      hide Represents, HashesOK, ListsOK, Complete, SitesOK, NodeScannable, EnteredAs, EmptySite, SpeculativeSite;
      ghost var g := graph;
      WellFormedScannable(g, caller);
      ghost var hs';
      e, hs' := LinkNewIndirectEdge(caller, t, count, g, tables);
      CreateIndirectEdgeEffect(hs', g, e, t, count);
      CreateIndirectEdgeKeeps(g, e, t, count);
      Admit(e, CallGraphSteps.CreateIndirectEdge(g, e, t, count), hs');
    }

    /** cgraph_edge::make_speculative. */
    method MakeSpeculative(x: Edge, target: Node, count: int, id: nat) returns (d: Edge)
      requires Valid() && x in graph.edges && graph.edges[x].indirect && target in graph.nodes
      requires x.caller in graph.nodes
      modifies this, pool, x.caller`callSiteHash, x.caller`references
      modifies graph.nodes.Keys`callees, graph.nodes.Keys`indirectCalls, graph.nodes.Keys`callers
      modifies graph.edges.Keys`prevCallee, graph.edges.Keys`nextCallee
      modifies graph.edges.Keys`prevCaller, graph.edges.Keys`nextCaller
      modifies x`speculative, x`indirectInfo, x`count
      ensures fresh(d) && d !in old(graph.edges) && d.caller == x.caller
      ensures graph == CallGraphSteps.MakeSpeculative(old(graph), x, d, target, count, id)
      ensures d in graph.edges && graph.edges[d] == EdgeRec(target, old(graph).edges[x].stmt, true, false, id, count, None)
      ensures x in graph.edges && graph.edges[x].speculative && graph.edges[x].count == old(graph).edges[x].count - count
      ensures Linked() && HashesOK(tables, graph)
      ensures Valid() <==>
        FreshId(SiteOfEdge(old(graph), x), id) && TargetsInFront(old(graph), x.caller, old(graph).edges[x].stmt)
    {
      hide Represents, HashesOK, ListsOK, Complete, SitesOK, Entered, FreshId, TargetsInFront;
      ghost var g := graph;
      ghost var hs';
      d, hs' := Speculate(x, target, count, id, g, tables);
      NewTargetFields(g, x, d, target, count, id);
      SpeculatedHashes(g, hs', x, d, target, count, id);
      MakeSpeculativeKeeps(g, x, d, target, count, id);
      Admit(d, CallGraphSteps.MakeSpeculative(g, x, d, target, count, id), hs');
    }

    /** cgraph_edge::remove. */
    method Remove(e: Edge)
      requires Valid() && e in graph.edges && e.caller in graph.nodes
      modifies this, pool, e.caller`callSiteHash
      modifies graph.nodes.Keys`callees, graph.nodes.Keys`indirectCalls, graph.nodes.Keys`callers
      modifies graph.edges.Keys`prevCallee, graph.edges.Keys`nextCallee
      modifies graph.edges.Keys`prevCaller, graph.edges.Keys`nextCaller
      ensures Live(old(graph), e) && graph == CallGraphSteps.Remove(old(graph), e)
      ensures Linked()
      ensures Valid() <==> !old(graph).edges[e].speculative
    {
      hide Represents, HashesOK, ListsOK, Complete, SitesOK, EdgeOK;
      ghost var g := graph;
      RemoveOutcome(tables, g, e);
      RemoveEdge(e, g, tables);
      Dismiss([e], CallGraphSteps.Remove(g, e), DropSlot(tables, e.caller, g.edges[e].stmt, e));
    }

    /** cgraph_edge::resolve_speculation. */
    method ResolveSpeculation(e: Edge, decl: Node?) returns (r: Edge)
      requires Valid() && e in graph.edges && graph.edges[e].speculative && e.caller in graph.nodes
      requires decl != null ==> !graph.edges[e].indirect
      modifies this, pool, e.caller`callSiteHash, e.caller`references
      modifies graph.edges.Keys`count, graph.edges.Keys`indirectInfo, graph.edges.Keys`speculative
      modifies graph.nodes.Keys`callees, graph.nodes.Keys`indirectCalls, graph.nodes.Keys`callers
      modifies graph.edges.Keys`prevCallee, graph.edges.Keys`nextCallee
      modifies graph.edges.Keys`prevCaller, graph.edges.Keys`nextCaller
      ensures r == Resolved(old(graph), e, decl) && graph == Resolve(old(graph), e, decl)
      ensures Linked() && HashesOK(tables, graph) && e.caller in graph.nodes
      ensures exists i :: Resolution(SiteOfEdge(old(graph), e), SiteIn(graph, e.caller, old(graph).edges[e].stmt),
                                     e, old(graph).edges[e].indirect, decl, r, i)
      ensures Valid() <==> (Proved(old(graph), e, decl) ==> |SiteOfEdge(old(graph), e).targets| == 1)
    {
      hide Represents, HashesOK, ListsOK, Complete, SitesOK, Resolve, Proved, Resolved, Resolution;
      ghost var g := graph;
      ResolveKeeps(g, e, decl);
      ghost var i := ResolutionSite(g, e, decl);
      ResolveOutcome(g, e, decl);
      var gone;
      ghost var hs';
      r, gone, hs' := ResolveEdge(e, decl, g, tables);
      Dismiss([gone], Resolve(g, e, decl), hs');
    }

    /** cgraph_edge::make_direct. */
    method MakeDirect(e: Edge, callee: Node) returns (r: Edge)
      requires Valid() && CanBeDirect(graph, e) && e.caller in graph.nodes && callee in graph.nodes
      requires graph.edges[e].speculative ==> |MatchesOf(graph, e, callee)| <= 1
      modifies this, pool, e.caller`callSiteHash, e.caller`references
      modifies graph.edges.Keys`count, graph.edges.Keys`indirectInfo, graph.edges.Keys`speculative
      modifies graph.edges.Keys`callee, graph.edges.Keys`indirectUnknownCallee
      modifies graph.nodes.Keys`callees, graph.nodes.Keys`indirectCalls, graph.nodes.Keys`callers
      modifies graph.edges.Keys`prevCallee, graph.edges.Keys`nextCallee
      modifies graph.edges.Keys`prevCaller, graph.edges.Keys`nextCaller
      ensures r == Survivor(old(graph), e, callee) && r in old(graph).edges && e.caller in graph.nodes
      ensures graph == CallGraphMakeDirect.MakeDirect(old(graph), e, callee)
      ensures Valid()
      ensures Left(SiteOfEdge(old(graph), e), e, old(graph).edges[e].speculative, callee, r)
      ensures OnlyDirect(SiteIn(graph, e.caller, old(graph).edges[e].stmt), r,
                         if old(graph).edges[r].indirect then callee else old(graph).edges[r].callee,
                         TotalCount(SiteOfEdge(old(graph), e)))
    {
      hide Represents, HashesOK, ListsOK, Complete, SitesOK, CallGraphMakeDirect.MakeDirect, Survivor, Left, OnlyDirect;
      ghost var g := graph;
      MakeDirectKeeps(g, e, callee);
      MakeDirectLeavesOne(g, e, callee);
      SurvivorIsLeft(g, e, callee);
      var freed;
      ghost var hs';
      r, freed, hs' := MakeEdgeDirect(e, callee, g, tables);
      Dismiss(freed, CallGraphMakeDirect.MakeDirect(g, e, callee), hs');
    }

    /** cgraph_edge::set_call_stmt; callee is what the new statement calls, if it says. */
    method SetCallStmt(e: Edge, t': Stmt, callee: Node?, update: bool) returns (r: Edge)
      requires Valid() && CanSetStmt(graph, e, callee, update)
      requires FreeStmt(graph, e.caller, graph.edges[e].stmt, t')
      modifies this, pool, e.caller`callSiteHash, e.caller`references
      modifies graph.edges.Keys`count, graph.edges.Keys`indirectInfo, graph.edges.Keys`speculative
      modifies graph.edges.Keys`callee, graph.edges.Keys`indirectUnknownCallee, graph.edges.Keys`callStmt
      modifies graph.nodes.Keys`callees, graph.nodes.Keys`indirectCalls, graph.nodes.Keys`callers
      modifies graph.edges.Keys`prevCallee, graph.edges.Keys`nextCallee
      modifies graph.edges.Keys`prevCaller, graph.edges.Keys`nextCaller
      ensures graph == CallGraphUpdates.SetCallStmt(old(graph), e, t', callee, update)
      ensures Valid() && r in graph.edges && r.caller == e.caller && e.caller in graph.nodes && graph.edges[r].stmt == t'
      ensures old(graph.edges[e].speculative && graph.edges[e].indirect) && callee == null ==> r == e
      ensures !(old(graph.edges[e].speculative && graph.edges[e].indirect) && callee == null) ==>
        r == Representative(SiteIn(graph, e.caller, t'))
      ensures if TurnsDirect(old(graph), e, callee) then OneLeft(old(graph), graph, e, t', callee, r)
        else StmtMoved(old(graph).edges, graph.edges, e, t')
    {
      hide Represents, HashesOK, ListsOK, Complete, SitesOK, CallGraphUpdates.SetCallStmt, SetStmtResult, FreeStmt;
      hide StmtMoved, OneLeft, TurnsDirect;
      ghost var g := graph;
      SetCallStmtReturns(g, e, t', callee, update);
      SetCallStmtKeeps(g, e, t', callee, update);
      var freed;
      ghost var hs';
      r, freed, hs' := SetEdgeStmt(e, t', callee, update, g, tables);
      Dismiss(freed, CallGraphUpdates.SetCallStmt(g, e, t', callee, update), hs');
    }

    /** The calls to n, whoever makes them. */
    method TakeCallers(n: Node)
      requires Linked() && n in graph.nodes
      modifies this, pool, n`callers
      modifies graph.nodes.Keys`callees, graph.nodes.Keys`indirectCalls, graph.nodes.Keys`callSiteHash
      modifies graph.edges.Keys`prevCallee, graph.edges.Keys`nextCallee
      ensures Linked() && graph == CallGraphRemoval.RemoveCallers(old(graph), n)
      ensures Removable(old(graph), old(graph).nodes[n].callers)
      ensures tables == DropSlots(old(tables), old(graph).edges, old(graph).nodes[n].callers)
    {
      hide Represents, ListsOK, Complete;
      ghost var g := graph;
      var freed;
      ghost var hs';
      freed, hs' := RemoveAllCallers(n, g, tables);
      RemoveAllFrees(g, freed);
      Dismiss(freed, CallGraphRemoval.RemoveCallers(g, n), hs');
    }

    /** cgraph_node::remove_callers. */
    method RemoveCallers(n: Node)
      requires Valid() && n in graph.nodes
      modifies this, pool, n`callers
      modifies graph.nodes.Keys`callees, graph.nodes.Keys`indirectCalls, graph.nodes.Keys`callSiteHash
      modifies graph.edges.Keys`prevCallee, graph.edges.Keys`nextCallee
      ensures Linked() && graph == CallGraphRemoval.RemoveCallers(old(graph), n)
      ensures Valid() <==>
        forall e | e in old(graph).nodes[n].callers :: e in old(graph).edges && !old(graph).edges[e].speculative
    {
      hide Represents, ListsOK, Complete, SitesOK, HashesOK;
      ghost var g, hs := graph, tables;
      RemoveCallersKeeps(g, n);
      if forall e | e in g.nodes[n].callers :: e in g.edges && !g.edges[e].speculative {
        RemoveCallersHashes(g, hs, n);
      }
      TakeCallers(n);
    }

    /** The calls that n makes. */
    method TakeCallees(n: Node)
      requires Linked() && n in graph.nodes
      modifies this, pool, n`callees, n`indirectCalls, n`callSiteHash
      modifies graph.nodes.Keys`callers, graph.edges.Keys`prevCaller, graph.edges.Keys`nextCaller
      ensures Linked() && graph == CallGraphRemoval.RemoveCallees(old(graph), n) && tables == old(tables)[n := None]
    {
      hide Represents, ListsOK, Complete;
      ghost var g := graph;
      var freed := RemoveAllCallees(n, g, tables);
      RemoveAllFrees(g, freed);
      Dismiss(freed, CallGraphRemoval.RemoveCallees(g, n), tables[n := None]);
    }

    /** cgraph_node::remove_callees. */
    method RemoveCallees(n: Node)
      requires Valid() && n in graph.nodes
      modifies this, pool, n`callees, n`indirectCalls, n`callSiteHash
      modifies graph.nodes.Keys`callers, graph.edges.Keys`prevCaller, graph.edges.Keys`nextCaller
      ensures Linked() && HashesOK(tables, graph) && graph == CallGraphRemoval.RemoveCallees(old(graph), n)
      ensures Valid() <==> forall e | e in old(graph).edges && e.caller == n :: !old(graph).edges[e].speculative
    {
      hide Represents, ListsOK, Complete, SitesOK, HashesOK;
      ghost var g, hs := graph, tables;
      RemoveCalleesKeeps(g, n);
      RemoveCalleesHashes(g, hs, n);
      TakeCallees(n);
    }

    /** The call graph part of cgraph_node::remove. */
    method RemoveNode(n: Node)
      requires Valid() && n in graph.nodes
      modifies this, pool
      modifies graph.nodes.Keys`callees, graph.nodes.Keys`indirectCalls, graph.nodes.Keys`callers
      modifies graph.nodes.Keys`callSiteHash
      modifies graph.edges.Keys`prevCallee, graph.edges.Keys`nextCallee
      modifies graph.edges.Keys`prevCaller, graph.edges.Keys`nextCaller
      ensures Linked() && graph == CallGraphRemoval.RemoveNode(old(graph), n)
      ensures Valid() <==> NoSpeculativeCallers(old(graph), n) && NoSpeculativeRefs(old(graph), n)
    {
      hide Represents, ListsOK, Complete, SitesOK, HashesOK, DropSlots, NoSpeculativeCallers, NoSpeculativeRefs, Removable;
      ghost var g, hs := graph, tables;
      RemoveNodeLists(g, n);
      RemoveNodeKeeps(g, n);
      if NoSpeculativeCallers(g, n) {
        RemoveNodeHashes(g, hs, n);
      }
      TakeCallers(n);
      TakeCallees(n);
      ForgetNodeRep(graph, tables, n);
      Record(ForgetNode(graph, n), tables - {n});
    }

    /** symbol_table::assign_summary_id, for an edge: the id of an edge that has one already is lost. */
    method AssignSummaryId(e: Edge) returns (id: int)
      requires Valid() && e in graph.edges
      modifies pool
      ensures e in pool.summaryId && id == pool.summaryId[e] && forall d | d in graph.edges && d != e ::
        d in old(pool.summaryId) && d in pool.summaryId && pool.summaryId[d] == old(pool.summaryId)[d] != id
      ensures id == if old(pool.edgeReleasedSummaryIds) == [] then old(pool.edgesMaxSummaryId)
        else old(pool.edgeReleasedSummaryIds)[|old(pool.edgeReleasedSummaryIds)| - 1]
      ensures Valid() <==> old(pool.summaryId)[e] == -1
    {
      hide FieldsOK, CalleeLinksOK, CallerLinksOK, NodesOK, ListsOK, Complete, SitesOK, HashesOK, NoneLost;
      id := pool.AssignSummaryId(e, graph.edges.Keys);
    }

    /** cgraph_edge::redirect_callee. */
    method RedirectCallee(e: Edge, n: Node)
      requires Valid() && e in graph.edges && !graph.edges[e].indirect && n in graph.nodes
      modifies this, pool, graph.nodes.Keys`callers, e`callee
      modifies graph.edges.Keys`prevCaller, graph.edges.Keys`nextCaller
      ensures old(graph).edges[e].callee in old(graph).nodes && graph == Redirect(old(graph), e, n)
      ensures graph.edges == old(graph).edges[e := old(graph).edges[e].(callee := n)]
      ensures Valid()
    {
      hide Represents, HashesOK, ListsOK, Complete, SitesOK;
      ghost var g := graph;
      RedirectEdge(e, n, g, tables);
      RedirectFrees(g, e, n);
      Dismiss([], Redirect(g, e, n), tables);
    }
  }

  lemma RedirectFrees(g: Graph, e: Edge, n: Node)
    requires e in g.edges && g.edges[e].callee in g.nodes && n in g.nodes
    ensures Freed(g.edges.Keys, Redirect(g, e, n).edges.Keys, [])
  {
  }

  lemma KeepTargetLeaves(g: Graph, d: Edge, x: Edge)
    requires d in g.edges && Live(g, x) && d != x && d.caller == x.caller
    ensures KeepTarget(g, d, x).edges.Keys == g.edges.Keys - {x}
  {
  }

  lemma ResolveOutcome(g: Graph, e: Edge, decl: Node?)
    requires WellFormed(g) && e in g.edges && g.edges[e].speculative && e.caller in g.nodes
    ensures Complete(Resolve(g, e, decl))
    ensures Freed(g.edges.Keys, Resolve(g, e, decl).edges.Keys, [Given(g, e, decl)])
  {
    hide DropTarget, KeepTarget, CallFacts, ListsOK, Complete, SitesOK;
    ResolvedCall(g, e);
    var d, x := ResolvedTarget(g, e), IndirectOf(g, e);
    SameCallFacts(g, d, x);
    if Proved(g, e, decl) {
      KeepTargetLists(g, d, x);
      KeepTargetLeaves(g, d, x);
    } else {
      DropTargetLists(g, d, x);
      DropTargetLeaves(g, d, x);
    }
  }

  lemma RemoveOutcome(hs: Tables, g: Graph, e: Edge)
    requires WellFormed(g) && HashesOK(hs, g) && e in g.edges && e.caller in g.nodes
    ensures EdgeOK(g, e) && Live(g, e)
    ensures var g' := CallGraphSteps.Remove(g, e);
      && ListsOK(g') && Complete(g') && Freed(g.edges.Keys, g'.edges.Keys, [e])
      && (WellFormed(g') <==> !g.edges[e].speculative)
      && (!g.edges[e].speculative ==> HashesOK(DropSlot(hs, e.caller, g.edges[e].stmt, e), g'))
  {
    assert EdgeOK(g, e) && NodeOK(e.caller, g.nodes[e.caller], g.edges);
    RemoveKeeps(g, e);
    RemoveLists(g, e, {});
    if !g.edges[e].speculative {
      RemoveHashes(hs, g, e);
    }
  }
}
