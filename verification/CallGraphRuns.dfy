/** Whole runs of call graph operations: what every run keeps, and how counts travel. */
module CallGraphRuns {
  import opened CallGraphTypes
  import opened CallSites
  import opened CallGraphSteps
  import opened CallGraphInvariants
  import opened CallGraphRename
  import opened CallGraphDirect
  import opened CallGraphMakeDirect
  import opened CallGraphSettle
  import opened CallGraphStmts
  import opened CallGraphUpdates
  import opened CallGraphNodes
  import opened CallGraphRemoval

  /** One operation of the symbol table, with the objects it allocates. */
  datatype Step =
    | NewNode(node: Node)
    | NewEdge(edge: Edge, callee: Node, stmt: Stmt, count: int)
    | NewIndirectEdge(edge: Edge, stmt: Stmt, count: int)
    | RemoveEdge(edge: Edge)
    | Speculate(edge: Edge, direct: Edge, target: Node, count: int, id: nat)
    | ResolveSpeculation(edge: Edge, decl: Node?)
    | MakeDirect(edge: Edge, callee: Node)
    | SetCallStmt(edge: Edge, stmt: Stmt, decl: Node?, update: bool)
    | RedirectCallee(edge: Edge, callee: Node)
    | RemoveCallers(node: Node)
    | RemoveCallees(node: Node)
    | RemoveNode(node: Node)

  /** What the operation demands of its arguments: live objects of the right kind, new ones for the
      allocations, and the assertions of the code. */
  ghost predicate Possible(g: Graph, s: Step) {
    WellFormed(g) &&
    match s
    case NewNode(n) => n !in g.nodes
    case NewEdge(e, callee, t, _) => e !in g.edges && e.caller in g.nodes && callee in g.nodes
    case NewIndirectEdge(e, t, _) => e !in g.edges && e.caller in g.nodes
    case RemoveEdge(e) => e in g.edges
    case Speculate(x, d, target, _, _) =>
      && x in g.edges && g.edges[x].indirect && x.caller in g.nodes
      && d !in g.edges && d.caller == x.caller && target in g.nodes
    case ResolveSpeculation(e, decl) =>
      e in g.edges && g.edges[e].speculative && e.caller in g.nodes && (decl != null ==> !g.edges[e].indirect)
    case MakeDirect(e, callee) => CanBeDirect(g, e) && callee in g.nodes && e.caller in g.nodes
    case SetCallStmt(e, _, decl, update) => CanSetStmt(g, e, decl, update)
    case RedirectCallee(e, n) => e in g.edges && !g.edges[e].indirect && n in g.nodes
    case RemoveCallers(n) => n in g.nodes
    case RemoveCallees(n) => n in g.nodes
    case RemoveNode(n) => n in g.nodes
  }

  ghost function Apply(g: Graph, s: Step): Graph
    requires Possible(g, s)
  {
    hide SitesOK, RefsLive, SiteIn, NodeOK, EdgeOK;
    match s
    case NewNode(n) => AddNode(g, n)
    case NewEdge(e, callee, t, count) => CreateEdge(g, e, callee, t, count)
    case NewIndirectEdge(e, t, count) => CreateIndirectEdge(g, e, t, count)
    case RemoveEdge(e) => RemoveKeeps(g, e); Remove(g, e)
    case Speculate(x, d, target, count, id) => MakeSpeculative(g, x, d, target, count, id)
    case ResolveSpeculation(e, decl) => Resolve(g, e, decl)
    case MakeDirect(e, callee) => CallGraphMakeDirect.MakeDirect(g, e, callee)
    case SetCallStmt(e, t, decl, update) => CallGraphUpdates.SetCallStmt(g, e, t, decl, update)
    case RedirectCallee(e, n) => RedirectKeeps(g, e, n); Redirect(g, e, n)
    case RemoveCallers(n) => CallGraphRemoval.RemoveCallers(g, n)
    case RemoveCallees(n) => CallGraphRemoval.RemoveCallees(g, n)
    case RemoveNode(n) => CallGraphRemoval.RemoveNode(g, n)
  }

  /** What a caller has to check so that the operation keeps the graph well formed. */
  ghost predicate Careful(g: Graph, s: Step)
    requires Possible(g, s)
  {
    match s
    case NewNode(n) => true
    case NewEdge(e, _, t, _) => EmptySite(SiteIn(g, e.caller, t))
    case NewIndirectEdge(e, t, _) => EmptySite(SiteIn(g, e.caller, t))
    case RemoveEdge(e) => !g.edges[e].speculative
    case Speculate(x, _, _, _, id) =>
      FreshId(SiteOfEdge(g, x), id) && TargetsInFront(g, x.caller, g.edges[x].stmt)
    case ResolveSpeculation(e, decl) => Proved(g, e, decl) ==> |SiteOfEdge(g, e).targets| == 1
    case MakeDirect(e, callee) => g.edges[e].speculative ==> |MatchesOf(g, e, callee)| <= 1
    case SetCallStmt(e, t, _, _) => FreeStmt(g, e.caller, g.edges[e].stmt, t)
    case RedirectCallee(_, _) => true
    case RemoveCallers(n) => forall e | e in g.nodes[n].callers :: e in g.edges && !g.edges[e].speculative
    case RemoveCallees(n) => forall e | e in g.edges && e.caller == n :: !g.edges[e].speculative
    case RemoveNode(n) => NoSpeculativeCallers(g, n) && NoSpeculativeRefs(g, n)
  }

  /** Each operation keeps the graph well formed exactly if its caller was careful. */
  lemma StepKeeps(g: Graph, s: Step)
    requires Possible(g, s)
    ensures WellFormed(Apply(g, s)) <==> Careful(g, s)
  {
    match s
    case NewNode(n) => AddNodeKeeps(g, n);
    case NewEdge(e, callee, t, count) => CreateEdgeKeeps(g, e, callee, t, count);
    case NewIndirectEdge(e, t, count) => CreateIndirectEdgeKeeps(g, e, t, count);
    case RemoveEdge(e) => RemoveKeeps(g, e);
    case Speculate(x, d, target, count, id) => MakeSpeculativeKeeps(g, x, d, target, count, id);
    case ResolveSpeculation(e, decl) => ResolveKeeps(g, e, decl);
    case MakeDirect(e, callee) => MakeDirectKeeps(g, e, callee);
    case SetCallStmt(e, t, decl, update) => SetCallStmtKeeps(g, e, t, decl, update);
    case RedirectCallee(e, n) => RedirectKeeps(g, e, n);
    case RemoveCallers(n) => RemoveCallersKeeps(g, n);
    case RemoveCallees(n) => RemoveCalleesKeeps(g, n);
    case RemoveNode(n) => RemoveNodeKeeps(g, n);
  }

  // ---------- runs ----------

  /** Every operation of the run was possible and its caller careful, when its turn came. */
  ghost predicate CarefulRun(g: Graph, steps: seq<Step>)
    decreases |steps|
  {
    steps != [] ==> Possible(g, steps[0]) && Careful(g, steps[0]) && CarefulRun(Apply(g, steps[0]), steps[1..])
  }

  ghost function Final(g: Graph, steps: seq<Step>): Graph
    requires CarefulRun(g, steps)
    decreases |steps|
  {
    if steps == [] then g else Final(Apply(g, steps[0]), steps[1..])
  }

  /** Every state that careful operations reach from a well-formed one is well formed. */
  lemma {:induction false} RunKeeps(g: Graph, steps: seq<Step>)
    requires WellFormed(g) && CarefulRun(g, steps)
    ensures WellFormed(Final(g, steps))
    decreases |steps|
  {
    if steps != [] {
      StepKeeps(g, steps[0]);
      RunKeeps(Apply(g, steps[0]), steps[1..]);
    }
  }

  // ---------- counts ----------

  /** Operations that leave every call what it is, but for its edges and its statement. */
  predicate MovesCounts(s: Step) {
    s.Speculate? || s.ResolveSpeculation? || s.MakeDirect? || s.SetCallStmt? || s.RedirectCallee?
  }

  /** The statement that the call with statement t of function n has after the operation; a new
      statement and the old one change places. */
  ghost function StmtAfter(g: Graph, s: Step, n: Node, t: Stmt): Stmt
    requires Possible(g, s)
  {
    if s.SetCallStmt? then Swapped(s.edge.caller, g.edges[s.edge].stmt, s.stmt, n, t) else t
  }

  /** The statements u and u' of function m change places. */
  function Swapped(m: Node, u: Stmt, u': Stmt, n: Node, t: Stmt): Stmt {
    if n != m then t else if t == u then u' else if t == u' then u else t
  }

  /** But for that, every call is executed as often in g' as in g. */
  ghost predicate CountsSwapped(g: Graph, g': Graph, m: Node, u: Stmt, u': Stmt)
    requires ListsOK(g) && ListsOK(g')
  {
    && g'.nodes.Keys == g.nodes.Keys
    && forall n, t: Stmt | n in g.nodes :: TotalCount(SiteIn(g', n, Swapped(m, u, u', n, t))) == TotalCount(SiteIn(g, n, t))
  }

  /** Every call is executed as often in g' as in g. */
  ghost predicate SameCounts(g: Graph, g': Graph)
    requires ListsOK(g) && ListsOK(g')
  {
    && g'.nodes.Keys == g.nodes.Keys
    && forall n, t: Stmt | n in g.nodes :: TotalCount(SiteIn(g', n, t)) == TotalCount(SiteIn(g, n, t))
  }

  lemma ChangesCounts(g: Graph, g': Graph, n: Node, t: Stmt, v: Site)
    requires ListsOK(g) && ListsOK(g') && n in g.nodes && Changes(g, g', n, t, v)
    requires TotalCount(v) == TotalCount(SiteIn(g, n, t))
    ensures SameCounts(g, g')
  {
    forall m, s: Stmt | m in g.nodes ensures TotalCount(SiteIn(g', m, s)) == TotalCount(SiteIn(g, m, s)) {
      if !(m == n && s == t) {
        assert SiteIn(g', m, s) == SiteIn(g, m, s);
      }
    }
  }

  lemma SpeculateCounts(g: Graph, x: Edge, d: Edge, target: Node, count: int, id: nat)
    requires Possible(g, Speculate(x, d, target, count, id))
    requires ListsOK(MakeSpeculative(g, x, d, target, count, id))
    ensures SameCounts(g, MakeSpeculative(g, x, d, target, count, id))
  {
    var v := SiteOfEdge(g, x);
    CreateEdgeLists(g, d, target, g.edges[x].stmt, count);
    MakeSpeculativeSite(g, x, d, target, count, id);
    SiteOfIndirect(g, x);
    SpeculatedCount(v, x, g.edges[x], d, target, count, id);
    ChangesCounts(g, MakeSpeculative(g, x, d, target, count, id), x.caller, g.edges[x].stmt,
                  SpeculatedSite(v, x, g.edges[x], d, target, count, id));
  }

  lemma ResolveCounts(g: Graph, e: Edge, decl: Node?)
    requires Possible(g, ResolveSpeculation(e, decl)) && ListsOK(Resolve(g, e, decl))
    ensures SameCounts(g, Resolve(g, e, decl))
  {
    ResolvedCall(g, e);
    var d, x := ResolvedTarget(g, e), IndirectOf(g, e);
    var n, t, v := d.caller, g.edges[d].stmt, SiteOfEdge(g, d);
    SameCallFacts(g, d, x);
    SiteDistinct(g, n, t);
    SiteOfDirect(g, d);
    SiteOfIndirect(g, x);
    if Proved(g, e, decl) {
      KeepTargetSite(g, d, x);
      WonCount(v, d, g.edges[d], x, g.edges[x]);
      ChangesCounts(g, KeepTarget(g, d, x), n, t, WonSite(v, d, g.edges[d], g.edges[x]));
    } else {
      DropTargetSite(g, d, x);
      LostCount(v, d, g.edges[d], x, g.edges[x]);
      ChangesCounts(g, DropTarget(g, d, x), n, t, LostSite(v, d, g.edges[d], x, g.edges[x]));
    }
  }

  lemma MakeDirectCounts(g: Graph, e: Edge, callee: Node)
    requires Possible(g, MakeDirect(e, callee)) && Careful(g, MakeDirect(e, callee))
    ensures ListsOK(CallGraphMakeDirect.MakeDirect(g, e, callee))
    ensures SameCounts(g, CallGraphMakeDirect.MakeDirect(g, e, callee))
  {
    var g', n, t := CallGraphMakeDirect.MakeDirect(g, e, callee), e.caller, g.edges[e].stmt;
    MakeDirectLeavesOne(g, e, callee);
    SumOne(SiteIn(g', n, t).targets);
    ChangesCounts(g, g', n, t, SiteIn(g', n, t));
  }

  lemma {:induction false} SumPut(s: seq<Entry>, e: Edge, r: EdgeRec)
    requires forall x | x in s && x.edge == e :: x.rec.count == r.count
    ensures SumCounts(Put(s, e, r)) == SumCounts(s)
  {
    if s != [] {
      assert s[0] in s;
      assert Put(s, e, r)[1..] == Put(s[1..], e, r);
      SumPut(s[1..], e, r);
    }
  }

  lemma RedirectCounts(g: Graph, e: Edge, callee: Node)
    requires Possible(g, RedirectCallee(e, callee))
    ensures g.edges[e].callee in g.nodes && ListsOK(Redirect(g, e, callee)) && SameCounts(g, Redirect(g, e, callee))
  {
    hide SiteIn, SumCounts, Adjacent, SitesOK, RefsLive;
    RedirectKeeps(g, e, callee);
    RedirectSite(g, e, callee);
    assert EdgeOK(g, e);
    var n, t, r := e.caller, g.edges[e].stmt, Retargeted(g.edges[e], callee);
    var v := SiteIn(g, n, t);
    PutCounts(g, e, r);
    ChangesCounts(g, Redirect(g, e, callee), n, t, Site(Put(v.targets, e, r), Put(v.indirects, e, r), v.refs));
  }

  lemma PutCounts(g: Graph, e: Edge, r: EdgeRec)
    requires ListsOK(g) && e in g.edges && e.caller in g.nodes && r.count == g.edges[e].count
    ensures var v := SiteIn(g, e.caller, g.edges[e].stmt);
      TotalCount(Site(Put(v.targets, e, r), Put(v.indirects, e, r), v.refs)) == TotalCount(v)
  {
    var n, t := e.caller, g.edges[e].stmt;
    var v := SiteIn(g, n, t);
    assert NodeOK(n, g.nodes[n], g.edges);
    AtEntries(g.nodes[n].callees, g.edges, t);
    AtEntries(g.nodes[n].indirects, g.edges, t);
    SumPut(v.targets, e, r);
    SumPut(v.indirects, e, r);
  }

  lemma {:induction false} SumRenamed(s: seq<Entry>, t': Stmt)
    ensures SumCounts(RenameEntries(s, t')) == SumCounts(s)
  {
    if s != [] {
      assert RenameEntries(s, t')[1..] == RenameEntries(s[1..], t');
      SumRenamed(s[1..], t');
    }
  }

  /** When the new statement is free, the two statements of function n change places. */
  lemma RenameCounts(g: Graph, n: Node, t: Stmt, t': Stmt)
    requires WellFormed(g) && n in g.nodes && FreeStmt(g, n, t, t')
    ensures ListsOK(Rename(g, n, t, t')) && CountsSwapped(g, Rename(g, n, t, t'), n, t, t')
  {
    var g' := Rename(g, n, t, t');
    RenameKeeps(g, n, t, t');
    if t == t' {
      RenameNothing(g, n, t, t');
    } else {
      RenameOtherSites(g, n, t, t');
      RenamedSite(g, n, t, t');
      SumRenamed(SiteIn(g, n, t).targets, t');
      SumRenamed(SiteIn(g, n, t).indirects, t');
    }
  }

  lemma SameThenSwapped(g: Graph, g1: Graph, g2: Graph, m: Node, u: Stmt, u': Stmt)
    requires ListsOK(g) && ListsOK(g1) && ListsOK(g2) && SameCounts(g, g1) && CountsSwapped(g1, g2, m, u, u')
    ensures CountsSwapped(g, g2, m, u, u')
  {
    hide ListsOK, SiteIn, TotalCount;
    forall n, t: Stmt | n in g.nodes
      ensures TotalCount(SiteIn(g2, n, Swapped(m, u, u', n, t))) == TotalCount(SiteIn(g, n, t))
    {
      assert TotalCount(SiteIn(g1, n, t)) == TotalCount(SiteIn(g, n, t));
    }
  }

  lemma SetCallStmtCounts(g: Graph, e: Edge, t': Stmt, decl: Node?, update: bool)
    requires Possible(g, SetCallStmt(e, t', decl, update)) && FreeStmt(g, e.caller, g.edges[e].stmt, t')
    ensures var g' := CallGraphUpdates.SetCallStmt(g, e, t', decl, update);
      ListsOK(g') && CountsSwapped(g, g', e.caller, g.edges[e].stmt, t')
  {
    hide ListsOK, Complete, SitesOK, RefsLive, FreeStmt, EmptySite, Rename, CallGraphMakeDirect.MakeDirect, SameCounts, CountsSwapped, SiteIn;
    var t := g.edges[e].stmt;
    if TurnsDirect(g, e, decl) {
      var g1 := CallGraphMakeDirect.MakeDirect(g, e, decl);
      DirectFree(g, e, decl, t');
      MakeDirectCounts(g, e, decl);
      RenameCounts(g1, e.caller, t, t');
      SameThenSwapped(g, g1, Rename(g1, e.caller, t, t'), e.caller, t, t');
    } else {
      RenameCounts(g, e.caller, t, t');
    }
  }

  lemma StepCounts(g: Graph, s: Step)
    requires Possible(g, s) && Careful(g, s) && MovesCounts(s)
    ensures WellFormed(Apply(g, s)) && Apply(g, s).nodes.Keys == g.nodes.Keys
    ensures forall n, t: Stmt | n in g.nodes ::
      TotalCount(SiteIn(Apply(g, s), n, StmtAfter(g, s, n, t))) == TotalCount(SiteIn(g, n, t))
  {
    StepKeeps(g, s);
    match s
    case Speculate(x, d, target, count, id) => SpeculateCounts(g, x, d, target, count, id);
    case ResolveSpeculation(e, decl) => ResolveCounts(g, e, decl);
    case MakeDirect(e, callee) => MakeDirectCounts(g, e, callee);
    case SetCallStmt(e, t, decl, update) => SetCallStmtCounts(g, e, t, decl, update);
    case RedirectCallee(e, callee) => RedirectCounts(g, e, callee);
    case _ =>
  }

  /** The statement of a call after a run. */
  ghost function StmtFinal(g: Graph, steps: seq<Step>, n: Node, t: Stmt): Stmt
    requires CarefulRun(g, steps)
    decreases |steps|
  {
    if steps == [] then t else StmtFinal(Apply(g, steps[0]), steps[1..], n, StmtAfter(g, steps[0], n, t))
  }

  /** However calls are made speculative and resolved, redirected and given new statements, and in
      whatever order, every call keeps its total count. */
  lemma {:induction false} RunCounts(g: Graph, steps: seq<Step>, n: Node, t: Stmt)
    requires WellFormed(g) && CarefulRun(g, steps) && n in g.nodes
    requires forall i | 0 <= i < |steps| :: MovesCounts(steps[i])
    ensures WellFormed(Final(g, steps)) && n in Final(g, steps).nodes
    ensures TotalCount(SiteIn(Final(g, steps), n, StmtFinal(g, steps, n, t))) == TotalCount(SiteIn(g, n, t))
    decreases |steps|
  {
    hide WellFormed;
    if steps != [] {
      StepCounts(g, steps[0]);
      RunCounts(Apply(g, steps[0]), steps[1..], n, StmtAfter(g, steps[0], n, t));
    }
  }

  /** Calls stay apart: two statements that are different before a run are different after it. */
  lemma {:induction false} CallsStayApart(g: Graph, steps: seq<Step>, n: Node, t: Stmt, u: Stmt)
    requires CarefulRun(g, steps) && t != u
    ensures StmtFinal(g, steps, n, t) != StmtFinal(g, steps, n, u)
    decreases |steps|
  {
    if steps != [] {
      CallsStayApart(Apply(g, steps[0]), steps[1..], n, StmtAfter(g, steps[0], n, t), StmtAfter(g, steps[0], n, u));
    }
  }

  /** An indirect call that goes through any such run and is made direct in the end, by way of any
      of its components, is left as one plain edge with the count it started with. */
  lemma SpeculationIsFree(g: Graph, x: Edge, steps: seq<Step>, e: Edge, callee: Node)
    requires WellFormed(g) && x in g.edges && g.edges[x].indirect && !g.edges[x].speculative
    requires CarefulRun(g, steps) && (forall i | 0 <= i < |steps| :: MovesCounts(steps[i]))
    requires var g1 := Final(g, steps);
      && Possible(g1, MakeDirect(e, callee)) && Careful(g1, MakeDirect(e, callee))
      && e.caller == x.caller && g1.edges[e].stmt == StmtFinal(g, steps, x.caller, g.edges[x].stmt)
    ensures x.caller in g.nodes
    ensures var g1 := Final(g, steps);
      var g2, n, t, r := CallGraphMakeDirect.MakeDirect(g1, e, callee), x.caller, g1.edges[e].stmt, Survivor(g1, e, callee);
      && WellFormed(g2) && n in g2.nodes && r in g1.edges
      && OnlyDirect(SiteIn(g2, n, t), r, if g1.edges[r].indirect then callee else g1.edges[r].callee, g.edges[x].count)
  {
    hide CarefulRun, Final, StmtFinal, OnlyDirect, Survivor, CallGraphMakeDirect.MakeDirect, SitesOK, ListsOK, Complete;
    var g1 := Final(g, steps);
    SiteOfIndirect(g, x);
    SumOne(SiteOfEdge(g, x).indirects);
    RunCounts(g, steps, x.caller, g.edges[x].stmt);
    StepKeeps(g1, MakeDirect(e, callee));
    MakeDirectLeavesOne(g1, e, callee);
  }
}
