/** set_call_stmt in full, redirect_callee and remove on the heap. */
module CallGraphUpdates {
  import opened Common
  import opened CallGraphTypes
  import opened SummaryIds
  import opened CallSites
  import opened CallGraphSteps
  import opened CallGraphInvariants
  import opened CallGraphRename
  import opened CallGraphDirect
  import opened CallGraphMakeDirect
  import opened CallGraphHeap
  import opened CallSiteHash
  import opened CallGraphLinks
  import opened CallGraphResolve
  import opened CallGraphDirectHeap
  import opened CallGraphOutcomes
  import opened CallGraphStmts

  // ---------- set_call_stmt ----------

  /** The new statement names its callee, and the call was not an ordinary one before. */
  ghost predicate TurnsDirect(g: Graph, e: Edge, callee: Node?) {
    callee != null && CanBeDirect(g, e)
  }

  /** What set_call_stmt asks for: no component is left behind, and the assertions of make_direct. */
  ghost predicate CanSetStmt(g: Graph, e: Edge, callee: Node?, update: bool)
    requires ListsOK(g)
  {
    && e in g.edges && e.caller in g.nodes
    && (TurnsDirect(g, e, callee) ==>
          callee in g.nodes && (g.edges[e].speculative ==> |MatchesOf(g, e, callee)| <= 1))
    && (!TurnsDirect(g, e, callee) && g.edges[e].speculative ==> update)
  }

  /** What set_call_stmt does to the graph. */
  ghost function SetCallStmt(g: Graph, e: Edge, t': Stmt, callee: Node?, update: bool): Graph
    requires WellFormed(g) && CanSetStmt(g, e, callee, update)
  {
    if TurnsDirect(g, e, callee) then
      MakeDirectNodes(g, e, callee);
      Rename(MakeDirect(g, e, callee), e.caller, g.edges[e].stmt, t')
    else Rename(g, e.caller, g.edges[e].stmt, t')
  }

  lemma MakeDirectNodes(g: Graph, e: Edge, callee: Node)
    requires WellFormed(g) && CanBeDirect(g, e) && callee in g.nodes && e.caller in g.nodes
    requires g.edges[e].speculative ==> |MatchesOf(g, e, callee)| <= 1
    ensures WellFormed(MakeDirect(g, e, callee)) && e.caller in MakeDirect(g, e, callee).nodes
  {
    MakeDirectLeavesOne(g, e, callee);
    MakeDirectKeeps(g, e, callee);
  }

  lemma DirectFree(g: Graph, e: Edge, callee: Node, t': Stmt)
    requires WellFormed(g) && CanBeDirect(g, e) && callee in g.nodes && e.caller in g.nodes
    requires g.edges[e].speculative ==> |MatchesOf(g, e, callee)| <= 1
    ensures WellFormed(MakeDirect(g, e, callee)) && e.caller in MakeDirect(g, e, callee).nodes
    ensures FreeStmt(MakeDirect(g, e, callee), e.caller, g.edges[e].stmt, t') <==> FreeStmt(g, e.caller, g.edges[e].stmt, t')
    ensures !EmptySite(SiteIn(MakeDirect(g, e, callee), e.caller, g.edges[e].stmt))
  {
    MakeDirectLeavesOne(g, e, callee);
    MakeDirectKeeps(g, e, callee);
  }

  lemma SiteNotEmpty(g: Graph, e: Edge)
    requires WellFormed(g) && e in g.edges && e.caller in g.nodes
    ensures !EmptySite(SiteOfEdge(g, e))
  {
    if g.edges[e].indirect {
      SiteOfIndirect(g, e);
    } else {
      SiteOfDirect(g, e);
    }
  }

  /** A new statement keeps the graph well formed exactly if no other call already has it. */
  lemma SetCallStmtKeeps(g: Graph, e: Edge, t': Stmt, callee: Node?, update: bool)
    requires WellFormed(g) && CanSetStmt(g, e, callee, update)
    ensures WellFormed(SetCallStmt(g, e, t', callee, update)) <==> FreeStmt(g, e.caller, g.edges[e].stmt, t')
  {
    var n, t := e.caller, g.edges[e].stmt;
    if TurnsDirect(g, e, callee) {
      DirectFree(g, e, callee, t');
      RenameKeeps(MakeDirect(g, e, callee), n, t, t');
    } else {
      SiteNotEmpty(g, e);
      RenameKeeps(g, n, t, t');
    }
  }

  /** Without its indirect edge x, a speculative call is not well formed. */
  lemma IndirectLeft(g: Graph, x: Edge, t': Stmt)
    requires WellFormed(g) && x in g.edges && g.edges[x].indirect && g.edges[x].speculative && t' != g.edges[x].stmt
    ensures !WellFormed(SetRec(g, x, Renamed(g.edges[x], t')))
  {
    hide ListsOK;
    var n, t, g' := x.caller, g.edges[x].stmt, SetRec(g, x, Renamed(g.edges[x], t'));
    if WellFormed(g') {
      SiteOfIndirect(g, x);
      var d := SiteIn(g, n, t).targets[0];
      assert d in SiteIn(g, n, t).targets;
      TargetEntry(g, n, t, d);
      SiteOfDirect(g', d.edge);
      IndirectEntry(g', n, t);
      SiteOfIndirect(g, SiteIn(g', n, t).indirects[0].edge);
    }
  }

  lemma IdUnique(s: seq<Entry>, a: Entry, b: Entry)
    requires NoDup(TargetIds(s)) && a in s && b in s && a.rec.speculativeId == b.rec.speculativeId
    ensures a == b
  {
    var i :| 0 <= i < |s| && s[i] == a;
    var j :| 0 <= j < |s| && s[j] == b;
    assert TargetIds(s)[i] == TargetIds(s)[j];
  }

  /** The reference of target d is paired with some target of any well-formed site that has it. */
  lemma PairedTarget(v: Site, v': Site, d: Entry) returns (y: Entry)
    requires SpeculativeSite(v) && SpeculativeSite(v') && v'.refs == v.refs && d in v.targets
    ensures y in v'.targets && y.rec.speculativeId == d.rec.speculativeId
  {
    var i :| 0 <= i < |v.targets| && v.targets[i] == d;
    var id := TargetIds(v.targets)[i];
    assert id in multiset(TargetIds(v.targets));
    assert id in TargetIds(v'.targets);
    var j :| 0 <= j < |v'.targets| && TargetIds(v'.targets)[j] == id;
    y := v'.targets[j];
  }

  /** Without target d, a speculative call is not well formed: its reference is left unpaired. */
  lemma TargetLeft(g: Graph, d: Edge, x: Edge, t': Stmt)
    requires WellFormed(g) && SameCall(g, d, x) && d.caller in g.nodes && t' != g.edges[d].stmt
    ensures !WellFormed(SetRec(g, d, Renamed(g.edges[d], t')))
  {
    hide ListsOK, Complete;
    var n, t, g' := d.caller, g.edges[d].stmt, SetRec(g, d, Renamed(g.edges[d], t'));
    if WellFormed(g') {
      SiteOfIndirect(g', x);
      SiteOfDirect(g, d);
      var y := PairedTarget(SiteIn(g, n, t), SiteIn(g', n, t), Entry(d, g.edges[d]));
      TargetEntry(g', n, t, y);
      SiteOfDirect(g, y.edge);
      IdUnique(SiteIn(g, n, t).targets, y, Entry(d, g.edges[d]));
    }
  }

  /** Updating one component of a speculative call alone tears the call apart. */
  lemma LoneComponentKeeps(g: Graph, e: Edge, t': Stmt)
    requires WellFormed(g) && e in g.edges && g.edges[e].speculative && e.caller in g.nodes
    ensures WellFormed(SetRec(g, e, Renamed(g.edges[e], t'))) <==> t' == g.edges[e].stmt
  {
    if t' == g.edges[e].stmt {
      assert SetRec(g, e, Renamed(g.edges[e], t')).edges == g.edges;
    } else if g.edges[e].indirect {
      IndirectLeft(g, e, t');
    } else {
      SpeculativeEdge(g, e);
      SiteOfIndirect(g, IndirectOf(g, e));
      TargetLeft(g, e, IndirectOf(g, e), t');
    }
  }

  /** set_call_stmt of a call that turns direct. */
  method SetDirectStmt(e: Edge, t': Stmt, callee: Node, ghost g: Graph, ghost hs: Tables)
    returns (r: Edge, freed: seq<Edge>, ghost hs': Tables)
    requires WellFormed(g) && Represents(g, hs) && HashesOK(hs, g)
    requires CanBeDirect(g, e) && callee in g.nodes && e.caller in g.nodes
    requires g.edges[e].speculative ==> |MatchesOf(g, e, callee)| <= 1
    requires FreeStmt(g, e.caller, g.edges[e].stmt, t')
    modifies g.edges.Keys`count, g.edges.Keys`indirectInfo, g.edges.Keys`speculative
    modifies g.edges.Keys`callee, g.edges.Keys`indirectUnknownCallee, g.edges.Keys`callStmt
    modifies g.nodes.Keys`callees, g.nodes.Keys`indirectCalls, g.nodes.Keys`callers
    modifies e.caller`callSiteHash, e.caller`references
    modifies g.edges.Keys`prevCallee, g.edges.Keys`nextCallee, g.edges.Keys`prevCaller, g.edges.Keys`nextCaller
    ensures r == Survivor(g, e, callee)
    ensures WellFormed(MakeDirect(g, e, callee)) && e.caller in MakeDirect(g, e, callee).nodes
    ensures var g' := Rename(MakeDirect(g, e, callee), e.caller, g.edges[e].stmt, t');
      ListsOK(g') && Represents(g', hs') && HashesOK(hs', g')
    ensures Freed(g.edges.Keys, MakeDirect(g, e, callee).edges.Keys, freed)
  {
    DirectFree(g, e, callee, t');
    SurvivorLeft(g, e, callee);
    ghost var hs1;
    r, freed, hs1 := MakeEdgeDirect(e, callee, g, hs);
    hs' := SetPlainStmt(r, t', MakeDirect(g, e, callee), hs1);
  }

  lemma SurvivorLeft(g: Graph, e: Edge, callee: Node)
    requires WellFormed(g) && CanBeDirect(g, e) && callee in g.nodes && e.caller in g.nodes
    requires g.edges[e].speculative ==> |MatchesOf(g, e, callee)| <= 1
    ensures var g', r := MakeDirect(g, e, callee), Survivor(g, e, callee);
      && r in g.edges && r in g'.edges && !g'.edges[r].speculative && r.caller == e.caller && g'.edges[r].stmt == g.edges[e].stmt
  {
    var n, t := e.caller, g.edges[e].stmt;
    var g' := MakeDirect(g, e, callee);
    MakeDirectLeavesOne(g, e, callee);
    MakeDirectKeeps(g, e, callee);
    var d := SiteIn(g', n, t).targets[0];
    assert d in SiteIn(g', n, t).targets;
    TargetEntry(g', n, t, d);
  }

  /** set_call_stmt. */
  method SetEdgeStmt(e: Edge, t': Stmt, callee: Node?, update: bool, ghost g: Graph, ghost hs: Tables)
    returns (r: Edge, freed: seq<Edge>, ghost hs': Tables)
    requires WellFormed(g) && Represents(g, hs) && HashesOK(hs, g) && CanSetStmt(g, e, callee, update)
    requires FreeStmt(g, e.caller, g.edges[e].stmt, t')
    modifies g.edges.Keys`count, g.edges.Keys`indirectInfo, g.edges.Keys`speculative
    modifies g.edges.Keys`callee, g.edges.Keys`indirectUnknownCallee, g.edges.Keys`callStmt
    modifies g.nodes.Keys`callees, g.nodes.Keys`indirectCalls, g.nodes.Keys`callers
    modifies e.caller`callSiteHash, e.caller`references
    modifies g.edges.Keys`prevCallee, g.edges.Keys`nextCallee, g.edges.Keys`prevCaller, g.edges.Keys`nextCaller
    ensures var g' := SetCallStmt(g, e, t', callee, update);
      ListsOK(g') && Represents(g', hs') && HashesOK(hs', g')
    ensures r == SetStmtResult(g, e, callee)
    ensures Freed(g.edges.Keys, SetCallStmt(g, e, t', callee, update).edges.Keys, freed)
  {
    assert FieldsRep(e, g.edges[e]);
    freed := [];
    if callee != null && (e.indirectUnknownCallee || e.speculative) {
      r, freed, hs' := SetDirectStmt(e, t', callee, g, hs);
    } else if update && e.speculative {
      r, hs' := SetSpeculativeStmt(e, t', g, hs);
    } else {
      hs' := SetPlainStmt(e, t', g, hs);
      r := e;
    }
  }

  /** The edge that represents the call after set_call_stmt. */
  ghost function SetStmtResult(g: Graph, e: Edge, callee: Node?): Edge
    requires WellFormed(g) && e in g.edges && e.caller in g.nodes
  {
    if TurnsDirect(g, e, callee) then Survivor(g, e, callee)
    else if g.edges[e].speculative then
      SpeculativeEdge(g, e);
      if g.edges[e].indirect then IndirectOf(g, e) else SiteOfEdge(g, e).targets[0].edge
    else e
  }

  lemma RenamedRepresentative(g: Graph, n: Node, t: Stmt, t': Stmt)
    requires WellFormed(g) && n in g.nodes && FreeStmt(g, n, t, t')
    ensures var g' := Rename(g, n, t, t');
      ListsOK(g') && n in g'.nodes && Representative(SiteIn(g', n, t')) == Representative(SiteIn(g, n, t))
  {
    RenameKeeps(g, n, t, t');
    if t == t' {
      RenameNothing(g, n, t, t');
    } else {
      RenamedSite(g, n, t, t');
    }
  }

  lemma RenamedDirect(g: Graph, n: Node, t: Stmt, t': Stmt, r: Edge, callee: Node?, count: int)
    requires WellFormed(g) && n in g.nodes && FreeStmt(g, n, t, t') && OnlyDirect(SiteIn(g, n, t), r, callee, count)
    ensures ListsOK(Rename(g, n, t, t')) && OnlyDirect(SiteIn(Rename(g, n, t, t'), n, t'), r, callee, count)
  {
    RenameKeeps(g, n, t, t');
    if t == t' {
      RenameNothing(g, n, t, t');
    } else {
      RenamedSite(g, n, t, t');
    }
  }

  /** The components of the call of e get the new statement; nothing else changes in any edge. */
  ghost predicate StmtMoved(edges: map<Edge, EdgeRec>, edges': map<Edge, EdgeRec>, e: Edge, t': Stmt)
    requires e in edges
  {
    && edges'.Keys == edges.Keys
    && forall f | f in edges ::
         edges'[f] == if f.caller == e.caller && edges[f].stmt == edges[e].stmt then edges[f].(stmt := t') else edges[f]
  }

  /** Of the call of e, r is left as the only edge, with the whole count, and has the new statement.  It
      is a target that stands for the callee, if there is one. */
  ghost predicate OneLeft(g: Graph, g': Graph, e: Edge, t': Stmt, callee: Node?, r: Edge)
    requires ListsOK(g) && ListsOK(g') && e in g.edges && e.caller in g.nodes && e.caller in g'.nodes
  {
    && r in g.edges && (callee != null ==> Left(SiteOfEdge(g, e), e, g.edges[e].speculative, callee, r))
    && OnlyDirect(SiteIn(g', e.caller, t'), r, if g.edges[r].indirect then callee else g.edges[r].callee,
                  TotalCount(SiteOfEdge(g, e)))
  }

  /** The edge that SetStmtResult gives stands at the statement before it gets its new one. */
  lemma ResultBefore(g: Graph, e: Edge)
    requires WellFormed(g) && e in g.edges && e.caller in g.nodes
    ensures var r := SetStmtResult(g, e, null);
      && r in g.edges && r.caller == e.caller && g.edges[r].stmt == g.edges[e].stmt
      && r == if g.edges[e].speculative && g.edges[e].indirect then e else Representative(SiteOfEdge(g, e))
  {
    var n, t := e.caller, g.edges[e].stmt;
    if g.edges[e].indirect {
      SiteOfIndirect(g, e);
    } else {
      SiteOfDirect(g, e);
      TargetEntry(g, n, t, SiteIn(g, n, t).targets[0]);
    }
  }

  /** What set_call_stmt returns has the new statement.  It is the edge it was asked for, if that is
      the indirect edge of a speculative call and stays so, and else the edge that stands for the new
      statement from now on. */
  lemma SetCallStmtReturns(g: Graph, e: Edge, t': Stmt, callee: Node?, update: bool)
    requires WellFormed(g) && CanSetStmt(g, e, callee, update) && FreeStmt(g, e.caller, g.edges[e].stmt, t')
    ensures var g', r := SetCallStmt(g, e, t', callee, update), SetStmtResult(g, e, callee);
      && ListsOK(g') && r in g'.edges && r.caller == e.caller && e.caller in g'.nodes && g'.edges[r].stmt == t'
      && r == (if g.edges[e].speculative && g.edges[e].indirect && callee == null then e
               else Representative(SiteIn(g', e.caller, t')))
      && if TurnsDirect(g, e, callee) then OneLeft(g, g', e, t', callee, r) else StmtMoved(g.edges, g'.edges, e, t')
  {
    hide ListsOK, Complete, SitesOK, RefsLive, SiteIn, MakeDirect, Survivor, OnlyDirect, Left;
    var n, t := e.caller, g.edges[e].stmt;
    if TurnsDirect(g, e, callee) {
      MakeDirectNodes(g, e, callee);
      MakeDirectLeavesOne(g, e, callee);
      SurvivorLeft(g, e, callee);
      DirectFree(g, e, callee, t');
      RenamedRepresentative(MakeDirect(g, e, callee), n, t, t');
      var r := Survivor(g, e, callee);
      SurvivorIsLeft(g, e, callee);
      RenamedDirect(MakeDirect(g, e, callee), n, t, t', r, if g.edges[r].indirect then callee else g.edges[r].callee,
                    TotalCount(SiteOfEdge(g, e)));
    } else {
      ResultBefore(g, e);
      RenamedRepresentative(g, n, t, t');
    }
  }

  // ---------- redirect_callee ----------

  lemma RedirectSteps(g: Graph, e: Edge, n: Node)
    requires ListsOK(g) && e in g.edges && g.edges[e].callee in g.nodes && n in g.nodes
    requires forall m | m in g.nodes && m != g.edges[e].callee :: e !in g.nodes[m].callers
    ensures OnNoCallers(PullCaller(g, g.edges[e].callee, e), e)
    ensures WithCallee(PullCaller(g, g.edges[e].callee, e), e, n) == Redirect(g, e, n)
  {
    assert NodeOK(g.edges[e].callee, g.nodes[g.edges[e].callee], g.edges);
    UnlinkNoDup(g.nodes[g.edges[e].callee].callers, e);
  }

  lemma RedirectFacts(g: Graph, hs: Tables, e: Edge, n: Node)
    requires WellFormed(g) && HashesOK(hs, g) && e in g.edges && !g.edges[e].indirect && n in g.nodes
    ensures g.edges[e].callee in g.nodes && e in g.nodes[g.edges[e].callee].callers
    ensures forall m | m in g.nodes && m != g.edges[e].callee :: e !in g.nodes[m].callers
    ensures WellFormed(Redirect(g, e, n)) && HashesOK(hs, Redirect(g, e, n))
  {
    assert EdgeOK(g, e);
    forall m | m in g.nodes && m != g.edges[e].callee ensures e !in g.nodes[m].callers {
      assert NodeOK(m, g.nodes[m], g.edges);
    }
    RedirectKeeps(g, e, n);
    RedirectSite(g, e, n);
    SiteOfDirect(g, e);
    var v, r := SiteOfEdge(g, e), Retargeted(g.edges[e], n);
    SameRepresentative(hs, g, Redirect(g, e, n), e.caller, g.edges[e].stmt,
                       Site(Put(v.targets, e, r), Put(v.indirects, e, r), v.refs));
  }

  /** cgraph_edge::redirect_callee. */
  method RedirectEdge(e: Edge, n: Node, ghost g: Graph, ghost hs: Tables)
    requires WellFormed(g) && Represents(g, hs) && HashesOK(hs, g)
    requires e in g.edges && !g.edges[e].indirect && n in g.nodes
    modifies g.nodes.Keys`callers, e`callee, g.edges.Keys`prevCaller, g.edges.Keys`nextCaller
    ensures g.edges[e].callee in g.nodes && WellFormed(Redirect(g, e, n))
    ensures Represents(Redirect(g, e, n), hs) && HashesOK(hs, Redirect(g, e, n))
  {
    RedirectFacts(g, hs, e, n);
    RedirectSteps(g, e, n);
    TakeIn(e, g, hs);
    PutIn(e, n, PullCaller(g, g.edges[e].callee, e), hs);
  }

  // ---------- remove ----------

  /** Nothing is left at the site of a removed edge that was not speculative. */
  lemma SiteOfRemoved(g: Graph, e: Edge)
    requires WellFormed(g) && e in g.edges && !g.edges[e].speculative && e.caller in g.nodes
    ensures Live(g, e) && ListsOK(g) && ListsOK(Remove(g, e))
    ensures var v := SiteIn(Remove(g, e), e.caller, g.edges[e].stmt);
      v.targets == [] && v.indirects == [] && Changes(g, Remove(g, e), e.caller, g.edges[e].stmt, v)
  {
    hide ListsOK, Remove;
    RemoveKeeps(g, e);
    RemoveSite(g, e);
    if g.edges[e].indirect {
      SiteOfIndirect(g, e);
    } else {
      SiteOfDirect(g, e);
    }
  }

  /** Dropping the slot changes no other. */
  lemma DroppedBut(hs: Tables, g: Graph, e: Edge, t: Stmt)
    requires ListsOK(g) && HashesOK(hs, g) && e.caller in g.nodes
    ensures HashesBut(DropSlot(hs, e.caller, t, e), g, e.caller, t)
  {
    hide ListsOK, HashesOK, HashesBut;
    var n := e.caller;
    var hs' := DropSlot(hs, n, t, e);
    OKBut(hs, g, n, t);
    SlotChanged(hs, g, n, t, hs'[n]);
    assert hs[n := hs'[n]] == hs';
  }

  /** Removing an edge that is not speculative leaves every table right. */
  lemma RemoveHashes(hs: Tables, g: Graph, e: Edge)
    requires WellFormed(g) && HashesOK(hs, g) && e in g.edges && !g.edges[e].speculative && e.caller in g.nodes
    ensures Live(g, e) && ListsOK(Remove(g, e))
    ensures HashesOK(DropSlot(hs, e.caller, g.edges[e].stmt, e), Remove(g, e))
  {
    hide WellFormed, Changes, ListsOK, HashesBut;
    var n, t := e.caller, g.edges[e].stmt;
    var hs' := DropSlot(hs, n, t, e);
    SiteOfRemoved(g, e);
    DroppedBut(hs, g, e, t);
    if hs[n].Some? {
      assert HashOK(hs[n], g, n) && SlotOK(hs[n].value, SiteIn(g, n, t), t);
      RepresentativeOfPlain(g, e);
    }
    HashesAfter(hs', g, Remove(g, e), n, t, SiteIn(Remove(g, e), n, t));
  }

  lemma RepresentativeOfPlain(g: Graph, e: Edge)
    requires WellFormed(g) && e in g.edges && !g.edges[e].speculative && e.caller in g.nodes
    ensures Representative(SiteOfEdge(g, e)) == e && !HalfSpeculative(SiteOfEdge(g, e))
  {
    if g.edges[e].indirect {
      SiteOfIndirect(g, e);
    } else {
      SiteOfDirect(g, e);
    }
  }
}

