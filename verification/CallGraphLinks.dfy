/** Each elementary step on the heap refines the elementary change of the graph value. */
module CallGraphLinks {
  import opened Common
  import opened CallGraphTypes
  import opened CallSites
  import opened EdgeLists
  import opened CallGraphSteps
  import opened CallGraphInvariants
  import opened CallGraphHeap
  import opened CallSiteHash

  lemma ListedNode(g: Graph, hs: Tables, n: Node)
    requires ListsOK(g) && Complete(g) && Represents(g, hs) && n in g.nodes
    ensures Listed(n, g)
  {
    var r := g.nodes[n];
    assert NodeOK(n, r, g.edges) && NodeRep(n, r, hs[n]);
    forall e | e in r.callees
      ensures FieldsRep(e, g.edges[e]) && e.nextCallee == After(r.callees, e) && e.prevCallee == Before(r.callees, e)
      ensures e.callee != null && !e.indirectUnknownCallee
    {
      assert FieldsRep(e, g.edges[e]) && CalleeLinks(e, g) && EdgeOK(g, e);
    }
    forall e | e in r.indirects
      ensures FieldsRep(e, g.edges[e]) && e.nextCallee == After(r.indirects, e)
      ensures e.callee == null && e.indirectUnknownCallee
    {
      assert FieldsRep(e, g.edges[e]) && CalleeLinks(e, g) && EdgeOK(g, e);
    }
  }

  lemma OutNeighbours(g: Graph, hs: Tables, e: Edge, indirect: bool)
    requires ListsOK(g) && Represents(g, hs) && e in g.edges && e.caller in g.nodes
    requires e in OutList(g, e.caller, indirect)
    ensures var s := OutList(g, e.caller, indirect);
      && e.nextCallee == After(s, e) && e.prevCallee == Before(s, e)
      && After(s, e) != e && Before(s, e) != e && (After(s, e) != null ==> After(s, e) != Before(s, e))
      && (After(s, e) != null ==> After(s, e) in g.edges) && (Before(s, e) != null ==> Before(s, e) in g.edges)
  {
    assert NodeOK(e.caller, g.nodes[e.caller], g.edges) && CalleeLinks(e, g);
    UnlinkHead(OutList(g, e.caller, indirect), e);
    NeighboursIn(OutList(g, e.caller, indirect), e);
  }

  lemma InNeighbours(g: Graph, hs: Tables, e: Edge)
    requires ListsOK(g) && Represents(g, hs) && e in g.edges
    requires g.edges[e].callee in g.nodes && e in g.nodes[g.edges[e].callee].callers
    ensures var s := g.nodes[g.edges[e].callee].callers;
      && e.callee == g.edges[e].callee
      && e.nextCaller == After(s, e) && e.prevCaller == Before(s, e)
      && After(s, e) != e && Before(s, e) != e && (After(s, e) != null ==> After(s, e) != Before(s, e))
      && (After(s, e) != null ==> After(s, e) in g.edges) && (Before(s, e) != null ==> Before(s, e) in g.edges)
  {
    var n := g.edges[e].callee;
    assert NodeOK(n, g.nodes[n], g.edges) && CallerLinks(e, g) && FieldsRep(e, g.edges[e]);
    UnlinkHead(g.nodes[n].callers, e);
    NeighboursIn(g.nodes[n].callers, e);
  }

  /** Puts e at the front of its caller's callees or indirect_calls. */
  method PutOut(e: Edge, indirect: bool, ghost g: Graph, ghost hs: Tables)
    requires ListsOK(g) && Represents(g, hs) && e in g.edges && e.caller in g.nodes
    requires e !in g.nodes[e.caller].callees && e !in g.nodes[e.caller].indirects
    modifies g.nodes.Keys`callees, g.nodes.Keys`indirectCalls
    modifies g.edges.Keys`prevCallee, g.edges.Keys`nextCallee
    ensures ListsOK(PushOut(g, e, indirect)) && Represents(PushOut(g, e, indirect), hs)
  {
    assert NodeRep(e.caller, g.nodes[e.caller], hs[e.caller]) && NodeOK(e.caller, g.nodes[e.caller], g.edges);
    LinkOut(e, indirect, g);
    LinkOutRep(State(g, hs), e, indirect);
    if indirect {
      PushIndirectLists(g, e, g.edges.Keys);
    } else {
      PushCalleeLists(g, e, g.edges.Keys);
    }
  }

  /** Takes e off its caller's callees or indirect_calls. */
  method TakeOut(e: Edge, indirect: bool, ghost g: Graph, ghost hs: Tables)
    requires ListsOK(g) && Represents(g, hs) && e in g.edges && e.caller in g.nodes
    requires e in OutList(g, e.caller, indirect)
    modifies g.nodes.Keys`callees, g.nodes.Keys`indirectCalls
    modifies g.edges.Keys`prevCallee, g.edges.Keys`nextCallee
    ensures ListsOK(PullOut(g, e, indirect)) && Represents(PullOut(g, e, indirect), hs)
  {
    OutNeighbours(g, hs, e, indirect);
    UnlinkOut(e, indirect, g);
    UnlinkOutRep(State(g, hs), e, indirect);
    if indirect {
      PullIndirectLists(g, e, g.edges.Keys);
    } else {
      PullCalleeLists(g, e, g.edges.Keys);
    }
  }

  /** Puts e at the front of the callers of n. */
  method PutIn(e: Edge, n: Node, ghost g: Graph, ghost hs: Tables)
    requires ListsOK(g) && Represents(g, hs) && e in g.edges && n in g.nodes && OnNoCallers(g, e)
    modifies g.nodes.Keys`callers, e`callee
    modifies g.edges.Keys`prevCaller, g.edges.Keys`nextCaller
    ensures ListsOK(WithCallee(g, e, n)) && Represents(WithCallee(g, e, n), hs)
  {
    assert NodeRep(n, g.nodes[n], hs[n]) && NodeOK(n, g.nodes[n], g.edges);
    SetCallee(e, n, g);
    SetCalleeRep(State(g, hs), e, n);
    WithCalleeLists(g, e, n);
  }

  /** Takes e off the callers of its callee. */
  method TakeIn(e: Edge, ghost g: Graph, ghost hs: Tables)
    requires ListsOK(g) && Represents(g, hs) && e in g.edges
    requires g.edges[e].callee in g.nodes && e in g.nodes[g.edges[e].callee].callers
    modifies g.nodes.Keys`callers, g.edges.Keys`prevCaller, g.edges.Keys`nextCaller
    ensures ListsOK(PullCaller(g, g.edges[e].callee, e)) && Represents(PullCaller(g, g.edges[e].callee, e), hs)
  {
    ghost var n := g.edges[e].callee;
    InNeighbours(g, hs, e);
    RemoveCallee(e, g);
    RemoveCalleeRep(State(g, hs), n, e);
    PullCallerLists(g, n, e, g.edges.Keys);
  }

  // ---------- looking up and creating edges ----------

  /** cgraph_node::get_edge, which may build the table on the way. */
  method LookUp(n: Node, t: Stmt, ghost g: Graph, ghost hs: Tables) returns (e: Edge?, ghost hs': Tables)
    requires ListsOK(g) && Complete(g) && Represents(g, hs) && HashesOK(hs, g)
    requires n in g.nodes && NodeScannable(g, n)
    modifies n`callSiteHash
    ensures Represents(g, hs') && HashesOK(hs', g)
    ensures e == Representative(SiteIn(g, n, t)) || (HalfSpeculative(SiteIn(g, n, t)) && e == null)
  {
    hide ListsOK, Complete, NodeScannable, FieldsOK, CalleeLinksOK, Head;
    ListedNode(g, hs, n);
    assert NodeRep(n, g.nodes[n], hs[n]) && HashOK(hs[n], g, n);
    e := GetEdge(n, t, g);
    hs' := hs[n := n.callSiteHash];
    TableRep(State(g, hs), n);
  }

  /** A statement at which an ordinary edge may be created, or a further speculative target. */
  ghost predicate OpenSite(v: Site) {
    EmptySite(v) || HalfSpeculative(v) || SpeculativeSite(v)
  }

  /** Every table is right, but for statement e.callStmt of e's caller, where it has e. */
  ghost predicate Entered(hs: Tables, g: Graph, e: Edge, t: Stmt)
    requires ListsOK(g) && e.caller in g.nodes
  {
    EnteredAs(hs, g, e.caller, t, e)
  }

  /** Every table is right, but for statement t of n, where it has `owner`. */
  ghost predicate EnteredAs(hs: Tables, g: Graph, n: Node, t: Stmt, owner: Edge)
    requires ListsOK(g) && n in g.nodes
  {
    HashesBut(hs, g, n, t) && var h := hs[n]; h.Some? ==> t in h.value && h.value[t] == owner
  }

  /** A new edge gets the slot, unless it is indirect and the statement has a direct one. */
  ghost function Owner(v: Site, e: Edge, indirect: bool): Edge {
    if indirect && v.targets != [] then v.targets[0].edge else e
  }

  /** Enters a new edge, already part of g' though on no list yet, in its caller's table. */
  method EnterNewEdge(e: Edge, ghost g: Graph, ghost g': Graph, ghost hs: Tables) returns (ghost hs': Tables)
    requires ListsOK(g) && HashesOK(hs, g) && e.caller in g.nodes && e.caller in g'.nodes && Represents(g', hs)
    requires var v := SiteIn(g, e.caller, e.callStmt); var r := Representative(v);
      r != null ==> r.speculative && (e.callee != null || v.targets != [])
    requires !e.speculative && e.prevCallee == null
    modifies e.caller`callSiteHash
    ensures Represents(g', hs')
    ensures EnteredAs(hs', g, e.caller, e.callStmt, Owner(SiteIn(g, e.caller, e.callStmt), e, e.callee == null))
  {
    hide ListsOK, FieldsOK, CallerLinksOK, CalleeSideSame, Head;
    var n := e.caller;
    ghost var t := e.callStmt;
    OKBut(hs, g, n, t);
    assert NodeRep(n, g'.nodes[n], hs[n]);
    if n.callSiteHash.Some? {
      assert HashOK(hs[n], g, n) && SlotOK(hs[n].value, SiteIn(g, n, t), t);
      AddEdgeToCallSiteHash(e);
      hs' := hs[n := n.callSiteHash];
      TableRep(State(g', hs), n);
      SlotChanged(hs, g, n, t, n.callSiteHash);
    } else {
      hs' := hs;
    }
  }

  /** Allocates an edge that is on no list yet. */
  method NewEdge(caller: Node, callee: Node?, t: Stmt, count: int, indirect: bool, ghost g: Graph, ghost hs: Tables)
    returns (e: Edge)
    requires ListsOK(g) && Complete(g) && Represents(g, hs)
    ensures fresh(e) && e.caller == caller && e.prevCallee == null
    ensures var r := EdgeRec(callee, t, false, indirect, 0, count, None);
      FieldsRep(e, r) && ListsOK(SetRec(g, e, r)) && Represents(SetRec(g, e, r), hs)
  {
    e := new Edge(caller, callee, t, count, indirect);
    ghost var r := EdgeRec(callee, t, false, indirect, 0, count, None);
    NewEdgeLists(g, e, r);
    NewEdgeRep(g, hs, e, r);
  }

  /** symbol_table::create_edge: a new edge that is on no list yet, entered in the table. */
  method AllocateEdge(caller: Node, callee: Node?, t: Stmt, count: int, indirect: bool,
                      ghost g: Graph, ghost hs: Tables)
    returns (e: Edge, ghost hs': Tables)
    requires ListsOK(g) && Complete(g) && Represents(g, hs) && HashesOK(hs, g)
    requires caller in g.nodes && NodeScannable(g, caller)
    requires var v := SiteIn(g, caller, t); if callee == null then EmptySite(v) || SpeculativeSite(v) else OpenSite(v)
    modifies caller`callSiteHash
    ensures fresh(e) && e.caller == caller
    ensures var r := EdgeRec(callee, t, false, indirect, 0, count, None);
      FieldsRep(e, r) && ListsOK(SetRec(g, e, r)) && Represents(SetRec(g, e, r), hs')
    ensures EnteredAs(hs', g, caller, t, Owner(SiteIn(g, caller, t), e, callee == null))
  {
    var present;
    present, hs' := LookUp(caller, t, g, hs);
    RepresentativeSpeculative(g, caller, t);
    e := NewEdge(caller, callee, t, count, indirect, g, hs');
    hs' := EnterNewEdge(e, g, SetRec(g, e, EdgeRec(callee, t, false, indirect, 0, count, None)), hs');
  }

  lemma WithSameCallee(g: Graph, e: Edge, n: Node)
    requires e in g.edges && n in g.nodes && g.edges[e].callee == n
    ensures WithCallee(g, e, n) == PushCaller(g, n, e)
  {
    assert Retargeted(g.edges[e], n) == g.edges[e];
    assert g.edges[e := g.edges[e]] == g.edges;
  }

  lemma NewOnNoList(g: Graph, e: Edge, r: EdgeRec)
    requires ListsOK(g) && e !in g.edges
    ensures OnNoCallers(SetRec(g, e, r), e)
    ensures e.caller in g.nodes ==> e !in g.nodes[e.caller].callees && e !in g.nodes[e.caller].indirects
  {
    forall n | n in g.nodes ensures e !in g.nodes[n].callers && e !in g.nodes[n].callees && e !in g.nodes[n].indirects {
      assert NodeOK(n, g.nodes[n], g.edges);
    }
  }

  /** cgraph_node::create_edge. */
  method LinkNewEdge(caller: Node, callee: Node, t: Stmt, count: int, ghost g: Graph, ghost hs: Tables)
    returns (e: Edge, ghost hs': Tables)
    requires ListsOK(g) && Complete(g) && Represents(g, hs) && HashesOK(hs, g)
    requires caller in g.nodes && callee in g.nodes && NodeScannable(g, caller) && OpenSite(SiteIn(g, caller, t))
    modifies g.nodes.Keys`callees, g.nodes.Keys`indirectCalls, g.nodes.Keys`callers, caller`callSiteHash
    modifies g.edges.Keys`prevCallee, g.edges.Keys`nextCallee, g.edges.Keys`prevCaller, g.edges.Keys`nextCaller
    ensures fresh(e) && e.caller == caller
    ensures Represents(CreateEdge(g, e, callee, t, count), hs')
    ensures Entered(hs', g, e, t)
  {
    hide ListsOK, Represents, FieldsOK;
    e, hs' := AllocateEdge(caller, callee, t, count, false, g, hs);
    ghost var r := EdgeRec(callee, t, false, false, 0, count, None);
    ghost var g1 := SetRec(g, e, r);
    NewOnNoList(g, e, r);
    PutOut(e, false, g1, hs');
    WithSameCallee(PushOut(g1, e, false), e, callee);
    PutIn(e, callee, PushOut(g1, e, false), hs');
  }

  /** Gives a new indirect edge its call info. */
  method InitIndirectInfo(e: Edge, ghost g: Graph, ghost hs: Tables)
    requires ListsOK(g) && Represents(g, hs) && e in g.edges
    modifies e`indirectInfo
    ensures Represents(SetRec(g, e, g.edges[e].(info := Some(0))), hs)
  {
    assert FieldsRep(e, g.edges[e]);
    e.indirectInfo := Some(0);
    RecordRep(State(g, hs), e, g.edges[e].(info := Some(0)));
  }

  lemma SetRecTwice(g: Graph, e: Edge, r: EdgeRec, r': EdgeRec)
    ensures SetRec(SetRec(g, e, r), e, r') == SetRec(g, e, r')
  {
  }

  method AllocateIndirectEdge(caller: Node, t: Stmt, count: int, ghost g: Graph, ghost hs: Tables)
    returns (e: Edge, ghost hs': Tables)
    requires ListsOK(g) && Complete(g) && Represents(g, hs) && HashesOK(hs, g)
    requires caller in g.nodes && NodeScannable(g, caller)
    requires EmptySite(SiteIn(g, caller, t)) || SpeculativeSite(SiteIn(g, caller, t))
    modifies caller`callSiteHash
    ensures fresh(e) && e.caller == caller
    ensures Represents(SetRec(g, e, EdgeRec(null, t, false, true, 0, count, Some(0))), hs')
    ensures EnteredAs(hs', g, caller, t, Owner(SiteIn(g, caller, t), e, true))
  {
    e, hs' := AllocateEdge(caller, null, t, count, true, g, hs);
    ghost var r := EdgeRec(null, t, false, true, 0, count, None);
    SetRecTwice(g, e, r, EdgeRec(null, t, false, true, 0, count, Some(0)));
    InitIndirectInfo(e, SetRec(g, e, r), hs');
  }

  /** cgraph_node::create_indirect_edge. */
  method LinkNewIndirectEdge(caller: Node, t: Stmt, count: int, ghost g: Graph, ghost hs: Tables)
    returns (e: Edge, ghost hs': Tables)
    requires ListsOK(g) && Complete(g) && Represents(g, hs) && HashesOK(hs, g)
    requires caller in g.nodes && NodeScannable(g, caller)
    requires EmptySite(SiteIn(g, caller, t)) || SpeculativeSite(SiteIn(g, caller, t))
    modifies g.nodes.Keys`callees, g.nodes.Keys`indirectCalls, caller`callSiteHash
    modifies g.edges.Keys`prevCallee, g.edges.Keys`nextCallee
    ensures fresh(e) && e.caller == caller
    ensures Represents(CreateIndirectEdge(g, e, t, count), hs')
    ensures EnteredAs(hs', g, caller, t, Owner(SiteIn(g, caller, t), e, true))
  {
    e, hs' := AllocateIndirectEdge(caller, t, count, g, hs);
    ghost var r := EdgeRec(null, t, false, true, 0, count, Some(0));
    NewOnNoList(g, e, r);
    NewEdgeLists(g, e, r);
    PutOut(e, true, SetRec(g, e, r), hs');
  }

  lemma CreateEdgeEffect(hs: Tables, g: Graph, e: Edge, callee: Node, t: Stmt, count: int)
    requires ListsOK(g) && Complete(g) && e !in g.edges && e.caller in g.nodes && callee in g.nodes
    requires Entered(hs, g, e, t)
    ensures var g' := CreateEdge(g, e, callee, t, count); ListsOK(g') && Complete(g') && HashesOK(hs, g')
  {
    CreateEdgeLists(g, e, callee, t, count);
    CreateEdgeSite(g, e, callee, t, count);
    var g' := CreateEdge(g, e, callee, t, count);
    HashesAfter(hs, g, g', e.caller, t, SiteIn(g', e.caller, t));
  }

  lemma CreateIndirectEdgeEffect(hs: Tables, g: Graph, e: Edge, t: Stmt, count: int)
    requires ListsOK(g) && Complete(g) && e !in g.edges && e.caller in g.nodes
    requires EnteredAs(hs, g, e.caller, t, Owner(SiteIn(g, e.caller, t), e, true))
    ensures var g' := CreateIndirectEdge(g, e, t, count); ListsOK(g') && Complete(g') && HashesOK(hs, g')
  {
    hide ListsOK;
    CreateIndirectEdgeLists(g, e, t, count);
    CreateIndirectEdgeSite(g, e, t, count);
    var g' := CreateIndirectEdge(g, e, t, count);
    HashesAfter(hs, g, g', e.caller, t, SiteIn(g', e.caller, t));
  }
}
