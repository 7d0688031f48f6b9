/** Removing an edge and resolving a speculation, on the heap. */
module CallGraphResolve {
  import opened Common
  import opened CallGraphTypes
  import opened CallSites
  import opened CallGraphSteps
  import opened CallGraphInvariants
  import opened CallGraphMakeDirect
  import opened CallGraphHeap
  import opened CallSiteHash
  import opened CallGraphLinks

  // ---------- tables ----------

  ghost predicate HasSlot(hs: Tables, n: Node, t: Stmt, e: Edge) {
    n in hs && hs[n].Some? && t in hs[n].value && hs[n].value[t] == e
  }

  /** The tables after edge e has gone from its slot. */
  ghost function DropSlot(hs: Tables, n: Node, t: Stmt, e: Edge): Tables {
    if HasSlot(hs, n, t, e) then hs[n := Some(hs[n].value - {t})] else hs
  }

  /** The tables after another edge has taken the slot of edge e. */
  ghost function MoveSlot(hs: Tables, n: Node, t: Stmt, e: Edge, to: Edge): Tables {
    if HasSlot(hs, n, t, e) then hs[n := Some(hs[n].value[t := to])] else hs
  }

  /** The end of remove_caller: forget e if the table has it. */
  method DropFromTable(e: Edge, ghost g: Graph, ghost hs: Tables)
    requires e.caller in g.nodes && Represents(g, hs)
    modifies e.caller`callSiteHash
    ensures Represents(g, DropSlot(hs, e.caller, e.callStmt, e))
  {
    var n := e.caller;
    assert NodeRep(n, g.nodes[n], hs[n]);
    if n.callSiteHash.Some? && e.callStmt in n.callSiteHash.value && n.callSiteHash.value[e.callStmt] == e {
      n.callSiteHash := Some(n.callSiteHash.value - {e.callStmt});
      TableRep(State(g, hs), n);
    }
  }

  /** cgraph_edge::remove_caller. */
  method RemoveCaller(e: Edge, ghost g: Graph, ghost hs: Tables)
    requires ListsOK(g) && Represents(g, hs) && e in g.edges && e.caller in g.nodes
    requires e in OutList(g, e.caller, g.edges[e].indirect)
    modifies g.nodes.Keys`callees, g.nodes.Keys`indirectCalls, e.caller`callSiteHash
    modifies g.edges.Keys`prevCallee, g.edges.Keys`nextCallee
    ensures var g' := PullOut(g, e, g.edges[e].indirect);
      ListsOK(g') && Represents(g', DropSlot(hs, e.caller, g.edges[e].stmt, e))
  {
    assert FieldsRep(e, g.edges[e]);
    TakeOut(e, e.indirectUnknownCallee, g, hs);
    DropFromTable(e, PullOut(g, e, g.edges[e].indirect), hs);
  }

  /** cgraph_edge::remove, but for the count of edges. */
  method RemoveEdge(e: Edge, ghost g: Graph, ghost hs: Tables)
    requires ListsOK(g) && Represents(g, hs) && e in g.edges && EdgeOK(g, e)
    modifies g.nodes.Keys`callees, g.nodes.Keys`indirectCalls, g.nodes.Keys`callers, e.caller`callSiteHash
    modifies g.edges.Keys`prevCallee, g.edges.Keys`nextCallee, g.edges.Keys`prevCaller, g.edges.Keys`nextCaller
    ensures Represents(Remove(g, e), DropSlot(hs, e.caller, g.edges[e].stmt, e))
  {
    assert FieldsRep(e, g.edges[e]);
    ghost var hs' := DropSlot(hs, e.caller, g.edges[e].stmt, e);
    if !e.indirectUnknownCallee {
      ghost var g1 := PullCaller(g, g.edges[e].callee, e);
      TakeIn(e, g, hs);
      RemoveCaller(e, g1, hs);
      ForgetRep(PullCallee(g1, e), hs', e);
    } else {
      RemoveCaller(e, g, hs);
      ForgetRep(PullIndirect(g, e), hs', e);
    }
  }

  /** update_call_stmt_hash_for_removing_direct_edge. */
  method UpdateHashForRemoving(e: Edge, x: Edge, ghost g: Graph, ghost hs: Tables)
    requires e.caller in g.nodes && Represents(g, hs)
    requires var to: Edge? := if x.NumSpeculativeCallTargets() == 0 then x else e.nextCallee;
      HasSlot(hs, e.caller, e.callStmt, e) ==> to != null && to.callStmt == e.callStmt
    modifies e.caller`callSiteHash
    ensures var to: Edge? := if x.NumSpeculativeCallTargets() == 0 then x else e.nextCallee;
      if HasSlot(hs, e.caller, e.callStmt, e) then Represents(g, MoveSlot(hs, e.caller, e.callStmt, e, to))
      else Represents(g, hs)
  {
    hide CalleeSideSame;
    var n := e.caller;
    assert NodeRep(n, g.nodes[n], hs[n]);
    if n.callSiteHash.Some? {
      if !(e.callStmt in n.callSiteHash.value && n.callSiteHash.value[e.callStmt] == e) {
        return;
      }
      var to: Edge? := if x.NumSpeculativeCallTargets() == 0 then x else e.nextCallee;
      var h: Table := n.callSiteHash.value;
      n.callSiteHash := Some(h[to.callStmt := to]);
      TableRep(State(g, hs), n);
    }
  }

  // ---------- fields ----------

  /** The survivor takes over the count and, if it is the indirect edge, loses one target. */
  method AbsorbCount(stay: Edge, go: Edge, ghost g: Graph, ghost hs: Tables)
    requires Represents(g, hs) && stay in g.edges && go in g.edges
    modifies stay`count, stay`indirectInfo, stay`speculative
    ensures Represents(SetRec(g, stay, LoseTarget(g.edges[stay], g.edges[go].count)), hs)
  {
    hide ListsOK, CalleeLinksOK, NodesOK;
    assert FieldsRep(stay, g.edges[stay]) && FieldsRep(go, g.edges[go]);
    stay.count := stay.count + go.count;
    if stay.NumSpeculativeCallTargets() > 0 {
      stay.indirectInfo := Some(stay.indirectInfo.value - 1);
      if stay.indirectInfo.value == 0 {
        stay.speculative := false;
      }
    } else {
      stay.speculative := false;
    }
    RecordRep(State(g, hs), stay, LoseTarget(g.edges[stay], g.edges[go].count));
  }

  ghost function Cleared(r: EdgeRec): EdgeRec {
    r.(speculative := false)
  }

  method ClearSpeculative(go: Edge, ghost g: Graph, ghost hs: Tables)
    requires Represents(g, hs) && go in g.edges
    modifies go`speculative
    ensures Represents(SetRec(g, go, Cleared(g.edges[go])), hs)
  {
    assert FieldsRep(go, g.edges[go]);
    go.speculative := false;
    RecordRep(State(g, hs), go, Cleared(g.edges[go]));
  }

  method RemoveReference(n: Node, k: nat, ghost g: Graph, ghost hs: Tables)
    requires n in g.nodes && Represents(g, hs) && k < |g.nodes[n].refs|
    modifies n`references
    ensures Represents(SetRefs(g, n, g.nodes[n].refs[..k] + g.nodes[n].refs[k + 1..]), hs)
  {
    assert NodeRep(n, g.nodes[n], hs[n]);
    n.references := n.references[..k] + n.references[k + 1..];
    RefsRep(State(g, hs), n, n.references);
  }

  // ---------- resolving ----------

  /** The graph value before the last step of a resolution, the removal of edge `go`. */
  ghost function Settling(g: Graph, stay: Edge, go: Edge, id: nat): Graph
    requires stay in g.edges && go in g.edges && go.caller in g.nodes
  {
    var g1 := SetRec(g, stay, LoseTarget(g.edges[stay], g.edges[go].count));
    var g2 := SetRec(g1, go, Cleared(g.edges[go]));
    SetRefs(g2, go.caller, DropRef(g.nodes[go.caller].refs, g.edges[go].stmt, id))
  }

  lemma SettlingLists(g: Graph, stay: Edge, go: Edge, id: nat)
    requires ListsOK(g) && Complete(g) && stay in g.edges && go in g.edges && stay != go && go.caller in g.nodes
    ensures ListsOK(Settling(g, stay, go, id)) && EdgeOK(Settling(g, stay, go, id), go)
  {
    hide NodeOK;
    assert EdgeOK(g, go);
    var g1 := SetRec(g, stay, LoseTarget(g.edges[stay], g.edges[go].count));
    var g2 := SetRec(g1, go, Cleared(g.edges[go]));
    SetRecLists(g, stay, LoseTarget(g.edges[stay], g.edges[go].count), {});
    SetRecLists(g1, go, Cleared(g.edges[go]), {stay});
    SetRefsOnlyRefs(g2, go.caller, DropRef(g.nodes[go.caller].refs, g.edges[go].stmt, id));
  }

  lemma SettlingDrop(g: Graph, d: Edge, x: Edge)
    requires Live(g, d) && x in g.edges && x != d
    requires Live(Settling(g, x, d, g.edges[d].speculativeId), d)
    ensures Remove(Settling(g, x, d, g.edges[d].speculativeId), d) == DropTarget(g, d, x)
  {
    hide LoseTarget, DropRef, Unlink;
    var g', g'' := Remove(Settling(g, x, d, g.edges[d].speculativeId), d), DropTarget(g, d, x);
    assert g'.edges == g''.edges;
    assert g'.nodes == g''.nodes;
  }

  lemma SettlingKeep(g: Graph, d: Edge, x: Edge)
    requires d in g.edges && Live(g, x) && x != d && d.caller == x.caller
    requires g.edges[d].info == None && g.edges[x].stmt == g.edges[d].stmt
    requires Live(Settling(g, d, x, g.edges[d].speculativeId), x)
    ensures Remove(Settling(g, d, x, g.edges[d].speculativeId), x) == KeepTarget(g, d, x)
  {
    hide Unlink;
    assert LoseTarget(g.edges[d], g.edges[x].count) == Won(g.edges[d], g.edges[x].count);
    var g', g'' := Remove(Settling(g, d, x, g.edges[d].speculativeId), x), KeepTarget(g, d, x);
    assert g'.edges == g''.edges;
    assert g'.nodes == g''.nodes;
  }

  /** Which edge takes the slot of `go`, if `go` has it. */
  ghost function Heir(g: Graph, stay: Edge, go: Edge): Edge?
    requires stay in g.edges && go in g.edges
    reads go
  {
    if LoseTarget(g.edges[stay], g.edges[go].count).NumTargets() == 0 then stay else go.nextCallee
  }

  /** The tables after the heir has taken the slot of `go`. */
  ghost function Inherited(hs: Tables, n: Node, t: Stmt, go: Edge, heir: Edge?): Tables
    requires HasSlot(hs, n, t, go) ==> heir != null
  {
    if HasSlot(hs, n, t, go) then MoveSlot(hs, n, t, go, heir) else hs
  }

  /** The tables after a resolution. */
  ghost function SettledTables(hs: Tables, n: Node, t: Stmt, go: Edge, heir: Edge?): Tables
    requires HasSlot(hs, n, t, go) ==> heir != null
  {
    DropSlot(Inherited(hs, n, t, go, heir), n, t, go)
  }

  /** The field and table updates of resolve_speculation. */
  method UpdateFields(stay: Edge, go: Edge, ghost g: Graph, ghost hs: Tables) returns (ghost hs': Tables)
    requires Represents(g, hs) && stay in g.edges && go in g.edges && stay != go
    requires stay.caller == go.caller && go.caller in g.nodes && g.edges[stay].stmt == g.edges[go].stmt
    requires HasSlot(hs, go.caller, g.edges[go].stmt, go) ==>
               Heir(g, stay, go) != null && Heir(g, stay, go).callStmt == g.edges[go].stmt
    modifies stay`count, stay`indirectInfo, stay`speculative, go`speculative, go.caller`callSiteHash
    ensures hs' == Inherited(hs, go.caller, g.edges[go].stmt, go, old(Heir(g, stay, go)))
    ensures var g1 := SetRec(g, stay, LoseTarget(g.edges[stay], g.edges[go].count));
      Represents(SetRec(g1, go, Cleared(g.edges[go])), hs')
  {
    hide HasSlot, NodesOK, CalleeLinks;
    ghost var g1 := SetRec(g, stay, LoseTarget(g.edges[stay], g.edges[go].count));
    ghost var g2 := SetRec(g1, go, Cleared(g.edges[go]));
    ghost var t := g.edges[go].stmt;
    ghost var heir := Heir(g, stay, go);
    assert FieldsRep(go, g.edges[go]);
    AbsorbCount(stay, go, g, hs);
    ClearSpeculative(go, g1, hs);
    assert FieldsRep(stay, g2.edges[stay]) && FieldsRep(go, g2.edges[go]);
    hs' := Inherited(hs, go.caller, t, go, heir);
    UpdateHashForRemoving(go, stay, g2, hs);
  }

  /** The updates of resolve_speculation, the removal of the reference and of the other edge. */
  method Settle(stay: Edge, go: Edge, k: nat, ghost id: nat, ghost g: Graph, ghost hs: Tables)
    returns (ghost hs': Tables)
    requires ListsOK(g) && Complete(g) && Represents(g, hs) && stay in g.edges && go in g.edges && stay != go
    requires stay.caller == go.caller && go.caller in g.nodes && g.edges[stay].stmt == g.edges[go].stmt
    requires HasSlot(hs, go.caller, g.edges[go].stmt, go) ==>
               Heir(g, stay, go) != null && Heir(g, stay, go).callStmt == g.edges[go].stmt
    requires var refs := g.nodes[go.caller].refs;
      k < |refs| && refs[..k] + refs[k + 1..] == DropRef(refs, g.edges[go].stmt, id)
    modifies stay`count, stay`indirectInfo, stay`speculative, go`speculative
    modifies g.nodes.Keys`callees, g.nodes.Keys`indirectCalls, g.nodes.Keys`callers
    modifies go.caller`callSiteHash, go.caller`references
    modifies g.edges.Keys`prevCallee, g.edges.Keys`nextCallee, g.edges.Keys`prevCaller, g.edges.Keys`nextCaller
    ensures Live(Settling(g, stay, go, id), go)
    ensures hs' == SettledTables(hs, go.caller, g.edges[go].stmt, go, old(Heir(g, stay, go)))
    ensures Represents(Remove(Settling(g, stay, go, id), go), hs')
  {
    ghost var g1 := SetRec(g, stay, LoseTarget(g.edges[stay], g.edges[go].count));
    ghost var g2 := SetRec(g1, go, Cleared(g.edges[go]));
    ghost var heir := Heir(g, stay, go);
    SettlingLists(g, stay, go, id);
    ghost var hs1 := UpdateFields(stay, go, g, hs);
    RemoveReference(go.caller, k, g2, hs1);
    RemoveEdge(go, Settling(g, stay, go, id), hs1);
    hs' := SettledTables(hs, go.caller, g.edges[go].stmt, go, heir);
  }

  // ---------- the tables stay right ----------

  lemma SlotOfSite(hs: Tables, g: Graph, n: Node, t: Stmt)
    requires ListsOK(g) && HashesOK(hs, g) && n in g.nodes && SpeculativeSite(SiteIn(g, n, t)) && hs[n].Some?
    ensures HasSlot(hs, n, t, SiteIn(g, n, t).targets[0].edge)
  {
    assert HashOK(hs[n], g, n) && SlotOK(hs[n].value, SiteIn(g, n, t), t);
  }

  lemma SettledBut(hs: Tables, g: Graph, n: Node, t: Stmt, go: Edge, heir: Edge?)
    requires ListsOK(g) && n in g.nodes && HashesOK(hs, g) && (HasSlot(hs, n, t, go) ==> heir != null)
    ensures HashesBut(SettledTables(hs, n, t, go, heir), g, n, t)
  {
    OKBut(hs, g, n, t);
    SlotChanged(hs, g, n, t, SettledTables(hs, n, t, go, heir)[n]);
    assert hs[n := SettledTables(hs, n, t, go, heir)[n]] == SettledTables(hs, n, t, go, heir);
  }

  /** The heir of target i of a site that loses this target. */
  lemma LostSlot(hs: Tables, n: Node, t: Stmt, v: Site, i: nat, d: Edge, rd: EdgeRec, x: Edge, rx: EdgeRec, heir: Edge?)
    requires i < |v.targets| && v.targets[i].edge == d && DistinctEdges(v.targets) && x != d
    requires i == 0 ==> heir == if |v.targets| == 1 then x else v.targets[1].edge
    requires n in hs && (hs[n].Some? ==> HasSlot(hs, n, t, v.targets[0].edge))
    ensures HasSlot(hs, n, t, d) ==> heir != null
    ensures var h := SettledTables(hs, n, t, d, heir)[n]; h.Some? ==> SlotOK(h.value, LostSite(v, d, rd, x, rx), t)
  {
    MinusIsSlice(v.targets, i);
    if i == 0 && |v.targets| > 1 {
      assert v.targets[0].edge != v.targets[1].edge;
    }
  }

  /** Dropping target i hands its slot, if it has it, to the next target or to the indirect edge. */
  lemma DropHashes(hs: Tables, g: Graph, d: Edge, x: Edge, i: nat, heir: Edge?)
    requires WellFormed(g) && HashesOK(hs, g) && SameCall(g, d, x) && d.caller in g.nodes
    requires var a := SiteOfEdge(g, d).targets;
      && i < |a| && a[i].edge == d
      && (i == 0 ==> heir == if |a| == 1 then x else a[1].edge)
    ensures Live(g, d) && ListsOK(DropTarget(g, d, x))
    ensures HasSlot(hs, d.caller, g.edges[d].stmt, d) ==> heir != null
    ensures HashesOK(SettledTables(hs, d.caller, g.edges[d].stmt, d, heir), DropTarget(g, d, x))
  {
    var n, t := d.caller, g.edges[d].stmt;
    var v := SiteIn(g, n, t);
    SameCallFacts(g, d, x);
    DropTargetLists(g, d, x);
    DropTargetSite(g, d, x);
    SiteDistinct(g, n, t);
    if hs[n].Some? {
      SlotOfSite(hs, g, n, t);
    }
    LostSlot(hs, n, t, v, i, d, g.edges[d], x, g.edges[x], heir);
    SettledBut(hs, g, n, t, d, heir);
    HashesAfter(SettledTables(hs, n, t, d, heir), g, DropTarget(g, d, x), n, t,
                LostSite(v, d, g.edges[d], x, g.edges[x]));
  }

  lemma KeepHashes(hs: Tables, g: Graph, d: Edge, x: Edge, heir: Edge?)
    requires WellFormed(g) && HashesOK(hs, g) && SameCall(g, d, x) && d.caller in g.nodes
    ensures Live(g, x) && d != x && ListsOK(KeepTarget(g, d, x))
    ensures !HasSlot(hs, d.caller, g.edges[d].stmt, x)
    ensures HashesOK(SettledTables(hs, d.caller, g.edges[d].stmt, x, heir), KeepTarget(g, d, x))
  {
    var n, t := d.caller, g.edges[d].stmt;
    var v := SiteIn(g, n, t);
    SameCallFacts(g, d, x);
    KeepTargetLists(g, d, x);
    KeepTargetSite(g, d, x);
    assert v.targets[0] in v.targets;
    if hs[n].Some? {
      SlotOfSite(hs, g, n, t);
    }
    SettledBut(hs, g, n, t, x, heir);
    HashesAfter(SettledTables(hs, n, t, x, heir), g, KeepTarget(g, d, x), n, t, WonSite(v, d, g.edges[d], g.edges[x]));
  }
}
