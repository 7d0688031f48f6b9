/** cgraph_edge::resolve_speculation: what it does to the graph, and on the heap. */
module CallGraphSettle {
  import opened Common
  import opened CallGraphTypes
  import opened CallSites
  import opened CallGraphSteps
  import opened CallGraphInvariants
  import opened CallGraphDirect
  import opened CallGraphMakeDirect
  import opened CallGraphHeap
  import opened CallSiteHash
  import opened CallGraphWalks
  import opened CallGraphResolve

  // ---------- resolve_speculation ----------

  /** The direct edge that a resolution asked for at component e is about. */
  ghost function ResolvedTarget(g: Graph, e: Edge): Edge
    requires WellFormed(g) && e in g.edges && g.edges[e].speculative && e.caller in g.nodes
  {
    SpeculativeEdge(g, e);
    if g.edges[e].indirect then SiteOfEdge(g, e).targets[0].edge else e
  }

  lemma ResolvedCall(g: Graph, e: Edge)
    requires WellFormed(g) && e in g.edges && g.edges[e].speculative && e.caller in g.nodes
    ensures SiteOfEdge(g, e).indirects != []
    ensures SameCall(g, ResolvedTarget(g, e), IndirectOf(g, e))
    ensures ResolvedTarget(g, e).caller == e.caller && g.edges[ResolvedTarget(g, e)].stmt == g.edges[e].stmt
    ensures Live(g, ResolvedTarget(g, e)) && Live(g, IndirectOf(g, e)) && ResolvedTarget(g, e) != IndirectOf(g, e)
  {
    SpeculativeEdge(g, e);
    var v := SiteOfEdge(g, e);
    assert v.targets[0] in v.targets;
    TargetEntry(g, e.caller, g.edges[e].stmt, v.targets[0]);
    SameCallFacts(g, ResolvedTarget(g, e), IndirectOf(g, e));
  }

  /** The declaration given, if any, is what the target's reference stands for. */
  ghost predicate Proved(g: Graph, e: Edge, decl: Node?)
    requires WellFormed(g) && e in g.edges && g.edges[e].speculative && e.caller in g.nodes
  {
    ResolvedCall(g, e);
    decl != null && MatchesIn(g, ResolvedTarget(g, e), decl)
  }

  /** What resolve_speculation does to the graph. */
  ghost function Resolve(g: Graph, e: Edge, decl: Node?): Graph
    requires WellFormed(g) && e in g.edges && g.edges[e].speculative && e.caller in g.nodes
  {
    ResolvedCall(g, e);
    if Proved(g, e, decl) then KeepTarget(g, ResolvedTarget(g, e), IndirectOf(g, e))
    else DropTarget(g, ResolvedTarget(g, e), IndirectOf(g, e))
  }

  lemma TargetsLeft(g: Graph, e: Edge)
    requires WellFormed(g) && e in g.edges && g.edges[e].speculative && e.caller in g.nodes
    ensures SiteOfEdge(g, e).indirects != []
    ensures IndirectOf(g, e) in g.edges && g.edges[IndirectOf(g, e)].info == Some(|SiteOfEdge(g, e).targets|)
  {
    SpeculativeEdge(g, e);
    SiteOfIndirect(g, IndirectOf(g, e));
  }

  /** Resolving keeps the graph well formed exactly if it is not a matching target among several. */
  lemma ResolveKeeps(g: Graph, e: Edge, decl: Node?)
    requires WellFormed(g) && e in g.edges && g.edges[e].speculative && e.caller in g.nodes
    ensures WellFormed(Resolve(g, e, decl)) <==> (Proved(g, e, decl) ==> |SiteOfEdge(g, e).targets| == 1)
  {
    ResolvedCall(g, e);
    TargetsLeft(g, e);
    var d, x := ResolvedTarget(g, e), IndirectOf(g, e);
    if Proved(g, e, decl) {
      KeepTargetKeeps(g, d, x);
    } else {
      DropTargetKeeps(g, d, x);
    }
  }

  /** Position k of the references is the one that DropRef takes out for target d. */
  ghost predicate RefAt(g: Graph, d: Edge, k: nat)
    requires d in g.edges && d.caller in g.nodes
  {
    var refs := g.nodes[d.caller].refs;
    k < |refs| && refs[..k] + refs[k + 1..] == DropRef(refs, g.edges[d].stmt, g.edges[d].speculativeId)
  }

  /** The heir of target d: the next target or, for the last one, the indirect edge. */
  lemma HeirOfTarget(g: Graph, hs: Tables, d: Edge, x: Edge, i: nat)
    requires WellFormed(g) && Represents(g, hs) && SameCall(g, d, x) && d.caller in g.nodes
    requires i < |SiteOfEdge(g, d).targets| && SiteOfEdge(g, d).targets[i].edge == d
    ensures var a := SiteOfEdge(g, d).targets;
      i == 0 ==> Heir(g, x, d) == (if |a| == 1 then x else a[1].edge) && Heir(g, x, d).callStmt == g.edges[d].stmt
  {
    SiteOfIndirect(g, x);
    assert FieldsRep(x, g.edges[x]);
    TargetLinks(g, hs, d.caller, g.edges[d].stmt, i);
  }

  lemma SlotIsFirst(g: Graph, hs: Tables, d: Edge, x: Edge, i: nat)
    requires WellFormed(g) && HashesOK(hs, g) && SameCall(g, d, x) && d.caller in g.nodes
    requires i < |SiteOfEdge(g, d).targets| && SiteOfEdge(g, d).targets[i].edge == d
    ensures HasSlot(hs, d.caller, g.edges[d].stmt, d) ==> i == 0
  {
    SameCallFacts(g, d, x);
    SiteDistinct(g, d.caller, g.edges[d].stmt);
    if hs[d.caller].Some? {
      SlotOfSite(hs, g, d.caller, g.edges[d].stmt);
    }
  }

  /** Gives up target d. */
  method GiveUp(d: Edge, x: Edge, k: nat, ghost g: Graph, ghost hs: Tables) returns (ghost hs': Tables)
    requires WellFormed(g) && Represents(g, hs) && HashesOK(hs, g)
    requires SameCall(g, d, x) && d.caller in g.nodes && RefAt(g, d, k) && Live(g, d)
    modifies x`count, x`indirectInfo, x`speculative, d`speculative
    modifies g.nodes.Keys`callees, g.nodes.Keys`indirectCalls, g.nodes.Keys`callers
    modifies d.caller`callSiteHash, d.caller`references
    modifies g.edges.Keys`prevCallee, g.edges.Keys`nextCallee, g.edges.Keys`prevCaller, g.edges.Keys`nextCaller
    ensures Represents(DropTarget(g, d, x), hs') && WellFormed(DropTarget(g, d, x))
    ensures HashesOK(hs', DropTarget(g, d, x))
  {
    ghost var i := TargetIndex(g, d);
    ghost var heir := Heir(g, x, d);
    HeirOfTarget(g, hs, d, x, i);
    SlotIsFirst(g, hs, d, x, i);
    DropHashes(hs, g, d, x, i, heir);
    DropTargetKeeps(g, d, x);
    hs' := Settle(x, d, k, g.edges[d].speculativeId, g, hs);
    SettlingDrop(g, d, x);
  }

  lemma KeepHeir(g: Graph, d: Edge, x: Edge)
    requires WellFormed(g) && SameCall(g, d, x)
    ensures Heir(g, d, x) == d && g.edges[d].info == None
  {
    assert EdgeOK(g, d);
  }

  /** Keeps target d, and gives up the indirect edge. */
  method KeepOnly(d: Edge, x: Edge, k: nat, ghost g: Graph, ghost hs: Tables) returns (ghost hs': Tables)
    requires WellFormed(g) && Represents(g, hs) && HashesOK(hs, g)
    requires SameCall(g, d, x) && d.caller in g.nodes && RefAt(g, d, k) && Live(g, x) && d != x
    modifies d`count, d`indirectInfo, d`speculative, x`speculative
    modifies g.nodes.Keys`callees, g.nodes.Keys`indirectCalls, g.nodes.Keys`callers
    modifies d.caller`callSiteHash, d.caller`references
    modifies g.edges.Keys`prevCallee, g.edges.Keys`nextCallee, g.edges.Keys`prevCaller, g.edges.Keys`nextCaller
    ensures Represents(KeepTarget(g, d, x), hs')
    ensures ListsOK(KeepTarget(g, d, x)) && HashesOK(hs', KeepTarget(g, d, x))
  {
    KeepHeir(g, d, x);
    KeepHashes(hs, g, d, x, d);
    hs' := Settle(d, x, k, g.edges[d].speculativeId, g, hs);
    SettlingKeep(g, d, x);
  }

  /** Which of the two edges of a resolution represents the call afterwards. */
  ghost function Resolved(g: Graph, e: Edge, decl: Node?): Edge
    requires WellFormed(g) && e in g.edges && g.edges[e].speculative && e.caller in g.nodes
  {
    ResolvedCall(g, e);
    if Proved(g, e, decl) then ResolvedTarget(g, e) else IndirectOf(g, e)
  }

  /** And which of the two is freed. */
  ghost function Given(g: Graph, e: Edge, decl: Node?): Edge
    requires WellFormed(g) && e in g.edges && g.edges[e].speculative && e.caller in g.nodes
  {
    ResolvedCall(g, e);
    if Proved(g, e, decl) then IndirectOf(g, e) else ResolvedTarget(g, e)
  }

  /** Target d or indirect edge x goes, depending on what the reference of d stands for. */
  method SettleTarget(d: Edge, x: Edge, decl: Node?, ghost g: Graph, ghost hs: Tables)
    returns (r: Edge, gone: Edge, ghost hs': Tables)
    requires WellFormed(g) && Represents(g, hs) && HashesOK(hs, g)
    requires SameCall(g, d, x) && d.caller in g.nodes && Live(g, d) && Live(g, x) && d != x
    modifies d`count, d`indirectInfo, d`speculative, x`count, x`indirectInfo, x`speculative
    modifies g.nodes.Keys`callees, g.nodes.Keys`indirectCalls, g.nodes.Keys`callers
    modifies d.caller`callSiteHash, d.caller`references
    modifies g.edges.Keys`prevCallee, g.edges.Keys`nextCallee, g.edges.Keys`prevCaller, g.edges.Keys`nextCaller
    ensures var keep := decl != null && MatchesIn(g, d, decl);
      && r == (if keep then d else x) && gone == (if keep then x else d)
      && var g' := if keep then KeepTarget(g, d, x) else DropTarget(g, d, x);
         ListsOK(g') && Represents(g', hs') && HashesOK(hs', g')
  {
    var k := TargetRefIndex(d, g, hs);
    assert NodeRep(d.caller, g.nodes[d.caller], hs[d.caller]);
    var referred := d.caller.references[k].referred;
    if decl == null || !referred.SemanticallyEquivalent(decl) {
      hs' := GiveUp(d, x, k, g, hs);
      r, gone := x, d;
    } else {
      hs' := KeepOnly(d, x, k, g, hs);
      r, gone := d, x;
    }
  }

  /** The components a resolution works on. */
  method Components(e: Edge, ghost g: Graph, ghost hs: Tables) returns (d: Edge, x: Edge, ghost hs': Tables)
    requires WellFormed(g) && Represents(g, hs) && HashesOK(hs, g)
    requires e in g.edges && g.edges[e].speculative && e.caller in g.nodes
    modifies e.caller`callSiteHash
    ensures Represents(g, hs') && HashesOK(hs', g)
    ensures SiteOfEdge(g, e).indirects != [] && d == ResolvedTarget(g, e) && x == IndirectOf(g, e)
  {
    hs' := hs;
    d := e;
    assert FieldsRep(e, g.edges[e]) && EdgeOK(g, e);
    if e.callee == null {
      d, hs' := FirstSpeculativeCallTarget(e, g, hs);
    }
    x := SpeculativeCallIndirectEdge(e, g, hs');
  }

  /** cgraph_edge::resolve_speculation. */
  method ResolveEdge(e: Edge, decl: Node?, ghost g: Graph, ghost hs: Tables)
    returns (r: Edge, gone: Edge, ghost hs': Tables)
    requires WellFormed(g) && Represents(g, hs) && HashesOK(hs, g)
    requires e in g.edges && g.edges[e].speculative && e.caller in g.nodes
    modifies g.edges.Keys`count, g.edges.Keys`indirectInfo, g.edges.Keys`speculative
    modifies g.nodes.Keys`callees, g.nodes.Keys`indirectCalls, g.nodes.Keys`callers
    modifies e.caller`callSiteHash, e.caller`references
    modifies g.edges.Keys`prevCallee, g.edges.Keys`nextCallee, g.edges.Keys`prevCaller, g.edges.Keys`nextCaller
    ensures r == Resolved(g, e, decl) && gone == Given(g, e, decl)
    ensures ListsOK(Resolve(g, e, decl)) && Represents(Resolve(g, e, decl), hs')
    ensures HashesOK(hs', Resolve(g, e, decl))
  {
    var d, x, hs1 := Components(e, g, hs);
    ResolvedCall(g, e);
    r, gone, hs' := SettleTarget(d, x, decl, g, hs1);
  }
}
