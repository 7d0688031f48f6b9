/** Making an indirect call speculative, on the heap. */
module CallGraphSpeculate {
  import opened Common
  import opened CallGraphTypes
  import opened CallSites
  import opened CallGraphSteps
  import opened CallGraphInvariants
  import opened CallGraphHeap
  import opened CallSiteHash
  import opened CallGraphLinks

  /** The fields of an indirect edge that has been marked, before its target exists. */
  ghost function Half(r: EdgeRec): EdgeRec {
    r.(speculative := true)
  }

  method MarkHalf(x: Edge, ghost g: Graph, ghost hs: Tables)
    requires Represents(g, hs) && x in g.edges
    modifies x`speculative
    ensures Represents(SetRec(g, x, Half(g.edges[x])), hs)
  {
    assert FieldsRep(x, g.edges[x]);
    x.speculative := true;
    RecordRep(State(g, hs), x, Half(g.edges[x]));
  }

  /** The fields of a direct edge that becomes a target. */
  ghost function AsTarget(r: EdgeRec, id: nat): EdgeRec {
    r.(speculative := true, speculativeId := id)
  }

  method MarkDirect(d: Edge, id: nat, ghost g: Graph, ghost hs: Tables)
    requires Represents(g, hs) && d in g.edges
    modifies d`speculative, d`speculativeId
    ensures Represents(SetRec(g, d, AsTarget(g.edges[d], id)), hs)
  {
    assert FieldsRep(d, g.edges[d]);
    d.speculative := true;
    d.speculativeId := id;
    RecordRep(State(g, hs), d, AsTarget(g.edges[d], id));
  }

  method Gain(x: Edge, d: Edge, ghost g: Graph, ghost hs: Tables)
    requires Represents(g, hs) && x in g.edges && d in g.edges && d != x
    requires g.edges[x].speculative && g.edges[x].info.Some?
    modifies x`indirectInfo, x`count
    ensures Represents(SetRec(g, x, GainTarget(g.edges[x], g.edges[d].count)), hs)
  {
    assert FieldsRep(x, g.edges[x]) && FieldsRep(d, g.edges[d]);
    x.indirectInfo := Some(x.indirectInfo.value + 1);
    x.count := x.count - d.count;
    RecordRep(State(g, hs), x, GainTarget(g.edges[x], g.edges[d].count));
  }

  method CreateReference(n: Node, r: Ref, ghost g: Graph, ghost hs: Tables)
    requires Represents(g, hs) && n in g.nodes
    modifies n`references
    ensures Represents(SetRefs(g, n, g.nodes[n].refs + [r]), hs)
  {
    assert NodeRep(n, g.nodes[n], hs[n]);
    n.references := n.references + [r];
    RefsRep(State(g, hs), n, n.references);
  }

  lemma HalfState(g: Graph, hs: Tables, x: Edge)
    requires WellFormed(g) && HashesOK(hs, g) && x in g.edges && g.edges[x].indirect
    ensures x.caller in g.nodes
    ensures var g0, n, t := SetRec(g, x, Half(g.edges[x])), x.caller, g.edges[x].stmt;
      && ListsOK(g0) && Complete(g0) && HashesBut(hs, g0, n, t)
      && SiteIn(g0, n, t) == SiteIn(g, n, t).(indirects := [Entry(x, Half(g.edges[x]))])
      && Changes(g, g0, n, t, SiteIn(g0, n, t)) && Adjacent(g0, n)
  {
    var n, t := x.caller, g.edges[x].stmt;
    var g0 := SetRec(g, x, Half(g.edges[x]));
    assert EdgeOK(g, x);
    SetRecLists(g, x, Half(g.edges[x]), {});
    assert EdgeOK(g0, x);
    CompleteButOne(g0, x);
    SiteOfIndirect(g, x);
    SetRecSite(g, x, Half(g.edges[x]));
    assert NodeOK(n, g.nodes[n], g.edges) && Adjacent(g, n);
    AtLacks(g.nodes[n].callees, g.edges, t, x);
    PutAbsent(SiteIn(g, n, t).targets, x, Half(g.edges[x]));
    OKBut(hs, g, n, t);
    HashesStillBut(hs, g, g0, n, t, SiteIn(g0, n, t));
  }

  /** In between, a direct edge may be created at the site, and the tables are still right. */
  lemma HalfReady(g: Graph, hs: Tables, x: Edge)
    requires WellFormed(g) && HashesOK(hs, g) && x in g.edges && g.edges[x].indirect
    ensures x.caller in g.nodes
    ensures var g0, n, t := SetRec(g, x, Half(g.edges[x])), x.caller, g.edges[x].stmt;
      && ListsOK(g0) && Complete(g0) && HashesOK(hs, g0) && NodeScannable(g0, n) && OpenSite(SiteIn(g0, n, t))
  {
    hide ListsOK, Complete, SiteIn, NodeOK;
    HalfState(g, hs, x);
    var g0, n, t := SetRec(g, x, Half(g.edges[x])), x.caller, g.edges[x].stmt;
    SiteOfIndirect(g, x);
    forall s: Stmt ensures Scannable(SiteIn(g0, n, s)) {
      assert SiteOK(SiteIn(g, n, s));
      assert s != t ==> SiteIn(g0, n, s) == SiteIn(g, n, s);
    }
    if hs[n].Some? {
      assert HashOK(hs[n], g, n) && SlotOK(hs[n].value, SiteIn(g, n, t), t);
    }
    HashesButAll(hs, g0, n, t);
  }

  lemma HashesButAll(hs: Tables, g: Graph, n: Node, t: Stmt)
    requires ListsOK(g) && n in g.nodes && HashesBut(hs, g, n, t)
    requires hs[n].Some? ==> SlotOK(hs[n].value, SiteIn(g, n, t), t)
    ensures HashesOK(hs, g)
  {
    if hs[n].Some? {
      forall s: Stmt ensures SlotOK(hs[n].value, SiteIn(g, n, s), s) {
      }
    }
  }

  lemma SpeculatedGraph(g: Graph, x: Edge, d: Edge, target: Node, count: int, id: nat)
    requires x in g.edges && d.caller in g.nodes && target in g.nodes && d != x
    ensures var g1 := CreateEdge(SetRec(g, x, Half(g.edges[x])), d, target, g.edges[x].stmt, count);
      MarkTarget(g1, x, d, id) == MakeSpeculative(g, x, d, target, count, id)
  {
    var g1 := CreateEdge(SetRec(g, x, Half(g.edges[x])), d, target, g.edges[x].stmt, count);
    assert MarkTarget(g1, x, d, id).edges == MakeSpeculative(g, x, d, target, count, id).edges;
  }

  lemma MarkTargetSteps(g: Graph, x: Edge, d: Edge, id: nat)
    requires x in g.edges && d in g.edges && d != x && d.caller in g.nodes && g.edges[d].callee != null
    ensures var r := g.edges[d];
      var g1 := SetRec(g, d, AsTarget(r, id));
      var g2 := SetRec(g1, x, GainTarget(g1.edges[x], g1.edges[d].count));
      MarkTarget(g, x, d, id) == SetRefs(g2, d.caller, g2.nodes[d.caller].refs + [Ref(r.callee, r.stmt, true, id)])
  {
  }

  /** The tables of the finished graph. */
  lemma SpeculatedHashes(g: Graph, hs: Tables, x: Edge, d: Edge, target: Node, count: int, id: nat)
    requires WellFormed(g) && x in g.edges && g.edges[x].indirect && x.caller in g.nodes
    requires d !in g.edges && d.caller == x.caller && target in g.nodes
    requires var g0 := SetRec(g, x, Half(g.edges[x])); ListsOK(g0) && Entered(hs, g0, d, g.edges[x].stmt)
    ensures ListsOK(MakeSpeculative(g, x, d, target, count, id))
    ensures Complete(MakeSpeculative(g, x, d, target, count, id))
    ensures HashesOK(hs, MakeSpeculative(g, x, d, target, count, id))
  {
    hide ListsOK, Complete, RefsLive, NodeOK, SitesOK, EdgeOK, SiteIn, Adjacent;
    var n, t, g0 := x.caller, g.edges[x].stmt, SetRec(g, x, Half(g.edges[x]));
    var g' := MakeSpeculative(g, x, d, target, count, id);
    MakeSpeculativeLists(g, x, d, target, count, id);
    CreateEdgeLists(g, d, target, t, count);
    MakeSpeculativeSite(g, x, d, target, count, id);
    var v := SpeculatedSite(SiteIn(g, n, t), x, g.edges[x], d, target, count, id);
    Unhalf(g, x);
    ChangesCompose(g0, g, g', n, t, SiteIn(g, n, t), v);
    HashesAfter(hs, g0, g', n, t, v);
  }

  lemma Unhalf(g: Graph, x: Edge)
    requires WellFormed(g) && x in g.edges && g.edges[x].indirect && x.caller in g.nodes
    requires ListsOK(SetRec(g, x, Half(g.edges[x])))
    ensures Changes(SetRec(g, x, Half(g.edges[x])), g, x.caller, g.edges[x].stmt, SiteIn(g, x.caller, g.edges[x].stmt))
  {
    var g0 := SetRec(g, x, Half(g.edges[x]));
    var n, t := x.caller, g.edges[x].stmt;
    SetRecTwice(g, x, Half(g.edges[x]), g.edges[x]);
    assert SetRec(g0, x, g.edges[x]).edges == g.edges;
    SetRecSite(g0, x, g.edges[x]);
  }

  /** The fields and the reference of a further target. */
  method PairTarget(x: Edge, d: Edge, id: nat, ghost g: Graph, ghost hs: Tables)
    requires Represents(g, hs) && x in g.edges && d in g.edges && d != x && d.caller in g.nodes && d.caller == x.caller
    requires g.edges[x].speculative && g.edges[x].info.Some? && g.edges[d].callee != null
    modifies x`indirectInfo, x`count, d`speculative, d`speculativeId, d.caller`references
    ensures Represents(MarkTarget(g, x, d, id), hs)
  {
    ghost var r := g.edges[d];
    ghost var g1 := SetRec(g, d, AsTarget(r, id));
    ghost var g2 := SetRec(g1, x, GainTarget(g1.edges[x], g1.edges[d].count));
    assert FieldsRep(d, r);
    MarkDirect(d, id, g, hs);
    Gain(x, d, g1, hs);
    assert FieldsRep(d, g2.edges[d]) && FieldsRep(x, g2.edges[x]);
    CreateReference(d.caller, Ref(d.callee, d.callStmt, x.speculative, id), g2, hs);
    MarkTargetSteps(g, x, d, id);
  }

  /** The direct edge of a further target, before it is marked and paired. */
  method CreateTarget(x: Edge, target: Node, count: int, ghost g: Graph, ghost hs: Tables)
    returns (d: Edge, ghost hs': Tables)
    requires x in g.edges && g.edges[x].speculative && FieldsRep(x, g.edges[x])
    requires ListsOK(g) && Complete(g) && Represents(g, hs) && HashesOK(hs, g)
    requires x.caller in g.nodes && target in g.nodes && NodeScannable(g, x.caller)
    requires OpenSite(SiteIn(g, x.caller, g.edges[x].stmt))
    modifies g.nodes.Keys`callees, g.nodes.Keys`indirectCalls, g.nodes.Keys`callers, x.caller`callSiteHash
    modifies g.edges.Keys`prevCallee, g.edges.Keys`nextCallee, g.edges.Keys`prevCaller, g.edges.Keys`nextCaller
    ensures fresh(d) && d.caller == x.caller
    ensures Represents(CreateEdge(g, d, target, g.edges[x].stmt, count), hs')
    ensures Entered(hs', g, d, g.edges[x].stmt)
  {
    d, hs' := LinkNewEdge(x.caller, target, x.callStmt, count, g, hs);
  }

  /** The rest of make_speculative, once x is marked. */
  method AddTarget(x: Edge, target: Node, count: int, id: nat, ghost g: Graph, ghost hs: Tables)
    returns (d: Edge, ghost hs': Tables)
    requires x in g.edges && g.edges[x].speculative && g.edges[x].info.Some? && FieldsRep(x, g.edges[x])
    requires ListsOK(g) && Complete(g) && Represents(g, hs) && HashesOK(hs, g)
    requires x.caller in g.nodes && target in g.nodes && NodeScannable(g, x.caller)
    requires OpenSite(SiteIn(g, x.caller, g.edges[x].stmt))
    modifies g.nodes.Keys`callees, g.nodes.Keys`indirectCalls, g.nodes.Keys`callers
    modifies x.caller`callSiteHash, x.caller`references
    modifies g.edges.Keys`prevCallee, g.edges.Keys`nextCallee, g.edges.Keys`prevCaller, g.edges.Keys`nextCaller
    modifies x`indirectInfo, x`count
    ensures fresh(d) && d.caller == x.caller
    ensures Represents(MarkTarget(CreateEdge(g, d, target, g.edges[x].stmt, count), x, d, id), hs')
    ensures Entered(hs', g, d, g.edges[x].stmt)
  {
    d, hs' := CreateTarget(x, target, count, g, hs);
    PairTarget(x, d, id, CreateEdge(g, d, target, g.edges[x].stmt, count), hs');
  }

  /** cgraph_edge::make_speculative. */
  method Speculate(x: Edge, target: Node, count: int, id: nat, ghost g: Graph, ghost hs: Tables)
    returns (d: Edge, ghost hs': Tables)
    requires WellFormed(g) && Represents(g, hs) && HashesOK(hs, g)
    requires x in g.edges && g.edges[x].indirect && x.caller in g.nodes && target in g.nodes
    modifies g.nodes.Keys`callees, g.nodes.Keys`indirectCalls, g.nodes.Keys`callers
    modifies x.caller`callSiteHash, x.caller`references
    modifies g.edges.Keys`prevCallee, g.edges.Keys`nextCallee, g.edges.Keys`prevCaller, g.edges.Keys`nextCaller
    modifies x`speculative, x`indirectInfo, x`count
    ensures fresh(d) && d.caller == x.caller
    ensures Represents(MakeSpeculative(g, x, d, target, count, id), hs')
    ensures ListsOK(SetRec(g, x, Half(g.edges[x])))
    ensures Entered(hs', SetRec(g, x, Half(g.edges[x])), d, g.edges[x].stmt)
  {
    HalfReady(g, hs, x);
    SpeculativeInfo(g, x);
    MarkHalf(x, g, hs);
    d, hs' := AddTarget(x, target, count, id, SetRec(g, x, Half(g.edges[x])), hs);
    SpeculatedGraph(g, x, d, target, count, id);
  }

  lemma SpeculativeInfo(g: Graph, x: Edge)
    requires WellFormed(g) && x in g.edges && g.edges[x].indirect
    ensures g.edges[x].info.Some?
  {
    assert EdgeOK(g, x);
  }
}
