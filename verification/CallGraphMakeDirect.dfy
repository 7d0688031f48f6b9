/** Making a call direct: exactly one plain edge is left, and it carries the whole count. */
module CallGraphMakeDirect {
  import opened Common
  import opened CallGraphTypes
  import opened CallSites
  import opened CallGraphSteps
  import opened CallGraphInvariants
  import opened CallGraphDirect

  ghost function SiteOfEdge(g: Graph, e: Edge): Site
    requires ListsOK(g) && e in g.edges && e.caller in g.nodes
  {
    SiteIn(g, e.caller, g.edges[e].stmt)
  }

  /** The call can be made direct: it is indirect or it is a component of a speculative call. */
  ghost predicate CanBeDirect(g: Graph, e: Edge) {
    e in g.edges && (g.edges[e].indirect || g.edges[e].speculative)
  }

  lemma LiveCaller(g: Graph, e: Edge)
    requires Complete(g) && e in g.edges
    ensures e.caller in g.nodes
  {
    assert EdgeOK(g, e);
  }

  /** All components of a speculative call see the same site, with one indirect edge. */
  lemma SpeculativeEdge(g: Graph, e: Edge)
    requires WellFormed(g) && e in g.edges && g.edges[e].speculative && e.caller in g.nodes
    ensures SpeculativeSite(SiteOfEdge(g, e))
    ensures var x := SiteOfEdge(g, e).indirects[0].edge;
      && x in g.edges && g.edges[x].indirect && x.caller == e.caller && g.edges[x].stmt == g.edges[e].stmt
      && LoopState(g, EdgesOf(SiteOfEdge(g, e).targets), x, [], SiteOfEdge(g, e).targets)
  {
    var n, t := e.caller, g.edges[e].stmt;
    var v := SiteIn(g, n, t);
    if g.edges[e].indirect {
      SiteOfIndirect(g, e);
    } else {
      SiteOfDirect(g, e);
    }
    assert NodeOK(n, g.nodes[n], g.edges);
    var x := v.indirects[0].edge;
    IndirectEntry(g, n, t);
    SiteTargetsList(g, n, t);
  }

  lemma IndirectEntry(g: Graph, n: Node, t: Stmt)
    requires WellFormed(g) && n in g.nodes && SiteIn(g, n, t).indirects != []
    ensures var x := SiteIn(g, n, t).indirects[0].edge;
      x in g.edges && g.edges[x].indirect && x.caller == n && g.edges[x].stmt == t
  {
    assert NodeOK(n, g.nodes[n], g.edges);
    AtEntries(g.nodes[n].indirects, g.edges, t);
    var y := SiteIn(g, n, t).indirects[0];
    assert y in SiteIn(g, n, t).indirects;
    assert EdgeOK(g, y.edge);
  }

  lemma SiteTargetsList(g: Graph, n: Node, t: Stmt)
    requires WellFormed(g) && n in g.nodes && SpeculativeSite(SiteIn(g, n, t))
    requires var x := SiteIn(g, n, t).indirects[0].edge;
      x in g.edges && g.edges[x].indirect && x.caller == n && g.edges[x].stmt == t
    ensures var v := SiteIn(g, n, t);
      LoopState(g, EdgesOf(v.targets), v.indirects[0].edge, [], v.targets)
  {
    var v := SiteIn(g, n, t);
    var x, ds := v.indirects[0].edge, EdgesOf(v.targets);
    assert NodeOK(n, g.nodes[n], g.edges);
    AtEntries(g.nodes[n].callees, g.edges, t);
    SiteDistinct(g, n, t);
    forall d | d in ds ensures SameCall(g, d, x) {
      var i :| 0 <= i < |ds| && ds[i] == d;
      assert v.targets[i] in v.targets;
      assert EdgeOK(g, d);
    }
  }

  ghost function IndirectOf(g: Graph, e: Edge): Edge
    requires ListsOK(g) && e in g.edges && e.caller in g.nodes && SiteOfEdge(g, e).indirects != []
  {
    SiteOfEdge(g, e).indirects[0].edge
  }

  /** The targets of e's call whose reference stands for the same symbol as callee. */
  ghost function MatchesOf(g: Graph, e: Edge, callee: Node): seq<Entry>
    requires ListsOK(g) && e in g.edges && e.caller in g.nodes
  {
    Matching(SiteOfEdge(g, e), SiteOfEdge(g, e).targets, callee)
  }

  /** The graph after the loop over the targets of e's call. */
  ghost function AfterLoop(g: Graph, e: Edge, callee: Node): Graph
    requires WellFormed(g) && e in g.edges && g.edges[e].speculative && e.caller in g.nodes
  {
    SpeculativeEdge(g, e);
    DropOthers(g, EdgesOf(SiteOfEdge(g, e).targets), IndirectOf(g, e), callee)
  }

  lemma AfterLoopSite(g: Graph, e: Edge, callee: Node)
    requires WellFormed(g) && e in g.edges && g.edges[e].speculative && e.caller in g.nodes
    ensures SiteOfEdge(g, e).indirects != [] && WellFormed(AfterLoop(g, e, callee))
    ensures var g1, n, t := AfterLoop(g, e, callee), e.caller, g.edges[e].stmt;
      && n in g1.nodes && Changes(g, g1, n, t, SiteIn(g1, n, t))
      && OthersDropped(SiteIn(g, n, t), SiteIn(g1, n, t), [], SiteIn(g, n, t).targets, IndirectOf(g, e), callee)
  {
    SpeculativeEdge(g, e);
    DropOthersSite(g, EdgesOf(SiteOfEdge(g, e).targets), IndirectOf(g, e), callee, [], SiteOfEdge(g, e).targets);
  }

  /** Only the indirect edge x and the targets m, all equivalent to callee, are left of the call. */
  ghost predicate Ready(g: Graph, x: Edge, m: seq<Entry>, callee: Node) {
    && WellFormed(g) && x in g.edges && g.edges[x].indirect && x.caller in g.nodes && callee in g.nodes
    && SiteOfEdge(g, x).targets == m
    && g.edges[x].speculative == (m != [])
    && (forall d | d in m :: SameCall(g, d.edge, x) && g.edges[d.edge] == d.rec)
  }

  lemma AfterLoopReady(g: Graph, e: Edge, callee: Node)
    requires WellFormed(g) && e in g.edges && g.edges[e].speculative && e.caller in g.nodes && callee in g.nodes
    ensures SiteOfEdge(g, e).indirects != []
    ensures Ready(AfterLoop(g, e, callee), IndirectOf(g, e), MatchesOf(g, e, callee), callee)
    ensures var g1, x := AfterLoop(g, e, callee), IndirectOf(g, e);
      x.caller == e.caller && g1.edges[x].stmt == g.edges[e].stmt
  {
    var n, t := e.caller, g.edges[e].stmt;
    var g1, m := AfterLoop(g, e, callee), MatchesOf(g, e, callee);
    AfterLoopSite(g, e, callee);
    SpeculativeEdge(g, e);
    var x := IndirectOf(g, e);
    IndirectEntry(g1, n, t);
    SiteOfIndirect(g1, x);
    assert [] + m == m;
    forall d | d in m ensures SameCall(g1, d.edge, x) && g1.edges[d.edge] == d.rec {
      TargetEntry(g1, n, t, d);
    }
  }

  lemma TargetEntry(g: Graph, n: Node, t: Stmt, d: Entry)
    requires WellFormed(g) && n in g.nodes && d in SiteIn(g, n, t).targets
    ensures d.edge in g.edges && g.edges[d.edge] == d.rec && d.edge.caller == n && d.rec.stmt == t
    ensures !d.rec.indirect
    ensures d.rec.speculative <==> SpeculativeSite(SiteIn(g, n, t))
  {
    assert NodeOK(n, g.nodes[n], g.edges);
    AtEntries(g.nodes[n].callees, g.edges, t);
    assert EdgeOK(g, d.edge);
    SiteOfDirect(g, d.edge);
  }

  /** The last step: keep the matching target, or turn the indirect edge into a direct one. */
  ghost function Finish(g: Graph, x: Edge, m: seq<Entry>, callee: Node): Graph
    requires Ready(g, x, m, callee)
  {
    if m == [] then BecomeDirect(g, x, callee)
    else
      SameCallFacts(g, m[|m| - 1].edge, x);
      KeepTarget(g, m[|m| - 1].edge, x)
  }

  lemma KeepLastKeeps(g: Graph, x: Edge, m: seq<Entry>, d: Entry)
    requires WellFormed(g) && x in g.edges && g.edges[x].indirect && x.caller in g.nodes
    requires SiteOfEdge(g, x).targets == m && g.edges[x].speculative
    requires d in m && SameCall(g, d.edge, x)
    ensures Live(g, x) && d.edge != x
    ensures WellFormed(KeepTarget(g, d.edge, x)) <==> |m| == 1
  {
    KeepTargetKeeps(g, d.edge, x);
    SiteOfIndirect(g, x);
  }

  lemma FinishKeeps(g: Graph, x: Edge, m: seq<Entry>, callee: Node)
    requires Ready(g, x, m, callee)
    ensures WellFormed(Finish(g, x, m, callee)) <==> |m| <= 1
  {
    if m == [] {
      BecomeDirectKeeps(g, x, callee);
    } else {
      KeepLastKeeps(g, x, m, m[|m| - 1]);
    }
  }

  ghost function MakeDirect(g: Graph, e: Edge, callee: Node): Graph
    requires WellFormed(g) && CanBeDirect(g, e) && callee in g.nodes
  {
    LiveCaller(g, e);
    if g.edges[e].speculative then
      AfterLoopReady(g, e, callee);
      Finish(AfterLoop(g, e, callee), IndirectOf(g, e), MatchesOf(g, e, callee), callee)
    else
      PlainReady(g, e, callee);
      Finish(g, e, [], callee)
  }

  lemma PlainReady(g: Graph, e: Edge, callee: Node)
    requires WellFormed(g) && CanBeDirect(g, e) && !g.edges[e].speculative && callee in g.nodes && e.caller in g.nodes
    ensures Ready(g, e, [], callee)
  {
    SiteOfIndirect(g, e);
  }

  /** The edge that represents the call afterwards. */
  ghost function Survivor(g: Graph, e: Edge, callee: Node): Edge
    requires WellFormed(g) && CanBeDirect(g, e) && e.caller in g.nodes
  {
    var m := MatchesOf(g, e, callee);
    if !g.edges[e].speculative then e
    else if m == [] then SpeculativeEdge(g, e); IndirectOf(g, e)
    else m[|m| - 1].edge
  }

  /** Making a call direct keeps the graph well formed exactly if at most one of the speculative
      targets is equivalent to the callee. */
  lemma MakeDirectKeeps(g: Graph, e: Edge, callee: Node)
    requires WellFormed(g) && CanBeDirect(g, e) && callee in g.nodes
    ensures e.caller in g.nodes
    ensures WellFormed(MakeDirect(g, e, callee)) <==> (g.edges[e].speculative ==> |MatchesOf(g, e, callee)| <= 1)
  {
    LiveCaller(g, e);
    if g.edges[e].speculative {
      AfterLoopReady(g, e, callee);
      FinishKeeps(AfterLoop(g, e, callee), IndirectOf(g, e), MatchesOf(g, e, callee), callee);
    } else {
      PlainReady(g, e, callee);
      FinishKeeps(g, e, [], callee);
    }
  }

  /** The plain direct edge r, with the given callee and count, is all that is left of the call. */
  ghost predicate OnlyDirect(v: Site, r: Edge, callee: Node?, count: int) {
    && v.indirects == [] && v.refs == [] && |v.targets| == 1
    && v.targets[0].edge == r
    && var f := v.targets[0].rec;
       !f.speculative && !f.indirect && f.info == None && f.callee == callee && f.count == count
  }

  lemma FinishDirect(g: Graph, x: Edge, callee: Node)
    requires Ready(g, x, [], callee)
    ensures var g', n, t := Finish(g, x, [], callee), x.caller, g.edges[x].stmt;
      && ListsOK(g') && n in g'.nodes && Changes(g, g', n, t, SiteIn(g', n, t))
      && OnlyDirect(SiteIn(g', n, t), x, callee, TotalCount(SiteIn(g, n, t)))
  {
    var n, t := x.caller, g.edges[x].stmt;
    SiteOfIndirect(g, x);
    assert EdgeOK(g, x) && NodeOK(n, g.nodes[n], g.edges);
    BecomeDirectLists(g, x, callee);
    BecomeDirectSite(g, x, callee);
    DirectedAlone(SiteIn(g, n, t), x, g.edges[x], callee);
  }

  lemma DirectedAlone(v: Site, x: Edge, rx: EdgeRec, callee: Node)
    requires v.targets == [] && v.indirects == [Entry(x, rx)] && v.refs == [] && !rx.speculative
    ensures OnlyDirect(Site([Entry(x, Directed(rx, callee))] + v.targets, Minus(v.indirects, x), v.refs), x, callee, TotalCount(v))
  {
    SumOne(v.indirects);
  }

  lemma FinishKept(g: Graph, x: Edge, d: Entry, callee: Node)
    requires Ready(g, x, [d], callee)
    ensures var g', n, t := Finish(g, x, [d], callee), x.caller, g.edges[x].stmt;
      && ListsOK(g') && n in g'.nodes && Changes(g, g', n, t, SiteIn(g', n, t))
      && OnlyDirect(SiteIn(g', n, t), d.edge, d.rec.callee, TotalCount(SiteIn(g, n, t)))
  {
    var n, t, g' := x.caller, g.edges[x].stmt, Finish(g, x, [d], callee);
    var v := SiteIn(g, n, t);
    assert d in [d];
    SameCallFacts(g, d.edge, x);
    KeepTargetLists(g, d.edge, x);
    KeepTargetSite(g, d.edge, x);
    SiteDistinct(g, n, t);
    assert EdgeOK(g, d.edge);
    WonAlone(v, d, x, g.edges[x]);
  }

  lemma WonAlone(v: Site, d: Entry, x: Edge, rx: EdgeRec)
    requires SpeculativeSite(v) && v.targets == [d] && v.indirects == [Entry(x, rx)] && RefsOfStmt(v, d.rec.stmt)
    requires !d.rec.indirect && d.rec.info == None
    ensures OnlyDirect(WonSite(v, d.edge, d.rec, rx), d.edge, d.rec.callee, TotalCount(v))
  {
    assert d in v.targets;
    WonSiteOK(v, d.edge, d.rec, x, rx);
    WonCount(v, d.edge, d.rec, x, rx);
    var v' := WonSite(v, d.edge, d.rec, rx);
    assert |v'.targets| == 1 && v'.targets[0] == Entry(d.edge, Won(d.rec, rx.count));
    SumOne(v'.targets);
  }

  /** Whatever component it is asked for, and however many targets there were, making a call direct
      rewrites this one site to a single plain edge.  It is the target that matches the callee if
      there is one, and else the former indirect edge, now leading to the callee; its count is the
      total count of the call. */
  lemma MakeDirectLeavesOne(g: Graph, e: Edge, callee: Node)
    requires WellFormed(g) && CanBeDirect(g, e) && callee in g.nodes && e.caller in g.nodes
    requires g.edges[e].speculative ==> |MatchesOf(g, e, callee)| <= 1
    ensures ListsOK(MakeDirect(g, e, callee))
    ensures var g', n, t, r := MakeDirect(g, e, callee), e.caller, g.edges[e].stmt, Survivor(g, e, callee);
      && n in g'.nodes && Changes(g, g', n, t, SiteIn(g', n, t))
      && r in g.edges
      && OnlyDirect(SiteIn(g', n, t), r, if g.edges[r].indirect then callee else g.edges[r].callee,
                    TotalCount(SiteIn(g, n, t)))
  {
    if g.edges[e].speculative {
      MakeSpeculativeCallDirect(g, e, callee);
    } else {
      PlainReady(g, e, callee);
      FinishDirect(g, e, callee);
    }
  }

  lemma MakeSpeculativeCallDirect(g: Graph, e: Edge, callee: Node)
    requires WellFormed(g) && e in g.edges && g.edges[e].speculative && callee in g.nodes && e.caller in g.nodes
    requires |MatchesOf(g, e, callee)| <= 1
    ensures ListsOK(MakeDirect(g, e, callee))
    ensures var g', n, t, r := MakeDirect(g, e, callee), e.caller, g.edges[e].stmt, Survivor(g, e, callee);
      && n in g'.nodes && Changes(g, g', n, t, SiteIn(g', n, t))
      && r in g.edges
      && OnlyDirect(SiteIn(g', n, t), r, if g.edges[r].indirect then callee else g.edges[r].callee,
                    TotalCount(SiteIn(g, n, t)))
  {
    hide Ready, SiteOfEdge, AfterLoop, MatchesOf, Finish, SiteIn, ListsOK, Complete, SitesOK, RefsLive, Adjacent, OnlyDirect;
    var n, t := e.caller, g.edges[e].stmt;
    CallBeforeLast(g, e, callee);
    var g1, x, m := AfterLoop(g, e, callee), IndirectOf(g, e), MatchesOf(g, e, callee);
    FinishLeavesOne(g1, x, m, callee);
    var g' := MakeDirect(g, e, callee);
    ChangesCompose(g, g1, g', n, t, SiteIn(g1, n, t), SiteIn(g', n, t));
  }

  /** The last step, with at most one matching target. */
  lemma FinishLeavesOne(g: Graph, x: Edge, m: seq<Entry>, callee: Node)
    requires Ready(g, x, m, callee) && |m| <= 1
    ensures ListsOK(Finish(g, x, m, callee)) && x in g.edges && x.caller in g.nodes
    ensures var g', n, t := Finish(g, x, m, callee), x.caller, g.edges[x].stmt;
      && n in g'.nodes && Changes(g, g', n, t, SiteIn(g', n, t))
      && OnlyDirect(SiteIn(g', n, t), if m == [] then x else m[0].edge, if m == [] then callee else m[0].rec.callee,
                    TotalCount(SiteIn(g, n, t)))
  {
    hide Finish, SiteIn, OnlyDirect, WellFormed, Changes;
    if m == [] {
      FinishDirect(g, x, callee);
    } else {
      assert m == [m[0]];
      FinishKept(g, x, m[0], callee);
    }
  }

  /** What the loop over the targets leaves for the last step. */
  lemma CallBeforeLast(g: Graph, e: Edge, callee: Node)
    requires WellFormed(g) && e in g.edges && g.edges[e].speculative && callee in g.nodes && e.caller in g.nodes
    requires |MatchesOf(g, e, callee)| <= 1
    ensures SiteOfEdge(g, e).indirects != []
    ensures var g1, x, m, n, t := AfterLoop(g, e, callee), IndirectOf(g, e), MatchesOf(g, e, callee), e.caller, g.edges[e].stmt;
      && Ready(g1, x, m, callee) && MakeDirect(g, e, callee) == Finish(g1, x, m, callee)
      && WellFormed(g1) && x in g1.edges && x.caller == n && g1.edges[x].stmt == t
      && Survivor(g, e, callee) == (if m == [] then x else m[0].edge) && Survivor(g, e, callee) in g.edges
      && (if g.edges[Survivor(g, e, callee)].indirect then callee else g.edges[Survivor(g, e, callee)].callee)
         == (if m == [] then callee else m[0].rec.callee)
      && n in g1.nodes && Changes(g, g1, n, t, SiteIn(g1, n, t))
      && TotalCount(SiteIn(g1, n, t)) == TotalCount(SiteIn(g, n, t))
  {
    hide AfterLoop, Finish, ListsOK, Complete, SitesOK, RefsLive, Adjacent, Changes;
    AfterLoopReady(g, e, callee);
    AfterLoopSite(g, e, callee);
    SurvivorBefore(g, e, callee);
  }

  lemma SurvivorBefore(g: Graph, e: Edge, callee: Node)
    requires WellFormed(g) && e in g.edges && g.edges[e].speculative && e.caller in g.nodes
    ensures SiteOfEdge(g, e).indirects != []
    ensures var x, m := IndirectOf(g, e), MatchesOf(g, e, callee);
      && x in g.edges && g.edges[x].indirect
      && forall d | d in m :: d.edge in g.edges && g.edges[d.edge] == d.rec && !d.rec.indirect
  {
    var n, t := e.caller, g.edges[e].stmt;
    SpeculativeEdge(g, e);
    forall d | d in MatchesOf(g, e, callee) ensures d.edge in g.edges && g.edges[d.edge] == d.rec && !d.rec.indirect {
      MatchingMembers(SiteIn(g, n, t), SiteIn(g, n, t).targets, callee, d);
      TargetEntry(g, n, t, d);
    }
  }
}
