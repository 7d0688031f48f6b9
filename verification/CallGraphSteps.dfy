/** The operations on the call graph as functions on graph values, and what each of them does to
    the call sites: every operation rewrites one site and leaves all others as they were. */
module CallGraphSteps {
  import opened Common
  import opened CallGraphTypes
  import opened CallSites

  // ---------- well-formed graphs ----------

  ghost predicate NodeOK(n: Node, r: NodeRec, edges: map<Edge, EdgeRec>) {
    && NoDup(r.callees) && NoDup(r.indirects) && NoDup(r.callers)
    && (forall e | e in r.callees :: e in edges && e.caller == n)
    && (forall e | e in r.indirects :: e in edges && e.caller == n && e !in r.callees)
    && (forall e | e in r.callers :: e in edges && edges[e].callee == n)
  }

  /** Every listed edge is live and belongs on the list it is on. */
  ghost predicate ListsOK(g: Graph) {
    forall n | n in g.nodes :: NodeOK(n, g.nodes[n], g.edges)
  }

  ghost predicate EdgeOK(g: Graph, e: Edge)
    requires e in g.edges
  {
    var r := g.edges[e];
    && e.caller in g.nodes
    && if r.indirect then
         e in g.nodes[e.caller].indirects && r.callee == null && r.info.Some?
       else
         && e in g.nodes[e.caller].callees && r.info == None
         && r.callee != null && r.callee in g.nodes && e in g.nodes[r.callee].callers
  }

  /** Every live edge, except possibly those in `loose`, is on all the lists it belongs on. */
  ghost predicate CompleteExcept(g: Graph, loose: set<Edge>) {
    forall e | e in g.edges && e !in loose :: EdgeOK(g, e)
  }

  ghost predicate Complete(g: Graph) {
    CompleteExcept(g, {})
  }

  ghost function SiteIn(g: Graph, n: Node, t: Stmt): Site
    requires ListsOK(g) && n in g.nodes
  {
    SiteOf(g.nodes[n], g.edges, t)
  }

  ghost predicate Adjacent(g: Graph, n: Node)
    requires ListsOK(g) && n in g.nodes
  {
    Contiguous(g.nodes[n].callees, g.edges)
  }

  /** What the verifier of speculative calls demands of every caller. */
  ghost predicate SitesOK(g: Graph)
    requires ListsOK(g)
  {
    && (forall n | n in g.nodes :: Adjacent(g, n))
    && (forall n, t: Stmt | n in g.nodes :: SiteOK(SiteIn(g, n, t)))
  }

  ghost predicate LiveRefs(refs: seq<Ref>, ns: set<Node>) {
    forall r | r in refs && r.speculative :: r.referred in ns
  }

  /** The speculative references of every function are to functions that are there. */
  ghost predicate RefsLive(g: Graph) {
    forall n | n in g.nodes :: LiveRefs(g.nodes[n].refs, g.nodes.Keys)
  }

  ghost predicate WellFormed(g: Graph) {
    ListsOK(g) && Complete(g) && SitesOK(g) && RefsLive(g)
  }

  /** The functions are the same, and hold the same references. */
  ghost predicate RefsKept(g: Graph, g': Graph) {
    g'.nodes.Keys == g.nodes.Keys && forall n | n in g.nodes :: g'.nodes[n].refs == g.nodes[n].refs
  }

  lemma KeptIsLive(g: Graph, g': Graph)
    requires RefsKept(g, g')
    ensures RefsLive(g) <==> RefsLive(g')
  {
    if RefsLive(g) {
      forall n | n in g'.nodes ensures LiveRefs(g'.nodes[n].refs, g'.nodes.Keys) {
        assert LiveRefs(g.nodes[n].refs, g.nodes.Keys);
      }
    }
    if RefsLive(g') {
      forall n | n in g.nodes ensures LiveRefs(g.nodes[n].refs, g.nodes.Keys) {
        assert LiveRefs(g'.nodes[n].refs, g'.nodes.Keys);
      }
    }
  }

  /** Node n drops a reference. */
  lemma DroppedIsLive(g: Graph, g': Graph, n: Node, t: Stmt, id: nat)
    requires RefsLive(g) && g'.nodes.Keys == g.nodes.Keys && n in g.nodes
    requires g'.nodes[n].refs == DropRef(g.nodes[n].refs, t, id)
    requires forall m | m in g.nodes && m != n :: g'.nodes[m].refs == g.nodes[m].refs
    ensures RefsLive(g')
  {
    DropRefIn(g.nodes[n].refs, t, id);
    forall m | m in g'.nodes ensures LiveRefs(g'.nodes[m].refs, g'.nodes.Keys) {
      assert LiveRefs(g.nodes[m].refs, g.nodes.Keys);
    }
  }

  lemma RemoveRefs(g: Graph, e: Edge)
    requires Live(g, e)
    ensures RefsKept(g, Remove(g, e))
  {
  }

  lemma CreateEdgeRefs(g: Graph, e: Edge, callee: Node, t: Stmt, count: int)
    requires e.caller in g.nodes && callee in g.nodes
    ensures RefsKept(g, CreateEdge(g, e, callee, t, count))
  {
  }

  lemma BecomeDirectRefs(g: Graph, x: Edge, callee: Node)
    requires x in g.edges && x.caller in g.nodes && callee in g.nodes
    ensures RefsKept(g, BecomeDirect(g, x, callee))
  {
  }

  lemma MakeSpeculativeRefs(g: Graph, x: Edge, d: Edge, target: Node, count: int, id: nat)
    requires x in g.edges && d.caller in g.nodes && target in g.nodes && RefsLive(g)
    ensures RefsLive(MakeSpeculative(g, x, d, target, count, id))
  {
    var g' := MakeSpeculative(g, x, d, target, count, id);
    forall m | m in g'.nodes ensures LiveRefs(g'.nodes[m].refs, g'.nodes.Keys) {
      assert LiveRefs(g.nodes[m].refs, g.nodes.Keys);
    }
  }

  lemma RedirectRefs(g: Graph, e: Edge, callee: Node)
    requires e in g.edges && g.edges[e].callee in g.nodes && callee in g.nodes
    ensures RefsKept(g, Redirect(g, e, callee))
  {
  }

  lemma DropTargetRefs(g: Graph, d: Edge, x: Edge)
    requires Live(g, d) && x in g.edges && RefsLive(g)
    ensures RefsLive(DropTarget(g, d, x))
  {
    DroppedIsLive(g, DropTarget(g, d, x), d.caller, g.edges[d].stmt, g.edges[d].speculativeId);
  }

  lemma KeepTargetRefs(g: Graph, d: Edge, x: Edge)
    requires d in g.edges && Live(g, x) && d != x && d.caller == x.caller && RefsLive(g)
    ensures RefsLive(KeepTarget(g, d, x))
  {
    DroppedIsLive(g, KeepTarget(g, d, x), d.caller, g.edges[d].stmt, g.edges[d].speculativeId);
  }

  lemma {:induction false} DropRefIn(refs: seq<Ref>, t: Stmt, id: nat)
    ensures forall r | r in DropRef(refs, t, id) :: r in refs
  {
    if refs != [] {
      DropRefIn(refs[1..], t, id);
    }
  }

  // ---------- elementary changes ----------

  ghost function SetRec(g: Graph, e: Edge, r: EdgeRec): Graph {
    g.(edges := g.edges[e := r])
  }

  ghost function Forget(g: Graph, e: Edge): Graph {
    g.(edges := g.edges - {e})
  }

  ghost function PushCallee(g: Graph, e: Edge): Graph
    requires e.caller in g.nodes
  {
    var r := g.nodes[e.caller];
    g.(nodes := g.nodes[e.caller := r.(callees := [e] + r.callees)])
  }

  ghost function PushIndirect(g: Graph, e: Edge): Graph
    requires e.caller in g.nodes
  {
    var r := g.nodes[e.caller];
    g.(nodes := g.nodes[e.caller := r.(indirects := [e] + r.indirects)])
  }

  ghost function PushCaller(g: Graph, n: Node, e: Edge): Graph
    requires n in g.nodes
  {
    var r := g.nodes[n];
    g.(nodes := g.nodes[n := r.(callers := [e] + r.callers)])
  }

  ghost function PullCallee(g: Graph, e: Edge): Graph
    requires e.caller in g.nodes
  {
    var r := g.nodes[e.caller];
    g.(nodes := g.nodes[e.caller := r.(callees := Unlink(r.callees, e))])
  }

  ghost function PullIndirect(g: Graph, e: Edge): Graph
    requires e.caller in g.nodes
  {
    var r := g.nodes[e.caller];
    g.(nodes := g.nodes[e.caller := r.(indirects := Unlink(r.indirects, e))])
  }

  ghost function PullCaller(g: Graph, n: Node, e: Edge): Graph
    requires n in g.nodes
  {
    var r := g.nodes[n];
    g.(nodes := g.nodes[n := r.(callers := Unlink(r.callers, e))])
  }

  ghost function SetRefs(g: Graph, n: Node, refs: seq<Ref>): Graph
    requires n in g.nodes
  {
    g.(nodes := g.nodes[n := g.nodes[n].(refs := refs)])
  }

  // ---------- operations ----------

  ghost function CreateEdge(g: Graph, e: Edge, callee: Node, t: Stmt, count: int): Graph
    requires e.caller in g.nodes && callee in g.nodes
  {
    var g1 := SetRec(g, e, EdgeRec(callee, t, false, false, 0, count, None));
    PushCaller(PushCallee(g1, e), callee, e)
  }

  ghost function CreateIndirectEdge(g: Graph, e: Edge, t: Stmt, count: int): Graph
    requires e.caller in g.nodes
  {
    PushIndirect(SetRec(g, e, EdgeRec(null, t, false, true, 0, count, Some(0))), e)
  }

  ghost predicate Live(g: Graph, e: Edge) {
    && e in g.edges && e.caller in g.nodes
    && (!g.edges[e].indirect ==> g.edges[e].callee != null && g.edges[e].callee in g.nodes)
  }

  ghost function Remove(g: Graph, e: Edge): Graph
    requires Live(g, e)
  {
    Forget(if g.edges[e].indirect then PullIndirect(g, e) else PullCallee(PullCaller(g, g.edges[e].callee, e), e), e)
  }

  /** The fields of indirect edge x once it has a further target with the given count. */
  ghost function GainTarget(r: EdgeRec, count: int): EdgeRec {
    r.(speculative := true, info := Some(r.NumTargets() + 1), count := r.count - count)
  }

  /** The new direct edge d becomes a target of indirect edge x, paired with a new reference. */
  ghost function MarkTarget(g: Graph, x: Edge, d: Edge, id: nat): Graph
    requires x in g.edges && d in g.edges && d.caller in g.nodes && g.edges[d].callee != null
  {
    var r := g.edges[d];
    var g1 := SetRec(g, d, r.(speculative := true, speculativeId := id));
    var g2 := SetRec(g1, x, GainTarget(g.edges[x], r.count));
    SetRefs(g2, d.caller, g.nodes[d.caller].refs + [Ref(r.callee, r.stmt, true, id)])
  }

  ghost function MakeSpeculative(g: Graph, x: Edge, d: Edge, target: Node, count: int, id: nat): Graph
    requires x in g.edges && d.caller in g.nodes && target in g.nodes
  {
    MarkTarget(CreateEdge(g, d, target, g.edges[x].stmt, count), x, d, id)
  }

  /** The fields of indirect edge x after one of its targets, with the given count, is given up. */
  ghost function LoseTarget(r: EdgeRec, count: int): EdgeRec {
    r.(count := r.count + count,
       info := if r.NumTargets() > 0 then Some(r.NumTargets() - 1) else r.info,
       speculative := r.speculative && r.NumTargets() > 1)
  }

  /** The fields of direct edge d once it has taken over the count of the indirect edge. */
  ghost function Won(r: EdgeRec, count: int): EdgeRec {
    r.(count := r.count + count, speculative := false)
  }

  /** Resolving without a matching target: the direct edge d goes, the indirect edge x stays. */
  ghost function DropTarget(g: Graph, d: Edge, x: Edge): Graph
    requires Live(g, d) && x in g.edges
  {
    var r := g.edges[d];
    var g1 := SetRec(g, x, LoseTarget(g.edges[x], r.count));
    var g2 := SetRefs(g1, d.caller, DropRef(g.nodes[d.caller].refs, r.stmt, r.speculativeId));
    Remove(g2, d)
  }

  /** Resolving with a matching target: the direct edge d stays, the indirect edge x goes. */
  ghost function KeepTarget(g: Graph, d: Edge, x: Edge): Graph
    requires d in g.edges && Live(g, x) && d != x && d.caller == x.caller
  {
    var r := g.edges[d];
    var g1 := SetRec(g, d, Won(r, g.edges[x].count));
    var g2 := SetRefs(g1, d.caller, DropRef(g.nodes[d.caller].refs, r.stmt, r.speculativeId));
    Remove(g2, x)
  }

  ghost function Directed(r: EdgeRec, callee: Node): EdgeRec {
    r.(indirect := false, info := None, callee := callee)
  }

  /** An indirect edge becomes the ordinary edge to callee. */
  ghost function BecomeDirect(g: Graph, x: Edge, callee: Node): Graph
    requires x in g.edges && x.caller in g.nodes && callee in g.nodes
  {
    PushCaller(PushCallee(SetRec(PullIndirect(g, x), x, Directed(g.edges[x], callee)), x), callee, x)
  }

  ghost function Retargeted(r: EdgeRec, callee: Node): EdgeRec {
    r.(callee := callee)
  }

  ghost function Redirect(g: Graph, e: Edge, callee: Node): Graph
    requires e in g.edges && g.edges[e].callee in g.nodes && callee in g.nodes
  {
    PushCaller(SetRec(PullCaller(g, g.edges[e].callee, e), e, Retargeted(g.edges[e], callee)), callee, e)
  }

  ghost function RenameRef(r: Ref, t: Stmt, t': Stmt): Ref {
    if r.speculative && r.stmt == t then r.(stmt := t') else r
  }

  ghost function RenameRefs(refs: seq<Ref>, t: Stmt, t': Stmt): seq<Ref> {
    seq(|refs|, i requires 0 <= i < |refs| => RenameRef(refs[i], t, t'))
  }

  ghost function Renamed(r: EdgeRec, t': Stmt): EdgeRec {
    r.(stmt := t')
  }

  ghost function RenameEdges(edges: map<Edge, EdgeRec>, n: Node, t: Stmt, t': Stmt): map<Edge, EdgeRec> {
    map e | e in edges :: if e.caller == n && edges[e].stmt == t then Renamed(edges[e], t') else edges[e]
  }

  /** Every component of the call site gets a new statement. */
  ghost function Rename(g: Graph, n: Node, t: Stmt, t': Stmt): Graph
    requires n in g.nodes
  {
    SetRefs(g.(edges := RenameEdges(g.edges, n, t, t')), n, RenameRefs(g.nodes[n].refs, t, t'))
  }

  // ---------- one site changes, the others do not ----------

  /** g' has the same nodes as g, statement t of node n now has site v, and every other site and
      the adjacency of every other node's targets are unchanged. */
  ghost predicate Changes(g: Graph, g': Graph, n: Node, t: Stmt, v: Site)
    requires ListsOK(g) && ListsOK(g') && n in g.nodes
  {
    && g'.nodes.Keys == g.nodes.Keys
    && SiteIn(g', n, t) == v
    && (forall m, s: Stmt | m in g.nodes && !(m == n && s == t) :: SiteIn(g', m, s) == SiteIn(g, m, s))
    && (forall m | m in g.nodes && m != n && Adjacent(g, m) :: Adjacent(g', m))
  }

  lemma SameSite(r: NodeRec, edges: map<Edge, EdgeRec>, r': NodeRec, edges': map<Edge, EdgeRec>, t: Stmt)
    requires Covers(edges, r.callees) && Covers(edges, r.indirects)
    requires r'.callees == r.callees && r'.indirects == r.indirects && r'.refs == r.refs
    requires forall e | e in r.callees || e in r.indirects :: e in edges' && edges'[e] == edges[e]
    ensures SiteOf(r, edges, t) == SiteOf(r', edges', t)
    ensures Contiguous(r.callees, edges) ==> Contiguous(r.callees, edges')
  {
    AtFrame(r.callees, edges, edges', t);
    AtFrame(r.indirects, edges, edges', t);
    if Contiguous(r.callees, edges) {
      ContiguousFrame(r.callees, edges, edges');
    }
  }

  /** A change to node n and to edges of node n leaves the other callers alone. */
  lemma OtherNodes(g: Graph, g': Graph, n: Node)
    requires ListsOK(g) && ListsOK(g') && n in g.nodes && g'.nodes.Keys == g.nodes.Keys
    requires forall m | m in g.nodes && m != n ::
      && g'.nodes[m].callees == g.nodes[m].callees && g'.nodes[m].indirects == g.nodes[m].indirects
      && g'.nodes[m].refs == g.nodes[m].refs
    requires forall e | e in g.edges && e.caller != n :: e in g'.edges && g'.edges[e] == g.edges[e]
    ensures forall m, s: Stmt | m in g.nodes && m != n :: SiteIn(g', m, s) == SiteIn(g, m, s)
    ensures forall m | m in g.nodes && m != n && Adjacent(g, m) :: Adjacent(g', m)
  {
    forall m, s: Stmt | m in g.nodes && m != n
      ensures SiteIn(g', m, s) == SiteIn(g, m, s)
    {
      SameSite(g.nodes[m], g.edges, g'.nodes[m], g'.edges, s);
    }
    forall m | m in g.nodes && m != n && Adjacent(g, m)
      ensures Adjacent(g', m)
    {
      SameSite(g.nodes[m], g.edges, g'.nodes[m], g'.edges, 0);
    }
  }

  lemma ChangesCompose(g: Graph, g1: Graph, g2: Graph, n: Node, t: Stmt, v1: Site, v2: Site)
    requires ListsOK(g) && ListsOK(g1) && ListsOK(g2) && n in g.nodes
    requires Changes(g, g1, n, t, v1) && Changes(g1, g2, n, t, v2)
    ensures Changes(g, g2, n, t, v2)
  {
    forall m, s: Stmt | m in g.nodes && !(m == n && s == t) ensures SiteIn(g2, m, s) == SiteIn(g, m, s) {
      assert SiteIn(g1, m, s) == SiteIn(g, m, s);
    }
    forall m | m in g.nodes && m != n && Adjacent(g, m) ensures Adjacent(g2, m) {
      assert Adjacent(g1, m);
    }
  }

  lemma PutAbsent(s: seq<Entry>, e: Edge, rec: EdgeRec)
    requires Lacks(s, e)
    ensures Put(s, e, rec) == s
  {
    forall i | 0 <= i < |s| ensures Put(s, e, rec)[i] == s[i] {
      assert s[i] in s;
    }
  }

  /** Graphs that differ at most in the fields of edge e and in the callers lists. */
  ghost predicate OnlyRecord(g: Graph, g': Graph, e: Edge, r: EdgeRec) {
    && g'.nodes.Keys == g.nodes.Keys && g'.edges == g.edges[e := r]
    && forall n | n in g.nodes ::
         && g'.nodes[n].callees == g.nodes[n].callees && g'.nodes[n].indirects == g.nodes[n].indirects
         && g'.nodes[n].refs == g.nodes[n].refs
  }

  lemma RecordSite(g: Graph, g': Graph, e: Edge, r: EdgeRec)
    requires ListsOK(g) && ListsOK(g') && e in g.edges && e.caller in g.nodes
    requires r.stmt == g.edges[e].stmt && OnlyRecord(g, g', e, r)
    ensures var v := SiteIn(g, e.caller, r.stmt);
      Changes(g, g', e.caller, r.stmt, Site(Put(v.targets, e, r), Put(v.indirects, e, r), v.refs))
    ensures Adjacent(g, e.caller) ==> Adjacent(g', e.caller)
  {
    var n := e.caller;
    OtherNodes(g, g', n);
    var q := g.nodes[n];
    assert NodeOK(n, q, g.edges);
    forall s: Stmt
      ensures var v := SiteIn(g, n, s);
        SiteIn(g', n, s) == if s == r.stmt then Site(Put(v.targets, e, r), Put(v.indirects, e, r), v.refs) else v
    {
      AtPut(q.callees, g.edges, e, r, s);
      AtPut(q.indirects, g.edges, e, r, s);
      if s != r.stmt {
        AtLacks(q.callees, g.edges, s, e);
        AtLacks(q.indirects, g.edges, s, e);
        PutAbsent(At(q.callees, g.edges, s), e, r);
        PutAbsent(At(q.indirects, g.edges, s), e, r);
      }
    }
    if Adjacent(g, n) {
      ContiguousFrame(q.callees, g.edges, g'.edges);
    }
  }

  lemma SetRecSite(g: Graph, e: Edge, r: EdgeRec)
    requires ListsOK(g) && ListsOK(SetRec(g, e, r)) && e in g.edges && e.caller in g.nodes
    requires r.stmt == g.edges[e].stmt
    ensures var v := SiteIn(g, e.caller, r.stmt);
      Changes(g, SetRec(g, e, r), e.caller, r.stmt, Site(Put(v.targets, e, r), Put(v.indirects, e, r), v.refs))
    ensures Adjacent(g, e.caller) ==> Adjacent(SetRec(g, e, r), e.caller)
  {
    RecordSite(g, SetRec(g, e, r), e, r);
  }

  lemma SetRefsSite(g: Graph, n: Node, refs: seq<Ref>, t: Stmt)
    requires ListsOK(g) && n in g.nodes && ListsOK(SetRefs(g, n, refs))
    requires forall s: Stmt | s != t :: RefsAt(refs, s) == RefsAt(g.nodes[n].refs, s)
    ensures Changes(g, SetRefs(g, n, refs), n, t, SiteIn(g, n, t).(refs := RefsAt(refs, t)))
    ensures Adjacent(g, n) <==> Adjacent(SetRefs(g, n, refs), n)
  {
    OtherNodes(g, SetRefs(g, n, refs), n);
  }

  lemma ChangesKeeps(g: Graph, g': Graph, n: Node, t: Stmt, v: Site)
    requires ListsOK(g) && ListsOK(g') && n in g.nodes && SitesOK(g)
    requires Changes(g, g', n, t, v)
    ensures SitesOK(g') <==> SiteOK(v) && Adjacent(g', n)
  {
    if SiteOK(v) && Adjacent(g', n) {
      forall m, s: Stmt | m in g'.nodes ensures SiteOK(SiteIn(g', m, s)) {
        if !(m == n && s == t) {
          assert SiteIn(g', m, s) == SiteIn(g, m, s);
        }
      }
    }
    if SitesOK(g') {
      assert SiteOK(SiteIn(g', n, t));
    }
  }
}
