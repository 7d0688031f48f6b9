/** The call graph on the heap: how fields and links represent a graph value, and what each piece
    of pointer surgery on the intrusive lists does to the value represented. */
module CallGraphHeap {
  import opened Common
  import opened CallGraphTypes
  import opened CallSites
  import opened EdgeLists
  import opened CallGraphSteps

  ghost predicate FieldsRep(e: Edge, r: EdgeRec)
    reads e
  {
    && e.callee == r.callee && e.callStmt == r.stmt && e.speculative == r.speculative
    && e.indirectUnknownCallee == r.indirect && e.speculativeId == r.speculativeId
    && e.count == r.count && e.indirectInfo == r.info
  }

  /** The callee links of e agree with the list it is on. */
  ghost predicate CalleeLinks(e: Edge, g: Graph)
    reads e
  {
    e.caller in g.nodes ==>
      var r := g.nodes[e.caller];
      && (e in r.callees ==> e.nextCallee == After(r.callees, e) && e.prevCallee == Before(r.callees, e))
      && (e in r.indirects ==> e.nextCallee == After(r.indirects, e) && e.prevCallee == Before(r.indirects, e))
  }

  /** The caller links of e agree with the callers list of its callee. */
  ghost predicate CallerLinks(e: Edge, g: Graph)
    requires e in g.edges
    reads e
  {
    var n := g.edges[e].callee;
    n in g.nodes && e in g.nodes[n].callers ==>
      e.nextCaller == After(g.nodes[n].callers, e) && e.prevCaller == Before(g.nodes[n].callers, e)
  }

  /** The call site tables of all nodes. */
  type Tables = map<Node, Option<Table>>

  /** A graph value together with the tables. */
  datatype State = State(g: Graph, hs: Tables)

  ghost predicate NodeRep(n: Node, r: NodeRec, h: Option<Table>)
    reads n`callees, n`indirectCalls, n`callers, n`references, n`callSiteHash
  {
    && n.callees == Head(r.callees) && n.indirectCalls == Head(r.indirects) && n.callers == Head(r.callers)
    && n.references == r.refs && n.callSiteHash == h
  }

  // ---------- how the lists of a changed graph relate to those before ----------

  ghost predicate OnNoCallers(g: Graph, e: Edge) {
    forall n | n in g.nodes :: e !in g.nodes[n].callers
  }

  ghost function WithCallee(g: Graph, e: Edge, n: Node): Graph
    requires e in g.edges && n in g.nodes
  {
    PushCaller(SetRec(g, e, Retargeted(g.edges[e], n)), n, e)
  }

  lemma WithCalleeLists(g: Graph, e: Edge, n: Node)
    requires ListsOK(g) && e in g.edges && n in g.nodes && OnNoCallers(g, e)
    ensures ListsOK(WithCallee(g, e, n))
  {
    var g' := WithCallee(g, e, n);
    forall m | m in g'.nodes ensures NodeOK(m, g'.nodes[m], g'.edges) {
      assert NodeOK(m, g.nodes[m], g.edges);
    }
  }

  lemma WithCalleeNeighbours(g: Graph, e: Edge, n: Node, x: Edge)
    requires ListsOK(g) && e in g.edges && n in g.nodes && OnNoCallers(g, e) && x in g.edges
    requires var g' := WithCallee(g, e, n);
      var m := g'.edges[x].callee;
      m in g.nodes && x in g'.nodes[m].callers
    ensures var s' := WithCallee(g, e, n).nodes[WithCallee(g, e, n).edges[x].callee].callers;
      if x == e then After(s', x) == Head(g.nodes[n].callers) && Before(s', x) == null
      else
        && g.edges[x].callee in g.nodes && x in g.nodes[g.edges[x].callee].callers
        && After(s', x) == After(g.nodes[g.edges[x].callee].callers, x)
        && Before(s', x) == if x == Head(g.nodes[n].callers) then e else Before(g.nodes[g.edges[x].callee].callers, x)
  {
    assert NodeOK(n, g.nodes[n], g.edges);
    PushNeighbours(g.nodes[n].callers, e, x);
  }

  // ---------- the parts of the representation ----------

  ghost predicate FieldsOK(g: Graph)
    reads g.edges.Keys
  {
    forall e | e in g.edges :: FieldsRep(e, g.edges[e])
  }

  ghost predicate CalleeLinksOK(g: Graph)
    reads g.edges.Keys
  {
    forall e | e in g.edges :: CalleeLinks(e, g)
  }

  ghost predicate CallerLinksOK(g: Graph)
    reads g.edges.Keys
  {
    forall e | e in g.edges :: CallerLinks(e, g)
  }

  ghost predicate NodesOK(g: Graph, hs: Tables)
    reads g.nodes.Keys
  {
    forall n | n in g.nodes :: n in hs && NodeRep(n, g.nodes[n], hs[n])
  }

  /** The heap represents the graph value g and the tables hs. */
  ghost predicate Represents(g: Graph, hs: Tables)
    reads g.nodes.Keys, g.edges.Keys
  {
    FieldsOK(g) && CalleeLinksOK(g) && CallerLinksOK(g) && NodesOK(g, hs)
  }

  // ---------- what a step leaves alone ----------

  twostate predicate RecordsSame(es: set<Edge>)
    reads es
  {
    forall x | x in es ::
      && x.callStmt == old(x.callStmt) && x.speculative == old(x.speculative) && x.indirectUnknownCallee == old(x.indirectUnknownCallee)
      && x.speculativeId == old(x.speculativeId) && x.count == old(x.count) && x.indirectInfo == old(x.indirectInfo)
  }

  twostate predicate CalleeSideSame(es: set<Edge>, ns: set<Node>)
    reads es, ns
  {
    && (forall x | x in es :: x.nextCallee == old(x.nextCallee) && x.prevCallee == old(x.prevCallee))
    && (forall m | m in ns :: m.callees == old(m.callees) && m.indirectCalls == old(m.indirectCalls))
  }

  twostate predicate CallerSideSame(es: set<Edge>, ns: set<Node>)
    reads es, ns
  {
    && (forall x | x in es :: x.nextCaller == old(x.nextCaller) && x.prevCaller == old(x.prevCaller) && x.callee == old(x.callee))
    && (forall m | m in ns :: m.callers == old(m.callers))
  }

  twostate predicate RestSame(ns: set<Node>)
    reads ns
  {
    forall m | m in ns :: m.references == old(m.references) && m.callSiteHash == old(m.callSiteHash)
  }

  // ---------- callers lists ----------

  /** What making e the first caller of n does to the heap around it. */
  twostate predicate LinkedIn(g: Graph, e: Edge, n: Node)
    requires n in g.nodes
    reads g.edges.Keys, g.nodes.Keys, e
  {
    var h := Head(g.nodes[n].callers);
    && n.callers == e && e.callee == n && e.nextCaller == h && e.prevCaller == null
    && (h != null && h in g.edges ==> h.prevCaller == e)
    && (forall x | x in g.edges && x != e ::
          x.nextCaller == old(x.nextCaller) && x.callee == old(x.callee) && (x != h ==> x.prevCaller == old(x.prevCaller)))
    && (forall m | m in g.nodes && m != n :: m.callers == old(m.callers))
  }

  /** cgraph_edge::set_callee. */
  method SetCallee(e: Edge, n: Node, ghost g: Graph)
    requires e in g.edges && n in g.nodes && n.callers == Head(g.nodes[n].callers) && n.callers != e
    modifies (if n.callers == null then {e} else {e, n.callers})`prevCaller
    modifies e`nextCaller, e`callee, n`callers
    ensures LinkedIn(g, e, n)
    ensures RecordsSame(g.edges.Keys) && CalleeSideSame(g.edges.Keys, g.nodes.Keys) && RestSame(g.nodes.Keys)
  {
    PutInFront(e, n);
  }

  method PutInFront(e: Edge, n: Node)
    requires n.callers != e
    modifies (if n.callers == null then {e} else {e, n.callers})`prevCaller
    modifies e`nextCaller, e`callee, n`callers
    ensures n.callers == e && e.callee == n && e.nextCaller == old(n.callers) && e.prevCaller == null
    ensures old(n.callers) != null ==> old(n.callers).prevCaller == e
  {
    e.prevCaller := null;
    if n.callers != null {
      n.callers.prevCaller := e;
    }
    e.nextCaller := n.callers;
    n.callers := e;
    e.callee := n;
  }

  twostate lemma SetCalleeRep(st: State, new e: Edge, new n: Node)
    requires ListsOK(st.g) && e in st.g.edges && n in st.g.nodes && OnNoCallers(st.g, e)
    requires old(Represents(st.g, st.hs)) && LinkedIn(st.g, e, n)
    requires RecordsSame(st.g.edges.Keys) && CalleeSideSame(st.g.edges.Keys, st.g.nodes.Keys) && RestSame(st.g.nodes.Keys)
    ensures Represents(WithCallee(st.g, e, n), st.hs)
  {
    var g, hs := st.g, st.hs;
    var g' := WithCallee(g, e, n);
    forall x | x in g'.edges ensures FieldsRep(x, g'.edges[x]) && CalleeLinks(x, g') {
      assert old(FieldsRep(x, g.edges[x]) && CalleeLinks(x, g));
    }
    forall m | m in g'.nodes ensures NodeRep(m, g'.nodes[m], hs[m]) {
      assert old(NodeRep(m, g.nodes[m], hs[m]));
    }
    forall x | x in g'.edges ensures CallerLinks(x, g') {
      assert old(CallerLinks(x, g));
      if g'.edges[x].callee in g'.nodes && x in g'.nodes[g'.edges[x].callee].callers {
        WithCalleeNeighbours(g, e, n, x);
      }
    }
  }

  /** What taking e off the callers of n does to the heap around it. */
  twostate predicate UnlinkedIn(g: Graph, e: Edge, n: Node)
    requires n in g.nodes
    reads g.edges.Keys, g.nodes.Keys
  {
    var a, b := After(g.nodes[n].callers, e), Before(g.nodes[n].callers, e);
    && (b != null && b in g.edges ==> b.nextCaller == a) && (a != null && a in g.edges ==> a.prevCaller == b)
    && n.callers == (if b == null then a else old(n.callers))
    && (forall x | x in g.edges ::
          && (x != b ==> x.nextCaller == old(x.nextCaller)) && (x != a ==> x.prevCaller == old(x.prevCaller))
          && x.callee == old(x.callee))
    && (forall m | m in g.nodes && m != n :: m.callers == old(m.callers))
  }

  /** cgraph_edge::remove_callee. */
  method RemoveCallee(e: Edge, ghost g: Graph)
    requires e.callee != null && e.callee in g.nodes
    requires var s := g.nodes[e.callee].callers;
      && e.nextCaller == After(s, e) && e.prevCaller == Before(s, e)
      && After(s, e) != e && Before(s, e) != e && (After(s, e) != null ==> After(s, e) != Before(s, e))
    modifies (if e.prevCaller == null then {} else {e.prevCaller})`nextCaller
    modifies (if e.nextCaller == null then {} else {e.nextCaller})`prevCaller
    modifies e.callee`callers
    ensures UnlinkedIn(g, e, old(e.callee))
    ensures RecordsSame(g.edges.Keys) && CalleeSideSame(g.edges.Keys, g.nodes.Keys) && RestSame(g.nodes.Keys)
  {
    JoinAround(e);
  }

  method JoinAround(e: Edge)
    requires e.callee != null && e.nextCaller != e && e.prevCaller != e
    requires e.nextCaller != null ==> e.nextCaller != e.prevCaller
    modifies (if e.prevCaller == null then {} else {e.prevCaller})`nextCaller
    modifies (if e.nextCaller == null then {} else {e.nextCaller})`prevCaller
    modifies e.callee`callers
    ensures old(e.prevCaller) != null ==> old(e.prevCaller).nextCaller == e.nextCaller
    ensures old(e.nextCaller) != null ==> old(e.nextCaller).prevCaller == e.prevCaller
    ensures e.callee.callers == if e.prevCaller == null then e.nextCaller else old(e.callee.callers)
  {
    if e.prevCaller != null {
      e.prevCaller.nextCaller := e.nextCaller;
    }
    if e.nextCaller != null {
      e.nextCaller.prevCaller := e.prevCaller;
    }
    if e.prevCaller == null {
      e.callee.callers := e.nextCaller;
    }
  }

  lemma PullCallerNeighbours(g: Graph, n: Node, e: Edge, x: Edge)
    requires ListsOK(g) && n in g.nodes && e in g.nodes[n].callers && x in g.edges
    requires g.edges[x].callee in g.nodes && x in PullCaller(g, n, e).nodes[g.edges[x].callee].callers
    ensures x != e && x in g.nodes[g.edges[x].callee].callers
    ensures var s, s' := g.nodes[g.edges[x].callee].callers, PullCaller(g, n, e).nodes[g.edges[x].callee].callers;
      && After(s', x) == (if x == Before(g.nodes[n].callers, e) then After(g.nodes[n].callers, e) else After(s, x))
      && Before(s', x) == (if x == After(g.nodes[n].callers, e) then Before(g.nodes[n].callers, e) else Before(s, x))
  {
    var m := g.edges[x].callee;
    assert NodeOK(n, g.nodes[n], g.edges) && NodeOK(m, g.nodes[m], g.edges);
    var s := g.nodes[n].callers;
    UnlinkNoDup(s, e);
    NeighboursIn(s, e);
    if m == n {
      UnlinkNeighbours(s, e, x);
      NeighboursAgree(s, x, e);
      NeighboursAgree(s, e, x);
    }
  }

  twostate lemma RemoveCalleeRep(st: State, new n: Node, new e: Edge)
    requires ListsOK(st.g) && n in st.g.nodes && e in st.g.nodes[n].callers
    requires old(Represents(st.g, st.hs)) && UnlinkedIn(st.g, e, n)
    requires RecordsSame(st.g.edges.Keys) && CalleeSideSame(st.g.edges.Keys, st.g.nodes.Keys) && RestSame(st.g.nodes.Keys)
    ensures Represents(PullCaller(st.g, n, e), st.hs)
  {
    var g, hs := st.g, st.hs;
    var g' := PullCaller(g, n, e);
    assert NodeOK(n, g.nodes[n], g.edges);
    UnlinkHead(g.nodes[n].callers, e);
    NeighboursIn(g.nodes[n].callers, e);
    forall x | x in g'.edges ensures FieldsRep(x, g'.edges[x]) && CalleeLinks(x, g') {
      assert old(FieldsRep(x, g.edges[x]) && CalleeLinks(x, g));
    }
    forall m | m in g'.nodes ensures NodeRep(m, g'.nodes[m], hs[m]) {
      assert old(NodeRep(m, g.nodes[m], hs[m]));
    }
    forall x | x in g'.edges ensures CallerLinks(x, g') {
      assert old(CallerLinks(x, g));
      if g'.edges[x].callee in g'.nodes && x in g'.nodes[g'.edges[x].callee].callers {
        PullCallerNeighbours(g, n, e, x);
      }
    }
  }

  // ---------- callees and indirect_calls lists ----------

  ghost function OutList(g: Graph, n: Node, indirect: bool): seq<Edge>
    requires n in g.nodes
  {
    if indirect then g.nodes[n].indirects else g.nodes[n].callees
  }

  ghost function PushOut(g: Graph, e: Edge, indirect: bool): Graph
    requires e.caller in g.nodes
  {
    if indirect then PushIndirect(g, e) else PushCallee(g, e)
  }

  ghost function PullOut(g: Graph, e: Edge, indirect: bool): Graph
    requires e.caller in g.nodes
  {
    if indirect then PullIndirect(g, e) else PullCallee(g, e)
  }

  /** What linking e to the front of its caller's list does to the heap around it. */
  twostate predicate LinkedOut(g: Graph, e: Edge, indirect: bool)
    requires e.caller in g.nodes
    reads g.edges.Keys, g.nodes.Keys, e
  {
    var h := Head(OutList(g, e.caller, indirect));
    && e.prevCallee == null && e.nextCallee == h && (h != null && h in g.edges ==> h.prevCallee == e)
    && (forall x | x in g.edges && x != e :: x.nextCallee == old(x.nextCallee) && (x != h ==> x.prevCallee == old(x.prevCallee)))
    && (if indirect then e.caller.indirectCalls == e && e.caller.callees == old(e.caller.callees)
        else e.caller.callees == e && e.caller.indirectCalls == old(e.caller.indirectCalls))
    && (forall m | m in g.nodes && m != e.caller :: m.callees == old(m.callees) && m.indirectCalls == old(m.indirectCalls))
  }

  /** The linking code of create_edge, create_indirect_edge and make_direct. */
  method PrependOut(e: Edge, indirect: bool)
    requires e != if indirect then e.caller.indirectCalls else e.caller.callees
    modifies e`prevCallee, e`nextCallee
    modifies (if indirect then {} else {e.caller})`callees, (if indirect then {e.caller} else {})`indirectCalls
    modifies (var h := if indirect then e.caller.indirectCalls else e.caller.callees;
              if h == null then {} else {h})`prevCallee
    ensures var h := old(if indirect then e.caller.indirectCalls else e.caller.callees);
      e.prevCallee == null && e.nextCallee == h && (h != null ==> h.prevCallee == e)
    ensures (if indirect then e.caller.indirectCalls else e.caller.callees) == e
  {
    e.prevCallee := null;
    if indirect {
      e.nextCallee := e.caller.indirectCalls;
      if e.caller.indirectCalls != null {
        e.caller.indirectCalls.prevCallee := e;
      }
      e.caller.indirectCalls := e;
    } else {
      e.nextCallee := e.caller.callees;
      if e.caller.callees != null {
        e.caller.callees.prevCallee := e;
      }
      e.caller.callees := e;
    }
  }

  /** The same, seen by the graph around it. */
  method LinkOut(e: Edge, indirect: bool, ghost g: Graph)
    requires e in g.edges && e.caller in g.nodes
    requires (if indirect then e.caller.indirectCalls else e.caller.callees) == Head(OutList(g, e.caller, indirect))
    requires e != Head(OutList(g, e.caller, indirect))
    modifies e`prevCallee, e`nextCallee
    modifies (if indirect then {} else {e.caller})`callees, (if indirect then {e.caller} else {})`indirectCalls
    modifies (var h := if indirect then e.caller.indirectCalls else e.caller.callees;
              if h == null then {} else {h})`prevCallee
    ensures LinkedOut(g, e, indirect)
    ensures RecordsSame(g.edges.Keys) && CallerSideSame(g.edges.Keys, g.nodes.Keys) && RestSame(g.nodes.Keys)
  {
    PrependOut(e, indirect);
  }

  lemma PushOutNeighbours(g: Graph, e: Edge, indirect: bool, x: Edge, i: bool)
    requires ListsOK(g) && e in g.edges && e.caller in g.nodes && x in g.edges && x.caller in g.nodes
    requires e !in g.nodes[e.caller].callees && e !in g.nodes[e.caller].indirects
    requires x in OutList(PushOut(g, e, indirect), x.caller, i)
    ensures var h := Head(OutList(g, e.caller, indirect));
      var s, s' := OutList(g, x.caller, i), OutList(PushOut(g, e, indirect), x.caller, i);
      if x == e then i == indirect && After(s', x) == h && Before(s', x) == null
      else x in s && After(s', x) == After(s, x) && Before(s', x) == if x == h then e else Before(s, x)
  {
    assert NodeOK(e.caller, g.nodes[e.caller], g.edges) && NodeOK(x.caller, g.nodes[x.caller], g.edges);
    PushNeighbours(OutList(g, e.caller, indirect), e, x);
  }

  ghost predicate HeadsOK(g: Graph)
    reads g.nodes.Keys
  {
    forall m | m in g.nodes ::
      m.callees == Head(g.nodes[m].callees) && m.indirectCalls == Head(g.nodes[m].indirects)
  }

  twostate lemma LinkedCalleeSide(st: State, new e: Edge, new indirect: bool)
    requires ListsOK(st.g) && e in st.g.edges && e.caller in st.g.nodes
    requires e !in st.g.nodes[e.caller].callees && e !in st.g.nodes[e.caller].indirects
    requires LinkedOut(st.g, e, indirect) && old(CalleeLinksOK(st.g)) && old(NodesOK(st.g, st.hs))
    ensures CalleeLinksOK(PushOut(st.g, e, indirect)) && HeadsOK(PushOut(st.g, e, indirect))
  {
    var g, hs := st.g, st.hs;
    var g' := PushOut(g, e, indirect);
    assert NodeOK(e.caller, g.nodes[e.caller], g.edges);
    forall x | x in g'.edges ensures CalleeLinks(x, g') {
      assert old(CalleeLinks(x, g));
      if x.caller in g'.nodes {
        if x in OutList(g', x.caller, false) {
          PushOutNeighbours(g, e, indirect, x, false);
        }
        if x in OutList(g', x.caller, true) {
          PushOutNeighbours(g, e, indirect, x, true);
        }
      }
    }
    forall m | m in g'.nodes
      ensures m.callees == Head(g'.nodes[m].callees) && m.indirectCalls == Head(g'.nodes[m].indirects)
    {
      assert old(NodeRep(m, g.nodes[m], hs[m]));
    }
  }

  /** Nothing but the callee side of the heap and of the graph value has changed. */
  twostate lemma CalleeSideRep(st: State, new g': Graph)
    requires g'.edges == st.g.edges && g'.nodes.Keys == st.g.nodes.Keys
    requires forall m | m in st.g.nodes :: g'.nodes[m].callers == st.g.nodes[m].callers && g'.nodes[m].refs == st.g.nodes[m].refs
    requires old(Represents(st.g, st.hs)) && CalleeLinksOK(g') && HeadsOK(g')
    requires RecordsSame(st.g.edges.Keys) && CallerSideSame(st.g.edges.Keys, st.g.nodes.Keys) && RestSame(st.g.nodes.Keys)
    ensures Represents(g', st.hs)
  {
    var g, hs := st.g, st.hs;
    forall x | x in g'.edges ensures FieldsRep(x, g'.edges[x]) && CallerLinks(x, g') {
      assert old(FieldsRep(x, g.edges[x]) && CallerLinks(x, g));
    }
    forall m | m in g'.nodes ensures NodeRep(m, g'.nodes[m], hs[m]) {
      assert old(NodeRep(m, g.nodes[m], hs[m]));
    }
  }

  twostate lemma LinkOutRep(st: State, new e: Edge, new indirect: bool)
    requires ListsOK(st.g) && e in st.g.edges && e.caller in st.g.nodes
    requires e !in st.g.nodes[e.caller].callees && e !in st.g.nodes[e.caller].indirects
    requires old(Represents(st.g, st.hs)) && LinkedOut(st.g, e, indirect)
    requires RecordsSame(st.g.edges.Keys) && CallerSideSame(st.g.edges.Keys, st.g.nodes.Keys) && RestSame(st.g.nodes.Keys)
    ensures Represents(PushOut(st.g, e, indirect), st.hs)
  {
    hide RecordsSame, CallerSideSame, RestSame, LinkedOut, CalleeLinksOK, CallerLinksOK, FieldsOK, NodesOK, HeadsOK;
    var g, hs := st.g, st.hs;
    LinkedCalleeSide(st, e, indirect);
    CalleeSideRep(st, PushOut(g, e, indirect));
  }

  /** What unlinking e from its caller's list does to the heap around it. */
  twostate predicate UnlinkedOut(g: Graph, e: Edge, indirect: bool)
    requires e.caller in g.nodes
    reads g.edges.Keys, g.nodes.Keys
  {
    var s := OutList(g, e.caller, indirect);
    var a, b := After(s, e), Before(s, e);
    && (b != null && b in g.edges ==> b.nextCallee == a) && (a != null && a in g.edges ==> a.prevCallee == b)
    && (forall x | x in g.edges :: (x != b ==> x.nextCallee == old(x.nextCallee)) && (x != a ==> x.prevCallee == old(x.prevCallee)))
    && e.caller.callees == (if !indirect && b == null then a else old(e.caller.callees))
    && e.caller.indirectCalls == (if indirect && b == null then a else old(e.caller.indirectCalls))
    && (forall m | m in g.nodes && m != e.caller :: m.callees == old(m.callees) && m.indirectCalls == old(m.indirectCalls))
  }

  /** The unlinking code of remove_caller and make_direct. */
  method CutOut(e: Edge, indirect: bool)
    requires e.nextCallee != e && e.prevCallee != e && (e.nextCallee != null ==> e.nextCallee != e.prevCallee)
    modifies (if e.prevCallee == null then {} else {e.prevCallee})`nextCallee
    modifies (if e.nextCallee == null then {} else {e.nextCallee})`prevCallee
    modifies (if indirect then {} else {e.caller})`callees, (if indirect then {e.caller} else {})`indirectCalls
    ensures e.prevCallee != null ==> e.prevCallee.nextCallee == e.nextCallee
    ensures e.nextCallee != null ==> e.nextCallee.prevCallee == e.prevCallee
    ensures e.caller.callees == if !indirect && e.prevCallee == null then e.nextCallee else old(e.caller.callees)
    ensures e.caller.indirectCalls
      == if indirect && e.prevCallee == null then e.nextCallee else old(e.caller.indirectCalls)
  {
    if e.prevCallee != null {
      e.prevCallee.nextCallee := e.nextCallee;
    }
    if e.nextCallee != null {
      e.nextCallee.prevCallee := e.prevCallee;
    }
    if e.prevCallee == null {
      if indirect {
        e.caller.indirectCalls := e.nextCallee;
      } else {
        e.caller.callees := e.nextCallee;
      }
    }
  }

  /** The same, seen by the graph around it. */
  method UnlinkOut(e: Edge, indirect: bool, ghost g: Graph)
    requires e in g.edges && e.caller in g.nodes
    requires var s := OutList(g, e.caller, indirect);
      && e.nextCallee == After(s, e) && e.prevCallee == Before(s, e)
      && After(s, e) != e && Before(s, e) != e && (After(s, e) != null ==> After(s, e) != Before(s, e))
    modifies (if e.prevCallee == null then {} else {e.prevCallee})`nextCallee
    modifies (if e.nextCallee == null then {} else {e.nextCallee})`prevCallee
    modifies (if indirect then {} else {e.caller})`callees, (if indirect then {e.caller} else {})`indirectCalls
    ensures UnlinkedOut(g, e, indirect)
    ensures RecordsSame(g.edges.Keys) && CallerSideSame(g.edges.Keys, g.nodes.Keys) && RestSame(g.nodes.Keys)
  {
    CutOut(e, indirect);
  }

  lemma PullOutNeighbours(g: Graph, e: Edge, indirect: bool, x: Edge, i: bool)
    requires ListsOK(g) && e.caller in g.nodes && e in OutList(g, e.caller, indirect)
    requires x in g.edges && x.caller in g.nodes && x in OutList(PullOut(g, e, indirect), x.caller, i)
    ensures x != e && x in OutList(g, x.caller, i)
    ensures var a, b := After(OutList(g, e.caller, indirect), e), Before(OutList(g, e.caller, indirect), e);
      var s, s' := OutList(g, x.caller, i), OutList(PullOut(g, e, indirect), x.caller, i);
      After(s', x) == (if x == b then a else After(s, x)) && Before(s', x) == (if x == a then b else Before(s, x))
  {
    assert NodeOK(e.caller, g.nodes[e.caller], g.edges) && NodeOK(x.caller, g.nodes[x.caller], g.edges);
    var s := OutList(g, e.caller, indirect);
    UnlinkNoDup(s, e);
    NeighboursIn(s, e);
    if x.caller == e.caller && i == indirect {
      UnlinkNeighbours(s, e, x);
      NeighboursAgree(s, x, e);
      NeighboursAgree(s, e, x);
    }
  }

  twostate lemma UnlinkedCalleeSide(st: State, new e: Edge, new indirect: bool)
    requires ListsOK(st.g) && e.caller in st.g.nodes && e in OutList(st.g, e.caller, indirect)
    requires UnlinkedOut(st.g, e, indirect) && old(CalleeLinksOK(st.g)) && old(NodesOK(st.g, st.hs))
    ensures CalleeLinksOK(PullOut(st.g, e, indirect)) && HeadsOK(PullOut(st.g, e, indirect))
  {
    hide Head, NoDup;
    var g, hs := st.g, st.hs;
    var g' := PullOut(g, e, indirect);
    var s := OutList(g, e.caller, indirect);
    assert NodeOK(e.caller, g.nodes[e.caller], g.edges);
    NeighboursIn(s, e);
    UnlinkHead(s, e);
    forall x | x in g'.edges ensures CalleeLinks(x, g') {
      assert old(CalleeLinks(x, g));
      if x.caller in g'.nodes {
        if x in OutList(g', x.caller, false) {
          PullOutNeighbours(g, e, indirect, x, false);
        }
        if x in OutList(g', x.caller, true) {
          PullOutNeighbours(g, e, indirect, x, true);
        }
      }
    }
    forall m | m in g'.nodes
      ensures m.callees == Head(g'.nodes[m].callees) && m.indirectCalls == Head(g'.nodes[m].indirects)
    {
      assert old(NodeRep(m, g.nodes[m], hs[m]));
    }
  }

  twostate lemma UnlinkOutRep(st: State, new e: Edge, new indirect: bool)
    requires ListsOK(st.g) && e.caller in st.g.nodes && e in OutList(st.g, e.caller, indirect)
    requires old(Represents(st.g, st.hs)) && UnlinkedOut(st.g, e, indirect)
    requires RecordsSame(st.g.edges.Keys) && CallerSideSame(st.g.edges.Keys, st.g.nodes.Keys) && RestSame(st.g.nodes.Keys)
    ensures Represents(PullOut(st.g, e, indirect), st.hs)
  {
    hide RecordsSame, CallerSideSame, RestSame, UnlinkedOut, CalleeLinksOK, CallerLinksOK, FieldsOK, NodesOK, HeadsOK;
    var g, hs := st.g, st.hs;
    UnlinkedCalleeSide(st, e, indirect);
    CalleeSideRep(st, PullOut(g, e, indirect));
  }

  // ---------- fields, references, allocation ----------

  /** New contents for the fields of one edge. */
  twostate lemma RecordRep(st: State, new e: Edge, new r: EdgeRec)
    requires e in st.g.edges && r.callee == st.g.edges[e].callee
    requires old(Represents(st.g, st.hs)) && FieldsRep(e, r)
    requires RecordsSame(st.g.edges.Keys - {e})
    requires CalleeSideSame(st.g.edges.Keys, st.g.nodes.Keys) && CallerSideSame(st.g.edges.Keys, st.g.nodes.Keys)
    requires RestSame(st.g.nodes.Keys)
    ensures Represents(SetRec(st.g, e, r), st.hs)
  {
    var g, hs := st.g, st.hs;
    var g' := SetRec(g, e, r);
    forall x | x in g'.edges ensures FieldsRep(x, g'.edges[x]) && CallerLinks(x, g') && CalleeLinks(x, g') {
      assert old(FieldsRep(x, g.edges[x]) && CallerLinks(x, g) && CalleeLinks(x, g));
      assert x != e ==> x in g.edges.Keys - {e};
    }
    forall m | m in g'.nodes ensures NodeRep(m, g'.nodes[m], hs[m]) {
      assert old(NodeRep(m, g.nodes[m], hs[m]));
    }
  }

  twostate lemma RefsRep(st: State, new n: Node, new refs: seq<Ref>)
    requires n in st.g.nodes && old(Represents(st.g, st.hs)) && n.references == refs
    requires RestSame(st.g.nodes.Keys - {n}) && n.callSiteHash == old(n.callSiteHash)
    requires RecordsSame(st.g.edges.Keys)
    requires CalleeSideSame(st.g.edges.Keys, st.g.nodes.Keys) && CallerSideSame(st.g.edges.Keys, st.g.nodes.Keys)
    ensures Represents(SetRefs(st.g, n, refs), st.hs)
  {
    var g, hs := st.g, st.hs;
    var g' := SetRefs(g, n, refs);
    forall x | x in g'.edges ensures FieldsRep(x, g'.edges[x]) && CallerLinks(x, g') && CalleeLinks(x, g') {
      assert old(FieldsRep(x, g.edges[x]) && CallerLinks(x, g) && CalleeLinks(x, g));
    }
    forall m | m in g'.nodes ensures NodeRep(m, g'.nodes[m], hs[m]) {
      assert old(NodeRep(m, g.nodes[m], hs[m]));
      assert m != n ==> m in g.nodes.Keys - {n};
    }
  }

  /** A fresh edge that is on no list yet joins the graph. */
  lemma NewEdgeRep(g: Graph, hs: Tables, e: Edge, r: EdgeRec)
    requires ListsOK(g) && Represents(g, hs) && e !in g.edges && FieldsRep(e, r)
    ensures Represents(SetRec(g, e, r), hs)
  {
    var g' := SetRec(g, e, r);
    forall x | x in g'.edges ensures CallerLinks(x, g') && CalleeLinks(x, g') {
      if x == e {
        assert e.caller in g.nodes ==> NodeOK(e.caller, g.nodes[e.caller], g.edges);
        assert r.callee in g.nodes ==> NodeOK(r.callee, g.nodes[r.callee], g.edges);
      } else {
        assert CallerLinks(x, g) && CalleeLinks(x, g);
      }
    }
  }

  lemma ForgetRep(g: Graph, hs: Tables, e: Edge)
    requires Represents(g, hs)
    ensures Represents(Forget(g, e), hs)
  {
    var g' := Forget(g, e);
    forall x | x in g'.edges ensures CallerLinks(x, g') && CalleeLinks(x, g') {
      assert CallerLinks(x, g) && CalleeLinks(x, g);
    }
  }

  /** A new table for node n. */
  twostate lemma TableRep(st: State, new n: Node)
    requires n in st.g.nodes && old(Represents(st.g, st.hs))
    requires forall m | m in st.g.nodes ::
      m.references == old(m.references) && (m != n ==> m.callSiteHash == old(m.callSiteHash))
    requires RecordsSame(st.g.edges.Keys)
    requires CalleeSideSame(st.g.edges.Keys, st.g.nodes.Keys) && CallerSideSame(st.g.edges.Keys, st.g.nodes.Keys)
    ensures Represents(st.g, st.hs[n := n.callSiteHash])
  {
    var g, hs := st.g, st.hs;
    forall x | x in g.edges ensures FieldsRep(x, g.edges[x]) && CallerLinks(x, g) && CalleeLinks(x, g) {
      assert old(FieldsRep(x, g.edges[x]) && CallerLinks(x, g) && CalleeLinks(x, g));
    }
    forall m | m in g.nodes ensures NodeRep(m, g.nodes[m], hs[n := n.callSiteHash][m]) {
      assert old(NodeRep(m, g.nodes[m], hs[m]));
    }
  }
}
