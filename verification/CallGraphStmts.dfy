/** cgraph_edge::set_call_stmt on the heap. */
module CallGraphStmts {
  import opened Common
  import opened CallGraphTypes
  import opened CallSites
  import opened EdgeLists
  import opened CallGraphSteps
  import opened CallGraphInvariants
  import opened CallGraphRename
  import opened CallGraphDirect
  import opened CallGraphMakeDirect
  import opened CallGraphHeap
  import opened CallSiteHash
  import opened CallGraphLinks
  import opened CallGraphWalks
  import opened CallGraphResolve

  // ---------- one edge ----------

  method RenameField(e: Edge, t': Stmt, ghost g: Graph, ghost hs: Tables)
    requires Represents(g, hs) && e in g.edges
    modifies e`callStmt
    ensures Represents(SetRec(g, e, Renamed(g.edges[e], t')), hs)
  {
    assert FieldsRep(e, g.edges[e]);
    e.callStmt := t';
    RecordRep(State(g, hs), e, Renamed(g.edges[e], t'));
  }

  /** The edge is alone at its statement or the first target there. */
  ghost predicate Enters(e: Edge)
    reads e, if e.prevCallee == null then {} else {e.prevCallee}
  {
    var p := e.prevCallee;
    !e.speculative || (e.callee != null && (p == null || !p.speculative || p.callStmt != e.callStmt))
  }

  ghost function EnterSlot(hs: Tables, n: Node, t: Stmt, e: Edge): Tables {
    if n in hs && hs[n].Some? then hs[n := Some(hs[n].value[t := e])] else hs
  }

  /** Puts an edge that has a new statement in the table. */
  method EnterStmt(e: Edge, ghost g: Graph, ghost hs: Tables)
    requires Represents(g, hs) && e.caller in g.nodes
    requires e.callee == null <==> e.indirectUnknownCallee
    requires Enters(e) && hs[e.caller].Some? ==> e.callStmt !in hs[e.caller].value
    modifies e.caller`callSiteHash
    ensures Represents(g, if old(Enters(e)) then EnterSlot(hs, e.caller, e.callStmt, e) else hs)
  {
    hide RecordsSame, CalleeSideSame, CallerSideSame, Head;
    var n := e.caller;
    assert NodeRep(n, g.nodes[n], hs[n]);
    if n.callSiteHash.Some?
       && (!e.speculative
           || (e.callee != null
               && (e.prevCallee == null || !e.prevCallee.speculative || e.prevCallee.callStmt != e.callStmt))
           || (e.speculative && e.callee == null))
    {
      AddEdgeToCallSiteHash(e);
      TableRep(State(g, hs), n);
      assert hs[n := hs[n]] == hs;
    }
  }

  /** The edge leaves the table if it is in it; only direct speculative edges ever are. */
  method LeaveStmt(e: Edge, ghost g: Graph, ghost hs: Tables)
    requires Represents(g, hs) && e.caller in g.nodes
    requires e.speculative && e.indirectUnknownCallee ==> !HasSlot(hs, e.caller, e.callStmt, e)
    modifies e.caller`callSiteHash
    ensures Represents(g, DropSlot(hs, e.caller, e.callStmt, e))
  {
    var n := e.caller;
    assert NodeRep(n, g.nodes[n], hs[n]);
    if n.callSiteHash.Some? && (!e.speculative || !e.indirectUnknownCallee)
       && e.callStmt in n.callSiteHash.value && n.callSiteHash.value[e.callStmt] == e
    {
      n.callSiteHash := Some(n.callSiteHash.value - {e.callStmt});
      TableRep(State(g, hs), n);
    }
  }

  /** The tables after edge e has moved from statement t to t'. */
  ghost function MoveStmt(hs: Tables, n: Node, t: Stmt, t': Stmt, e: Edge, enters: bool): Tables {
    if enters then EnterSlot(DropSlot(hs, n, t, e), n, t', e) else DropSlot(hs, n, t, e)
  }

  /** Statement t' of the table of n is free, once edge e has left its own. */
  ghost predicate SlotFree(hs: Tables, n: Node, t: Stmt, t': Stmt, e: Edge) {
    n in hs && hs[n].Some? ==> t' !in hs[n].value || (t == t' && hs[n].value[t] == e)
  }

  /** The end of set_call_stmt: one edge gets a new statement. */
  method SetOwnStmt(e: Edge, t': Stmt, ghost enters: bool, ghost g: Graph, ghost hs: Tables) returns (ghost hs': Tables)
    requires Represents(g, hs) && e in g.edges && e.caller in g.nodes
    requires e.callee == null <==> e.indirectUnknownCallee
    requires e.speculative && e.indirectUnknownCallee ==> !HasSlot(hs, e.caller, g.edges[e].stmt, e)
    requires e.prevCallee != e
    requires var p := e.prevCallee;
      enters == (!e.speculative || (e.callee != null && (p == null || !p.speculative || p.callStmt != t')))
    requires enters ==> SlotFree(hs, e.caller, g.edges[e].stmt, t', e)
    modifies e`callStmt, e.caller`callSiteHash
    ensures hs' == MoveStmt(hs, e.caller, g.edges[e].stmt, t', e, enters)
    ensures Represents(SetRec(g, e, Renamed(g.edges[e], t')), hs')
  {
    hide NodeRep, CalleeLinksOK;
    ghost var t := g.edges[e].stmt;
    ghost var hs1 := DropSlot(hs, e.caller, t, e);
    assert FieldsRep(e, g.edges[e]) && NodeRep(e.caller, g.nodes[e.caller], hs[e.caller]);
    assert enters && hs1[e.caller].Some? ==> t' !in hs1[e.caller].value;
    LeaveStmt(e, g, hs);
    RenameField(e, t', g, hs1);
    assert FieldsRep(e, SetRec(g, e, Renamed(g.edges[e], t')).edges[e]) && enters == Enters(e);
    EnterStmt(e, SetRec(g, e, Renamed(g.edges[e], t')), hs1);
    hs' := MoveStmt(hs, e.caller, t, t', e, enters);
  }

  // ---------- the references ----------

  method RenameRefsLoop(n: Node, t: Stmt, t': Stmt)
    modifies n`references
    ensures n.references == RenameRefs(old(n.references), t, t')
  {
    ghost var refs := n.references;
    var i := 0;
    while i < |n.references|
      invariant i <= |refs| == |n.references|
      invariant forall j | 0 <= j < |refs| :: n.references[j] == if j < i then RenameRef(refs[j], t, t') else refs[j]
    {
      var r := n.references[i];
      if r.speculative && r.stmt == t {
        n.references := n.references[i := r.(stmt := t')];
      }
      i := i + 1;
    }
  }

  method RenameReferences(n: Node, t: Stmt, t': Stmt, ghost g: Graph, ghost hs: Tables)
    requires Represents(g, hs) && n in g.nodes
    modifies n`references
    ensures Represents(SetRefs(g, n, RenameRefs(g.nodes[n].refs, t, t')), hs)
  {
    assert NodeRep(n, g.nodes[n], hs[n]);
    RenameRefsLoop(n, t, t');
    RefsRep(State(g, hs), n, RenameRefs(g.nodes[n].refs, t, t'));
  }

  // ---------- the targets ----------

  ghost function RenameThese(edges: map<Edge, EdgeRec>, s: seq<Edge>, t': Stmt): map<Edge, EdgeRec> {
    map e | e in edges :: if e in s then Renamed(edges[e], t') else edges[e]
  }

  ghost function WithRenamed(g: Graph, s: seq<Edge>, t': Stmt): Graph {
    g.(edges := RenameThese(g.edges, s, t'))
  }

  lemma RenameNext(g: Graph, ds: seq<Edge>, k: nat, t': Stmt)
    requires k < |ds| && NoDup(ds) && ds[k] in g.edges
    ensures ds[k] in WithRenamed(g, ds[..k], t').edges
    ensures WithRenamed(g, ds[..k], t').edges[ds[k]] == g.edges[ds[k]]
    ensures SetRec(WithRenamed(g, ds[..k], t'), ds[k], Renamed(g.edges[ds[k]], t')) == WithRenamed(g, ds[..k + 1], t')
  {
    assert ds[..k + 1] == ds[..k] + [ds[k]];
    assert SetRec(WithRenamed(g, ds[..k], t'), ds[k], Renamed(g.edges[ds[k]], t')).edges
        == WithRenamed(g, ds[..k + 1], t').edges;
  }

  /** Target i of a call whose first k targets already have the new statement. */
  ghost predicate ChainLink(ds: seq<Edge>, es: set<Edge>, t: Stmt, t': Stmt, k: nat, i: nat)
    requires i < |ds|
    reads es, ds[i]
  {
    var d, p, q := ds[i], ds[i].prevCallee, ds[i].nextCallee;
    && d in es && d.speculative && !d.indirectUnknownCallee && d.callee != null
    && d.callStmt == (if i < k then t' else t)
    && (if i + 1 < |ds| then q == ds[i + 1] else
          q == null || (q in es && q !in ds && (!q.speculative || q.callStmt != t)))
    && (if i > 0 then p == ds[i - 1] else
          p == null || (p in es && p !in ds && (!p.speculative || p.callStmt != t')))
  }

  ghost predicate Chain(ds: seq<Edge>, es: set<Edge>, t: Stmt, t': Stmt, k: nat)
    reads es, ds
  {
    forall i | 0 <= i < |ds| :: ChainLink(ds, es, t, t', k, i)
  }

  /** Which table results once the first target has moved; the others change nothing. */
  ghost function TablesAt(hs: Tables, n: Node, t: Stmt, t': Stmt, d: Edge, k: nat): Tables {
    if k == 0 then hs else MoveStmt(hs, n, t, t', d, true)
  }

  lemma TablesNext(hs: Tables, n: Node, t: Stmt, t': Stmt, ds: seq<Edge>, k: nat)
    requires k < |ds| && NoDup(ds) && n in hs && (hs[n].Some? ==> HasSlot(hs, n, t, ds[0]))
    ensures MoveStmt(TablesAt(hs, n, t, t', ds[0], k), n, t, t', ds[k], k == 0) == TablesAt(hs, n, t, t', ds[0], k + 1)
  {
    if k > 0 {
      assert ds[0] != ds[k];
    }
  }

  /** The target after target k, read before its statement changes. */
  method NextInChain(d: Edge, ghost k: nat, ghost ds: seq<Edge>, ghost es: set<Edge>, ghost t: Stmt, ghost t': Stmt)
    returns (next: Edge?)
    requires k < |ds| && NoDup(ds) && d == ds[k] && Chain(ds, es, t, t', k)
    ensures next == if k + 1 < |ds| then ds[k + 1] else null
  {
    assert ChainLink(ds, es, t, t', k, k);
    assert k + 1 < |ds| ==> ChainLink(ds, es, t, t', k, k + 1);
    if d.nextCallee != null && d.nextCallee.speculative && d.nextCallee.callStmt == d.callStmt {
      next := d.nextCallee;
    } else {
      next := null;
    }
  }

  twostate predicate OnlyStmt(es: set<Edge>, d: Edge)
    reads es
  {
    forall e | e in es ::
      && e.nextCallee == old(e.nextCallee) && e.prevCallee == old(e.prevCallee) && e.speculative == old(e.speculative)
      && e.indirectUnknownCallee == old(e.indirectUnknownCallee) && e.callee == old(e.callee)
      && (e != d ==> e.callStmt == old(e.callStmt))
  }

  /** The targets of a call and all live edges. */
  datatype Targets = Targets(ds: seq<Edge>, es: set<Edge>)

  twostate lemma ChainNext(c: Targets, new t: Stmt, new t': Stmt, new k: nat)
    requires k < |c.ds| && NoDup(c.ds) && (forall e | e in c.ds :: e in c.es)
    requires old(Chain(c.ds, c.es, t, t', k)) && OnlyStmt(c.es, c.ds[k]) && c.ds[k].callStmt == t'
    ensures Chain(c.ds, c.es, t, t', k + 1)
  {
    var ds, es, k' := c.ds, c.es, k + 1;
    forall i | 0 <= i < |ds| ensures ChainLink(ds, es, t, t', k', i) {
      assert old(ChainLink(ds, es, t, t', k, i));
      assert i != k ==> ds[i] != ds[k];
    }
  }

  lemma ChainEnters(ds: seq<Edge>, es: set<Edge>, t: Stmt, t': Stmt, k: nat)
    requires k < |ds| && NoDup(ds) && Chain(ds, es, t, t', k)
    ensures var d, p := ds[k], ds[k].prevCallee;
      && d.callee != null && !d.indirectUnknownCallee && p != d
      && (k == 0) == (!d.speculative || (d.callee != null && (p == null || !p.speculative || p.callStmt != t')))
  {
    assert ChainLink(ds, es, t, t', k, k);
    assert k > 0 ==> ChainLink(ds, es, t, t', k, k - 1);
  }

  /** One target of the call gets the new statement. */
  method RenameTarget(d: Edge, t': Stmt, ghost k: nat, ghost t: Stmt, ghost ds: seq<Edge>, ghost n: Node,
                      ghost g: Graph, ghost hs: Tables)
    requires k < |ds| && NoDup(ds) && d == ds[k] && d.caller == n && n in g.nodes && n in hs
    requires forall e | e in ds :: e in g.edges
    requires g.edges[d].stmt == t && Chain(ds, g.edges.Keys, t, t', k)
    requires Represents(WithRenamed(g, ds[..k], t'), TablesAt(hs, n, t, t', ds[0], k))
    requires hs[n].Some? ==> HasSlot(hs, n, t, ds[0]) && SlotFree(hs, n, t, t', ds[0])
    modifies d`callStmt, n`callSiteHash
    ensures Chain(ds, g.edges.Keys, t, t', k + 1)
    ensures Represents(WithRenamed(g, ds[..k + 1], t'), TablesAt(hs, n, t, t', ds[0], k + 1))
  {
    hide ListsOK, CalleeLinksOK, NodesOK;
    ChainEnters(ds, g.edges.Keys, t, t', k);
    RenameNext(g, ds, k, t');
    TablesNext(hs, n, t, t', ds, k);
    ghost var hs' := SetOwnStmt(d, t', k == 0, WithRenamed(g, ds[..k], t'), TablesAt(hs, n, t, t', ds[0], k));
    assert FieldsRep(d, WithRenamed(g, ds[..k + 1], t').edges[d]);
    ChainNext(Targets(ds, g.edges.Keys), t, t', k);
  }

  /** The loop of set_call_stmt over the targets of a speculative call. */
  method RenameTargets(first: Edge, t': Stmt, ghost t: Stmt, ghost ds: seq<Edge>, ghost n: Node,
                       ghost g: Graph, ghost hs: Tables)
    returns (count: nat)
    requires NoDup(ds) && ds != [] && first == ds[0] && n in g.nodes && n in hs && Represents(g, hs)
    requires forall e | e in ds :: e in g.edges && e.caller == n && g.edges[e].stmt == t
    requires Chain(ds, g.edges.Keys, t, t', 0)
    requires hs[n].Some? ==> HasSlot(hs, n, t, ds[0]) && SlotFree(hs, n, t, t', ds[0])
    modifies g.edges.Keys`callStmt, n`callSiteHash
    ensures Represents(WithRenamed(g, ds, t'), MoveStmt(hs, n, t, t', ds[0], true))
    ensures count == |ds|
  {
    hide CalleeLinksOK, NodesOK, CallerLinksOK, ChainLink, FieldsOK, Represents, Chain, HasSlot;
    var direct: Edge? := first;
    count := 0;
    assert WithRenamed(g, ds[..0], t').edges == g.edges;
    while direct != null
      invariant count <= |ds| && direct == if count < |ds| then ds[count] else null
      invariant Chain(ds, g.edges.Keys, t, t', count)
      invariant Represents(WithRenamed(g, ds[..count], t'), TablesAt(hs, n, t, t', ds[0], count))
      decreases |ds| - count
    {
      var next := NextInChain(direct, count, ds, g.edges.Keys, t, t');
      RenameTarget(direct, t', count, t, ds, n, g, hs);
      direct := next;
      count := count + 1;
    }
    assert ds[..|ds|] == ds;
  }

  // ---------- the tables after a renaming ----------

  /** Statement t' of node n is free to take over from statement t. */
  ghost predicate FreeStmt(g: Graph, n: Node, t: Stmt, t': Stmt)
    requires ListsOK(g) && n in g.nodes
  {
    t == t' || EmptySite(SiteIn(g, n, t'))
  }

  lemma RenamedSlot(hs: Tables, g: Graph, n: Node, t: Stmt, t': Stmt, r: Edge, s: Stmt)
    requires WellFormed(g) && n in g.nodes && HashesOK(hs, g) && t != t' && EmptySite(SiteIn(g, n, t'))
    requires Representative(SiteIn(g, n, t)) == r && ListsOK(Rename(g, n, t, t')) && hs[n].Some?
    ensures var h := MoveStmt(hs, n, t, t', r, true)[n]; h.Some? && SlotOK(h.value, SiteIn(Rename(g, n, t, t'), n, s), s)
  {
    hide ListsOK, SiteIn;
    RenameOtherSites(g, n, t, t');
    RenamedSite(g, n, t, t');
    assert SiteOK(SiteIn(g, n, t));
    assert HashOK(hs[n], g, n) && SlotOK(hs[n].value, SiteIn(g, n, t), t) && SlotOK(hs[n].value, SiteIn(g, n, s), s);
    if s == t' {
      var v, v' := SiteIn(g, n, t), SiteIn(Rename(g, n, t, t'), n, t');
      assert v.targets != [] ==> v'.targets[0].edge == v.targets[0].edge;
      assert v.indirects != [] ==> v'.indirects[0].edge == v.indirects[0].edge;
    }
  }

  lemma RenamedTables(hs: Tables, g: Graph, n: Node, t: Stmt, t': Stmt, r: Edge)
    requires WellFormed(g) && n in g.nodes && HashesOK(hs, g) && t != t' && EmptySite(SiteIn(g, n, t'))
    requires Representative(SiteIn(g, n, t)) == r && ListsOK(Rename(g, n, t, t'))
    ensures HashesOK(MoveStmt(hs, n, t, t', r, true), Rename(g, n, t, t'))
  {
    hide ListsOK, SlotOK, SiteIn;
    var hs', g' := MoveStmt(hs, n, t, t', r, true), Rename(g, n, t, t');
    RenameOtherSites(g, n, t, t');
    forall m | m in g'.nodes ensures HashOK(hs'[m], g', m) {
      if hs'[m].Some? {
        forall s: Stmt ensures SlotOK(hs'[m].value, SiteIn(g', m, s), s) {
          if m == n {
            RenamedSlot(hs, g, n, t, t', r, s);
          } else {
            assert HashOK(hs[m], g, m) && SlotOK(hs[m].value, SiteIn(g, m, s), s);
          }
        }
      }
    }
  }

  lemma SlotsBefore(hs: Tables, g: Graph, n: Node, t: Stmt, t': Stmt, r: Edge)
    requires WellFormed(g) && n in g.nodes && HashesOK(hs, g) && FreeStmt(g, n, t, t')
    requires Representative(SiteIn(g, n, t)) == r
    ensures n in hs && (hs[n].Some? ==> HasSlot(hs, n, t, r) && SlotFree(hs, n, t, t', r))
  {
    if hs[n].Some? {
      assert SiteOK(SiteIn(g, n, t));
      assert HashOK(hs[n], g, n) && SlotOK(hs[n].value, SiteIn(g, n, t), t) && SlotOK(hs[n].value, SiteIn(g, n, t'), t');
    }
  }

  /** The representative of the call moves to the new statement, and all else stays. */
  lemma RenameTables(hs: Tables, g: Graph, n: Node, t: Stmt, t': Stmt, r: Edge)
    requires WellFormed(g) && n in g.nodes && HashesOK(hs, g) && FreeStmt(g, n, t, t')
    requires Representative(SiteIn(g, n, t)) == r && ListsOK(Rename(g, n, t, t'))
    ensures n in hs && (hs[n].Some? ==> HasSlot(hs, n, t, r) && SlotFree(hs, n, t, t', r))
    ensures HashesOK(MoveStmt(hs, n, t, t', r, true), Rename(g, n, t, t'))
  {
    hide NodeOK;
    SlotsBefore(hs, g, n, t, t', r);
    if t == t' {
      RenameNothing(g, n, t, t');
      assert hs[n].Some? ==> MoveStmt(hs, n, t, t', r, true)[n].value == hs[n].value;
      assert MoveStmt(hs, n, t, t', r, true) == hs;
    } else {
      RenamedTables(hs, g, n, t, t', r);
    }
  }

  // ---------- a plain edge ----------

  /** Renaming a call that is one edge. */
  lemma RenamePlain(g: Graph, e: Edge, t': Stmt)
    requires WellFormed(g) && e in g.edges && !g.edges[e].speculative
    ensures e.caller in g.nodes && Representative(SiteOfEdge(g, e)) == e
    ensures Rename(g, e.caller, g.edges[e].stmt, t') == SetRec(g, e, Renamed(g.edges[e], t'))
  {
    hide CalleeLinksOK, RefsLive, SitesOK, Covers, At;
    var n, t := e.caller, g.edges[e].stmt;
    assert EdgeOK(g, e);
    if g.edges[e].indirect {
      SiteOfIndirect(g, e);
    } else {
      SiteOfDirect(g, e);
    }
    AtEntries(g.nodes[n].callees, g.edges, t);
    AtEntries(g.nodes[n].indirects, g.edges, t);
    forall d | d in g.edges && d.caller == n && g.edges[d].stmt == t ensures d == e {
      assert EdgeOK(g, d);
      assert Entry(d, g.edges[d]) in SiteIn(g, n, t).targets + SiteIn(g, n, t).indirects;
    }
    assert RenameEdges(g.edges, n, t, t') == g.edges[e := Renamed(g.edges[e], t')];
    NoRefsRenamed(g.nodes[n].refs, t, t');
    assert g.nodes[n].(refs := g.nodes[n].refs) == g.nodes[n];
    assert g.nodes[n := g.nodes[n]] == g.nodes;
  }

  lemma NoRefsRenamed(refs: seq<Ref>, t: Stmt, t': Stmt)
    requires RefsAt(refs, t) == []
    ensures RenameRefs(refs, t, t') == refs
  {
    RefsAtEntries(refs, t);
    forall i | 0 <= i < |refs| ensures RenameRef(refs[i], t, t') == refs[i] {
      assert refs[i] in refs;
    }
  }

  lemma PlainFields(g: Graph, hs: Tables, e: Edge)
    requires WellFormed(g) && Represents(g, hs) && e in g.edges
    ensures (e.callee == null <==> e.indirectUnknownCallee) && e.prevCallee != e
    ensures e.speculative == g.edges[e].speculative && e.caller in g.nodes
  {
    assert FieldsRep(e, g.edges[e]) && EdgeOK(g, e);
    OutNeighbours(g, hs, e, g.edges[e].indirect);
  }

  /** set_call_stmt of an edge that is not speculative. */
  method SetPlainStmt(e: Edge, t': Stmt, ghost g: Graph, ghost hs: Tables) returns (ghost hs': Tables)
    requires WellFormed(g) && Represents(g, hs) && HashesOK(hs, g)
    requires e in g.edges && !g.edges[e].speculative && e.caller in g.nodes
    requires FreeStmt(g, e.caller, g.edges[e].stmt, t')
    modifies e`callStmt, e.caller`callSiteHash
    ensures var g' := Rename(g, e.caller, g.edges[e].stmt, t');
      ListsOK(g') && Represents(g', hs') && HashesOK(hs', g')
  {
    PlainFields(g, hs, e);
    RenamePlain(g, e, t');
    RenameLists(g, e.caller, g.edges[e].stmt, t');
    RenameTables(hs, g, e.caller, g.edges[e].stmt, t', e);
    hs' := SetOwnStmt(e, t', true, g, hs);
  }

  // ---------- a speculative call ----------

  /** No edge of node n next to a target has the new statement. */
  lemma StartLink(g: Graph, hs: Tables, n: Node, t: Stmt, t': Stmt, i: nat)
    requires WellFormed(g) && Represents(g, hs) && n in g.nodes && SpeculativeSite(SiteIn(g, n, t))
    requires FreeStmt(g, n, t, t') && i < |SiteIn(g, n, t).targets|
    ensures ChainLink(EdgesOf(SiteIn(g, n, t).targets), g.edges.Keys, t, t', 0, i)
  {
    var r, a := g.nodes[n], SiteIn(g, n, t).targets;
    var ds := EdgesOf(a);
    assert NodeOK(n, r, g.edges) && Adjacent(g, n);
    TargetLinks(g, hs, n, t, i);
    TargetNeighbours(r.callees, g.edges, t, i);
    AtEntries(r.callees, g.edges, t);
    AtEntries(r.callees, g.edges, t');
    TargetEntry(g, n, t, a[i]);
    var d := ds[i];
    assert EdgeOK(g, d) && FieldsRep(d, g.edges[d]) && CalleeLinks(d, g);
    forall y | y in ds ensures y in g.edges && g.edges[y].stmt == t {
      var j :| 0 <= j < |ds| && ds[j] == y;
      assert a[j] in a;
    }
    var p, q := Before(r.callees, d), After(r.callees, d);
    if p != null && p in r.callees {
      assert FieldsRep(p, g.edges[p]);
    }
    if q != null && q in r.callees {
      assert FieldsRep(q, g.edges[q]);
    }
  }

  /** The edges of a speculative call are its targets and its indirect edge. */
  lemma EdgesOfCall(g: Graph, n: Node, t: Stmt, x: Edge, d: Edge)
    requires WellFormed(g) && n in g.nodes && x in g.edges && SiteIn(g, n, t).indirects == [Entry(x, g.edges[x])]
    requires x.caller == n && g.edges[x].stmt == t
    requires d in g.edges
    ensures d.caller == n && g.edges[d].stmt == t <==> d in EdgesOf(SiteIn(g, n, t).targets) || d == x
  {
    var v := SiteIn(g, n, t);
    var ds := EdgesOf(v.targets);
    AtEntries(g.nodes[n].callees, g.edges, t);
    AtEntries(g.nodes[n].indirects, g.edges, t);
    assert EdgeOK(g, d) && NodeOK(n, g.nodes[n], g.edges);
    if d.caller == n && g.edges[d].stmt == t {
      if g.edges[d].indirect {
        assert Entry(d, g.edges[d]) in v.indirects;
      } else {
        assert Entry(d, g.edges[d]) in v.targets;
        var i :| 0 <= i < |v.targets| && v.targets[i] == Entry(d, g.edges[d]);
        assert ds[i] == d;
      }
    } else {
      forall i | 0 <= i < |ds| ensures ds[i] != d {
        assert v.targets[i] in v.targets;
      }
    }
  }

  lemma RenameSteps(g: Graph, n: Node, t: Stmt, t': Stmt, x: Edge)
    requires WellFormed(g) && n in g.nodes && x in g.edges && SiteIn(g, n, t).indirects == [Entry(x, g.edges[x])]
    requires x.caller == n && g.edges[x].stmt == t && x !in EdgesOf(SiteIn(g, n, t).targets)
    ensures var g1 := WithRenamed(g, EdgesOf(SiteIn(g, n, t).targets), t');
      var g2 := SetRefs(g1, n, RenameRefs(g1.nodes[n].refs, t, t'));
      && x in g2.edges && g2.edges[x] == g.edges[x]
      && SetRec(g2, x, Renamed(g2.edges[x], t')) == Rename(g, n, t, t')
  {
    var ds := EdgesOf(SiteIn(g, n, t).targets);
    forall d | d in g.edges ensures d.caller == n && g.edges[d].stmt == t <==> d in ds || d == x {
      EdgesOfCall(g, n, t, x, d);
    }
    RenameStepsMap(g.edges, n, t, t', x, ds);
  }

  lemma RenameStepsMap(edges: map<Edge, EdgeRec>, n: Node, t: Stmt, t': Stmt, x: Edge, ds: seq<Edge>)
    requires x in edges && x !in ds
    requires forall d | d in edges :: d.caller == n && edges[d].stmt == t <==> d in ds || d == x
    ensures RenameThese(edges, ds, t')[x] == edges[x]
    ensures RenameThese(edges, ds, t')[x := Renamed(edges[x], t')] == RenameEdges(edges, n, t, t')
  {
  }

  /** All that set_call_stmt relies on when it goes over the components of a speculative call. */
  ghost predicate CallReady(g: Graph, hs: Tables, n: Node, t: Stmt, t': Stmt, x: Edge, ds: seq<Edge>)
    reads g.edges.Keys
  {
    && n in g.nodes && n in hs && NoDup(ds) && ds != []
    && (forall e | e in ds :: e in g.edges && e.caller == n && g.edges[e].stmt == t)
    && (forall e | e in ds :: e in g.edges.Keys)
    && Chain(ds, g.edges.Keys, t, t', 0)
    && (hs[n].Some? ==> HasSlot(hs, n, t, ds[0]) && SlotFree(hs, n, t, t', ds[0]))
    && x in g.edges && x !in ds && x.caller == n && g.edges[x].stmt == t
    && g.edges[x].indirect && g.edges[x].speculative && g.edges[x].info == Some(|ds|)
    && x.callee == null && x.prevCallee != x
  }

  lemma CallIsReady(g: Graph, hs: Tables, e: Edge, t': Stmt)
    requires WellFormed(g) && Represents(g, hs) && HashesOK(hs, g)
    requires e in g.edges && g.edges[e].speculative && e.caller in g.nodes
    requires FreeStmt(g, e.caller, g.edges[e].stmt, t')
    ensures SiteOfEdge(g, e).indirects != []
    ensures CallReady(g, hs, e.caller, g.edges[e].stmt, t', IndirectOf(g, e), EdgesOf(SiteOfEdge(g, e).targets))
    ensures SiteOfEdge(g, e).indirects == [Entry(IndirectOf(g, e), g.edges[IndirectOf(g, e)])]
  {
    var n, t := e.caller, g.edges[e].stmt;
    SpeculativeEdge(g, e);
    var v, x := SiteOfEdge(g, e), IndirectOf(g, e);
    var ds := EdgesOf(v.targets);
    SiteOfIndirect(g, x);
    SiteDistinct(g, n, t);
    SlotsBefore(hs, g, n, t, t', ds[0]);
    PlainFields(g, hs, x);
    assert FieldsRep(x, g.edges[x]) && EdgeOK(g, x);
    forall i | 0 <= i < |ds| ensures ChainLink(ds, g.edges.Keys, t, t', 0, i) {
      StartLink(g, hs, n, t, t', i);
    }
    forall d | d in ds ensures d in g.edges && d.caller == n && g.edges[d].stmt == t && d != x {
      assert SameCall(g, d, x);
    }
  }

  /** The indirect edge gets the new statement; it is in no table. */
  method RenameIndirect(x: Edge, t': Stmt, ghost g: Graph, ghost hs: Tables)
    requires Represents(g, hs) && x in g.edges && x.caller in g.nodes && x.callee == null && x.prevCallee != x
    requires g.edges[x].indirect && g.edges[x].speculative && !HasSlot(hs, x.caller, g.edges[x].stmt, x)
    modifies x`callStmt, x.caller`callSiteHash
    ensures Represents(SetRec(g, x, Renamed(g.edges[x], t')), hs)
  {
    assert FieldsRep(x, g.edges[x]);
    ghost var hs' := SetOwnStmt(x, t', false, g, hs);
    assert hs' == hs;
  }

  /** All components of a speculative call get the new statement. */
  method RenameComponents(first: Edge, x: Edge, t': Stmt, ghost t: Stmt, ghost ds: seq<Edge>, ghost g: Graph, ghost hs: Tables)
    returns (ghost hs': Tables)
    requires Represents(g, hs) && CallReady(g, hs, x.caller, t, t', x, ds) && first == ds[0]
    modifies g.edges.Keys`callStmt, x.caller`callSiteHash, x.caller`references
    ensures hs' == MoveStmt(hs, x.caller, t, t', ds[0], true)
    ensures var g1 := WithRenamed(g, ds, t');
      var g2 := SetRefs(g1, x.caller, RenameRefs(g1.nodes[x.caller].refs, t, t'));
      x in g2.edges && Represents(SetRec(g2, x, Renamed(g2.edges[x], t')), hs')
  {
    hide ListsOK, CalleeLinksOK, CallerLinksOK, NodesOK;
    var n := x.caller;
    assert ChainLink(ds, g.edges.Keys, t, t', 0, 0);
    var oldStmt := first.callStmt;
    ghost var g1 := WithRenamed(g, ds, t');
    ghost var g2 := SetRefs(g1, n, RenameRefs(g1.nodes[n].refs, t, t'));
    hs' := MoveStmt(hs, n, t, t', ds[0], true);
    var count := RenameTargets(first, t', t, ds, n, g, hs);
    assert FieldsRep(x, g1.edges[x]);
    assert x.NumSpeculativeCallTargets() == count;
    RenameReferences(n, oldStmt, t', g1, hs');
    RenameIndirect(x, t', g2, hs');
  }

  /** set_call_stmt of a component of a speculative call, together with all other components. */
  method SetSpeculativeStmt(e: Edge, t': Stmt, ghost g: Graph, ghost hs: Tables) returns (r: Edge, ghost hs': Tables)
    requires WellFormed(g) && Represents(g, hs) && HashesOK(hs, g)
    requires e in g.edges && g.edges[e].speculative && e.caller in g.nodes
    requires FreeStmt(g, e.caller, g.edges[e].stmt, t')
    modifies g.edges.Keys`callStmt, e.caller`callSiteHash, e.caller`references
    ensures SiteOfEdge(g, e).indirects != [] && SiteOfEdge(g, e).targets != []
    ensures r == if g.edges[e].indirect then IndirectOf(g, e) else SiteOfEdge(g, e).targets[0].edge
    ensures var g' := Rename(g, e.caller, g.edges[e].stmt, t');
      ListsOK(g') && Represents(g', hs') && HashesOK(hs', g')
  {
    ghost var n, t := e.caller, g.edges[e].stmt;
    ghost var ds := EdgesOf(SiteOfEdge(g, e).targets);
    assert FieldsRep(e, g.edges[e]);
    var eIndirect := e.indirectUnknownCallee;
    var first, hs1 := FirstSpeculativeCallTarget(e, g, hs);
    var x := SpeculativeCallIndirectEdge(e, g, hs1);
    CallIsReady(g, hs1, e, t');
    RenameSteps(g, n, t, t', x);
    RenameLists(g, n, t, t');
    RenameTables(hs1, g, n, t, t', first);
    hs' := RenameComponents(first, x, t', t, ds, g, hs1);
    r := if eIndirect then x else first;
  }
}
