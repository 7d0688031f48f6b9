/** The lazily built table from call statements to edges answers like the scan of the lists. */
module CallSiteHash {
  import opened Common
  import opened CallGraphTypes
  import opened CallSites
  import opened EdgeLists
  import opened CallGraphSteps
  import opened CallGraphHeap

  /** Slot t of table h is right for the site v of that statement.  A call that has been marked as
      speculative but has no target yet may be missing. */
  ghost predicate SlotOK(h: Table, v: Site, t: Stmt) {
    if t in h then h[t] == Representative(v) else Representative(v) == null || HalfSpeculative(v)
  }

  /** Every slot of table h is right for node n. */
  ghost predicate TableOK(h: Table, g: Graph, n: Node)
    requires ListsOK(g) && n in g.nodes
  {
    forall t: Stmt :: SlotOK(h, SiteIn(g, n, t), t)
  }

  ghost predicate HashOK(h: Option<Table>, g: Graph, n: Node)
    requires ListsOK(g) && n in g.nodes
  {
    h.Some? ==> TableOK(h.value, g, n)
  }

  /** What the scan relies on: several edges for one statement only if they are speculative. */
  ghost predicate Scannable(v: Site) {
    && |v.indirects| <= 1
    && (|v.targets| > 1 ==> forall x | x in v.targets :: x.rec.speculative)
    && (v.indirects != [] && !v.indirects[0].rec.speculative ==> v.targets == [])
  }

  ghost predicate NodeScannable(g: Graph, n: Node)
    requires ListsOK(g) && n in g.nodes
  {
    && Adjacent(g, n)
    && forall t: Stmt :: Scannable(SiteIn(g, n, t))
  }

  lemma WellFormedScannable(g: Graph, n: Node)
    requires WellFormed(g) && n in g.nodes
    ensures NodeScannable(g, n)
  {
    forall t: Stmt ensures Scannable(SiteIn(g, n, t)) {
      assert SiteOK(SiteIn(g, n, t));
    }
  }

  // ---------- scanning ----------

  lemma {:induction false} FirstEntry(s: seq<Edge>, edges: map<Edge, EdgeRec>, t: Stmt)
    requires Covers(edges, s)
    ensures var k, a := First(s, edges, t), At(s, edges, t);
      if k < |s| then a != [] && a[0] == Entry(s[k], edges[s[k]]) else a == []
  {
    if s != [] {
      AtHead(s, edges, t);
      FirstEntry(s[1..], edges, t);
      assert First(s[1..], edges, t) < |s[1..]| ==>
               s[1..][First(s[1..], edges, t)] == s[First(s[1..], edges, t) + 1];
    }
  }

  /** The edges of s are linked through nextCallee and have the statements recorded for them. */
  ghost predicate Walkable(s: seq<Edge>, edges: map<Edge, EdgeRec>)
    requires Covers(edges, s)
    reads s
  {
    NoDup(s) && forall e | e in s :: e.nextCallee == After(s, e) && e.callStmt == edges[e].stmt
  }

  /** One of the two loops of get_edge: the first edge for statement t, and how many came before. */
  method FindOnList(head: Edge?, t: Stmt, ghost s: seq<Edge>, ghost edges: map<Edge, EdgeRec>)
    returns (e: Edge?, n: nat)
    requires Covers(edges, s) && head == Head(s) && Walkable(s, edges)
    ensures n == First(s, edges, t)
    ensures e == if n < |s| then s[n] else null
  {
    e, n := head, 0;
    while e != null
      invariant n <= |s| && e == (if n < |s| then s[n] else null)
      invariant forall i | 0 <= i < n :: edges[s[i]].stmt != t
      decreases |s| - n
    {
      if e.callStmt == t {
        break;
      }
      AfterAt(s, n);
      e, n := e.nextCallee, n + 1;
    }
    FirstIs(s, edges, t, n);
  }

  lemma FirstIs(s: seq<Edge>, edges: map<Edge, EdgeRec>, t: Stmt, n: nat)
    requires Covers(edges, s) && n <= |s|
    requires forall i | 0 <= i < n :: edges[s[i]].stmt != t
    requires n < |s| ==> edges[s[n]].stmt == t
    ensures First(s, edges, t) == n
  {
  }

  // ---------- filling the table ----------

  /** cgraph_add_edge_to_call_site_hash. */
  method AddEdgeToCallSiteHash(e: Edge)
    requires e.caller.callSiteHash.Some?
    requires var h := e.caller.callSiteHash.value;
      !(e.speculative && e.indirectUnknownCallee) && e.callStmt in h ==> h[e.callStmt].speculative
    modifies e.caller`callSiteHash
    ensures e.caller.callSiteHash.Some?
    ensures var h := old(e.caller.callSiteHash).value;
      var p := e.prevCallee;
      e.caller.callSiteHash.value
        == if e.speculative && e.indirectUnknownCallee then h
           else if e.callStmt !in h then h[e.callStmt := e]
           else if e.callee != null && (p == null || !p.speculative || p.callStmt != e.callStmt) then h[e.callStmt := e]
           else h
  {
    if e.speculative && e.indirectUnknownCallee {
      return;
    }
    var h: Table := e.caller.callSiteHash.value;
    var h': Table := h[e.callStmt := e];
    if e.callStmt in h {
      assert h[e.callStmt].speculative;
      if e.callee != null
         && (e.prevCallee == null || !e.prevCallee.speculative || e.prevCallee.callStmt != e.callStmt)
      {
        e.caller.callSiteHash := Some(h');
      }
      return;
    }
    e.caller.callSiteHash := Some(h');
  }

  /** The site as far as the first k callees and the first j indirect calls show it. */
  ghost function PartialSite(r: NodeRec, edges: map<Edge, EdgeRec>, k: nat, j: nat, t: Stmt): Site
    requires Covers(edges, r.callees) && Covers(edges, r.indirects) && k <= |r.callees| && j <= |r.indirects|
  {
    Site(At(r.callees[..k], edges, t), At(r.indirects[..j], edges, t), [])
  }

  ghost predicate PartialTable(h: Table, r: NodeRec, edges: map<Edge, EdgeRec>, k: nat, j: nat)
    requires Covers(edges, r.callees) && Covers(edges, r.indirects) && k <= |r.callees| && j <= |r.indirects|
  {
    forall t: Stmt :: SlotOK(h, PartialSite(r, edges, k, j, t), t)
  }

  lemma AtPrefix(s: seq<Edge>, edges: map<Edge, EdgeRec>, k: nat, t: Stmt)
    requires Covers(edges, s) && k < |s|
    ensures At(s[..k + 1], edges, t)
         == At(s[..k], edges, t) + (if edges[s[k]].stmt == t then [Entry(s[k], edges[s[k]])] else [])
    ensures At(s, edges, t) == At(s[..k], edges, t) + At(s[k..], edges, t)
    ensures edges[s[k]].stmt == t ==> At(s[k..], edges, t) != [] && At(s[k..], edges, t)[0] == Entry(s[k], edges[s[k]])
  {
    assert s[..k + 1] == s[..k] + [s[k]] && s == s[..k] + s[k..];
    AtConcat(s[..k], [s[k]], edges, t);
    AtConcat(s[..k], s[k..], edges, t);
    AtHead([s[k]], edges, t);
    AtHead(s[k..], edges, t);
  }

  /** If statement t occurs before position k and at it, it occurs just before it. */
  lemma JustBefore(s: seq<Edge>, edges: map<Edge, EdgeRec>, k: nat)
    requires Covers(edges, s) && Contiguous(s, edges) && k < |s|
    requires At(s[..k], edges, edges[s[k]].stmt) != []
    ensures k > 0 && edges[s[k - 1]].stmt == edges[s[k]].stmt
  {
    var t := edges[s[k]].stmt;
    TargetsAreAnInterval(s, edges, t);
    FirstEntry(s[..k], edges, t);
    var i := First(s[..k], edges, t);
    assert s[..k][i] == s[i];
    AtEntries(s, edges, t);
    var k0, a := First(s, edges, t), At(s, edges, t);
    assert a[(k - 1) - k0] == Entry(s[k - 1], edges[s[k - 1]]);
    Member(a, (k - 1) - k0);
  }

  lemma Member(s: seq<Entry>, i: nat)
    requires i < |s|
    ensures s[i] in s
  {
  }

  /** The table after callee k has been added to table h. */
  ghost function CalleeAdded(h: Table, s: seq<Edge>, edges: map<Edge, EdgeRec>, k: nat): Table
    requires Covers(edges, s) && k < |s|
  {
    var t := edges[s[k]].stmt;
    if t !in h || k == 0 || !edges[s[k - 1]].speculative || edges[s[k - 1]].stmt != t then h[t := s[k]] else h
  }

  /** Adding callee k to a table that is right for the callees before it. */
  lemma AddCallee(h: Table, r: NodeRec, edges: map<Edge, EdgeRec>, k: nat)
    requires Covers(edges, r.callees) && Covers(edges, r.indirects) && k < |r.callees|
    requires Contiguous(r.callees, edges) && PartialTable(h, r, edges, k, 0)
    requires Scannable(SiteOf(r, edges, edges[r.callees[k]].stmt))
    ensures var t := edges[r.callees[k]].stmt; t in h ==> h[t] in r.callees && edges[h[t]].speculative
    ensures PartialTable(CalleeAdded(h, r.callees, edges, k), r, edges, k + 1, 0)
  {
    var s, e, t := r.callees, r.callees[k], edges[r.callees[k]].stmt;
    assert SlotOK(h, PartialSite(r, edges, k, 0, t), t);
    AtPrefix(s, edges, k, t);
    if t in h {
      JustBefore(s, edges, k);
      AtEntries(s, edges, t);
      var a := At(s, edges, t);
      assert a[0] == At(s[..k], edges, t)[0];
      Member(a, 0);
      assert Entry(s[k - 1], edges[s[k - 1]]) in a;
    }
    var h' := CalleeAdded(h, s, edges, k);
    assert h' == if t !in h then h[t := e] else h;
    var k' := k + 1;
    forall u: Stmt ensures SlotOK(h', PartialSite(r, edges, k', 0, u), u) {
      AtPrefix(s, edges, k, u);
      assert SlotOK(h, PartialSite(r, edges, k, 0, u), u);
    }
  }

  ghost function IndirectAdded(h: Table, e: Edge, r: EdgeRec): Table {
    if r.speculative || r.stmt in h then h else h[r.stmt := e]
  }

  /** Adding indirect call j to a table that is right for all callees and the calls before it. */
  lemma AddIndirect(h: Table, r: NodeRec, edges: map<Edge, EdgeRec>, j: nat)
    requires Covers(edges, r.callees) && Covers(edges, r.indirects) && j < |r.indirects|
    requires PartialTable(h, r, edges, |r.callees|, j)
    requires Scannable(SiteOf(r, edges, edges[r.indirects[j]].stmt))
    ensures var x := edges[r.indirects[j]]; !x.speculative ==> x.stmt !in h
    ensures PartialTable(IndirectAdded(h, r.indirects[j], edges[r.indirects[j]]), r, edges, |r.callees|, j + 1)
  {
    var s, e, t := r.indirects, r.indirects[j], edges[r.indirects[j]].stmt;
    assert r.callees[..|r.callees|] == r.callees;
    AtPrefix(s, edges, j, t);
    assert SlotOK(h, PartialSite(r, edges, |r.callees|, j, t), t);
    assert At(s[..j], edges, t) == [] && At(s, edges, t)[0] == Entry(e, edges[e]);
    var h' := IndirectAdded(h, e, edges[e]);
    var j' := j + 1;
    forall u: Stmt ensures SlotOK(h', PartialSite(r, edges, |r.callees|, j', u), u) {
      AtPrefix(s, edges, j, u);
      assert SlotOK(h, PartialSite(r, edges, |r.callees|, j, u), u);
    }
  }

  /** The heap's view of node n, as far as the table-building loops use it. */
  ghost predicate Listed(n: Node, g: Graph)
    requires ListsOK(g) && n in g.nodes
    reads n`callees, n`indirectCalls, g.edges.Keys
  {
    var r := g.nodes[n];
    && NodeOK(n, r, g.edges)
    && n.callees == Head(r.callees) && n.indirectCalls == Head(r.indirects)
    && Walkable(r.callees, g.edges) && Walkable(r.indirects, g.edges)
    && (forall e | e in r.callees :: FieldsRep(e, g.edges[e]))
    && (forall e | e in r.indirects :: FieldsRep(e, g.edges[e]))
    && (forall e | e in r.callees :: e.prevCallee == Before(r.callees, e) && e.callee != null && !e.indirectUnknownCallee)
    && (forall e | e in r.indirects :: e.callee == null && e.indirectUnknownCallee)
  }

  method HashCallees(n: Node, ghost g: Graph)
    requires ListsOK(g) && n in g.nodes && Listed(n, g) && NodeScannable(g, n)
    requires n.callSiteHash == Some(map[])
    modifies n`callSiteHash
    ensures n.callSiteHash.Some? && PartialTable(n.callSiteHash.value, g.nodes[n], g.edges, |g.nodes[n].callees|, 0)
  {
    hide ListsOK;
    ghost var r, k := g.nodes[n], 0;
    ghost var s := r.callees;
    var e := n.callees;
    while e != null
      invariant k <= |s| && e == (if k < |s| then s[k] else null)
      invariant n.callSiteHash.Some? && PartialTable(n.callSiteHash.value, r, g.edges, k, 0)
      decreases |s| - k
    {
      assert s[k] in s;
      assert Scannable(SiteIn(g, n, g.edges[e].stmt));
      AfterAt(s, k);
      AddCallee(n.callSiteHash.value, r, g.edges, k);
      AddEdgeToCallSiteHash(e);
      e, k := e.nextCallee, k + 1;
    }
  }

  method HashIndirects(n: Node, ghost g: Graph)
    requires ListsOK(g) && n in g.nodes && Listed(n, g) && NodeScannable(g, n)
    requires n.callSiteHash.Some?
    requires PartialTable(n.callSiteHash.value, g.nodes[n], g.edges, |g.nodes[n].callees|, 0)
    modifies n`callSiteHash
    ensures n.callSiteHash.Some? && TableOK(n.callSiteHash.value, g, n)
  {
    ghost var r, k := g.nodes[n], 0;
    ghost var s := r.indirects;
    var e := n.indirectCalls;
    while e != null
      invariant k <= |s| && e == (if k < |s| then s[k] else null)
      invariant n.callSiteHash.Some? && PartialTable(n.callSiteHash.value, r, g.edges, |r.callees|, k)
      decreases |s| - k
    {
      assert s[k] in s;
      assert Scannable(SiteIn(g, n, g.edges[e].stmt));
      AfterAt(s, k);
      AddIndirect(n.callSiteHash.value, r, g.edges, k);
      AddEdgeToCallSiteHash(e);
      e, k := e.nextCallee, k + 1;
    }
    WholeTable(n.callSiteHash.value, g, n);
  }

  lemma WholeTable(h: Table, g: Graph, n: Node)
    requires ListsOK(g) && n in g.nodes
    requires PartialTable(h, g.nodes[n], g.edges, |g.nodes[n].callees|, |g.nodes[n].indirects|)
    ensures TableOK(h, g, n)
  {
    var r := g.nodes[n];
    assert r.callees[..|r.callees|] == r.callees && r.indirects[..|r.indirects|] == r.indirects;
    forall t: Stmt ensures SlotOK(h, SiteIn(g, n, t), t) {
      assert SlotOK(h, PartialSite(r, g.edges, |r.callees|, |r.indirects|, t), t);
    }
  }

  /** The number of edges a scan may pass before a table is built for the node. */
  const ScanLimit := 100

  method ScanForEdge(n: Node, t: Stmt, ghost g: Graph) returns (e: Edge?, passed: nat)
    requires ListsOK(g) && n in g.nodes && Listed(n, g)
    ensures e == Representative(SiteIn(g, n, t))
  {
    ghost var r := g.nodes[n];
    var more;
    e, passed := FindOnList(n.callees, t, r.callees, g.edges);
    FirstEntry(r.callees, g.edges, t);
    if e == null {
      e, more := FindOnList(n.indirectCalls, t, r.indirects, g.edges);
      FirstEntry(r.indirects, g.edges, t);
      passed := passed + more;
    }
  }

  method BuildCallSiteHash(n: Node, ghost g: Graph)
    requires ListsOK(g) && n in g.nodes && Listed(n, g) && NodeScannable(g, n)
    modifies n`callSiteHash
    ensures HashOK(n.callSiteHash, g, n)
  {
    n.callSiteHash := Some(map[]);
    HashCallees(n, g);
    HashIndirects(n, g);
  }

  /** cgraph_node::get_edge: through the table if there is one, and by scanning otherwise. */
  method GetEdge(n: Node, t: Stmt, ghost g: Graph) returns (e: Edge?)
    requires ListsOK(g) && n in g.nodes && Listed(n, g) && NodeScannable(g, n) && HashOK(n.callSiteHash, g, n)
    modifies n`callSiteHash
    ensures HashOK(n.callSiteHash, g, n)
    ensures old(n.callSiteHash).Some? ==> n.callSiteHash == old(n.callSiteHash)
    ensures e == Representative(SiteIn(g, n, t)) || (HalfSpeculative(SiteIn(g, n, t)) && e == null)
  {
    if n.callSiteHash.Some? {
      assert SlotOK(n.callSiteHash.value, SiteIn(g, n, t), t);
      e := if t in n.callSiteHash.value then n.callSiteHash.value[t] else null;
    } else {
      var passed;
      e, passed := ScanForEdge(n, t, g);
      if passed > ScanLimit {
        BuildCallSiteHash(n, g);
      }
    }
  }

  // ---------- tables after a change at one statement ----------

  ghost predicate HashesOK(hs: Tables, g: Graph)
    requires ListsOK(g)
  {
    hs.Keys == g.nodes.Keys && forall n | n in g.nodes :: HashOK(hs[n], g, n)
  }

  /** Table h is right for all statements of node n but possibly t. */
  ghost predicate TableBut(h: Table, g: Graph, n: Node, t: Stmt)
    requires ListsOK(g) && n in g.nodes
  {
    forall s: Stmt | s != t :: SlotOK(h, SiteIn(g, n, s), s)
  }

  /** The tables of graph g, except that statement t of node n is not checked. */
  ghost predicate HashesBut(hs: Tables, g: Graph, n: Node, t: Stmt)
    requires ListsOK(g) && n in g.nodes
  {
    && hs.Keys == g.nodes.Keys
    && (forall m | m in g.nodes && m != n :: HashOK(hs[m], g, m))
    && (hs[n].Some? ==> TableBut(hs[n].value, g, n, t))
  }

  /** Changing one slot of a table. */
  lemma SlotChanged(hs: Tables, g: Graph, n: Node, t: Stmt, h: Option<Table>)
    requires ListsOK(g) && n in g.nodes && HashesBut(hs, g, n, t)
    requires h.Some? == hs[n].Some?
    requires h.Some? ==> forall s | s != t :: (s in h.value <==> s in hs[n].value)
    requires h.Some? ==> forall s | s in h.value && s != t :: h.value[s] == hs[n].value[s]
    ensures HashesBut(hs[n := h], g, n, t)
  {
    if h.Some? {
      forall s: Stmt | s != t ensures SlotOK(h.value, SiteIn(g, n, s), s) {
        assert SlotOK(hs[n].value, SiteIn(g, n, s), s);
      }
    }
  }

  lemma OKBut(hs: Tables, g: Graph, n: Node, t: Stmt)
    requires ListsOK(g) && n in g.nodes && HashesOK(hs, g)
    ensures HashesBut(hs, g, n, t)
  {
    assert HashOK(hs[n], g, n);
  }

  /** When one site has changed, the tables are right again as soon as its slot is. */
  lemma HashesAfter(hs: Tables, g: Graph, g': Graph, n: Node, t: Stmt, v: Site)
    requires ListsOK(g) && ListsOK(g') && n in g.nodes && Changes(g, g', n, t, v)
    requires HashesBut(hs, g, n, t)
    requires hs[n].Some? ==> SlotOK(hs[n].value, v, t)
    ensures HashesOK(hs, g')
  {
    forall m | m in g'.nodes ensures HashOK(hs[m], g', m) {
      if hs[m].Some? {
        assert m != n ==> HashOK(hs[m], g, m);
        forall s: Stmt ensures SlotOK(hs[m].value, SiteIn(g', m, s), s) {
          if !(m == n && s == t) {
            assert SiteIn(g', m, s) == SiteIn(g, m, s);
            assert SlotOK(hs[m].value, SiteIn(g, m, s), s);
          }
        }
      }
    }
  }

  lemma HashesStillBut(hs: Tables, g: Graph, g': Graph, n: Node, t: Stmt, v: Site)
    requires ListsOK(g) && ListsOK(g') && n in g.nodes && n in g'.nodes && Changes(g, g', n, t, v)
    requires HashesBut(hs, g, n, t)
    ensures HashesBut(hs, g', n, t)
  {
    forall m | m in g'.nodes && m != n ensures HashOK(hs[m], g', m) {
      if hs[m].Some? {
        assert HashOK(hs[m], g, m);
        forall s: Stmt ensures SlotOK(hs[m].value, SiteIn(g', m, s), s) {
          assert SiteIn(g', m, s) == SiteIn(g, m, s);
          assert SlotOK(hs[m].value, SiteIn(g, m, s), s);
        }
      }
    }
    if hs[n].Some? {
      forall s: Stmt | s != t ensures SlotOK(hs[n].value, SiteIn(g', n, s), s) {
        assert SiteIn(g', n, s) == SiteIn(g, n, s);
        assert SlotOK(hs[n].value, SiteIn(g, n, s), s);
      }
    }
  }

  lemma RepresentativeSpeculative(g: Graph, n: Node, t: Stmt)
    requires ListsOK(g) && FieldsOK(g) && n in g.nodes
    requires var v := SiteIn(g, n, t); EmptySite(v) || HalfSpeculative(v) || SpeculativeSite(v)
    ensures var r := Representative(SiteIn(g, n, t)); r != null ==> r in g.edges && r.speculative
  {
    var v := SiteIn(g, n, t);
    assert NodeOK(n, g.nodes[n], g.edges);
    AtEntries(g.nodes[n].callees, g.edges, t);
    AtEntries(g.nodes[n].indirects, g.edges, t);
    if v.targets != [] {
      assert v.targets[0] in v.targets;
      assert FieldsRep(v.targets[0].edge, g.edges[v.targets[0].edge]);
    } else if v.indirects != [] {
      assert v.indirects[0] in v.indirects;
      assert FieldsRep(v.indirects[0].edge, g.edges[v.indirects[0].edge]);
    }
  }
}
