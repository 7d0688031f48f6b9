/** Walking the components of a speculative call: its targets, its indirect edge, its references. */
module CallGraphWalks {
  import opened Common
  import opened CallGraphTypes
  import opened CallSites
  import opened EdgeLists
  import opened CallGraphSteps
  import opened CallGraphInvariants
  import opened CallGraphDirect
  import opened CallGraphMakeDirect
  import opened CallGraphHeap
  import opened CallSiteHash
  import opened CallGraphLinks

  /** The neighbours of a target in the list are the neighbouring targets, or other statements. */
  lemma TargetNeighbours(s: seq<Edge>, edges: map<Edge, EdgeRec>, t: Stmt, i: nat)
    requires NoDup(s) && Covers(edges, s) && Contiguous(s, edges) && i < |At(s, edges, t)|
    ensures var a := At(s, edges, t);
      var p, q := Before(s, a[i].edge), After(s, a[i].edge);
      && a[i].edge in s && edges[a[i].edge].stmt == t
      && (if i > 0 then p == a[i - 1].edge else p == null || (p in s && edges[p].stmt != t))
      && (if i + 1 < |a| then q == a[i + 1].edge else q == null || (q in s && edges[q].stmt != t))
  {
    TargetsAreAnInterval(s, edges, t);
    var k, a := First(s, edges, t), At(s, edges, t);
    assert a[(k + i) - k] == Entry(s[k + i], edges[s[k + i]]);
    AtEntries(s, edges, t);
    assert a[i] in a;
    AfterAt(s, k + i);
    if i > 0 {
      assert a[(k + i - 1) - k] == Entry(s[k + i - 1], edges[s[k + i - 1]]);
    }
    if i + 1 < |a| {
      assert a[(k + i + 1) - k] == Entry(s[k + i + 1], edges[s[k + i + 1]]);
    }
  }

  /** Target i of site a, as the walk back sees it. */
  ghost predicate BackLinked(a: seq<Entry>, t: Stmt, i: nat)
    requires i < |a|
    reads a[i].edge, if a[i].edge.prevCallee == null then {} else {a[i].edge.prevCallee}
  {
    var d := a[i].edge;
    && d.callStmt == t
    && if i > 0 then d.prevCallee == a[i - 1].edge && d.prevCallee.speculative && d.prevCallee.callStmt == t
       else d.prevCallee == null || !d.prevCallee.speculative || d.prevCallee.callStmt != t
  }

  /** Target i of site a, as the walk to the next target sees it. */
  ghost predicate ForwardLinked(a: seq<Entry>, t: Stmt, i: nat)
    requires i < |a|
    reads a[i].edge, if a[i].edge.nextCallee == null then {} else {a[i].edge.nextCallee}
  {
    var d := a[i].edge;
    && d.callStmt == t
    && if i + 1 < |a| then d.nextCallee == a[i + 1].edge && d.nextCallee.speculative && d.nextCallee.callStmt == t
       else d.nextCallee == null || !d.nextCallee.speculative || d.nextCallee.callStmt != t
  }

  /** The links and fields of target i of a site, as the heap shows them. */
  lemma TargetLinks(g: Graph, hs: Tables, n: Node, t: Stmt, i: nat)
    requires WellFormed(g) && Represents(g, hs) && n in g.nodes
    requires SpeculativeSite(SiteIn(g, n, t)) && i < |SiteIn(g, n, t).targets|
    ensures var a := SiteIn(g, n, t).targets;
      var d := a[i].edge;
      && d in g.edges && d.caller == n && d.speculative && d.callee != null && BackLinked(a, t, i) && ForwardLinked(a, t, i)
  {
    var r, a := g.nodes[n], SiteIn(g, n, t).targets;
    assert Adjacent(g, n) && NodeOK(n, r, g.edges);
    TargetNeighbours(r.callees, g.edges, t, i);
    assert a[i] in a;
    assert i > 0 ==> a[i - 1] in a;
    assert i + 1 < |a| ==> a[i + 1] in a;
    AtEntries(r.callees, g.edges, t);
    TargetEntry(g, n, t, a[i]);
    var d := a[i].edge;
    assert EdgeOK(g, d) && FieldsRep(d, g.edges[d]) && CalleeLinks(d, g);
    var p, q := Before(r.callees, d), After(r.callees, d);
    assert p != null && p in g.edges ==> FieldsRep(p, g.edges[p]);
    assert q != null && q in g.edges ==> FieldsRep(q, g.edges[q]);
  }

  /** cgraph_edge::next_speculative_call_target. */
  method NextSpeculativeCallTarget(d: Edge, ghost g: Graph, ghost hs: Tables, ghost i: nat) returns (r: Edge?)
    requires WellFormed(g) && Represents(g, hs) && d in g.edges && d.caller in g.nodes
    requires SpeculativeSite(SiteOfEdge(g, d)) && i < |SiteOfEdge(g, d).targets| && SiteOfEdge(g, d).targets[i].edge == d
    ensures var a := SiteOfEdge(g, d).targets; r == if i + 1 < |a| then a[i + 1].edge else null
  {
    TargetLinks(g, hs, d.caller, g.edges[d].stmt, i);
    if d.nextCallee != null && d.nextCallee.speculative && d.nextCallee.callStmt == d.callStmt {
      r := d.nextCallee;
    } else {
      r := null;
    }
  }

  lemma TargetIndex(g: Graph, d: Edge) returns (i: nat)
    requires WellFormed(g) && d in g.edges && g.edges[d].speculative && !g.edges[d].indirect
    ensures d.caller in g.nodes && SpeculativeSite(SiteOfEdge(g, d))
    ensures i < |SiteOfEdge(g, d).targets| && SiteOfEdge(g, d).targets[i] == Entry(d, g.edges[d])
  {
    SiteOfDirect(g, d);
    i :| 0 <= i < |SiteOfEdge(g, d).targets| && SiteOfEdge(g, d).targets[i] == Entry(d, g.edges[d]);
  }

  lemma AllBackLinked(g: Graph, hs: Tables, n: Node, t: Stmt)
    requires WellFormed(g) && Represents(g, hs) && n in g.nodes && SpeculativeSite(SiteIn(g, n, t))
    ensures var a := SiteIn(g, n, t).targets; forall i | 0 <= i < |a| :: BackLinked(a, t, i)
  {
    var a := SiteIn(g, n, t).targets;
    forall i | 0 <= i < |a| ensures BackLinked(a, t, i) {
      TargetLinks(g, hs, n, t, i);
    }
  }

  /** The loop of first_speculative_call_target that walks back from direct edge i of its site. */
  method WalkBack(d: Edge, ghost a: seq<Entry>, ghost t: Stmt, ghost i: nat) returns (r: Edge)
    requires i < |a| && a[i].edge == d
    requires forall j | 0 <= j < |a| :: BackLinked(a, t, j)
    ensures r == a[0].edge
  {
    r := d;
    ghost var k := i;
    while r.prevCallee != null && r.prevCallee.speculative && r.prevCallee.callStmt == r.callStmt
      invariant 0 <= k < |a| && r == a[k].edge
      decreases k
    {
      assert BackLinked(a, t, k);
      r := r.prevCallee;
      k := k - 1;
    }
    assert BackLinked(a, t, k);
  }

  /** cgraph_edge::first_speculative_call_target. */
  method FirstSpeculativeCallTarget(e: Edge, ghost g: Graph, ghost hs: Tables) returns (r: Edge, ghost hs': Tables)
    requires WellFormed(g) && Represents(g, hs) && HashesOK(hs, g)
    requires e in g.edges && g.edges[e].speculative && e.caller in g.nodes
    modifies e.caller`callSiteHash
    ensures Represents(g, hs') && HashesOK(hs', g)
    ensures SiteOfEdge(g, e).targets != [] && r == SiteOfEdge(g, e).targets[0].edge
  {
    hs' := hs;
    assert FieldsRep(e, g.edges[e]) && EdgeOK(g, e);
    SpeculativeEdge(g, e);
    if e.callee != null {
      ghost var i := TargetIndex(g, e);
      AllBackLinked(g, hs, e.caller, g.edges[e].stmt);
      r := WalkBack(e, SiteOfEdge(g, e).targets, g.edges[e].stmt, i);
    } else {
      WellFormedScannable(g, e.caller);
      var found;
      found, hs' := LookUp(e.caller, e.callStmt, g, hs);
      r := found;
    }
  }

  /** The loop of speculative_call_indirect_edge. */
  method WalkIndirects(head: Edge?, t: Stmt, ghost s: seq<Edge>, ghost edges: map<Edge, EdgeRec>) returns (x: Edge)
    requires Covers(edges, s) && head == Head(s) && Walkable(s, edges)
    requires forall e | e in s && edges[e].stmt == t :: e.speculative
    requires First(s, edges, t) < |s|
    ensures x == s[First(s, edges, t)]
  {
    ghost var k := First(s, edges, t);
    var cur: Edge?, i := head, 0;
    while !(cur.speculative && cur.callStmt == t)
      invariant i <= k && cur == s[i]
      decreases k - i
    {
      assert s[i] in s && s[k] in s;
      AfterAt(s, i);
      cur := cur.nextCallee;
      i := i + 1;
    }
    assert s[i] in s;
    x := cur;
  }

  lemma IndirectOnList(g: Graph, hs: Tables, e: Edge)
    requires WellFormed(g) && Represents(g, hs) && e in g.edges && g.edges[e].speculative && e.caller in g.nodes
    ensures var s, t := g.nodes[e.caller].indirects, g.edges[e].stmt;
      && SiteOfEdge(g, e).indirects != []
      && First(s, g.edges, t) < |s| && s[First(s, g.edges, t)] == SiteOfEdge(g, e).indirects[0].edge
      && forall y | y in s && g.edges[y].stmt == t :: y.speculative
  {
    hide Complete, SitesOK;
    var s, t := g.nodes[e.caller].indirects, g.edges[e].stmt;
    SpeculativeEdge(g, e);
    FirstEntry(s, g.edges, t);
    AtEntries(s, g.edges, t);
    forall y | y in s && g.edges[y].stmt == t ensures y.speculative {
      assert FieldsRep(y, g.edges[y]);
      assert Entry(y, g.edges[y]) in At(s, g.edges, t);
    }
  }

  /** cgraph_edge::speculative_call_indirect_edge. */
  method SpeculativeCallIndirectEdge(e: Edge, ghost g: Graph, ghost hs: Tables) returns (x: Edge)
    requires WellFormed(g) && Represents(g, hs) && e in g.edges && g.edges[e].speculative && e.caller in g.nodes
    ensures SiteOfEdge(g, e).indirects != [] && x == IndirectOf(g, e)
  {
    ghost var n := e.caller;
    assert FieldsRep(e, g.edges[e]) && EdgeOK(g, e);
    SpeculativeEdge(g, e);
    if e.callee == null {
      SiteOfIndirect(g, e);
      x := e;
    } else {
      ListedNode(g, hs, n);
      IndirectOnList(g, hs, e);
      x := WalkIndirects(e.caller.indirectCalls, e.callStmt, g.nodes[n].indirects, g.edges);
    }
  }

  /** cgraph_edge::speculative_call_target_ref, as an index into the caller's references. */
  method TargetRefIndex(d: Edge, ghost g: Graph, ghost hs: Tables) returns (k: nat)
    requires WellFormed(g) && Represents(g, hs)
    requires d in g.edges && g.edges[d].speculative && !g.edges[d].indirect && d.caller in g.nodes
    ensures k < |g.nodes[d.caller].refs|
    ensures FindRef(g.nodes[d.caller].refs, g.edges[d].stmt, g.edges[d].speculativeId)
         == Some(g.nodes[d.caller].refs[k])
    ensures DropRef(g.nodes[d.caller].refs, g.edges[d].stmt, g.edges[d].speculativeId)
         == g.nodes[d.caller].refs[..k] + g.nodes[d.caller].refs[k + 1..]
  {
    hide WellFormed;
    ghost var refs, t, id := g.nodes[d.caller].refs, g.edges[d].stmt, g.edges[d].speculativeId;
    assert FieldsRep(d, g.edges[d]) && NodeRep(d.caller, g.nodes[d.caller], hs[d.caller]);
    var last := RefExists(g, d);
    k := 0;
    while !Pairs(d.caller.references[k], d.callStmt, d.speculativeId)
      invariant k <= last < |refs|
      invariant forall i | 0 <= i < k :: !Pairs(refs[i], t, id)
      decreases last - k
    {
      k := k + 1;
    }
    FindRefIs(refs, k, t, id);
    DropRefIsSlice(refs, k, t, id);
  }

  lemma {:induction false} FindRefIs(refs: seq<Ref>, k: nat, t: Stmt, id: nat)
    requires k < |refs| && Pairs(refs[k], t, id)
    requires forall i | 0 <= i < k :: !Pairs(refs[i], t, id)
    ensures FindRef(refs, t, id) == Some(refs[k])
  {
    if k > 0 {
      assert !Pairs(refs[0], t, id) && refs[1..][k - 1] == refs[k];
      FindRefIs(refs[1..], k - 1, t, id);
    }
  }

  lemma RefExists(g: Graph, d: Edge) returns (k: nat)
    requires WellFormed(g) && d in g.edges && g.edges[d].speculative && !g.edges[d].indirect && d.caller in g.nodes
    ensures var refs := g.nodes[d.caller].refs;
      k < |refs| && Pairs(refs[k], g.edges[d].stmt, g.edges[d].speculativeId)
  {
    var refs, t, id := g.nodes[d.caller].refs, g.edges[d].stmt, g.edges[d].speculativeId;
    var i := TargetIndex(g, d);
    var v := SiteOfEdge(g, d);
    assert TargetIds(v.targets)[i] == id;
    assert id in multiset(TargetIds(v.targets));
    assert id in RefIds(v.refs);
    var j :| 0 <= j < |v.refs| && RefIds(v.refs)[j] == id;
    RefsAtEntries(refs, t);
    assert v.refs[j] in v.refs;
    k :| 0 <= k < |refs| && refs[k] == v.refs[j];
  }
}
