/** When each operation keeps the call graph well formed: exactly under its guard. */
module CallGraphInvariants {
  import opened Common
  import opened CallGraphTypes
  import opened CallSites
  import opened CallGraphSteps

  // ---------- the elementary changes keep the lists consistent ----------

  ghost predicate OnNoList(g: Graph, e: Edge) {
    forall n | n in g.nodes ::
      e !in g.nodes[n].callees && e !in g.nodes[n].indirects && e !in g.nodes[n].callers
  }

  lemma NewEdgeLists(g: Graph, e: Edge, r: EdgeRec)
    requires ListsOK(g) && Complete(g) && e !in g.edges
    ensures ListsOK(SetRec(g, e, r)) && CompleteExcept(SetRec(g, e, r), {e})
    ensures OnNoList(SetRec(g, e, r), e)
  {
    var g' := SetRec(g, e, r);
    forall n | n in g'.nodes ensures NodeOK(n, g'.nodes[n], g'.edges) {
      assert NodeOK(n, g.nodes[n], g.edges);
    }
    forall x | x in g'.edges && x != e ensures EdgeOK(g', x) {
      assert EdgeOK(g, x);
    }
    forall n | n in g'.nodes ensures e !in g.nodes[n].callees && e !in g.nodes[n].indirects && e !in g.nodes[n].callers {
      assert NodeOK(n, g.nodes[n], g.edges);
    }
  }

  lemma SetRecLists(g: Graph, e: Edge, r: EdgeRec, loose: set<Edge>)
    requires ListsOK(g) && CompleteExcept(g, loose) && e in g.edges
    requires r.callee == g.edges[e].callee
    ensures ListsOK(SetRec(g, e, r)) && CompleteExcept(SetRec(g, e, r), loose + {e})
  {
    var g' := SetRec(g, e, r);
    forall n | n in g'.nodes ensures NodeOK(n, g'.nodes[n], g'.edges) {
      assert NodeOK(n, g.nodes[n], g.edges);
    }
    forall x | x in g'.edges && x !in loose + {e} ensures EdgeOK(g', x) {
      assert EdgeOK(g, x);
    }
  }

  lemma PushCalleeLists(g: Graph, e: Edge, loose: set<Edge>)
    requires ListsOK(g) && CompleteExcept(g, loose) && e in g.edges && e.caller in g.nodes
    requires e !in g.nodes[e.caller].callees && e !in g.nodes[e.caller].indirects
    ensures ListsOK(PushCallee(g, e)) && CompleteExcept(PushCallee(g, e), loose)
  {
    var g' := PushCallee(g, e);
    forall n | n in g'.nodes ensures NodeOK(n, g'.nodes[n], g'.edges) {
      assert NodeOK(n, g.nodes[n], g.edges);
    }
    forall x | x in g'.edges && x !in loose ensures EdgeOK(g', x) {
      assert EdgeOK(g, x);
    }
  }

  lemma PushIndirectLists(g: Graph, e: Edge, loose: set<Edge>)
    requires ListsOK(g) && CompleteExcept(g, loose) && e in g.edges && e.caller in g.nodes
    requires e !in g.nodes[e.caller].callees && e !in g.nodes[e.caller].indirects
    ensures ListsOK(PushIndirect(g, e)) && CompleteExcept(PushIndirect(g, e), loose)
  {
    var g' := PushIndirect(g, e);
    forall n | n in g'.nodes ensures NodeOK(n, g'.nodes[n], g'.edges) {
      assert NodeOK(n, g.nodes[n], g.edges);
    }
    forall x | x in g'.edges && x !in loose ensures EdgeOK(g', x) {
      assert EdgeOK(g, x);
    }
  }

  lemma PushCallerLists(g: Graph, n: Node, e: Edge, loose: set<Edge>)
    requires ListsOK(g) && CompleteExcept(g, loose) && e in g.edges && n in g.nodes
    requires g.edges[e].callee == n && e !in g.nodes[n].callers
    ensures ListsOK(PushCaller(g, n, e)) && CompleteExcept(PushCaller(g, n, e), loose)
  {
    var g' := PushCaller(g, n, e);
    forall m | m in g'.nodes ensures NodeOK(m, g'.nodes[m], g'.edges) {
      assert NodeOK(m, g.nodes[m], g.edges);
    }
    forall x | x in g'.edges && x !in loose ensures EdgeOK(g', x) {
      assert EdgeOK(g, x);
    }
  }

  lemma PullCalleeLists(g: Graph, e: Edge, loose: set<Edge>)
    requires ListsOK(g) && CompleteExcept(g, loose) && e.caller in g.nodes
    ensures ListsOK(PullCallee(g, e)) && CompleteExcept(PullCallee(g, e), loose + {e})
    ensures e !in PullCallee(g, e).nodes[e.caller].callees
  {
    var g' := PullCallee(g, e);
    UnlinkNoDup(g.nodes[e.caller].callees, e);
    forall n | n in g'.nodes ensures NodeOK(n, g'.nodes[n], g'.edges) {
      assert NodeOK(n, g.nodes[n], g.edges);
    }
    forall x | x in g'.edges && x !in loose + {e} ensures EdgeOK(g', x) {
      assert EdgeOK(g, x);
    }
  }

  lemma PullIndirectLists(g: Graph, e: Edge, loose: set<Edge>)
    requires ListsOK(g) && CompleteExcept(g, loose) && e.caller in g.nodes
    ensures ListsOK(PullIndirect(g, e)) && CompleteExcept(PullIndirect(g, e), loose + {e})
    ensures e !in PullIndirect(g, e).nodes[e.caller].indirects
  {
    var g' := PullIndirect(g, e);
    UnlinkNoDup(g.nodes[e.caller].indirects, e);
    forall n | n in g'.nodes ensures NodeOK(n, g'.nodes[n], g'.edges) {
      assert NodeOK(n, g.nodes[n], g.edges);
    }
    forall x | x in g'.edges && x !in loose + {e} ensures EdgeOK(g', x) {
      assert EdgeOK(g, x);
    }
  }

  lemma PullCallerLists(g: Graph, n: Node, e: Edge, loose: set<Edge>)
    requires ListsOK(g) && CompleteExcept(g, loose) && n in g.nodes
    ensures ListsOK(PullCaller(g, n, e)) && CompleteExcept(PullCaller(g, n, e), loose + {e})
    ensures e !in PullCaller(g, n, e).nodes[n].callers
  {
    var g' := PullCaller(g, n, e);
    UnlinkNoDup(g.nodes[n].callers, e);
    forall m | m in g'.nodes ensures NodeOK(m, g'.nodes[m], g'.edges) {
      assert NodeOK(m, g.nodes[m], g.edges);
    }
    forall x | x in g'.edges && x !in loose + {e} ensures EdgeOK(g', x) {
      assert EdgeOK(g, x);
    }
  }

  lemma ForgetLists(g: Graph, e: Edge)
    requires ListsOK(g) && CompleteExcept(g, {e}) && OnNoList(g, e)
    ensures ListsOK(Forget(g, e)) && Complete(Forget(g, e))
  {
    var g' := Forget(g, e);
    forall n | n in g'.nodes ensures NodeOK(n, g'.nodes[n], g'.edges) {
      assert NodeOK(n, g.nodes[n], g.edges);
    }
    forall x | x in g'.edges ensures EdgeOK(g', x) {
      assert EdgeOK(g, x);
    }
  }

  lemma SetRefsLists(g: Graph, n: Node, refs: seq<Ref>, loose: set<Edge>)
    requires ListsOK(g) && CompleteExcept(g, loose) && n in g.nodes
    ensures ListsOK(SetRefs(g, n, refs)) && CompleteExcept(SetRefs(g, n, refs), loose)
  {
    var g' := SetRefs(g, n, refs);
    forall m | m in g'.nodes ensures NodeOK(m, g'.nodes[m], g'.edges) {
      assert NodeOK(m, g.nodes[m], g.edges);
    }
    forall x | x in g'.edges && x !in loose ensures EdgeOK(g', x) {
      assert EdgeOK(g, x);
    }
  }

  lemma CompleteButOne(g: Graph, e: Edge)
    requires CompleteExcept(g, {e}) && e in g.edges && EdgeOK(g, e)
    ensures Complete(g)
  {
  }

  // ---------- creating edges ----------

  lemma CreateEdgeLists(g: Graph, e: Edge, callee: Node, t: Stmt, count: int)
    requires ListsOK(g) && Complete(g) && e !in g.edges && e.caller in g.nodes && callee in g.nodes
    ensures ListsOK(CreateEdge(g, e, callee, t, count)) && Complete(CreateEdge(g, e, callee, t, count))
  {
    var r := EdgeRec(callee, t, false, false, 0, count, None);
    var g1 := SetRec(g, e, r);
    NewEdgeLists(g, e, r);
    PushCalleeLists(g1, e, {e});
    PushCallerLists(PushCallee(g1, e), callee, e, {e});
    CompleteButOne(CreateEdge(g, e, callee, t, count), e);
  }

  lemma CreateEdgeSite(g: Graph, e: Edge, callee: Node, t: Stmt, count: int)
    requires ListsOK(g) && Complete(g) && e !in g.edges && e.caller in g.nodes && callee in g.nodes
    requires ListsOK(CreateEdge(g, e, callee, t, count))
    ensures var v := SiteIn(g, e.caller, t);
      Changes(g, CreateEdge(g, e, callee, t, count), e.caller, t,
              v.(targets := [Entry(e, EdgeRec(callee, t, false, false, 0, count, None))] + v.targets))
  {
    var g' := CreateEdge(g, e, callee, t, count);
    var n := e.caller;
    OtherNodes(g, g', n);
    var r := g.nodes[n];
    assert g'.nodes[n].callees == [e] + r.callees;
    assert ([e] + r.callees)[1..] == r.callees;
    forall s: Stmt
      ensures var v := SiteIn(g, n, s);
        SiteIn(g', n, s) == if s == t then v.(targets := [Entry(e, g'.edges[e])] + v.targets) else v
    {
      AtHead([e] + r.callees, g'.edges, s);
      AtFrame(r.callees, g.edges, g'.edges, s);
      AtFrame(r.indirects, g.edges, g'.edges, s);
    }
  }

  lemma PushJoined(s: seq<Edge>, edges: map<Edge, EdgeRec>, e: Edge, edges': map<Edge, EdgeRec>)
    requires Covers(edges, s) && Covers(edges', [e] + s) && Contiguous(s, edges)
    requires forall x | x in s :: edges'[x].stmt == edges[x].stmt
    requires At(s, edges, edges'[e].stmt) == [] || edges[s[0]].stmt == edges'[e].stmt
    ensures Contiguous([e] + s, edges')
  {
    var t, u := edges'[e].stmt, [e] + s;
    AtEntries(s, edges, t);
    forall i, l | 0 <= i < l < |u| && edges'[u[i]].stmt == edges'[u[l]].stmt
      ensures Joined(u, edges', i)
    {
      assert u[l] == s[l - 1] && u[i + 1] == s[i];
      if i == 0 {
        assert edges[s[l - 1]].stmt == t;
      } else {
        assert u[i] == s[i - 1];
        assert Joined(s, edges, i - 1);
      }
    }
  }

  lemma PushAdjacent(s: seq<Edge>, edges: map<Edge, EdgeRec>, e: Edge, edges': map<Edge, EdgeRec>)
    requires Covers(edges, s) && Covers(edges', [e] + s) && Contiguous(s, edges)
    requires forall x | x in s :: edges'[x].stmt == edges[x].stmt
    ensures Contiguous([e] + s, edges')
      <==> At(s, edges, edges'[e].stmt) == [] || edges[s[0]].stmt == edges'[e].stmt
  {
    var t := edges'[e].stmt;
    if At(s, edges, t) == [] || edges[s[0]].stmt == t {
      PushJoined(s, edges, e, edges');
    } else {
      TargetsAreAnInterval(s, edges, t);
      var k, u := First(s, edges, t), [e] + s;
      assert u[0] == e && u[1] == s[0] && u[k + 1] == s[k];
      assert At(s, edges, t)[k - k] == Entry(s[k], edges[s[k]]);
      assert edges'[u[k + 1]].stmt == t && edges'[u[1]].stmt != t;
      assert !Joined(u, edges', 0);
    }
  }

  /** A new ordinary call keeps the graph well formed exactly if its statement had no edge. */
  lemma CreateEdgeKeeps(g: Graph, e: Edge, callee: Node, t: Stmt, count: int)
    requires WellFormed(g) && e !in g.edges && e.caller in g.nodes && callee in g.nodes
    ensures WellFormed(CreateEdge(g, e, callee, t, count)) <==> EmptySite(SiteIn(g, e.caller, t))
  {
    hide NoDup, RefsLive, RefsKept, Changes, TargetIds, RefIds, CompleteExcept, EdgeOK;
    var g' := CreateEdge(g, e, callee, t, count);
    CreateEdgeRefs(g, e, callee, t, count);
    KeptIsLive(g, g');
    CreateEdgeLists(g, e, callee, t, count);
    CreateEdgeSite(g, e, callee, t, count);
    var v := SiteIn(g, e.caller, t);
    var v' := SiteIn(g', e.caller, t);
    ChangesKeeps(g, g', e.caller, t, v');
    assert Adjacent(g, e.caller);
    PushAdjacent(g.nodes[e.caller].callees, g.edges, e, g'.edges);
    assert v'.targets[0].edge == e && v'.targets[0] in v'.targets;
    assert SiteOK(v);
  }

  lemma CreateIndirectEdgeLists(g: Graph, e: Edge, t: Stmt, count: int)
    requires ListsOK(g) && Complete(g) && e !in g.edges && e.caller in g.nodes
    ensures ListsOK(CreateIndirectEdge(g, e, t, count)) && Complete(CreateIndirectEdge(g, e, t, count))
  {
    var r := EdgeRec(null, t, false, true, 0, count, Some(0));
    NewEdgeLists(g, e, r);
    PushIndirectLists(SetRec(g, e, r), e, {e});
    CompleteButOne(CreateIndirectEdge(g, e, t, count), e);
  }

  lemma CreateIndirectEdgeSite(g: Graph, e: Edge, t: Stmt, count: int)
    requires ListsOK(g) && Complete(g) && e !in g.edges && e.caller in g.nodes
    requires ListsOK(CreateIndirectEdge(g, e, t, count))
    ensures var v := SiteIn(g, e.caller, t);
      Changes(g, CreateIndirectEdge(g, e, t, count), e.caller, t,
              v.(indirects := [Entry(e, EdgeRec(null, t, false, true, 0, count, Some(0)))] + v.indirects))
    ensures Adjacent(g, e.caller) ==> Adjacent(CreateIndirectEdge(g, e, t, count), e.caller)
  {
    var g' := CreateIndirectEdge(g, e, t, count);
    var n := e.caller;
    OtherNodes(g, g', n);
    var r := g.nodes[n];
    assert ([e] + r.indirects)[1..] == r.indirects;
    forall s: Stmt
      ensures var v := SiteIn(g, n, s);
        SiteIn(g', n, s) == if s == t then v.(indirects := [Entry(e, g'.edges[e])] + v.indirects) else v
    {
      AtHead([e] + r.indirects, g'.edges, s);
      AtFrame(r.callees, g.edges, g'.edges, s);
      AtFrame(r.indirects, g.edges, g'.edges, s);
    }
    if Adjacent(g, n) {
      ContiguousFrame(r.callees, g.edges, g'.edges);
    }
  }

  /** A new indirect call keeps the graph well formed exactly if its statement had no edge. */
  lemma CreateIndirectEdgeKeeps(g: Graph, e: Edge, t: Stmt, count: int)
    requires WellFormed(g) && e !in g.edges && e.caller in g.nodes
    ensures WellFormed(CreateIndirectEdge(g, e, t, count)) <==> EmptySite(SiteIn(g, e.caller, t))
  {
    hide Adjacent, ListsOK;
    var g' := CreateIndirectEdge(g, e, t, count);
    CreateIndirectEdgeLists(g, e, t, count);
    CreateIndirectEdgeSite(g, e, t, count);
    var v, v' := SiteIn(g, e.caller, t), SiteIn(g', e.caller, t);
    ChangesKeeps(g, g', e.caller, t, v');
    assert v'.indirects[0].edge == e && v'.indirects[0] in v'.indirects;
    assert SiteOK(v) && Adjacent(g, e.caller);
  }

  // ---------- removing an edge ----------

  lemma OffTheLists(g: Graph, e: Edge)
    requires ListsOK(g) && e in g.edges && Live(g, e)
    requires e !in g.nodes[e.caller].callees && e !in g.nodes[e.caller].indirects
    requires g.edges[e].callee in g.nodes ==> e !in g.nodes[g.edges[e].callee].callers
    ensures OnNoList(g, e)
  {
    forall n | n in g.nodes ensures e !in g.nodes[n].callees && e !in g.nodes[n].indirects && e !in g.nodes[n].callers {
      assert NodeOK(n, g.nodes[n], g.edges);
    }
  }

  lemma RemoveLists(g: Graph, e: Edge, loose: set<Edge>)
    requires ListsOK(g) && CompleteExcept(g, loose) && loose <= {e} && e in g.edges && Live(g, e)
    requires if g.edges[e].indirect then e !in g.nodes[e.caller].callees && g.edges[e].callee == null
             else e !in g.nodes[e.caller].indirects
    ensures ListsOK(Remove(g, e)) && Complete(Remove(g, e))
  {
    var g1 := if g.edges[e].indirect then g else PullCaller(g, g.edges[e].callee, e);
    if g.edges[e].indirect {
      PullIndirectLists(g, e, loose);
      OffTheLists(PullIndirect(g, e), e);
      assert CompleteExcept(PullIndirect(g, e), {e});
      ForgetLists(PullIndirect(g, e), e);
    } else {
      PullCallerLists(g, g.edges[e].callee, e, loose);
      PullCalleeLists(g1, e, loose + {e});
      OffTheLists(PullCallee(g1, e), e);
      assert CompleteExcept(PullCallee(g1, e), {e});
      ForgetLists(PullCallee(g1, e), e);
    }
  }

  lemma UnlinkAdjacent(s: seq<Edge>, edges: map<Edge, EdgeRec>, e: Edge, edges': map<Edge, EdgeRec>)
    requires NoDup(s) && Covers(edges, s) && Contiguous(s, edges)
    requires Covers(edges', Unlink(s, e))
    requires forall x | x in s && x != e :: x in edges' && edges'[x].stmt == edges[x].stmt
    ensures Contiguous(Unlink(s, e), edges')
  {
    var u := Unlink(s, e);
    UnlinkNoDup(s, e);
    if e in s {
      var k :| 0 <= k < |s| && s[k] == e;
      UnlinkIsSlice(s, k);
      forall i, l | 0 <= i < l < |u| && edges[u[i]].stmt == edges[u[l]].stmt
        ensures Joined(u, edges, i)
      {
        UnlinkAdjacentAt(s, edges, k, i, l);
      }
    }
    ContiguousFrame(u, edges, edges');
  }

  lemma UnlinkAdjacentAt(s: seq<Edge>, edges: map<Edge, EdgeRec>, k: nat, i: nat, l: nat)
    requires Covers(edges, s) && Contiguous(s, edges) && k < |s| && i < l < |s| - 1
    requires var u := s[..k] + s[k + 1..]; edges[u[i]].stmt == edges[u[l]].stmt
    ensures var u := s[..k] + s[k + 1..]; edges[u[i + 1]].stmt == edges[u[i]].stmt
  {
    var u := s[..k] + s[k + 1..];
    var l' := if l < k then l else l + 1;
    assert u[l] == s[l'];
    if i + 1 < k {
      assert u[i] == s[i] && u[i + 1] == s[i + 1];
      assert Joined(s, edges, i);
    } else if i + 1 == k {
      assert u[i] == s[i] && u[i + 1] == s[i + 2];
      assert Joined(s, edges, i) && Joined(s, edges, i + 1);
    } else {
      assert u[i] == s[i + 1] && u[i + 1] == s[i + 2];
      assert Joined(s, edges, i + 1);
    }
  }

  lemma RemoveSite(g: Graph, e: Edge)
    requires ListsOK(g) && e in g.edges && Live(g, e)
    requires ListsOK(Remove(g, e))
    ensures var v := SiteIn(g, e.caller, g.edges[e].stmt);
      Changes(g, Remove(g, e), e.caller, g.edges[e].stmt,
              if g.edges[e].indirect then v.(indirects := Minus(v.indirects, e))
              else v.(targets := Minus(v.targets, e)))
    ensures Adjacent(g, e.caller) ==> Adjacent(Remove(g, e), e.caller)
  {
    hide NodeOK;
    var g' := Remove(g, e);
    var n, t := e.caller, g.edges[e].stmt;
    OtherNodes(g, g', n);
    var r, r' := g.nodes[n], g'.nodes[n];
    forall s: Stmt
      ensures var v := SiteIn(g, n, s);
        SiteIn(g', n, s) == if s != t then v else if g.edges[e].indirect then v.(indirects := Minus(v.indirects, e))
                            else v.(targets := Minus(v.targets, e))
    {
      RemoveSiteAt(g, e, s);
    }
    if Adjacent(g, n) {
      RemoveAdjacent(g, e);
    }
  }

  lemma RemoveAdjacent(g: Graph, e: Edge)
    requires ListsOK(g) && e in g.edges && Live(g, e) && Adjacent(g, e.caller)
    requires ListsOK(Remove(g, e))
    ensures Adjacent(Remove(g, e), e.caller)
  {
    assert NodeOK(e.caller, g.nodes[e.caller], g.edges);
    UnlinkNoDup(g.nodes[e.caller].callees, e);
    UnlinkAdjacent(g.nodes[e.caller].callees, g.edges, e, Remove(g, e).edges);
  }

  lemma RemoveSiteAt(g: Graph, e: Edge, s: Stmt)
    requires ListsOK(g) && e in g.edges && Live(g, e)
    requires ListsOK(Remove(g, e))
    ensures var v := SiteIn(g, e.caller, s);
      SiteIn(Remove(g, e), e.caller, s)
        == if s != g.edges[e].stmt then v else if g.edges[e].indirect then v.(indirects := Minus(v.indirects, e))
           else v.(targets := Minus(v.targets, e))
  {
    var g' := Remove(g, e);
    var n := e.caller;
    assert NodeOK(n, g.nodes[n], g.edges) && NodeOK(n, g'.nodes[n], g'.edges);
    var r, r' := g.nodes[n], g'.nodes[n];
    var v := SiteIn(g, n, s);
    AtFrame(r'.callees, g.edges, g'.edges, s);
    AtFrame(r'.indirects, g.edges, g'.edges, s);
    if g.edges[e].indirect {
      AtUnlink(r.indirects, g.edges, e, s);
      if s != g.edges[e].stmt {
        AtLacks(r.indirects, g.edges, s, e);
        MinusAbsent(v.indirects, e);
      }
    } else {
      AtUnlink(r.callees, g.edges, e, s);
      if s != g.edges[e].stmt {
        AtLacks(r.callees, g.edges, s, e);
        MinusAbsent(v.targets, e);
      }
    }
  }

  // ---------- facts about the site of a live edge ----------

  /** An indirect edge is the only one of its statement, and its targets are the direct edges. */
  lemma SiteOfIndirect(g: Graph, x: Edge)
    requires WellFormed(g) && x in g.edges && g.edges[x].indirect
    ensures x.caller in g.nodes
    ensures var v := SiteIn(g, x.caller, g.edges[x].stmt);
      && v.indirects == [Entry(x, g.edges[x])]
      && if g.edges[x].speculative then SpeculativeSite(v) else PlainSite(v) && v.targets == []
  {
    assert EdgeOK(g, x);
    var v := SiteIn(g, x.caller, g.edges[x].stmt);
    AtEntries(g.nodes[x.caller].indirects, g.edges, g.edges[x].stmt);
    assert SiteOK(v);
    OnlyIndirect(v, Entry(x, g.edges[x]));
  }

  lemma OnlyIndirect(v: Site, x: Entry)
    requires SiteOK(v) && x in v.indirects
    ensures v.indirects == [x]
    ensures if x.rec.speculative then SpeculativeSite(v) else PlainSite(v) && v.targets == []
  {
  }

  lemma SiteOfDirect(g: Graph, d: Edge)
    requires WellFormed(g) && d in g.edges && !g.edges[d].indirect
    ensures d.caller in g.nodes
    ensures var v := SiteIn(g, d.caller, g.edges[d].stmt);
      && Entry(d, g.edges[d]) in v.targets
      && if g.edges[d].speculative then SpeculativeSite(v)
         else PlainSite(v) && v.targets == [Entry(d, g.edges[d])] && v.indirects == []
  {
    assert EdgeOK(g, d);
    var v := SiteIn(g, d.caller, g.edges[d].stmt);
    AtEntries(g.nodes[d.caller].callees, g.edges, g.edges[d].stmt);
    assert Entry(d, g.edges[d]) in v.targets;
    assert SiteOK(v);
  }

  lemma TargetGone(v: Site, e: Entry)
    requires SiteOK(v) && e in v.targets
    requires forall i, j | 0 <= i < j < |v.targets| :: v.targets[i].edge != v.targets[j].edge
    ensures SiteOK(v.(targets := Minus(v.targets, e.edge))) <==> !e.rec.speculative
  {
    var k :| 0 <= k < |v.targets| && v.targets[k] == e;
    MinusIsSlice(v.targets, k);
    assert |Minus(v.targets, e.edge)| == |v.targets| - 1;
    if SpeculativeSite(v) {
      assert v.indirects[0] in v.indirects;
    }
  }

  lemma IndirectGone(v: Site, x: Entry)
    requires SiteOK(v) && v.indirects == [x]
    ensures SiteOK(v.(indirects := [])) <==> !x.rec.speculative
  {
    if SpeculativeSite(v) {
      assert v.targets[0] in v.targets;
    } else {
      assert x in v.indirects;
    }
  }

  /** What cgraph_edge::remove leaves is well formed exactly if the edge was not speculative. */
  lemma RemoveKeeps(g: Graph, e: Edge)
    requires WellFormed(g) && e in g.edges
    ensures Live(g, e)
    ensures WellFormed(Remove(g, e)) <==> !g.edges[e].speculative
  {
    hide RefsLive, RefsKept, Remove, NoDup, At, SiteOK, SiteIn;
    assert EdgeOK(g, e);
    var n, t := e.caller, g.edges[e].stmt;
    assert NodeOK(n, g.nodes[n], g.edges) && Adjacent(g, n);
    RemoveLists(g, e, {});
    RemoveSite(g, e);
    ChangesKeeps(g, Remove(g, e), n, t, SiteIn(Remove(g, e), n, t));
    RemoveRefs(g, e);
    KeptIsLive(g, Remove(g, e));
    SiteWithout(g, e);
  }

  lemma SiteWithout(g: Graph, e: Edge)
    requires WellFormed(g) && e in g.edges && e.caller in g.nodes
    ensures var v := SiteIn(g, e.caller, g.edges[e].stmt);
      var v' := if g.edges[e].indirect then v.(indirects := Minus(v.indirects, e)) else v.(targets := Minus(v.targets, e));
      SiteOK(v') <==> !g.edges[e].speculative
  {
    hide RefsLive, At;
    var n, t := e.caller, g.edges[e].stmt;
    var v := SiteIn(g, n, t);
    if g.edges[e].indirect {
      SiteOfIndirect(g, e);
      IndirectGone(v, Entry(e, g.edges[e]));
      assert Minus(v.indirects, e) == [];
    } else {
      assert NodeOK(n, g.nodes[n], g.edges);
      SiteOfDirect(g, e);
      AtNoDup(g.nodes[n].callees, g.edges, t);
      TargetGone(v, Entry(e, g.edges[e]));
    }
  }

  // ---------- making a call speculative ----------

  lemma CompleteButTwo(g: Graph, d: Edge, x: Edge)
    requires CompleteExcept(g, {d, x}) && d in g.edges && x in g.edges && EdgeOK(g, d) && EdgeOK(g, x)
    ensures Complete(g)
  {
  }

  /** Any two edges may get new fields that keep what the lists depend on. */
  lemma SetTwoRecsLists(g: Graph, d: Edge, rd: EdgeRec, x: Edge, rx: EdgeRec)
    requires ListsOK(g) && Complete(g) && d in g.edges && x in g.edges && d != x
    requires rd.callee == g.edges[d].callee && rd.indirect == g.edges[d].indirect
    requires rd.info.Some? == g.edges[d].info.Some?
    requires rx.callee == g.edges[x].callee && rx.indirect == g.edges[x].indirect
    requires rx.info.Some? == g.edges[x].info.Some?
    ensures ListsOK(SetRec(SetRec(g, d, rd), x, rx)) && Complete(SetRec(SetRec(g, d, rd), x, rx))
  {
    SetRecLists(g, d, rd, {});
    SetRecLists(SetRec(g, d, rd), x, rx, {d});
    assert EdgeOK(g, d) && EdgeOK(g, x);
    var g' := SetRec(SetRec(g, d, rd), x, rx);
    assert CompleteExcept(g', {d, x});
    CompleteButTwo(g', d, x);
  }

  lemma MarkTargetLists(g: Graph, x: Edge, d: Edge, id: nat)
    requires ListsOK(g) && Complete(g) && x in g.edges && d in g.edges
    requires g.edges[x].indirect && !g.edges[d].indirect && d.caller == x.caller
    ensures d.caller in g.nodes && g.edges[d].callee != null
    ensures ListsOK(MarkTarget(g, x, d, id)) && Complete(MarkTarget(g, x, d, id))
  {
    assert EdgeOK(g, x) && EdgeOK(g, d);
    var r := g.edges[d];
    var rd := r.(speculative := true, speculativeId := id);
    var rx := GainTarget(g.edges[x], r.count);
    SetTwoRecsLists(g, d, rd, x, rx);
    var g2 := SetRec(SetRec(g, d, rd), x, rx);
    SetRefsLists(g2, d.caller, g.nodes[d.caller].refs + [Ref(r.callee, r.stmt, true, id)], {});
  }

  lemma PutLacks(s: seq<Entry>, e: Edge, r: EdgeRec, x: Edge)
    requires Lacks(s, x)
    ensures Lacks(Put(s, e, r), x)
  {
    forall y | y in Put(s, e, r) ensures y.edge != x {
      var i :| 0 <= i < |s| && Put(s, e, r)[i] == y;
      assert s[i] in s;
    }
  }

  /** New fields for a direct edge d and the indirect edge x of the same site. */
  lemma SetTwoRecsSite(g: Graph, d: Edge, rd: EdgeRec, x: Edge, rx: EdgeRec)
    requires ListsOK(g) && d in g.edges && x in g.edges && d != x && d.caller == x.caller && d.caller in g.nodes
    requires d !in g.nodes[d.caller].indirects && x !in g.nodes[d.caller].callees
    requires rd.stmt == g.edges[d].stmt && rx.stmt == rd.stmt && g.edges[x].stmt == rd.stmt
    requires rd.callee == g.edges[d].callee && rx.callee == g.edges[x].callee
    requires ListsOK(SetRec(SetRec(g, d, rd), x, rx))
    ensures var v := SiteIn(g, d.caller, rd.stmt);
      Changes(g, SetRec(SetRec(g, d, rd), x, rx), d.caller, rd.stmt,
              Site(Put(v.targets, d, rd), Put(v.indirects, x, rx), v.refs))
    ensures Adjacent(g, d.caller) ==> Adjacent(SetRec(SetRec(g, d, rd), x, rx), d.caller)
  {
    var n, t := d.caller, rd.stmt;
    var v := SiteIn(g, n, t);
    var g1 := SetRec(g, d, rd);
    assert forall m | m in g.nodes :: NodeOK(m, g.nodes[m], g.edges) ==> NodeOK(m, g1.nodes[m], g1.edges);
    SetRecSite(g, d, rd);
    SetRecSite(g1, x, rx);
    AtLacks(g.nodes[n].indirects, g.edges, t, d);
    AtLacks(g.nodes[n].callees, g.edges, t, x);
    PutAbsent(v.indirects, d, rd);
    PutLacks(v.targets, d, rd, x);
    PutAbsent(Put(v.targets, d, rd), x, rx);
    ChangesCompose(g, g1, SetRec(g1, x, rx), n, t, Site(Put(v.targets, d, rd), v.indirects, v.refs),
                   Site(Put(v.targets, d, rd), Put(v.indirects, x, rx), v.refs));
  }

  lemma AppendRefSite(g: Graph, n: Node, r: Ref)
    requires ListsOK(g) && n in g.nodes && r.speculative
    requires ListsOK(SetRefs(g, n, g.nodes[n].refs + [r]))
    ensures var v := SiteIn(g, n, r.stmt);
      Changes(g, SetRefs(g, n, g.nodes[n].refs + [r]), n, r.stmt, v.(refs := v.refs + [r]))
    ensures Adjacent(g, n) ==> Adjacent(SetRefs(g, n, g.nodes[n].refs + [r]), n)
  {
    var refs := g.nodes[n].refs;
    forall s: Stmt
      ensures RefsAt(refs + [r], s) == RefsAt(refs, s) + if s == r.stmt then [r] else []
    {
      RefsAtConcat(refs, [r], s);
      AtHeadRef([r], s);
    }
    SetRefsSite(g, n, refs + [r], r.stmt);
  }

  lemma PutHead(e: Edge, r: EdgeRec, rest: seq<Entry>, r': EdgeRec)
    requires Lacks(rest, e)
    ensures Put([Entry(e, r)] + rest, e, r') == [Entry(e, r')] + rest
  {
    PutAbsent(rest, e, r');
    assert forall i | 0 <= i < |rest| :: Put(rest, e, r')[i] == rest[i];
  }

  lemma MarkTargetSite(g: Graph, x: Edge, d: Edge, id: nat, targets: seq<Entry>)
    requires ListsOK(g) && x in g.edges && d in g.edges && d != x
    requires d.caller == x.caller && d.caller in g.nodes
    requires d !in g.nodes[d.caller].indirects && x !in g.nodes[d.caller].callees
    requires g.edges[x].stmt == g.edges[d].stmt
    requires var v := SiteIn(g, d.caller, g.edges[d].stmt);
      && v.indirects == [Entry(x, g.edges[x])] && v.targets == [Entry(d, g.edges[d])] + targets
    requires Lacks(targets, d)
    requires g.edges[d].callee != null && ListsOK(MarkTarget(g, x, d, id))
    ensures var r := g.edges[d];
      var rd := r.(speculative := true, speculativeId := id);
      var v := SiteIn(g, d.caller, r.stmt);
      Changes(g, MarkTarget(g, x, d, id), d.caller, r.stmt,
              Site([Entry(d, rd)] + targets, [Entry(x, GainTarget(g.edges[x], r.count))],
                   v.refs + [Ref(r.callee, r.stmt, true, id)]))
  {
    var r, n, t := g.edges[d], d.caller, g.edges[d].stmt;
    var rd := r.(speculative := true, speculativeId := id);
    var rx := GainTarget(g.edges[x], r.count);
    var g2 := SetRec(SetRec(g, d, rd), x, rx);
    var ref := Ref(r.callee, t, true, id);
    SetRefsOnlyRefs(g2, n, g.nodes[n].refs + [ref]);
    SetTwoRecsSite(g, d, rd, x, rx);
    PutHead(d, r, targets, rd);
    PutHead(x, g.edges[x], [], rx);
    assert [Entry(x, g.edges[x])] + [] == [Entry(x, g.edges[x])];
    AppendRefSite(g2, n, ref);
    ChangesCompose(g, g2, MarkTarget(g, x, d, id), n, t, SiteIn(g2, n, t), SiteIn(MarkTarget(g, x, d, id), n, t));
  }

  lemma SetRefsOnlyRefs(g: Graph, n: Node, refs: seq<Ref>)
    requires n in g.nodes
    ensures ListsOK(SetRefs(g, n, refs)) <==> ListsOK(g)
  {
    var g' := SetRefs(g, n, refs);
    if ListsOK(g) {
      forall m | m in g'.nodes ensures NodeOK(m, g'.nodes[m], g'.edges) {
        assert NodeOK(m, g.nodes[m], g.edges);
      }
    }
    if ListsOK(g') {
      forall m | m in g.nodes ensures NodeOK(m, g.nodes[m], g.edges) {
        assert NodeOK(m, g'.nodes[m], g'.edges);
      }
    }
  }

  lemma MakeSpeculativeLists(g: Graph, x: Edge, d: Edge, target: Node, count: int, id: nat)
    requires ListsOK(g) && Complete(g) && x in g.edges && g.edges[x].indirect
    requires x.caller in g.nodes && d !in g.edges && d.caller == x.caller && target in g.nodes
    ensures ListsOK(MakeSpeculative(g, x, d, target, count, id))
    ensures Complete(MakeSpeculative(g, x, d, target, count, id))
  {
    CreateEdgeLists(g, d, target, g.edges[x].stmt, count);
    MarkTargetLists(CreateEdge(g, d, target, g.edges[x].stmt, count), x, d, id);
  }

  ghost function SpeculatedSite(v: Site, x: Edge, r: EdgeRec, d: Edge, target: Node, count: int, id: nat): Site {
    Site([Entry(d, EdgeRec(target, r.stmt, true, false, id, count, None))] + v.targets,
         [Entry(x, r.(speculative := true, info := Some(|v.targets| + 1), count := r.count - count))],
         v.refs + [Ref(target, r.stmt, true, id)])
  }

  lemma CreateEdgeFacts(g: Graph, d: Edge, target: Node, t: Stmt, count: int, x: Edge)
    requires ListsOK(g) && d !in g.edges && d.caller in g.nodes && target in g.nodes
    requires x in g.edges && EdgeOK(g, x) && g.edges[x].indirect && x.caller == d.caller
    ensures var g1 := CreateEdge(g, d, target, t, count);
      && g1.edges[x] == g.edges[x] && x != d && d in g1.edges
      && g1.edges[d] == EdgeRec(target, t, false, false, 0, count, None)
      && d.caller in g1.nodes
      && d !in g1.nodes[d.caller].indirects && x !in g1.nodes[d.caller].callees
  {
    assert NodeOK(d.caller, g.nodes[d.caller], g.edges);
  }

  lemma MakeSpeculativeSite(g: Graph, x: Edge, d: Edge, target: Node, count: int, id: nat)
    requires WellFormed(g) && x in g.edges && g.edges[x].indirect
    requires x.caller in g.nodes && d !in g.edges && d.caller == x.caller && target in g.nodes
    requires ListsOK(CreateEdge(g, d, target, g.edges[x].stmt, count))
    requires ListsOK(MakeSpeculative(g, x, d, target, count, id))
    ensures var r := g.edges[x];
      Changes(g, MakeSpeculative(g, x, d, target, count, id), x.caller, r.stmt,
              SpeculatedSite(SiteIn(g, x.caller, r.stmt), x, r, d, target, count, id))
  {
    hide Changes, Adjacent, EdgeOK, NoDup, At;
    var t := g.edges[x].stmt;
    assert EdgeOK(g, x);
    SiteOfIndirect(g, x);
    CreateEdgeSite(g, d, target, t, count);
    CreateEdgeFacts(g, d, target, t, count, x);
    assert NodeOK(x.caller, g.nodes[x.caller], g.edges);
    AtLacks(g.nodes[x.caller].callees, g.edges, t, d);
    MakeSpeculativeSiteFrom(g, CreateEdge(g, d, target, t, count), x, d, target, count, id);
  }

  lemma MakeSpeculativeSiteFrom(g: Graph, g1: Graph, x: Edge, d: Edge, target: Node, count: int, id: nat)
    requires ListsOK(g) && ListsOK(g1) && x in g.edges && x in g1.edges && d in g1.edges && d != x
    requires d.caller == x.caller && d.caller in g.nodes && d.caller in g1.nodes
    requires g1.edges[x] == g.edges[x]
    requires g1.edges[d] == EdgeRec(target, g.edges[x].stmt, false, false, 0, count, None)
    requires d !in g1.nodes[d.caller].indirects && x !in g1.nodes[d.caller].callees
    requires ListsOK(MarkTarget(g1, x, d, id))
    requires var v := SiteIn(g, x.caller, g.edges[x].stmt);
      && v.indirects == [Entry(x, g.edges[x])]
      && g.edges[x].NumTargets() == |v.targets|
      && Lacks(v.targets, d)
      && Changes(g, g1, x.caller, g.edges[x].stmt, v.(targets := [Entry(d, g1.edges[d])] + v.targets))
    ensures var r := g.edges[x];
      Changes(g, MarkTarget(g1, x, d, id), x.caller, r.stmt,
              SpeculatedSite(SiteIn(g, x.caller, r.stmt), x, r, d, target, count, id))
  {
    var n, t := x.caller, g.edges[x].stmt;
    var v := SiteIn(g, n, t);
    MarkTargetSite(g1, x, d, id, v.targets);
    ChangesCompose(g, g1, MarkTarget(g1, x, d, id), n, t, SiteIn(g1, n, t),
                   SpeculatedSite(v, x, g.edges[x], d, target, count, id));
  }

  /** An id can be given to a further target of the site. */
  ghost predicate FreshId(v: Site, id: nat) {
    id < MaxTargets && forall e | e in v.targets :: e.rec.speculativeId != id
  }

  /** The site has no target yet, or its first target heads the caller's list. */
  ghost predicate TargetsInFront(g: Graph, n: Node, t: Stmt)
    requires ListsOK(g) && n in g.nodes
  {
    SiteIn(g, n, t).targets == [] || g.edges[g.nodes[n].callees[0]].stmt == t
  }

  lemma IdsGrow(s: seq<Entry>, e: Entry, refs: seq<Ref>, r: Ref)
    requires NoDup(TargetIds(s)) && multiset(TargetIds(s)) == multiset(RefIds(refs))
    requires r.speculativeId == e.rec.speculativeId
    ensures NoDup(TargetIds([e] + s)) <==> forall x | x in s :: x.rec.speculativeId != e.rec.speculativeId
    ensures multiset(TargetIds([e] + s)) == multiset(RefIds(refs + [r]))
  {
    var ids, ids' := TargetIds(s), TargetIds([e] + s);
    assert ids' == [e.rec.speculativeId] + ids;
    assert RefIds(refs + [r]) == RefIds(refs) + [r.speculativeId];
    if forall x | x in s :: x.rec.speculativeId != e.rec.speculativeId {
      forall i, j | 0 <= i < j < |ids'| ensures ids'[i] != ids'[j] {
        assert s[j - 1] in s;
      }
    } else {
      var x :| x in s && x.rec.speculativeId == e.rec.speculativeId;
      var k :| 0 <= k < |s| && s[k] == x;
      assert ids'[0] == ids'[k + 1];
    }
  }

  lemma SpeculatedSiteOK(v: Site, x: Edge, r: EdgeRec, d: Edge, target: Node, count: int, id: nat)
    requires SiteOK(v) && v.indirects == [Entry(x, r)]
    ensures SiteOK(SpeculatedSite(v, x, r, d, target, count, id)) <==> FreshId(v, id)
  {
    var v' := SpeculatedSite(v, x, r, d, target, count, id);
    var e := v'.targets[0];
    assert v.targets == [] ==> TargetIds(v.targets) == [] && RefIds(v.refs) == [];
    IdsGrow(v.targets, e, v.refs, Ref(target, r.stmt, true, id));
    assert e in v'.targets && forall y | y in v.targets :: y in v'.targets;
    assert |v'.targets| == |v.targets| + 1;
    assert forall y | y in v'.targets :: y == e || y in v.targets;
  }

  lemma SpeculatedAdjacent(g: Graph, x: Edge, d: Edge, target: Node, count: int, id: nat)
    requires WellFormed(g) && x in g.edges && g.edges[x].indirect
    requires x.caller in g.nodes && d !in g.edges && d.caller == x.caller && target in g.nodes
    requires ListsOK(MakeSpeculative(g, x, d, target, count, id))
    ensures Adjacent(MakeSpeculative(g, x, d, target, count, id), x.caller)
      <==> TargetsInFront(g, x.caller, g.edges[x].stmt)
  {
    var g', n := MakeSpeculative(g, x, d, target, count, id), x.caller;
    var r := g.nodes[n];
    assert NodeOK(n, r, g.edges) && EdgeOK(g, x) && Adjacent(g, n);
    assert g'.nodes[n].callees == [d] + r.callees;
    PushAdjacent(r.callees, g.edges, d, g'.edges);
  }

  /** A further target keeps the graph well formed exactly if its id is new at the site and the
      targets the site already has stand at the front of the caller's list. */
  lemma MakeSpeculativeKeeps(g: Graph, x: Edge, d: Edge, target: Node, count: int, id: nat)
    requires WellFormed(g) && x in g.edges && g.edges[x].indirect
    requires x.caller in g.nodes && d !in g.edges && d.caller == x.caller && target in g.nodes
    ensures WellFormed(MakeSpeculative(g, x, d, target, count, id))
      <==> FreshId(SiteIn(g, x.caller, g.edges[x].stmt), id) && TargetsInFront(g, x.caller, g.edges[x].stmt)
  {
    MakeSpeculativeRefs(g, x, d, target, count, id);
    hide RefsLive, MakeSpeculative;
    var g', n, r := MakeSpeculative(g, x, d, target, count, id), x.caller, g.edges[x];
    var v := SiteIn(g, n, r.stmt);
    MakeSpeculativeLists(g, x, d, target, count, id);
    CreateEdgeLists(g, d, target, r.stmt, count);
    MakeSpeculativeSite(g, x, d, target, count, id);
    SiteOfIndirect(g, x);
    assert SiteOK(v) && Adjacent(g, n);
    assert NodeOK(n, g.nodes[n], g.edges) && EdgeOK(g, x);
    ChangesKeeps(g, g', n, r.stmt, SpeculatedSite(v, x, r, d, target, count, id));
    SpeculatedSiteOK(v, x, r, d, target, count, id);
    SpeculatedAdjacent(g, x, d, target, count, id);
  }

  // ---------- resolving a speculation ----------

  lemma DropRefSite(g: Graph, n: Node, t: Stmt, id: nat)
    requires ListsOK(g) && n in g.nodes
    requires ListsOK(SetRefs(g, n, DropRef(g.nodes[n].refs, t, id)))
    ensures var v := SiteIn(g, n, t);
      Changes(g, SetRefs(g, n, DropRef(g.nodes[n].refs, t, id)), n, t, v.(refs := DropRef(v.refs, t, id)))
    ensures Adjacent(g, n) ==> Adjacent(SetRefs(g, n, DropRef(g.nodes[n].refs, t, id)), n)
  {
    var refs := g.nodes[n].refs;
    forall s: Stmt
      ensures RefsAt(DropRef(refs, t, id), s) == if s == t then DropRef(RefsAt(refs, t), t, id) else RefsAt(refs, s)
    {
      RefsAtDrop(refs, t, id, s);
      if s != t {
        RefsAtEntries(refs, s);
        DropRefAbsent(RefsAt(refs, s), t, id);
      }
    }
    SetRefsSite(g, n, DropRef(refs, t, id), t);
  }

  /** The site after its target d is given up and indirect edge x takes over the count. */
  ghost function LostSite(v: Site, d: Edge, rd: EdgeRec, x: Edge, rx: EdgeRec): Site {
    Site(Minus(v.targets, d), [Entry(x, LoseTarget(rx, rd.count))], DropRef(v.refs, rd.stmt, rd.speculativeId))
  }

  /** The site after its target d proved right and took over the count of the indirect edge. */
  ghost function WonSite(v: Site, d: Edge, rd: EdgeRec, rx: EdgeRec): Site {
    Site(Put(v.targets, d, Won(rd, rx.count)), [],
         DropRef(v.refs, rd.stmt, rd.speculativeId))
  }

  /** A record update of edge c, the loss of a reference and the removal of edge e, at one site. */
  lemma UpdateAndRemoveSite(g: Graph, g1: Graph, g2: Graph, c: Edge, rc: EdgeRec, e: Edge, id: nat)
    requires ListsOK(g) && c in g.edges && e in g.edges && c != e && c.caller == e.caller && c.caller in g.nodes
    requires rc.stmt == g.edges[c].stmt == g.edges[e].stmt
    requires g1 == SetRec(g, c, rc) && ListsOK(g1)
    requires g2 == SetRefs(g1, c.caller, DropRef(g.nodes[c.caller].refs, rc.stmt, id)) && ListsOK(g2)
    requires Live(g2, e) && ListsOK(Remove(g2, e))
    ensures var v := SiteIn(g, c.caller, rc.stmt);
      var v1 := Site(Put(v.targets, c, rc), Put(v.indirects, c, rc), DropRef(v.refs, rc.stmt, id));
      Changes(g, Remove(g2, e), c.caller, rc.stmt,
              if g.edges[e].indirect then v1.(indirects := Minus(v1.indirects, e))
              else v1.(targets := Minus(v1.targets, e)))
    ensures Adjacent(g, c.caller) ==> Adjacent(Remove(g2, e), c.caller)
  {
    var n, t := c.caller, rc.stmt;
    SetRecSite(g, c, rc);
    DropRefSite(g1, n, t, id);
    ChangesCompose(g, g1, g2, n, t, SiteIn(g1, n, t), SiteIn(g2, n, t));
    RemoveSite(g2, e);
    ChangesCompose(g, g2, Remove(g2, e), n, t, SiteIn(g2, n, t), SiteIn(Remove(g2, e), n, t));
  }

  lemma UpdateAndRemoveLists(g: Graph, g1: Graph, g2: Graph, c: Edge, rc: EdgeRec, e: Edge, id: nat)
    requires ListsOK(g) && Complete(g) && c in g.edges && e in g.edges && c != e && c.caller == e.caller
    requires rc.callee == g.edges[c].callee && rc.indirect == g.edges[c].indirect
    requires rc.info.Some? == g.edges[c].info.Some?
    ensures c.caller in g.nodes
    requires g1 == SetRec(g, c, rc)
    requires c.caller in g.nodes
    requires g2 == SetRefs(g1, c.caller, DropRef(g.nodes[c.caller].refs, rc.stmt, id))
    ensures ListsOK(g1) && ListsOK(g2) && Live(g2, e) && ListsOK(Remove(g2, e)) && Complete(Remove(g2, e))
  {
    assert EdgeOK(g, c) && EdgeOK(g, e);
    SetRecLists(g, c, rc, {});
    assert EdgeOK(g1, c);
    CompleteButOne(g1, c);
    SetRefsLists(g1, c.caller, DropRef(g.nodes[c.caller].refs, rc.stmt, id), {});
    assert EdgeOK(g2, e) && NodeOK(e.caller, g2.nodes[e.caller], g2.edges);
    RemoveLists(g2, e, {});
  }

  /** d is a target of the speculative call whose indirect edge is x. */
  ghost predicate SameCall(g: Graph, d: Edge, x: Edge) {
    && d in g.edges && g.edges[d].speculative && !g.edges[d].indirect
    && x in g.edges && g.edges[x].indirect && x.caller == d.caller && g.edges[x].stmt == g.edges[d].stmt
  }

  ghost predicate CallFacts(g: Graph, d: Edge, x: Edge)
    requires ListsOK(g) && SameCall(g, d, x)
  {
    && Live(g, d) && Live(g, x) && d != x && d.caller in g.nodes && Adjacent(g, d.caller)
    && var v := SiteIn(g, d.caller, g.edges[d].stmt);
       && v.indirects == [Entry(x, g.edges[x])] && SpeculativeSite(v) && Entry(d, g.edges[d]) in v.targets
       && Lacks(v.targets, x)
       && RefsOfStmt(v, g.edges[d].stmt)
  }

  lemma SameCallFacts(g: Graph, d: Edge, x: Edge)
    requires WellFormed(g) && SameCall(g, d, x)
    ensures CallFacts(g, d, x)
  {
    assert EdgeOK(g, d) && EdgeOK(g, x) && NodeOK(d.caller, g.nodes[d.caller], g.edges);
    SiteOfIndirect(g, x);
    SiteOfDirect(g, d);
    AtLacks(g.nodes[d.caller].callees, g.edges, g.edges[d].stmt, x);
    RefsAtEntries(g.nodes[d.caller].refs, g.edges[d].stmt);
  }

  lemma DropTargetLists(g: Graph, d: Edge, x: Edge)
    requires ListsOK(g) && Complete(g) && SameCall(g, d, x) && CallFacts(g, d, x)
    ensures ListsOK(DropTarget(g, d, x)) && Complete(DropTarget(g, d, x))
  {
    var r, n := g.edges[d], d.caller;
    assert EdgeOK(g, x);
    var rx := LoseTarget(g.edges[x], r.count);
    var g1 := SetRec(g, x, rx);
    var g2 := SetRefs(g1, n, DropRef(g.nodes[n].refs, r.stmt, r.speculativeId));
    UpdateAndRemoveLists(g, g1, g2, x, rx, d, r.speculativeId);
  }

  lemma DropTargetSite(g: Graph, d: Edge, x: Edge)
    requires ListsOK(g) && Complete(g) && SameCall(g, d, x) && CallFacts(g, d, x)
    requires ListsOK(DropTarget(g, d, x))
    ensures var t := g.edges[d].stmt;
      Changes(g, DropTarget(g, d, x), d.caller, t,
              LostSite(SiteIn(g, d.caller, t), d, g.edges[d], x, g.edges[x]))
    ensures Adjacent(DropTarget(g, d, x), d.caller)
  {
    var r, n, t := g.edges[d], d.caller, g.edges[d].stmt;
    var rx := LoseTarget(g.edges[x], r.count);
    var g1 := SetRec(g, x, rx);
    var g2 := SetRefs(g1, n, DropRef(g.nodes[n].refs, t, r.speculativeId));
    SetRecLists(g, x, rx, {});
    SetRefsOnlyRefs(g1, n, DropRef(g.nodes[n].refs, t, r.speculativeId));
    UpdateAndRemoveSite(g, g1, g2, x, rx, d, r.speculativeId);
    LostSiteForm(SiteIn(g, n, t), d, r, x, g.edges[x]);
  }

  lemma LostSiteForm(v: Site, d: Edge, rd: EdgeRec, x: Edge, rx: EdgeRec)
    requires v.indirects == [Entry(x, rx)] && Lacks(v.targets, x)
    ensures var rx' := LoseTarget(rx, rd.count);
      Site(Minus(Put(v.targets, x, rx'), d), Put(v.indirects, x, rx'), DropRef(v.refs, rd.stmt, rd.speculativeId))
        == LostSite(v, d, rd, x, rx)
  {
    PutAbsent(v.targets, x, LoseTarget(rx, rd.count));
  }

  lemma KeepTargetLists(g: Graph, d: Edge, x: Edge)
    requires ListsOK(g) && Complete(g) && SameCall(g, d, x) && CallFacts(g, d, x)
    ensures ListsOK(KeepTarget(g, d, x)) && Complete(KeepTarget(g, d, x))
  {
    var r, n := g.edges[d], d.caller;
    assert EdgeOK(g, d);
    var rd := Won(r, g.edges[x].count);
    var g1 := SetRec(g, d, rd);
    var g2 := SetRefs(g1, n, DropRef(g.nodes[n].refs, r.stmt, r.speculativeId));
    UpdateAndRemoveLists(g, g1, g2, d, rd, x, r.speculativeId);
  }

  lemma KeepTargetSite(g: Graph, d: Edge, x: Edge)
    requires ListsOK(g) && Complete(g) && SameCall(g, d, x) && CallFacts(g, d, x)
    requires ListsOK(KeepTarget(g, d, x))
    ensures var t := g.edges[d].stmt;
      Changes(g, KeepTarget(g, d, x), d.caller, t, WonSite(SiteIn(g, d.caller, t), d, g.edges[d], g.edges[x]))
    ensures Adjacent(KeepTarget(g, d, x), d.caller)
  {
    var r, n, t := g.edges[d], d.caller, g.edges[d].stmt;
    var rd := Won(r, g.edges[x].count);
    var g1 := SetRec(g, d, rd);
    var g2 := SetRefs(g1, n, DropRef(g.nodes[n].refs, t, r.speculativeId));
    SetRecLists(g, d, rd, {});
    SetRefsOnlyRefs(g1, n, DropRef(g.nodes[n].refs, t, r.speculativeId));
    UpdateAndRemoveSite(g, g1, g2, d, rd, x, r.speculativeId);
    WonSiteForm(SiteIn(g, n, t), d, r, x, g.edges[x]);
  }

  lemma WonSiteForm(v: Site, d: Edge, rd: EdgeRec, x: Edge, rx: EdgeRec)
    requires v.indirects == [Entry(x, rx)] && d != x
    ensures var rd' := Won(rd, rx.count);
      Site(Put(v.targets, d, rd'), Minus(Put(v.indirects, d, rd'), x), DropRef(v.refs, rd.stmt, rd.speculativeId))
        == WonSite(v, d, rd, rx)
  {
    PutAbsent(v.indirects, d, Won(rd, rx.count));
  }

  lemma IdsShrink(s: seq<Entry>, k: nat, refs: seq<Ref>, t: Stmt)
    requires k < |s| && NoDup(TargetIds(s)) && multiset(TargetIds(s)) == multiset(RefIds(refs))
    requires forall r | r in refs :: r.speculative && r.stmt == t
    ensures var s', refs' := s[..k] + s[k + 1..], DropRef(refs, t, s[k].rec.speculativeId);
      && NoDup(TargetIds(s')) && multiset(TargetIds(s')) == multiset(RefIds(refs'))
      && |refs'| == |s| - 1
  {
    hide TargetIds, RefIds;
    var id := s[k].rec.speculativeId;
    var ids, rids := TargetIds(s), RefIds(refs);
    assert |multiset(rids)| == |rids| && |multiset(ids)| == |ids|;
    assert ids[k] == id && id in multiset(ids);
    assert id in rids;
    var j := FirstRef(refs, t, id);
    DropRefIsSlice(refs, j, t, id);
    TargetIdsSlice(s, k);
    RefIdsSlice(refs, j);
    SliceMultiset(ids, k);
    SliceMultiset(rids, j);
    SliceNoDup(ids, k);
  }

  lemma TargetIdsSlice(s: seq<Entry>, k: nat)
    requires k < |s|
    ensures TargetIds(s[..k] + s[k + 1..]) == TargetIds(s)[..k] + TargetIds(s)[k + 1..]
  {
    var a, b := TargetIds(s[..k] + s[k + 1..]), TargetIds(s)[..k] + TargetIds(s)[k + 1..];
    assert |a| == |b| && forall i | 0 <= i < |a| :: a[i] == b[i];
  }

  lemma RefIdsSlice(s: seq<Ref>, k: nat)
    requires k < |s|
    ensures RefIds(s[..k] + s[k + 1..]) == RefIds(s)[..k] + RefIds(s)[k + 1..]
  {
    var a, b := RefIds(s[..k] + s[k + 1..]), RefIds(s)[..k] + RefIds(s)[k + 1..];
    assert |a| == |b| && forall i | 0 <= i < |a| :: a[i] == b[i];
  }

  lemma SliceNoDup(s: seq<nat>, k: nat)
    requires k < |s| && NoDup(s)
    ensures NoDup(s[..k] + s[k + 1..])
  {
    var u := s[..k] + s[k + 1..];
    forall i, j | 0 <= i < j < |u| ensures u[i] != u[j] {
      assert u[i] == (if i < k then s[i] else s[i + 1]) && u[j] == (if j < k then s[j] else s[j + 1]);
    }
  }

  lemma SliceMultiset(s: seq<nat>, k: nat)
    requires k < |s|
    ensures multiset(s[..k] + s[k + 1..]) == multiset(s) - multiset{s[k]}
  {
    assert s == s[..k] + [s[k]] + s[k + 1..];
  }

  lemma FirstRef(refs: seq<Ref>, t: Stmt, id: nat) returns (j: nat)
    requires id in RefIds(refs)
    requires forall r | r in refs :: r.speculative && r.stmt == t
    ensures j < |refs| && Pairs(refs[j], t, id)
    ensures forall i | 0 <= i < j :: !Pairs(refs[i], t, id)
  {
    j := 0;
    var k :| 0 <= k < |refs| && RefIds(refs)[k] == id;
    while !Pairs(refs[j], t, id)
      invariant j <= k
      invariant forall i | 0 <= i < j :: !Pairs(refs[i], t, id)
      decreases k - j
    {
      j := j + 1;
    }
  }

  ghost predicate DistinctEdges(s: seq<Entry>) {
    forall i, j | 0 <= i < j < |s| :: s[i].edge != s[j].edge
  }

  lemma SiteDistinct(g: Graph, n: Node, t: Stmt)
    requires ListsOK(g) && n in g.nodes
    ensures DistinctEdges(SiteIn(g, n, t).targets)
  {
    assert NodeOK(n, g.nodes[n], g.edges);
    AtNoDup(g.nodes[n].callees, g.edges, t);
  }

  ghost predicate RefsOfStmt(v: Site, t: Stmt) {
    forall r | r in v.refs :: r.speculative && r.stmt == t
  }

  /** Giving up any one target leaves a well-formed site. */
  lemma LostSiteOK(v: Site, d: Edge, rd: EdgeRec, x: Edge, rx: EdgeRec)
    requires SpeculativeSite(v) && v.indirects == [Entry(x, rx)] && Entry(d, rd) in v.targets
    requires DistinctEdges(v.targets) && RefsOfStmt(v, rd.stmt)
    ensures SiteOK(LostSite(v, d, rd, x, rx))
    ensures |LostSite(v, d, rd, x, rx).targets| == |v.targets| - 1
  {
    hide NoDup;
    var v' := LostSite(v, d, rd, x, rx);
    var k :| 0 <= k < |v.targets| && v.targets[k] == Entry(d, rd);
    MinusIsSlice(v.targets, k);
    IdsShrink(v.targets, k, v.refs, rd.stmt);
    assert |v'.targets| == |v.targets| - 1;
    assert forall y | y in v'.targets :: y in v.targets;
  }

  /** Keeping one target leaves a well-formed site exactly if it was the only one. */
  lemma WonSiteOK(v: Site, d: Edge, rd: EdgeRec, x: Edge, rx: EdgeRec)
    requires SpeculativeSite(v) && v.indirects == [Entry(x, rx)] && Entry(d, rd) in v.targets
    requires DistinctEdges(v.targets) && RefsOfStmt(v, rd.stmt)
    ensures SiteOK(WonSite(v, d, rd, rx)) <==> |v.targets| == 1
  {
    var v' := WonSite(v, d, rd, rx);
    var k :| 0 <= k < |v.targets| && v.targets[k] == Entry(d, rd);
    assert v'.targets[k].edge == d;
    IdsShrink(v.targets, k, v.refs, rd.stmt);
  }

  /** Resolving a speculation without a matching target always keeps the graph well formed. */
  lemma DropTargetKeeps(g: Graph, d: Edge, x: Edge)
    requires WellFormed(g) && SameCall(g, d, x)
    ensures Live(g, d) && WellFormed(DropTarget(g, d, x))
  {
    hide RefsLive, DropTarget, ListsOK, NodeOK, EdgeOK;
    SameCallFacts(g, d, x);
    var n, t := d.caller, g.edges[d].stmt;
    var v := SiteIn(g, n, t);
    DropTargetLists(g, d, x);
    DropTargetSite(g, d, x);
    SiteDistinct(g, n, t);
    LostSiteOK(v, d, g.edges[d], x, g.edges[x]);
    ChangesKeeps(g, DropTarget(g, d, x), n, t, LostSite(v, d, g.edges[d], x, g.edges[x]));
    DropTargetRefs(g, d, x);
  }

  /** Resolving a speculation with a matching target keeps the graph well formed exactly if no
      other target was left. */
  lemma KeepTargetKeeps(g: Graph, d: Edge, x: Edge)
    requires WellFormed(g) && SameCall(g, d, x)
    ensures Live(g, x) && d != x
    ensures WellFormed(KeepTarget(g, d, x)) <==> g.edges[x].info == Some(1)
  {
    hide RefsLive, KeepTarget, ListsOK, NodeOK, EdgeOK;
    SameCallFacts(g, d, x);
    var n, t := d.caller, g.edges[d].stmt;
    var v := SiteIn(g, n, t);
    KeepTargetLists(g, d, x);
    KeepTargetSite(g, d, x);
    SiteDistinct(g, n, t);
    WonSiteOK(v, d, g.edges[d], x, g.edges[x]);
    ChangesKeeps(g, KeepTarget(g, d, x), n, t, WonSite(v, d, g.edges[d], g.edges[x]));
    KeepTargetRefs(g, d, x);
  }

  // ---------- an indirect call becomes direct ----------

  lemma LinkLists(g: Graph, e: Edge, callee: Node)
    requires ListsOK(g) && CompleteExcept(g, {e}) && e in g.edges && OnNoList(g, e)
    requires e.caller in g.nodes && callee in g.nodes
    requires var r := g.edges[e]; r.callee == callee && !r.indirect && r.info == None
    ensures ListsOK(PushCaller(PushCallee(g, e), callee, e)) && Complete(PushCaller(PushCallee(g, e), callee, e))
  {
    PushCalleeLists(g, e, {e});
    PushCallerLists(PushCallee(g, e), callee, e, {e});
    CompleteButOne(PushCaller(PushCallee(g, e), callee, e), e);
  }

  lemma BecomeDirectLists(g: Graph, x: Edge, callee: Node)
    requires ListsOK(g) && Complete(g) && x in g.edges && g.edges[x].indirect && callee in g.nodes
    ensures x.caller in g.nodes
    ensures ListsOK(BecomeDirect(g, x, callee)) && Complete(BecomeDirect(g, x, callee))
  {
    assert EdgeOK(g, x) && NodeOK(x.caller, g.nodes[x.caller], g.edges);
    var r := Directed(g.edges[x], callee);
    var g1 := PullIndirect(g, x);
    PullIndirectLists(g, x, {});
    OffTheLists(g1, x);
    SetLooseRecLists(g1, x, r);
    LinkLists(SetRec(g1, x, r), x, callee);
  }

  lemma SetLooseRecLists(g: Graph, e: Edge, r: EdgeRec)
    requires ListsOK(g) && CompleteExcept(g, {} + {e}) && e in g.edges && OnNoList(g, e)
    ensures ListsOK(SetRec(g, e, r)) && CompleteExcept(SetRec(g, e, r), {e})
  {
    var g' := SetRec(g, e, r);
    forall n | n in g'.nodes ensures NodeOK(n, g'.nodes[n], g'.edges) {
      assert NodeOK(n, g.nodes[n], g.edges);
    }
    forall y | y in g'.edges && y != e ensures EdgeOK(g', y) {
      assert EdgeOK(g, y);
    }
  }

  lemma BecomeDirectSite(g: Graph, x: Edge, callee: Node)
    requires ListsOK(g) && x in g.edges && x.caller in g.nodes && callee in g.nodes
    requires x !in g.nodes[x.caller].callees && ListsOK(BecomeDirect(g, x, callee))
    ensures var t := g.edges[x].stmt;
      var v := SiteIn(g, x.caller, t);
      Changes(g, BecomeDirect(g, x, callee), x.caller, t,
              Site([Entry(x, Directed(g.edges[x], callee))] + v.targets, Minus(v.indirects, x), v.refs))
  {
    hide EdgeOK, NoDup, Adjacent, At, RefsAt, ListsOK;
    var g', n, t := BecomeDirect(g, x, callee), x.caller, g.edges[x].stmt;
    OtherNodes(g, g', n);
    forall s: Stmt
      ensures var v := SiteIn(g, n, s);
        SiteIn(g', n, s)
          == if s == t then Site([Entry(x, Directed(g.edges[x], callee))] + v.targets, Minus(v.indirects, x), v.refs) else v
    {
      BecomeDirectSiteAt(g, x, callee, s);
    }
  }

  lemma BecomeDirectSiteAt(g: Graph, x: Edge, callee: Node, s: Stmt)
    requires ListsOK(g) && x in g.edges && x.caller in g.nodes && callee in g.nodes
    requires x !in g.nodes[x.caller].callees && ListsOK(BecomeDirect(g, x, callee))
    ensures var v := SiteIn(g, x.caller, s);
      SiteIn(BecomeDirect(g, x, callee), x.caller, s)
        == if s == g.edges[x].stmt then
             Site([Entry(x, Directed(g.edges[x], callee))] + v.targets, Minus(v.indirects, x), v.refs)
           else v
  {
    hide EdgeOK, NoDup, Adjacent, At, RefsAt;
    var g', r := BecomeDirect(g, x, callee), g.nodes[x.caller];
    var v := SiteIn(g, x.caller, s);
    assert NodeOK(x.caller, r, g.edges);
    assert ([x] + r.callees)[1..] == r.callees;
    UnlinkNoDup(r.indirects, x);
    AtHead([x] + r.callees, g'.edges, s);
    AtFrame(r.callees, g.edges, g'.edges, s);
    AtFrame(Unlink(r.indirects, x), g.edges, g'.edges, s);
    AtUnlink(r.indirects, g.edges, x, s);
    if s != g.edges[x].stmt {
      AtLacks(r.indirects, g.edges, s, x);
      MinusAbsent(v.indirects, x);
    }
  }

  ghost function DirectedSite(v: Site, x: Edge, rx: EdgeRec, callee: Node): Site {
    Site([Entry(x, Directed(rx, callee))] + v.targets, Minus(v.indirects, x), v.refs)
  }

  lemma DirectedSiteOK(v: Site, x: Edge, rx: EdgeRec, callee: Node)
    requires SiteOK(v) && v.indirects == [Entry(x, rx)]
    ensures SiteOK(DirectedSite(v, x, rx, callee)) <==> !rx.speculative
  {
    var v' := DirectedSite(v, x, rx, callee);
    assert v'.indirects == [];
    assert v'.targets[0] in v'.targets && v.indirects[0] in v.indirects;
  }

  lemma BecomeDirectAdjacent(g: Graph, x: Edge, callee: Node)
    requires ListsOK(g) && x in g.edges && x.caller in g.nodes && callee in g.nodes
    requires x !in g.nodes[x.caller].callees && ListsOK(BecomeDirect(g, x, callee))
    requires Adjacent(g, x.caller) && SiteIn(g, x.caller, g.edges[x].stmt).targets == []
    ensures Adjacent(BecomeDirect(g, x, callee), x.caller)
  {
    var g', n := BecomeDirect(g, x, callee), x.caller;
    assert NodeOK(n, g.nodes[n], g.edges);
    assert g'.nodes[n].callees == [x] + g.nodes[n].callees;
    PushAdjacent(g.nodes[n].callees, g.edges, x, g'.edges);
  }

  /** Turning an indirect call into a direct one keeps the graph well formed exactly if no
      speculation is pending on it. */
  lemma BecomeDirectKeeps(g: Graph, x: Edge, callee: Node)
    requires WellFormed(g) && x in g.edges && g.edges[x].indirect && callee in g.nodes
    ensures x.caller in g.nodes
    ensures WellFormed(BecomeDirect(g, x, callee)) <==> !g.edges[x].speculative
  {
    hide SiteIn, RefsLive, RefsKept;
    BecomeDirectRefs(g, x, callee);
    KeptIsLive(g, BecomeDirect(g, x, callee));
    assert EdgeOK(g, x) && NodeOK(x.caller, g.nodes[x.caller], g.edges) && Adjacent(g, x.caller);
    var n, t := x.caller, g.edges[x].stmt;
    var v := SiteIn(g, n, t);
    BecomeDirectLists(g, x, callee);
    BecomeDirectSite(g, x, callee);
    SiteOfIndirect(g, x);
    DirectedSiteOK(v, x, g.edges[x], callee);
    ChangesKeeps(g, BecomeDirect(g, x, callee), n, t, DirectedSite(v, x, g.edges[x], callee));
    if !g.edges[x].speculative {
      BecomeDirectAdjacent(g, x, callee);
    }
  }

  lemma RedirectLists(g: Graph, e: Edge, callee: Node)
    requires ListsOK(g) && Complete(g) && e in g.edges && !g.edges[e].indirect && callee in g.nodes
    ensures g.edges[e].callee in g.nodes
    ensures ListsOK(Redirect(g, e, callee)) && Complete(Redirect(g, e, callee))
  {
    hide NodeOK;
    assert EdgeOK(g, e) && NodeOK(e.caller, g.nodes[e.caller], g.edges);
    RetargetLists(g, e, callee);
    PushCallerLists(SetRec(PullCaller(g, g.edges[e].callee, e), e, Retargeted(g.edges[e], callee)), callee, e, {e});
    CompleteButOne(Redirect(g, e, callee), e);
  }

  /** In between, e is on nobody's callers. */
  lemma RetargetLists(g: Graph, e: Edge, callee: Node)
    requires ListsOK(g) && Complete(g) && e in g.edges && !g.edges[e].indirect
    requires e.caller in g.nodes && g.edges[e].callee in g.nodes && callee in g.nodes
    ensures var g2 := SetRec(PullCaller(g, g.edges[e].callee, e), e, Retargeted(g.edges[e], callee));
      ListsOK(g2) && CompleteExcept(g2, {e}) && forall n | n in g2.nodes :: e !in g2.nodes[n].callers
  {
    var g1 := PullCaller(g, g.edges[e].callee, e);
    PullCallerLists(g, g.edges[e].callee, e, {});
    var g2 := SetRec(g1, e, Retargeted(g.edges[e], callee));
    forall n | n in g2.nodes ensures NodeOK(n, g2.nodes[n], g2.edges) && e !in g2.nodes[n].callers {
      assert NodeOK(n, g.nodes[n], g.edges) && NodeOK(n, g1.nodes[n], g1.edges);
    }
    forall y | y in g2.edges && y != e ensures EdgeOK(g2, y) {
      assert EdgeOK(g1, y);
    }
  }

  lemma RedirectSite(g: Graph, e: Edge, callee: Node)
    requires ListsOK(g) && e in g.edges && e.caller in g.nodes && g.edges[e].callee in g.nodes && callee in g.nodes
    requires ListsOK(Redirect(g, e, callee))
    ensures var t, r := g.edges[e].stmt, Retargeted(g.edges[e], callee);
      var v := SiteIn(g, e.caller, t);
      Changes(g, Redirect(g, e, callee), e.caller, t, Site(Put(v.targets, e, r), Put(v.indirects, e, r), v.refs))
    ensures Adjacent(g, e.caller) ==> Adjacent(Redirect(g, e, callee), e.caller)
  {
    hide NodeOK;
    RecordSite(g, Redirect(g, e, callee), e, Retargeted(g.edges[e], callee));
  }

  /** Redirecting the callee of a direct edge, speculative or not, keeps the graph well formed: the
      pairing with the reference goes by id, not by callee. */
  lemma RedirectKeeps(g: Graph, e: Edge, callee: Node)
    requires WellFormed(g) && e in g.edges && !g.edges[e].indirect && callee in g.nodes
    ensures g.edges[e].callee in g.nodes && WellFormed(Redirect(g, e, callee))
  {
    assert EdgeOK(g, e) && NodeOK(e.caller, g.nodes[e.caller], g.edges) && Adjacent(g, e.caller);
    RedirectLists(g, e, callee);
    RedirectSite(g, e, callee);
    SiteOfDirect(g, e);
    var n, t, r := e.caller, g.edges[e].stmt, Retargeted(g.edges[e], callee);
    var v := SiteIn(g, n, t);
    AtLacks(g.nodes[n].indirects, g.edges, t, e);
    PutAbsent(v.indirects, e, r);
    AtEntries(g.nodes[n].callees, g.edges, t);
    assert SiteOK(v);
    PutKeepsSite(v, e, r);
    ChangesKeeps(g, Redirect(g, e, callee), n, t, v.(targets := Put(v.targets, e, r)));
    RedirectRefs(g, e, callee);
    KeptIsLive(g, Redirect(g, e, callee));
  }

  lemma PutKeepsSite(v: Site, e: Edge, r: EdgeRec)
    requires SiteOK(v)
    requires forall y | y in v.targets && y.edge == e ::
      y.rec.speculative == r.speculative && y.rec.speculativeId == r.speculativeId
    ensures SiteOK(v.(targets := Put(v.targets, e, r)))
  {
    var s' := Put(v.targets, e, r);
    assert TargetIds(s') == TargetIds(v.targets) by {
      forall i | 0 <= i < |s'| ensures TargetIds(s')[i] == TargetIds(v.targets)[i] {
        assert v.targets[i] in v.targets;
      }
    }
    forall y | y in s' ensures exists z | z in v.targets ::
      z.rec.speculative == y.rec.speculative && z.rec.speculativeId == y.rec.speculativeId
    {
      var i :| 0 <= i < |s'| && s'[i] == y;
      assert v.targets[i] in v.targets;
    }
  }
}
