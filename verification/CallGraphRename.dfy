/** Giving a call site a new statement: all its edges and references move together. */
module CallGraphRename {
  import opened CallGraphTypes
  import opened CallSites
  import opened CallGraphSteps

  lemma RenameLists(g: Graph, n: Node, t: Stmt, t': Stmt)
    requires ListsOK(g) && Complete(g) && n in g.nodes
    ensures ListsOK(Rename(g, n, t, t')) && Complete(Rename(g, n, t, t'))
  {
    hide EdgeOK, NodeOK;
    var g' := Rename(g, n, t, t');
    RenameNodes(g, n, t, t');
    forall e | e in g'.edges ensures EdgeOK(g', e) {
      RenameEdge(g, n, t, t', e);
    }
  }

  lemma RenameEdge(g: Graph, n: Node, t: Stmt, t': Stmt, e: Edge)
    requires ListsOK(g) && Complete(g) && n in g.nodes && e in g.edges
    ensures e in Rename(g, n, t, t').edges && EdgeOK(Rename(g, n, t, t'), e)
  {
    assert EdgeOK(g, e);
  }

  lemma RenameNodes(g: Graph, n: Node, t: Stmt, t': Stmt)
    requires ListsOK(g) && n in g.nodes
    ensures var g' := Rename(g, n, t, t');
      forall m | m in g'.nodes :: NodeOK(m, g'.nodes[m], g'.edges)
  {
    var g' := Rename(g, n, t, t');
    forall m | m in g'.nodes ensures NodeOK(m, g'.nodes[m], g'.edges) {
      assert NodeOK(m, g.nodes[m], g.edges);
    }
  }

  ghost function RenameEntries(s: seq<Entry>, t': Stmt): (r: seq<Entry>)
    ensures |r| == |s| && forall i | 0 <= i < |s| :: r[i] == Entry(s[i].edge, Renamed(s[i].rec, t'))
  {
    seq(|s|, i requires 0 <= i < |s| => Entry(s[i].edge, Renamed(s[i].rec, t')))
  }

  ghost predicate OwnedBy(s: seq<Edge>, n: Node) {
    forall e | e in s :: e.caller == n
  }

  lemma {:induction false} RenameAway(s: seq<Edge>, edges: map<Edge, EdgeRec>, n: Node, t: Stmt, t': Stmt)
    requires Covers(edges, s) && OwnedBy(s, n) && t != t'
    ensures Covers(RenameEdges(edges, n, t, t'), s)
    ensures At(s, RenameEdges(edges, n, t, t'), t) == []
  {
    if s != [] {
      RenameAway(s[1..], edges, n, t, t');
      AtHead(s, RenameEdges(edges, n, t, t'), t);
    }
  }

  lemma {:induction false} RenameOnto(s: seq<Edge>, edges: map<Edge, EdgeRec>, n: Node, t: Stmt, t': Stmt)
    requires Covers(edges, s) && OwnedBy(s, n) && At(s, edges, t') == []
    ensures Covers(RenameEdges(edges, n, t, t'), s)
    ensures At(s, RenameEdges(edges, n, t, t'), t') == RenameEntries(At(s, edges, t), t')
  {
    if s != [] {
      AtHead(s, edges, t');
      AtHead(s, edges, t);
      AtHead(s, RenameEdges(edges, n, t, t'), t');
      RenameOnto(s[1..], edges, n, t, t');
      if edges[s[0]].stmt == t {
        RenameEntriesHead(Entry(s[0], edges[s[0]]), At(s[1..], edges, t), t');
      }
    }
  }

  lemma RenameEntriesHead(e: Entry, s: seq<Entry>, t': Stmt)
    ensures RenameEntries([e] + s, t') == [Entry(e.edge, Renamed(e.rec, t'))] + RenameEntries(s, t')
  {
  }

  /** Both statements had edges: they end up together. */
  lemma {:induction false} RenameMerges(s: seq<Edge>, edges: map<Edge, EdgeRec>, n: Node, t: Stmt, t': Stmt)
    requires Covers(edges, s) && OwnedBy(s, n) && t != t'
    ensures Covers(RenameEdges(edges, n, t, t'), s)
    ensures |At(s, RenameEdges(edges, n, t, t'), t')| == |At(s, edges, t)| + |At(s, edges, t')|
  {
    if s != [] {
      AtHead(s, edges, t');
      AtHead(s, edges, t);
      AtHead(s, RenameEdges(edges, n, t, t'), t');
      RenameMerges(s[1..], edges, n, t, t');
    }
  }

  lemma {:induction false} RenameRefsElsewhere(refs: seq<Ref>, t: Stmt, t': Stmt, s: Stmt)
    requires s != t && s != t'
    ensures RefsAt(RenameRefs(refs, t, t'), s) == RefsAt(refs, s)
  {
    if refs != [] {
      var r := RenameRefs(refs, t, t');
      assert r[1..] == RenameRefs(refs[1..], t, t') && r[0] == RenameRef(refs[0], t, t');
      AtHeadRef(refs, s);
      AtHeadRef(r, s);
      RenameRefsElsewhere(refs[1..], t, t', s);
    }
  }

  lemma {:induction false} RenameRefsAway(refs: seq<Ref>, t: Stmt, t': Stmt)
    requires t != t'
    ensures RefsAt(RenameRefs(refs, t, t'), t) == []
  {
    if refs != [] {
      var r := RenameRefs(refs, t, t');
      assert r[1..] == RenameRefs(refs[1..], t, t') && r[0] == RenameRef(refs[0], t, t');
      AtHeadRef(r, t);
      RenameRefsAway(refs[1..], t, t');
    }
  }

  lemma RefIdsHead(r: Ref, s: seq<Ref>)
    ensures RefIds([r] + s) == [r.speculativeId] + RefIds(s)
  {
  }

  lemma {:induction false} RenameRefsOnto(refs: seq<Ref>, t: Stmt, t': Stmt)
    requires RefsAt(refs, t') == []
    ensures RefIds(RefsAt(RenameRefs(refs, t, t'), t')) == RefIds(RefsAt(refs, t))
  {
    if refs != [] {
      var r := RenameRefs(refs, t, t');
      assert r[1..] == RenameRefs(refs[1..], t, t') && r[0] == RenameRef(refs[0], t, t');
      AtHeadRef(refs, t);
      AtHeadRef(refs, t');
      AtHeadRef(r, t');
      RenameRefsOnto(refs[1..], t, t');
      RefIdsHead(refs[0], RefsAt(refs[1..], t));
      RefIdsHead(r[0], RefsAt(r[1..], t'));
    }
  }

  lemma OwnLists(g: Graph, n: Node)
    requires ListsOK(g) && n in g.nodes
    ensures OwnedBy(g.nodes[n].callees, n) && OwnedBy(g.nodes[n].indirects, n)
  {
    assert NodeOK(n, g.nodes[n], g.edges);
  }

  /** Sites of other callers and of other statements are unchanged, and the old statement has none. */
  lemma RenameOtherSites(g: Graph, n: Node, t: Stmt, t': Stmt)
    requires ListsOK(g) && n in g.nodes && ListsOK(Rename(g, n, t, t')) && t != t'
    ensures var g' := Rename(g, n, t, t');
      && (forall m, s: Stmt | m in g.nodes && !(m == n && (s == t || s == t')) :: SiteIn(g', m, s) == SiteIn(g, m, s))
      && (forall m | m in g.nodes && m != n && Adjacent(g, m) :: Adjacent(g', m))
      && EmptySite(SiteIn(g', n, t))
  {
    var g' := Rename(g, n, t, t');
    OtherNodes(g, g', n);
    OwnLists(g, n);
    var r := g.nodes[n];
    forall s: Stmt | s != t && s != t' ensures SiteIn(g', n, s) == SiteIn(g, n, s) {
      AtFrame(r.callees, g.edges, g'.edges, s);
      AtFrame(r.indirects, g.edges, g'.edges, s);
      RenameRefsElsewhere(r.refs, t, t', s);
    }
    RenameAway(r.callees, g.edges, n, t, t');
    RenameAway(r.indirects, g.edges, n, t, t');
    RenameRefsAway(r.refs, t, t');
  }

  lemma RenamedSite(g: Graph, n: Node, t: Stmt, t': Stmt)
    requires ListsOK(g) && n in g.nodes && ListsOK(Rename(g, n, t, t'))
    requires EmptySite(SiteIn(g, n, t'))
    ensures var v, v' := SiteIn(g, n, t), SiteIn(Rename(g, n, t, t'), n, t');
      && v'.targets == RenameEntries(v.targets, t') && v'.indirects == RenameEntries(v.indirects, t')
      && RefIds(v'.refs) == RefIds(v.refs)
  {
    OwnLists(g, n);
    var r := g.nodes[n];
    RenameOnto(r.callees, g.edges, n, t, t');
    RenameOnto(r.indirects, g.edges, n, t, t');
    RenameRefsOnto(r.refs, t, t');
  }

  lemma RenamedSiteOK(v: Site, v': Site, t': Stmt)
    requires SiteOK(v)
    requires v'.targets == RenameEntries(v.targets, t') && v'.indirects == RenameEntries(v.indirects, t')
    requires RefIds(v'.refs) == RefIds(v.refs)
    ensures SiteOK(v')
  {
    assert TargetIds(v'.targets) == TargetIds(v.targets);
    assert |v'.refs| == |RefIds(v'.refs)|;
    forall y | y in v'.targets ensures exists z | z in v.targets ::
      z.rec.speculative == y.rec.speculative && z.rec.speculativeId == y.rec.speculativeId
    {
      var i :| 0 <= i < |v'.targets| && v'.targets[i] == y;
      assert v.targets[i] in v.targets;
    }
    forall y | y in v'.indirects ensures exists z | z in v.indirects ::
      z.rec.speculative == y.rec.speculative && z.rec.info == y.rec.info
    {
      var i :| 0 <= i < |v'.indirects| && v'.indirects[i] == y;
      assert v.indirects[i] in v.indirects;
    }
  }

  lemma RenameAdjacent(g: Graph, n: Node, t: Stmt, t': Stmt)
    requires ListsOK(g) && n in g.nodes && ListsOK(Rename(g, n, t, t')) && Adjacent(g, n)
    requires SiteIn(g, n, t').targets == []
    ensures Adjacent(Rename(g, n, t, t'), n)
  {
    var g' := Rename(g, n, t, t');
    var s := g.nodes[n].callees;
    OwnLists(g, n);
    AtEntries(s, g.edges, t');
    assert At(s, g.edges, t') == [];
    assert forall e | e in s :: g.edges[e].stmt != t';
    forall i, k | 0 <= i < k < |s| && g'.edges[s[i]].stmt == g'.edges[s[k]].stmt
      ensures Joined(s, g'.edges, i)
    {
      assert s[i] in s && s[k] in s && s[i + 1] in s;
      assert Joined(s, g.edges, i);
    }
  }

  lemma RenameNothing(g: Graph, n: Node, t: Stmt, t': Stmt)
    requires WellFormed(g) && n in g.nodes
    requires t == t' || EmptySite(SiteIn(g, n, t))
    ensures Rename(g, n, t, t') == g
  {
    var r := g.nodes[n];
    EdgesUnrenamed(g, n, t, t');
    RefsUnrenamed(r.refs, t, t');
    hide RenameEdges, RenameRefs, SiteIn, ListsOK, Complete, SitesOK, RefsLive;
    assert g.nodes[n := r] == g.nodes;
  }

  lemma EdgesUnrenamed(g: Graph, n: Node, t: Stmt, t': Stmt)
    requires ListsOK(g) && Complete(g) && n in g.nodes
    requires t == t' || EmptySite(SiteIn(g, n, t))
    ensures RenameEdges(g.edges, n, t, t') == g.edges
  {
    hide At;
    AtEntries(g.nodes[n].callees, g.edges, t);
    AtEntries(g.nodes[n].indirects, g.edges, t);
    forall e | e in g.edges && e.caller == n && g.edges[e].stmt == t ensures t == t' {
      assert EdgeOK(g, e);
      assert Entry(e, g.edges[e]) in SiteIn(g, n, t).targets + SiteIn(g, n, t).indirects;
    }
  }

  lemma RefsUnrenamed(refs: seq<Ref>, t: Stmt, t': Stmt)
    requires t == t' || RefsAt(refs, t) == []
    ensures RenameRefs(refs, t, t') == refs
  {
    RefsAtEntries(refs, t);
    forall i | 0 <= i < |refs| ensures RenameRef(refs[i], t, t') == refs[i] {
      if refs[i].speculative && refs[i].stmt == t {
        assert refs[i] in RefsAt(refs, t);
      }
    }
  }

  /** A call site may take a new statement exactly if that statement has no edge of its own. */
  lemma RenameKeeps(g: Graph, n: Node, t: Stmt, t': Stmt)
    requires WellFormed(g) && n in g.nodes
    ensures WellFormed(Rename(g, n, t, t'))
      <==> t == t' || EmptySite(SiteIn(g, n, t)) || EmptySite(SiteIn(g, n, t'))
  {
    var g' := Rename(g, n, t, t');
    if t == t' || EmptySite(SiteIn(g, n, t)) {
      RenameNothing(g, n, t, t');
    } else {
      RenameLists(g, n, t, t');
      if EmptySite(SiteIn(g, n, t')) {
        RenameOntoFreeStmt(g, n, t, t');
      } else {
        RenameOntoTakenStmt(g, n, t, t');
      }
    }
  }

  lemma RenameOntoFreeStmt(g: Graph, n: Node, t: Stmt, t': Stmt)
    requires WellFormed(g) && n in g.nodes && t != t' && ListsOK(Rename(g, n, t, t')) && Complete(Rename(g, n, t, t'))
    requires EmptySite(SiteIn(g, n, t'))
    ensures WellFormed(Rename(g, n, t, t'))
  {
    hide ListsOK, Complete;
    var g' := Rename(g, n, t, t');
    RenameOtherSites(g, n, t, t');
    RenamedSite(g, n, t, t');
    assert Adjacent(g, n) && SiteOK(SiteIn(g, n, t));
    RenameAdjacent(g, n, t, t');
    RenamedSiteOK(SiteIn(g, n, t), SiteIn(g', n, t'), t');
    forall m, s: Stmt | m in g'.nodes ensures SiteOK(SiteIn(g', m, s)) {
      if !(m == n && (s == t || s == t')) {
        assert SiteIn(g', m, s) == SiteIn(g, m, s);
      }
    }
  }

  lemma RenameOntoTakenStmt(g: Graph, n: Node, t: Stmt, t': Stmt)
    requires WellFormed(g) && n in g.nodes && t != t' && ListsOK(Rename(g, n, t, t'))
    requires !EmptySite(SiteIn(g, n, t)) && !EmptySite(SiteIn(g, n, t'))
    ensures !SiteOK(SiteIn(Rename(g, n, t, t'), n, t'))
  {
    hide Complete;
    var g' := Rename(g, n, t, t');
    var r := g.nodes[n];
    OwnLists(g, n);
    RenameMerges(r.callees, g.edges, n, t, t');
    RenameMerges(r.indirects, g.edges, n, t, t');
    var v, w, v' := SiteIn(g, n, t), SiteIn(g, n, t'), SiteIn(g', n, t');
    AtEntries(r.callees, g.edges, t);
    AtEntries(r.callees, g.edges, t');
    AtEntries(r.callees, g'.edges, t');
    AtEntries(r.indirects, g.edges, t);
    AtEntries(r.indirects, g.edges, t');
    AtEntries(r.indirects, g'.edges, t');
    assert SiteOK(v) && SiteOK(w);
    forall e | e in v.targets || e in w.targets
      ensures exists e' | e' in v'.targets :: e'.rec.speculative == e.rec.speculative
    {
      assert e.edge in r.callees && g'.edges[e.edge].stmt == t';
      assert Entry(e.edge, g'.edges[e.edge]) in v'.targets;
    }
    forall e | e in v.indirects || e in w.indirects
      ensures exists e' | e' in v'.indirects :: e'.rec.speculative == e.rec.speculative
    {
      assert e.edge in r.indirects && g'.edges[e.edge].stmt == t';
      assert Entry(e.edge, g'.edges[e.edge]) in v'.indirects;
    }
    MergedSiteBroken(v, w, v');
  }

  lemma MergedSiteBroken(v: Site, w: Site, v': Site)
    requires SiteOK(v) && SiteOK(w) && !EmptySite(v) && !EmptySite(w)
    requires |v'.targets| == |v.targets| + |w.targets| && |v'.indirects| == |v.indirects| + |w.indirects|
    requires forall e | e in v.targets || e in w.targets ::
      exists e' | e' in v'.targets :: e'.rec.speculative == e.rec.speculative
    requires forall e | e in v.indirects || e in w.indirects ::
      exists e' | e' in v'.indirects :: e'.rec.speculative == e.rec.speculative
    ensures !SiteOK(v')
  {
    if PlainSite(v) && v.targets != [] {
      assert v.targets[0] in v.targets && v.targets[0] in v.targets + v.indirects;
    }
    if PlainSite(w) && w.targets != [] {
      assert w.targets[0] in w.targets && w.targets[0] in w.targets + w.indirects;
    }
    if PlainSite(v) && v.indirects != [] {
      assert v.indirects[0] in v.targets + v.indirects;
    }
    if PlainSite(w) && w.indirects != [] {
      assert w.indirects[0] in w.targets + w.indirects;
    }
  }
}
