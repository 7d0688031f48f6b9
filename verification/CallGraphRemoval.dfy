/** Removing all calls of a function, all calls to it, and the function itself. */
module CallGraphRemoval {
  import opened Common
  import opened CallGraphTypes
  import opened CallSites
  import opened CallGraphSteps
  import opened CallGraphInvariants
  import opened CallGraphMakeDirect

  // ---------- removing one edge after the other ----------

  ghost predicate Removable(g: Graph, es: seq<Edge>) {
    ListsOK(g) && Complete(g) && NoDup(es) && forall i | 0 <= i < |es| :: es[i] in g.edges
  }

  lemma RemoveStep(g: Graph, es: seq<Edge>)
    requires Removable(g, es) && es != []
    ensures EdgeOK(g, es[0]) && Live(g, es[0]) && Removable(Remove(g, es[0]), es[1..])
    ensures RefsKept(g, Remove(g, es[0])) && Remove(g, es[0]).edges == g.edges - {es[0]}
  {
    hide ListsOK, Complete, Remove, NoDup, EdgeOK, Live;
    OneRemoved(g, es[0]);
    TailOf(g.edges, es);
  }

  lemma TailOf(edges: map<Edge, EdgeRec>, es: seq<Edge>)
    requires es != [] && NoDup(es) && forall i | 0 <= i < |es| :: es[i] in edges
    ensures NoDup(es[1..]) && forall i | 0 <= i < |es[1..]| :: es[1..][i] in edges - {es[0]}
  {
    assert forall i | 0 <= i < |es[1..]| :: es[1..][i] == es[i + 1];
  }

  lemma OneRemoved(g: Graph, e: Edge)
    requires ListsOK(g) && Complete(g) && e in g.edges
    ensures EdgeOK(g, e) && Live(g, e) && ListsOK(Remove(g, e)) && Complete(Remove(g, e))
    ensures RefsKept(g, Remove(g, e)) && Remove(g, e).edges == g.edges - {e}
  {
    hide RefsKept, NoDup;
    assert EdgeOK(g, e) && NodeOK(e.caller, g.nodes[e.caller], g.edges);
    RemoveLists(g, e, {});
    RemoveRefs(g, e);
  }

  ghost function RemoveAll(g: Graph, es: seq<Edge>): Graph
    requires Removable(g, es)
    decreases |es|
  {
    if es == [] then g
    else
      RemoveStep(g, es);
      RemoveAll(Remove(g, es[0]), es[1..])
  }

  lemma {:induction false} RemoveAllLists(g: Graph, es: seq<Edge>)
    requires Removable(g, es)
    ensures var g' := RemoveAll(g, es);
      ListsOK(g') && Complete(g') && RefsKept(g, g') && g'.edges == g.edges - (set e | e in es)
    decreases |es|
  {
    if es != [] {
      hide ListsOK, Complete, Remove;
      RemoveStep(g, es);
      RemoveAllLists(Remove(g, es[0]), es[1..]);
      OneByOne(g.edges, es);
    }
  }

  lemma OneByOne(edges: map<Edge, EdgeRec>, es: seq<Edge>)
    requires es != []
    ensures edges - {es[0]} - (set e | e in es[1..]) == edges - (set e | e in es)
  {
    assert es == [es[0]] + es[1..];
    assert (set e | e in es) == {es[0]} + (set e | e in es[1..]);
  }

  // ---------- what it does to the sites ----------

  /** All sites of node n are well formed. */
  ghost predicate NodeSitesOK(g: Graph, n: Node)
    requires ListsOK(g) && n in g.nodes
  {
    Adjacent(g, n) && forall t: Stmt :: SiteOK(SiteIn(g, n, t))
  }

  lemma PlainLeavesNothing(v: Site, e: Edge, r: EdgeRec)
    requires SiteOK(v) && (Entry(e, r) in v.targets || Entry(e, r) in v.indirects) && !r.speculative
    ensures PlainSite(v) && v.refs == []
    ensures if Entry(e, r) in v.targets then v.targets == [Entry(e, r)] && v.indirects == []
            else v.indirects == [Entry(e, r)] && v.targets == []
  {
  }

  /** The site of an edge, and its site once it is removed. */
  lemma RemovedFrom(g: Graph, e: Edge)
    requires ListsOK(g) && Complete(g) && e in g.edges && EdgeOK(g, e) && Live(g, e) && ListsOK(Remove(g, e))
    ensures var v, r := SiteIn(g, e.caller, g.edges[e].stmt), g.edges[e];
      && Entry(e, r) in (if r.indirect then v.indirects else v.targets)
      && Changes(g, Remove(g, e), e.caller, r.stmt,
                 if r.indirect then v.(indirects := Minus(v.indirects, e)) else v.(targets := Minus(v.targets, e)))
  {
    AtEntries(g.nodes[e.caller].callees, g.edges, g.edges[e].stmt);
    AtEntries(g.nodes[e.caller].indirects, g.edges, g.edges[e].stmt);
    RemoveSite(g, e);
  }

  /** A plain edge of node n takes nothing else with it. */
  lemma RemoveKeepsNode(g: Graph, es: seq<Edge>, n: Node)
    requires Removable(g, es) && es != [] && n in g.nodes && NodeSitesOK(g, n)
    requires es[0].caller == n ==> !g.edges[es[0]].speculative
    ensures EdgeOK(g, es[0]) && Live(g, es[0]) && ListsOK(Remove(g, es[0])) && n in Remove(g, es[0]).nodes
    ensures NodeSitesOK(Remove(g, es[0]), n)
  {
    hide ListsOK, Complete, Remove, SiteOK, NoDup;
    var e := es[0];
    RemoveStep(g, es);
    RemovedFrom(g, e);
    RemoveSite(g, e);
    var v, r := SiteIn(g, e.caller, g.edges[e].stmt), g.edges[e];
    forall t: Stmt ensures SiteOK(SiteIn(Remove(g, e), n, t)) {
      assert SiteOK(SiteIn(g, n, t));
      if e.caller == n && r.stmt == t {
        PlainLeavesNothing(v, e, r);
        assert Minus([Entry(e, r)], e) == [];
        NothingIsOK(SiteIn(Remove(g, e), n, t));
      }
    }
  }

  lemma NothingIsOK(v: Site)
    requires EmptySite(v)
    ensures SiteOK(v)
  {
  }

  lemma {:induction false} RemoveAllKeepsNode(g: Graph, es: seq<Edge>, n: Node)
    requires Removable(g, es) && n in g.nodes && NodeSitesOK(g, n)
    requires forall i | 0 <= i < |es| && es[i].caller == n :: !g.edges[es[i]].speculative
    ensures ListsOK(RemoveAll(g, es)) && n in RemoveAll(g, es).nodes && NodeSitesOK(RemoveAll(g, es), n)
    decreases |es|
  {
    hide EdgeOK, ListsOK;
    if es != [] {
      hide ListsOK, Complete, Remove, NodeSitesOK;
      RemoveStep(g, es);
      RemoveKeepsNode(g, es, n);
      RemoveAllKeepsNode(Remove(g, es[0]), es[1..], n);
    }
  }

  /** v' has the references of v, no more edges, and at least k edges less. */
  ghost predicate Shrunk(v: Site, v': Site, k: nat) {
    && v'.refs == v.refs && |v'.targets| <= |v.targets| && |v'.indirects| <= |v.indirects|
    && |v'.targets| + |v'.indirects| + k <= |v.targets| + |v.indirects|
  }

  lemma {:induction false} MinusLess(s: seq<Entry>, x: Entry)
    requires x in s
    ensures |Minus(s, x.edge)| == |s| - 1
  {
    if s[0].edge != x.edge {
      assert x in s[1..];
      MinusLess(s[1..], x);
    }
  }

  lemma RemoveShrinks(g: Graph, es: seq<Edge>, n: Node, t: Stmt)
    requires Removable(g, es) && es != [] && n in g.nodes
    ensures EdgeOK(g, es[0]) && ListsOK(Remove(g, es[0])) && n in Remove(g, es[0]).nodes
    ensures Shrunk(SiteIn(g, n, t), SiteIn(Remove(g, es[0]), n, t),
                   if es[0].caller == n && g.edges[es[0]].stmt == t then 1 else 0)
  {
    hide ListsOK, Complete, Remove;
    var e := es[0];
    RemoveStep(g, es);
    RemovedFrom(g, e);
    if e.caller == n && g.edges[e].stmt == t {
      var v := SiteIn(g, n, t);
      MinusLess(if g.edges[e].indirect then v.indirects else v.targets, Entry(e, g.edges[e]));
    }
  }

  /** An edge of statement t of node n is among es. */
  ghost predicate Hits(g: Graph, es: seq<Edge>, n: Node, t: Stmt) {
    exists i :: 0 <= i < |es| && es[i] in g.edges && es[i].caller == n && g.edges[es[i]].stmt == t
  }

  lemma ShrunkTwice(v: Site, v1: Site, v2: Site, j: nat, k: nat, m: nat)
    requires Shrunk(v, v1, j) && Shrunk(v1, v2, k) && m <= j + k
    ensures Shrunk(v, v2, m)
  {
  }

  lemma HitsLater(g: Graph, es: seq<Edge>, n: Node, t: Stmt)
    requires Removable(g, es) && es != [] && Hits(g, es, n, t) && !(es[0].caller == n && g.edges[es[0]].stmt == t)
    ensures Live(g, es[0]) && Hits(Remove(g, es[0]), es[1..], n, t)
  {
    hide ListsOK, Complete, Remove;
    RemoveStep(g, es);
    var i :| 0 <= i < |es| && es[i] in g.edges && es[i].caller == n && g.edges[es[i]].stmt == t;
    assert es[1..][i - 1] == es[i];
  }

  lemma {:induction false} RemoveAllShrinks(g: Graph, es: seq<Edge>, n: Node, t: Stmt)
    requires Removable(g, es) && n in g.nodes
    ensures ListsOK(RemoveAll(g, es)) && n in RemoveAll(g, es).nodes
    ensures Shrunk(SiteIn(g, n, t), SiteIn(RemoveAll(g, es), n, t), if Hits(g, es, n, t) then 1 else 0)
    decreases |es|
  {
    if es != [] {
      hide ListsOK, Complete, Remove, SiteIn, NoDup, EdgeOK, Hits, Shrunk;
      RemoveStep(g, es);
      RemoveShrinks(g, es, n, t);
      var g1 := Remove(g, es[0]);
      RemoveAllShrinks(g1, es[1..], n, t);
      if Hits(g, es, n, t) && !(es[0].caller == n && g.edges[es[0]].stmt == t) {
        HitsLater(g, es, n, t);
      }
      ShrunkTwice(SiteIn(g, n, t), SiteIn(g1, n, t), SiteIn(RemoveAll(g, es), n, t),
                  if es[0].caller == n && g.edges[es[0]].stmt == t then 1 else 0,
                  if Hits(g1, es[1..], n, t) then 1 else 0,
                  if Hits(g, es, n, t) then 1 else 0);
    }
  }

  /** A speculative call of which something is gone, but not its references, is not well formed. */
  lemma ShrunkIsBroken(v: Site, v': Site)
    requires SpeculativeSite(v) && Shrunk(v, v', 1)
    ensures !SiteOK(v')
  {
    assert |multiset(TargetIds(v.targets))| == |v.targets| && |multiset(RefIds(v.refs))| == |v.refs|;
    assert |multiset(TargetIds(v'.targets))| == |v'.targets|;
  }

  // ---------- the operations ----------

  /** cgraph_node::remove_callers. */
  ghost function RemoveCallers(g: Graph, n: Node): Graph
    requires ListsOK(g) && Complete(g) && n in g.nodes
  {
    CallersRemovable(g, n);
    RemoveAll(g, g.nodes[n].callers)
  }

  ghost function AllCalls(g: Graph, n: Node): seq<Edge>
    requires n in g.nodes
  {
    g.nodes[n].callees + g.nodes[n].indirects
  }

  /** cgraph_node::remove_callees. */
  ghost function RemoveCallees(g: Graph, n: Node): Graph
    requires ListsOK(g) && Complete(g) && n in g.nodes
  {
    CalleesRemovable(g, n);
    RemoveAll(g, AllCalls(g, n))
  }

  lemma CallersRemovable(g: Graph, n: Node)
    requires ListsOK(g) && Complete(g) && n in g.nodes
    ensures Removable(g, g.nodes[n].callers)
    ensures forall e | e in g.edges && g.edges[e].callee == n :: e in g.nodes[n].callers
  {
    assert NodeOK(n, g.nodes[n], g.edges);
    forall e | e in g.edges && g.edges[e].callee == n ensures e in g.nodes[n].callers {
      assert EdgeOK(g, e);
    }
  }

  lemma CalleesRemovable(g: Graph, n: Node)
    requires ListsOK(g) && Complete(g) && n in g.nodes
    ensures Removable(g, AllCalls(g, n))
    ensures forall e | e in g.edges :: e.caller == n <==> e in AllCalls(g, n)
  {
    var r := g.nodes[n];
    assert NodeOK(n, r, g.edges);
    var es := AllCalls(g, n);
    forall i, j | 0 <= i < j < |es| ensures es[i] != es[j] {
      assert i < |r.callees| <= j ==> es[i] in r.callees && es[j] in r.indirects;
    }
    forall e | e in g.edges ensures e.caller == n <==> e in es {
      assert EdgeOK(g, e);
    }
  }

  /** The removal of calls keeps the graph well formed exactly if none of them is speculative. */
  lemma RemoveAllKeeps(g: Graph, es: seq<Edge>)
    requires WellFormed(g) && Removable(g, es)
    ensures WellFormed(RemoveAll(g, es)) <==> forall i | 0 <= i < |es| :: !g.edges[es[i]].speculative
  {
    hide ListsOK, Complete, RemoveAll;
    RemoveAllLists(g, es);
    var g' := RemoveAll(g, es);
    KeptIsLive(g, g');
    if forall i | 0 <= i < |es| :: !g.edges[es[i]].speculative {
      forall n | n in g'.nodes ensures NodeSitesOK(g', n) {
        RemoveAllKeepsNode(g, es, n);
      }
    } else {
      var i :| 0 <= i < |es| && g.edges[es[i]].speculative;
      RemoveAllBreaks(g, es, i);
    }
  }

  lemma RemoveAllBreaks(g: Graph, es: seq<Edge>, i: nat)
    requires WellFormed(g) && Removable(g, es) && i < |es| && g.edges[es[i]].speculative
    ensures ListsOK(RemoveAll(g, es)) && es[i].caller in g.nodes && es[i].caller in RemoveAll(g, es).nodes
    ensures SpeculativeSite(SiteOfEdge(g, es[i]))
    ensures Shrunk(SiteOfEdge(g, es[i]), SiteIn(RemoveAll(g, es), es[i].caller, g.edges[es[i]].stmt), 1)
    ensures !SiteOK(SiteIn(RemoveAll(g, es), es[i].caller, g.edges[es[i]].stmt))
  {
    hide ListsOK, SitesOK, SiteIn, NoDup;
    var e := es[i];
    assert EdgeOK(g, e);
    SpeculativeEdge(g, e);
    assert Hits(g, es, e.caller, g.edges[e].stmt);
    RemoveAllShrinks(g, es, e.caller, g.edges[e].stmt);
    ShrunkIsBroken(SiteOfEdge(g, e), SiteIn(RemoveAll(g, es), e.caller, g.edges[e].stmt));
  }

  lemma RemoveCallersKeeps(g: Graph, n: Node)
    requires WellFormed(g) && n in g.nodes
    ensures WellFormed(RemoveCallers(g, n)) <==> forall e | e in g.nodes[n].callers :: e in g.edges && !g.edges[e].speculative
  {
    CallersRemovable(g, n);
    RemoveAllKeeps(g, g.nodes[n].callers);
  }

  lemma RemoveCalleesKeeps(g: Graph, n: Node)
    requires WellFormed(g) && n in g.nodes
    ensures WellFormed(RemoveCallees(g, n)) <==> forall e | e in g.edges && e.caller == n :: !g.edges[e].speculative
  {
    CalleesRemovable(g, n);
    RemoveAllKeeps(g, AllCalls(g, n));
  }

  // ---------- the whole node ----------

  ghost function ForgetNode(g: Graph, n: Node): Graph {
    g.(nodes := g.nodes - {n})
  }

  /** The call graph part of cgraph_node::remove. */
  ghost function RemoveNode(g: Graph, n: Node): Graph
    requires ListsOK(g) && Complete(g) && n in g.nodes
  {
    CallersRemovable(g, n);
    RemoveAllLists(g, g.nodes[n].callers);
    ForgetNode(RemoveCallees(RemoveCallers(g, n), n), n)
  }

  /** In between, the lists are in order, and in the end nothing is left that concerns n. */
  lemma RemoveNodeLists(g: Graph, n: Node)
    requires ListsOK(g) && Complete(g) && n in g.nodes
    ensures var g1 := RemoveCallers(g, n);
      && ListsOK(g1) && Complete(g1) && g1.nodes.Keys == g.nodes.Keys && (forall e | e in g1.edges :: e in g.edges)
      && var g2 := RemoveCallees(g1, n);
         && ListsOK(g2) && Complete(g2) && RefsKept(g, g2)
         && (forall e | e in g2.edges :: e in g.edges && e.caller != n && g2.edges[e] == g.edges[e] && g.edges[e].callee != n)
         && (forall e | e in g.edges && e.caller != n && g.edges[e].callee != n :: e in g2.edges)
         && ListsOK(ForgetNode(g2, n)) && Complete(ForgetNode(g2, n))
  {
    hide ListsOK, Complete;
    CallersRemovable(g, n);
    RemoveAllLists(g, g.nodes[n].callers);
    var g1 := RemoveCallers(g, n);
    CallersAre(g, n);
    CalleesRemovable(g1, n);
    RemoveAllLists(g1, AllCalls(g1, n));
    ForgottenLists(RemoveCallees(g1, n), n);
  }

  lemma CallersAre(g: Graph, n: Node)
    requires ListsOK(g) && n in g.nodes
    ensures forall e | e in g.nodes[n].callers :: e in g.edges && g.edges[e].callee == n
  {
    assert NodeOK(n, g.nodes[n], g.edges);
  }

  lemma ForgottenLists(g: Graph, n: Node)
    requires ListsOK(g) && Complete(g) && n in g.nodes
    requires forall e | e in g.edges :: e.caller != n && g.edges[e].callee != n
    ensures ListsOK(ForgetNode(g, n)) && Complete(ForgetNode(g, n))
  {
    var g' := ForgetNode(g, n);
    forall m | m in g'.nodes ensures NodeOK(m, g'.nodes[m], g'.edges) {
      assert NodeOK(m, g.nodes[m], g.edges);
    }
    forall e | e in g'.edges ensures EdgeOK(g', e) {
      assert EdgeOK(g, e);
    }
  }

  /** No other function calls n speculatively. */
  ghost predicate NoSpeculativeCallers(g: Graph, n: Node) {
    forall e | e in g.edges && g.edges[e].callee == n && e.caller != n :: !g.edges[e].speculative
  }

  /** No other function holds a speculative reference to n.  Such a function need not call n: its
      call may have been redirected since. */
  ghost predicate NoSpeculativeRefs(g: Graph, n: Node) {
    forall m | m in g.nodes && m != n :: LacksReferred(g.nodes[m].refs, n)
  }

  ghost predicate LacksReferred(refs: seq<Ref>, n: Node) {
    forall r | r in refs && r.speculative :: r.referred != n
  }

  /** Removing a function keeps the graph well formed exactly if no other function calls it
      speculatively or holds a speculative reference to it, whatever it calls itself. */
  lemma RemoveNodeKeeps(g: Graph, n: Node)
    requires WellFormed(g) && n in g.nodes
    ensures WellFormed(RemoveNode(g, n)) <==> NoSpeculativeCallers(g, n) && NoSpeculativeRefs(g, n)
  {
    RemoveNodeLists(g, n);
    var g2 := RemoveCallees(RemoveCallers(g, n), n);
    var g3 := ForgetNode(g2, n);
    hide ListsOK, Complete, RemoveAll;
    ForgottenRefs(g, g2, n);
    if NoSpeculativeCallers(g, n) {
      forall m | m in g3.nodes ensures NodeSitesOK(g3, m) {
        RemoveNodeSites(g, n, m);
        ForgottenSites(g2, n, m);
      }
    } else {
      var e :| e in g.edges && g.edges[e].callee == n && e.caller != n && g.edges[e].speculative;
      RemoveNodeBreaks(g, n, e);
    }
  }

  lemma ForgottenRefs(g: Graph, g2: Graph, n: Node)
    requires RefsLive(g) && RefsKept(g, g2) && n in g.nodes
    ensures RefsLive(ForgetNode(g2, n)) <==> NoSpeculativeRefs(g, n)
  {
    var g3 := ForgetNode(g2, n);
    forall m | m in g3.nodes
      ensures LiveRefs(g3.nodes[m].refs, g3.nodes.Keys) <==> LacksReferred(g.nodes[m].refs, n)
    {
      assert LiveRefs(g.nodes[m].refs, g.nodes.Keys);
    }
    assert forall m :: m in g3.nodes <==> m in g.nodes && m != n;
  }

  lemma ForgottenSites(g: Graph, n: Node, m: Node)
    requires ListsOK(g) && ListsOK(ForgetNode(g, n)) && m in g.nodes && m != n && NodeSitesOK(g, m)
    ensures NodeSitesOK(ForgetNode(g, n), m)
  {
    forall t: Stmt ensures SiteOK(SiteIn(ForgetNode(g, n), m, t)) {
      assert SiteIn(ForgetNode(g, n), m, t) == SiteIn(g, m, t);
    }
  }

  lemma RemoveNodeSites(g: Graph, n: Node, m: Node)
    requires WellFormed(g) && n in g.nodes && m in g.nodes && m != n && NoSpeculativeCallers(g, n)
    ensures var g1 := RemoveCallers(g, n);
      && ListsOK(g1) && Complete(g1) && n in g1.nodes
      && ListsOK(RemoveCallees(g1, n)) && m in RemoveCallees(g1, n).nodes && NodeSitesOK(RemoveCallees(g1, n), m)
  {
    hide RemoveAll, AllCalls, NoDup, ListsOK;
    RemoveNodeLists(g, n);
    CallersRemovable(g, n);
    CallersAre(g, n);
    hide ListsOK, Complete;
    var g1 := RemoveCallers(g, n);
    var cs := g.nodes[n].callers;
    forall i | 0 <= i < |cs| && cs[i].caller == m ensures !g.edges[cs[i]].speculative {
      assert cs[i] in cs;
    }
    RemoveAllKeepsNode(g, cs, m);
    CalleesRemovable(g1, n);
    var es := AllCalls(g1, n);
    assert forall i | 0 <= i < |es| :: es[i] in es;
    RemoveAllKeepsNode(g1, es, m);
  }

  /** Removing still more does not mend a call. */
  lemma StaysBroken(g: Graph, cs: seq<Edge>, i: nat, es: seq<Edge>)
    requires WellFormed(g) && Removable(g, cs) && i < |cs| && g.edges[cs[i]].speculative
    requires Removable(RemoveAll(g, cs), es)
    ensures var g2 := RemoveAll(RemoveAll(g, cs), es);
      ListsOK(g2) && cs[i].caller in g2.nodes && !SiteOK(SiteIn(g2, cs[i].caller, g.edges[cs[i]].stmt))
  {
    hide ListsOK, Complete, SitesOK, SiteIn, NoDup, SiteOK, SpeculativeSite, RemoveAll;
    var g1 := RemoveAll(g, cs);
    var m, t := cs[i].caller, g.edges[cs[i]].stmt;
    RemoveAllBreaks(g, cs, i);
    RemoveAllShrinks(g1, es, m, t);
    ShrunkIsBroken(SiteOfEdge(g, cs[i]), SiteIn(RemoveAll(g1, es), m, t));
  }

  lemma RemoveNodeBreaks(g: Graph, n: Node, e: Edge)
    requires WellFormed(g) && n in g.nodes
    requires e in g.edges && g.edges[e].callee == n && e.caller != n && g.edges[e].speculative
    ensures !WellFormed(RemoveNode(g, n))
  {
    hide ListsOK, Complete, SiteIn, Removable, AllCalls, SiteOK, RemoveAll;
    RemoveNodeLists(g, n);
    CallersRemovable(g, n);
    var g1, cs := RemoveCallers(g, n), g.nodes[n].callers;
    CalleesRemovable(g1, n);
    var i :| 0 <= i < |cs| && cs[i] == e;
    StaysBroken(g, cs, i, AllCalls(g1, n));
    SiteForgotten(RemoveCallees(g1, n), n, e.caller, g.edges[e].stmt);
    assert !SiteOK(SiteIn(RemoveNode(g, n), e.caller, g.edges[e].stmt));
  }

  lemma SiteForgotten(g: Graph, n: Node, m: Node, t: Stmt)
    requires ListsOK(g) && ListsOK(ForgetNode(g, n)) && m in g.nodes && m != n
    ensures SiteIn(ForgetNode(g, n), m, t) == SiteIn(g, m, t)
  {
  }
}
