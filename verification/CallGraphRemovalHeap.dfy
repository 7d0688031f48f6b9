/** Removing all calls to and of a function on the heap: the edges leave the lists at their other
    ends one by one, and the lists of the function itself are dropped as a whole. */
module CallGraphRemovalHeap {
  import opened Common
  import opened CallGraphTypes
  import opened CallSites
  import opened EdgeLists
  import opened CallGraphSteps
  import opened CallGraphHeap
  import opened CallSiteHash
  import opened CallGraphLinks
  import opened CallGraphResolve
  import opened CallGraphRemoval
  import opened SummaryIds

  // ---------- all edges of a set at once ----------

  /** The edges of s that are not in xs. */
  ghost function Keep(s: seq<Edge>, xs: set<Edge>): (r: seq<Edge>)
    ensures (forall e | e in r :: e in s && e !in xs) && forall e | e in s && e !in xs :: e in r
  {
    if s == [] then [] else if s[0] in xs then Keep(s[1..], xs) else [s[0]] + Keep(s[1..], xs)
  }

  lemma {:induction false} KeepMore(s: seq<Edge>, xs: set<Edge>, e: Edge)
    requires NoDup(s)
    ensures Keep(s, xs + {e}) == Unlink(Keep(s, xs), e)
  {
    if s != [] {
      NoDupTail(s);
      KeepMore(s[1..], xs, e);
      var u := Keep(s[1..], xs);
      if s[0] !in xs {
        assert ([s[0]] + u)[1..] == u;
      }
    }
  }

  lemma {:induction false} KeepAll(s: seq<Edge>, xs: set<Edge>)
    requires forall e | e in s :: e !in xs
    ensures Keep(s, xs) == s
  {
    if s != [] {
      KeepAll(s[1..], xs);
    }
  }

  lemma {:induction false} KeepNone(s: seq<Edge>, xs: set<Edge>)
    requires forall e | e in s :: e in xs
    ensures Keep(s, xs) == []
  {
    if s != [] {
      assert s[0] in s;
      KeepNone(s[1..], xs);
    }
  }

  ghost function SetOf(es: seq<Edge>): set<Edge>
  {
    set e | e in es
  }

  lemma SetOfMore(es: seq<Edge>, k: nat)
    requires k < |es|
    ensures SetOf(es[..k + 1]) == SetOf(es[..k]) + {es[k]}
  {
    assert es[..k + 1] == es[..k] + [es[k]];
  }

  /** The graph without the edges of xs. */
  ghost function Without(g: Graph, xs: set<Edge>): Graph {
    Graph(map n | n in g.nodes :: WithoutAt(g.nodes[n], xs), g.edges - xs)
  }

  ghost function WithoutAt(r: NodeRec, xs: set<Edge>): NodeRec {
    NodeRec(Keep(r.callees, xs), Keep(r.indirects, xs), Keep(r.callers, xs), r.refs)
  }

  lemma WithoutOneAt(g: Graph, e: Edge, n: Node)
    requires ListsOK(g) && Complete(g) && e in g.edges && n in g.nodes
    ensures Live(g, e) && n in Remove(g, e).nodes && Remove(g, e).nodes[n] == WithoutAt(g.nodes[n], {e})
  {
    UnlinkedAt(g, e, n);
    hide Remove, ListsOK, Complete, Keep;
    var r := g.nodes[n];
    KeepOne(r.callees, e);
    KeepOne(r.indirects, e);
    KeepOne(r.callers, e);
  }

  lemma UnlinkedAt(g: Graph, e: Edge, n: Node)
    requires ListsOK(g) && Complete(g) && e in g.edges && n in g.nodes
    ensures Live(g, e) && n in Remove(g, e).nodes
    ensures var r := g.nodes[n];
      && NoDup(r.callees) && NoDup(r.indirects) && NoDup(r.callers)
      && Remove(g, e).nodes[n] == NodeRec(Unlink(r.callees, e), Unlink(r.indirects, e), Unlink(r.callers, e), r.refs)
  {
    hide NoDup;
    assert EdgeOK(g, e) && NodeOK(n, g.nodes[n], g.edges) && NodeOK(e.caller, g.nodes[e.caller], g.edges);
  }

  lemma KeepOne(s: seq<Edge>, e: Edge)
    requires NoDup(s)
    ensures Keep(s, {e}) == Unlink(s, e)
  {
    KeepMore(s, {}, e);
    KeepAll(s, {});
    assert {} + {e} == {e};
  }

  lemma {:induction false} KeepTwice(s: seq<Edge>, xs: set<Edge>, ys: set<Edge>)
    ensures Keep(Keep(s, xs), ys) == Keep(s, xs + ys)
  {
    if s != [] {
      KeepTwice(s[1..], xs, ys);
      if s[0] !in xs {
        var u := Keep(s[1..], xs);
        assert ([s[0]] + u)[1..] == u;
      }
    }
  }

  lemma WithoutTwice(g: Graph, xs: set<Edge>, ys: set<Edge>)
    ensures Without(Without(g, xs), ys) == Without(g, xs + ys)
  {
    var a, b := Without(Without(g, xs), ys), Without(g, xs + ys);
    forall n | n in g.nodes ensures a.nodes[n] == b.nodes[n] {
      KeepTwice(g.nodes[n].callees, xs, ys);
      KeepTwice(g.nodes[n].indirects, xs, ys);
      KeepTwice(g.nodes[n].callers, xs, ys);
    }
    assert g.edges - xs - ys == g.edges - (xs + ys);
  }

  /** Removing edges one after the other, in any order, comes to the same as dropping them all at once. */
  lemma {:induction false} RemoveAllIs(g: Graph, es: seq<Edge>)
    requires Removable(g, es)
    ensures RemoveAll(g, es) == Without(g, SetOf(es))
    decreases |es|
  {
    if es == [] {
      WithoutNone(g, SetOf(es));
    } else {
      hide ListsOK, Complete, Remove, NoDup, Without, EdgeOK, Live;
      var e := es[0];
      RemoveStep(g, es);
      RemoveAllIs(Remove(g, e), es[1..]);
      RemoveIs(g, e);
      WithoutTwice(g, {e}, SetOf(es[1..]));
      SetOfHead(es);
    }
  }

  lemma WithoutNone(g: Graph, xs: set<Edge>)
    requires xs == {}
    ensures Without(g, xs) == g
  {
    forall n | n in g.nodes ensures WithoutAt(g.nodes[n], xs) == g.nodes[n] {
      KeepAll(g.nodes[n].callees, xs);
      KeepAll(g.nodes[n].indirects, xs);
      KeepAll(g.nodes[n].callers, xs);
    }
    assert g.edges - xs == g.edges;
    assert Without(g, xs).nodes == g.nodes;
  }

  lemma SetOfHead(es: seq<Edge>)
    requires es != []
    ensures {es[0]} + SetOf(es[1..]) == SetOf(es)
  {
    assert es == [es[0]] + es[1..];
  }

  lemma RemoveIs(g: Graph, e: Edge)
    requires ListsOK(g) && Complete(g) && e in g.edges
    ensures Live(g, e) && Remove(g, e) == Without(g, {e})
  {
    hide WithoutAt, NoDup, EdgeOK, ListsOK;
    OneRemoved(g, e);
    hide ListsOK, Complete, Remove;
    forall n | n in g.nodes ensures Remove(g, e).nodes[n] == Without(g, {e}).nodes[n] {
      WithoutOneAt(g, e, n);
    }
    assert Remove(g, e).nodes == Without(g, {e}).nodes;
  }

  // ---------- the tables ----------

  ghost function DropSlots(hs: Tables, edges: map<Edge, EdgeRec>, es: seq<Edge>): Tables
    requires forall i | 0 <= i < |es| :: es[i] in edges
    decreases |es|
  {
    if es == [] then hs
    else DropSlots(DropSlot(hs, es[0].caller, edges[es[0]].stmt, es[0]), edges, es[1..])
  }

  lemma {:induction false} DropSlotsFrame(hs: Tables, edges: map<Edge, EdgeRec>, edges': map<Edge, EdgeRec>, es: seq<Edge>)
    requires forall i | 0 <= i < |es| :: es[i] in edges && es[i] in edges' && edges[es[i]] == edges'[es[i]]
    ensures DropSlots(hs, edges, es) == DropSlots(hs, edges', es)
    decreases |es|
  {
    if es != [] {
      DropSlotsFrame(DropSlot(hs, es[0].caller, edges[es[0]].stmt, es[0]), edges, edges', es[1..]);
    }
  }

  lemma {:induction false} DropSlotsElsewhere(hs: Tables, edges: map<Edge, EdgeRec>, es: seq<Edge>, m: Node)
    requires forall i | 0 <= i < |es| :: es[i] in edges
    ensures DropSlots(hs, edges, es).Keys == hs.Keys
    ensures m in hs && (forall i | 0 <= i < |es| :: es[i].caller != m) ==> DropSlots(hs, edges, es)[m] == hs[m]
    decreases |es|
  {
    if es != [] {
      DropSlotsElsewhere(DropSlot(hs, es[0].caller, edges[es[0]].stmt, es[0]), edges, es[1..], m);
    }
  }

  /** Dropping the slot of a plain edge keeps the table of node m right. */
  lemma RemoveKeepsHash(g: Graph, hs: Tables, es: seq<Edge>, m: Node)
    requires Removable(g, es) && es != [] && m in g.nodes && NodeSitesOK(g, m)
    requires m in hs && HashOK(hs[m], g, m) && (es[0].caller == m ==> !g.edges[es[0]].speculative)
    ensures EdgeOK(g, es[0]) && ListsOK(Remove(g, es[0])) && m in Remove(g, es[0]).nodes
    ensures HashOK(DropSlot(hs, es[0].caller, g.edges[es[0]].stmt, es[0])[m], Remove(g, es[0]), m)
  {
    hide ListsOK, Complete, Remove, SiteOK, NoDup, Adjacent;
    var e := es[0];
    RemoveStep(g, es);
    RemovedFrom(g, e);
    var t := g.edges[e].stmt;
    var h := DropSlot(hs, e.caller, t, e)[m];
    if h.Some? {
      forall s: Stmt ensures SlotOK(h.value, SiteIn(Remove(g, e), m, s), s) {
        assert SlotOK(hs[m].value, SiteIn(g, m, s), s);
        if e.caller == m && s == t {
          assert SiteOK(SiteIn(g, m, t));
          PlainLeavesNothing(SiteIn(g, m, t), e, g.edges[e]);
          assert Minus([Entry(e, g.edges[e])], e) == [];
        }
      }
    }
  }

  /** Node m is in order, and no speculative call of its own is among es. */
  ghost predicate Spared(g: Graph, hs: Tables, es: seq<Edge>, m: Node) {
    && Removable(g, es) && m in g.nodes && NodeSitesOK(g, m) && m in hs && HashOK(hs[m], g, m)
    && forall i | 0 <= i < |es| && es[i].caller == m :: !g.edges[es[i]].speculative
  }

  lemma StillSpared(g: Graph, hs: Tables, es: seq<Edge>, m: Node)
    requires Spared(g, hs, es, m) && es != []
    ensures Live(g, es[0]) && es[0] in g.edges
    ensures var hs1 := DropSlot(hs, es[0].caller, g.edges[es[0]].stmt, es[0]);
      && Spared(Remove(g, es[0]), hs1, es[1..], m)
      && DropSlots(hs, g.edges, es) == DropSlots(hs1, Remove(g, es[0]).edges, es[1..])
  {
    hide ListsOK, Complete, Remove, NodeSitesOK, HashOK, EdgeOK, Live, NoDup;
    RemoveStep(g, es);
    RemoveKeepsNode(g, es, m);
    RemoveKeepsHash(g, hs, es, m);
    DropSlotsFrame(DropSlot(hs, es[0].caller, g.edges[es[0]].stmt, es[0]), g.edges, Remove(g, es[0]).edges, es[1..]);
  }

  lemma {:induction false} DropSlotsKeepHash(g: Graph, hs: Tables, es: seq<Edge>, m: Node)
    requires Spared(g, hs, es, m)
    ensures ListsOK(RemoveAll(g, es)) && m in RemoveAll(g, es).nodes && m in DropSlots(hs, g.edges, es)
    ensures HashOK(DropSlots(hs, g.edges, es)[m], RemoveAll(g, es), m)
    decreases |es|
  {
    if es != [] {
      StillSpared(g, hs, es, m);
      hide ListsOK, Complete, Remove, NodeSitesOK, HashOK, DropSlot, DropSlots, NoDup;
      DropSlotsKeepHash(Remove(g, es[0]), DropSlot(hs, es[0].caller, g.edges[es[0]].stmt, es[0]), es[1..], m);
    }
  }

  // ---------- remove_callers ----------

  /** The graph in which the edges of xs have left the callees of their callers. */
  ghost function OutCut(g: Graph, xs: set<Edge>): Graph {
    g.(nodes := map n | n in g.nodes :: g.nodes[n].(callees := Keep(g.nodes[n].callees, xs)))
  }

  lemma OutCutStep(g: Graph, xs: set<Edge>, e: Edge)
    requires ListsOK(g) && e.caller in g.nodes
    ensures PullCallee(OutCut(g, xs), e) == OutCut(g, xs + {e})
  {
    hide Keep, Unlink, ListsOK;
    var a, b := PullCallee(OutCut(g, xs), e), OutCut(g, xs + {e});
    forall n | n in g.nodes ensures a.nodes[n] == b.nodes[n] {
      OneLess(g, n, xs, e);
    }
    assert a.nodes.Keys == b.nodes.Keys;
  }

  lemma OneLess(g: Graph, n: Node, xs: set<Edge>, e: Edge)
    requires ListsOK(g) && n in g.nodes
    ensures Keep(g.nodes[n].callees, xs + {e})
      == if n == e.caller then Unlink(Keep(g.nodes[n].callees, xs), e) else Keep(g.nodes[n].callees, xs)
  {
    assert NodeOK(n, g.nodes[n], g.edges);
    KeepMore(g.nodes[n].callees, xs, e);
  }

  lemma OutCutNone(g: Graph)
    ensures OutCut(g, {}) == g
  {
    forall n | n in g.nodes ensures Keep(g.nodes[n].callees, {}) == g.nodes[n].callees {
      KeepAll(g.nodes[n].callees, {});
    }
    assert OutCut(g, {}).nodes == g.nodes;
  }

  /** Then the callers list of n is dropped, and its edges are gone. */
  ghost function ZapCallers(g: Graph, n: Node, xs: set<Edge>): Graph
    requires n in g.nodes
  {
    Graph(g.nodes[n := g.nodes[n].(callers := [])], g.edges - xs)
  }

  lemma CallersZapped(g: Graph, n: Node)
    requires ListsOK(g) && Complete(g) && n in g.nodes
    ensures var xs := SetOf(g.nodes[n].callers);
      n in OutCut(g, xs).nodes && RemoveCallers(g, n) == ZapCallers(OutCut(g, xs), n, xs)
  {
    var cs := g.nodes[n].callers;
    var xs := SetOf(cs);
    CallersRemovable(g, n);
    RemoveAllIs(g, cs);
    var a, b := Without(g, xs), ZapCallers(OutCut(g, xs), n, xs);
    forall m | m in g.nodes ensures a.nodes[m] == b.nodes[m] {
      CallersApart(g, n, m);
    }
    assert a.nodes == b.nodes;
  }

  /** The callers of n are on no other callers list, and none of them is indirect. */
  lemma CallersApart(g: Graph, n: Node, m: Node)
    requires ListsOK(g) && Complete(g) && n in g.nodes && m in g.nodes
    ensures var xs := SetOf(g.nodes[n].callers);
      && Keep(g.nodes[m].indirects, xs) == g.nodes[m].indirects
      && Keep(g.nodes[m].callers, xs) == if m == n then [] else g.nodes[m].callers
  {
    var r, xs := g.nodes[m], SetOf(g.nodes[n].callers);
    assert NodeOK(n, g.nodes[n], g.edges) && NodeOK(m, r, g.edges);
    forall e | e in r.indirects ensures e !in xs {
      assert EdgeOK(g, e);
    }
    KeepAll(r.indirects, xs);
    if m == n {
      KeepNone(r.callers, xs);
    } else {
      KeepAll(r.callers, xs);
    }
  }

  twostate lemma ZapCallersRep(st: State, new n: Node, new xs: set<Edge>)
    requires n in st.g.nodes && old(Represents(st.g, st.hs)) && n.callers == null
    requires RecordsSame(st.g.edges.Keys) && RestSame(st.g.nodes.Keys) && CalleeSideSame(st.g.edges.Keys, st.g.nodes.Keys)
    requires forall x | x in st.g.edges :: x.nextCaller == old(x.nextCaller) && x.prevCaller == old(x.prevCaller) && x.callee == old(x.callee)
    requires forall m | m in st.g.nodes && m != n :: m.callers == old(m.callers)
    ensures Represents(ZapCallers(st.g, n, xs), st.hs)
  {
    var g, g' := st.g, ZapCallers(st.g, n, xs);
    forall x | x in g'.edges ensures FieldsRep(x, g'.edges[x]) && CallerLinks(x, g') && CalleeLinks(x, g') {
      assert old(FieldsRep(x, g.edges[x]) && CallerLinks(x, g) && CalleeLinks(x, g));
    }
    forall m | m in g'.nodes ensures NodeRep(m, g'.nodes[m], st.hs[m]) {
      assert old(NodeRep(m, g.nodes[m], st.hs[m]));
    }
  }

  method DropCallers(n: Node, ghost xs: set<Edge>, ghost g: Graph, ghost hs: Tables)
    requires n in g.nodes && Represents(g, hs)
    modifies n`callers
    ensures Represents(ZapCallers(g, n, xs), hs)
  {
    hide FieldsOK, CalleeLinksOK, CallerLinksOK, NodesOK;
    n.callers := null;
    ZapCallersRep(State(g, hs), n, xs);
  }

  /** One round: a caller's edge leaves the caller's list and table. */
  method DetachCaller(e: Edge, ghost cs: seq<Edge>, ghost k: nat, ghost g: Graph, ghost hs: Tables)
    requires ListsOK(g) && Complete(g) && k < |cs| && cs[k] == e && NoDup(cs)
    requires e in g.edges && EdgeOK(g, e) && !g.edges[e].indirect
    requires ListsOK(OutCut(g, SetOf(cs[..k]))) && Represents(OutCut(g, SetOf(cs[..k])), hs)
    modifies g.nodes.Keys`callees, g.nodes.Keys`indirectCalls, e.caller`callSiteHash
    modifies g.edges.Keys`prevCallee, g.edges.Keys`nextCallee
    ensures ListsOK(OutCut(g, SetOf(cs[..k + 1])))
    ensures Represents(OutCut(g, SetOf(cs[..k + 1])), DropSlot(hs, e.caller, g.edges[e].stmt, e))
  {
    ghost var xs := SetOf(cs[..k]);
    OutCutStep(g, xs, e);
    SetOfMore(cs, k);
    hide ListsOK, Complete, Represents;
    RemoveCaller(e, OutCut(g, xs), hs);
  }

  lemma NextCaller(g: Graph, xs: set<Edge>, hs: Tables, n: Node, k: nat)
    requires ListsOK(g) && Complete(g) && n in g.nodes && k < |g.nodes[n].callers|
    requires Represents(OutCut(g, xs), hs)
    ensures var cs := g.nodes[n].callers;
      && cs[k] in g.edges && EdgeOK(g, cs[k]) && !g.edges[cs[k]].indirect && NoDup(cs)
      && cs[k].nextCaller == if k + 1 < |cs| then cs[k + 1] else null
  {
    var cs := g.nodes[n].callers;
    assert NodeOK(n, g.nodes[n], g.edges) && cs[k] in cs;
    assert EdgeOK(g, cs[k]) && CallerLinks(cs[k], OutCut(g, xs));
    AfterAt(cs, k);
  }

  lemma FirstCaller(g: Graph, hs: Tables, n: Node)
    requires ListsOK(g) && Complete(g) && n in g.nodes && Represents(g, hs)
    ensures n.callers == Head(g.nodes[n].callers)
    ensures OutCut(g, SetOf(g.nodes[n].callers[..0])) == g && g.nodes[n].callers[0..] == g.nodes[n].callers
    ensures Removable(g, g.nodes[n].callers)
  {
    assert NodeRep(n, g.nodes[n], hs[n]);
    CallersRemovable(g, n);
    OutCutNone(g);
    assert SetOf(g.nodes[n].callers[..0]) == {};
  }

  /** cgraph_node::remove_callers, but for freeing the edges. */
  method RemoveAllCallers(n: Node, ghost g: Graph, ghost hs: Tables) returns (freed: seq<Edge>, ghost hs': Tables)
    requires ListsOK(g) && Complete(g) && n in g.nodes && Represents(g, hs)
    modifies g.nodes.Keys`callees, g.nodes.Keys`indirectCalls, g.nodes.Keys`callSiteHash, n`callers
    modifies g.edges.Keys`prevCallee, g.edges.Keys`nextCallee
    ensures freed == g.nodes[n].callers && Removable(g, freed)
    ensures hs' == DropSlots(hs, g.edges, freed) && Represents(RemoveCallers(g, n), hs')
  {
    hide ListsOK, Complete, Represents, OutCut, EdgeOK;
    ghost var cs := g.nodes[n].callers;
    FirstCaller(g, hs, n);
    var e := n.callers;
    ghost var k := 0;
    freed, hs' := [], hs;
    while e != null
      invariant k <= |cs| && e == (if k < |cs| then cs[k] else null) && freed == cs[..k]
      invariant ListsOK(OutCut(g, SetOf(cs[..k]))) && Represents(OutCut(g, SetOf(cs[..k])), hs')
      invariant DropSlots(hs', g.edges, cs[k..]) == DropSlots(hs, g.edges, cs)
      decreases |cs| - k
    {
      NextCaller(g, SetOf(cs[..k]), hs', n, k);
      var f := e.nextCaller;
      DetachCaller(e, cs, k, g, hs');
      hs' := DropSlot(hs', e.caller, g.edges[e].stmt, e);
      assert cs[k..][0] == e && cs[k..][1..] == cs[k + 1..];
      freed := freed + [e];
      e := f;
      k := k + 1;
    }
    assert cs[..k] == cs;
    CallersZapped(g, n);
    DropCallers(n, SetOf(cs), OutCut(g, SetOf(cs)), hs');
  }

  // ---------- remove_callees ----------

  /** The graph in which the edges of xs have left the callers of their callees. */
  ghost function InCut(g: Graph, xs: set<Edge>): Graph {
    g.(nodes := map n | n in g.nodes :: g.nodes[n].(callers := Keep(g.nodes[n].callers, xs)))
  }

  lemma InCutStep(g: Graph, xs: set<Edge>, e: Edge)
    requires ListsOK(g) && e in g.edges && g.edges[e].callee in g.nodes
    ensures PullCaller(InCut(g, xs), g.edges[e].callee, e) == InCut(g, xs + {e})
  {
    hide Keep, Unlink, ListsOK;
    var a, b := PullCaller(InCut(g, xs), g.edges[e].callee, e), InCut(g, xs + {e});
    forall n | n in g.nodes ensures a.nodes[n] == b.nodes[n] {
      OneCallerLess(g, n, xs, e);
    }
    assert a.nodes.Keys == b.nodes.Keys;
  }

  lemma OneCallerLess(g: Graph, n: Node, xs: set<Edge>, e: Edge)
    requires ListsOK(g) && n in g.nodes && e in g.edges
    ensures Keep(g.nodes[n].callers, xs + {e})
      == if n == g.edges[e].callee then Unlink(Keep(g.nodes[n].callers, xs), e) else Keep(g.nodes[n].callers, xs)
  {
    assert NodeOK(n, g.nodes[n], g.edges);
    KeepMore(g.nodes[n].callers, xs, e);
  }

  lemma InCutNone(g: Graph)
    ensures InCut(g, {}) == g
  {
    forall n | n in g.nodes ensures Keep(g.nodes[n].callers, {}) == g.nodes[n].callers {
      KeepAll(g.nodes[n].callers, {});
    }
    assert InCut(g, {}).nodes == g.nodes;
  }

  /** Then the lists of n's own calls are dropped, and their edges are gone. */
  ghost function ZapCalls(g: Graph, n: Node, xs: set<Edge>): Graph
    requires n in g.nodes
  {
    Graph(g.nodes[n := g.nodes[n].(callees := [], indirects := [])], g.edges - xs)
  }

  lemma CallsZapped(g: Graph, n: Node)
    requires ListsOK(g) && Complete(g) && n in g.nodes
    ensures var g1 := InCut(g, SetOf(g.nodes[n].callees));
      n in g1.nodes && RemoveCallees(g, n) == ZapCalls(g1, n, SetOf(AllCalls(g, n)))
  {
    var xs := SetOf(AllCalls(g, n));
    CalleesRemovable(g, n);
    RemoveAllIs(g, AllCalls(g, n));
    var a, b := Without(g, xs), ZapCalls(InCut(g, SetOf(g.nodes[n].callees)), n, xs);
    forall m | m in g.nodes ensures a.nodes[m] == b.nodes[m] {
      CallsApart(g, n, m);
    }
    assert a.nodes == b.nodes;
  }

  /** The calls of n are on no other node's lists of calls, and the indirect ones on no callers list. */
  lemma CallsApart(g: Graph, n: Node, m: Node)
    requires ListsOK(g) && Complete(g) && n in g.nodes && m in g.nodes
    ensures var xs := SetOf(AllCalls(g, n));
      && Keep(g.nodes[m].callees, xs) == (if m == n then [] else g.nodes[m].callees)
      && Keep(g.nodes[m].indirects, xs) == (if m == n then [] else g.nodes[m].indirects)
      && Keep(g.nodes[m].callers, xs) == Keep(g.nodes[m].callers, SetOf(g.nodes[n].callees))
  {
    var r, xs := g.nodes[m], SetOf(AllCalls(g, n));
    assert NodeOK(n, g.nodes[n], g.edges) && NodeOK(m, r, g.edges);
    if m == n {
      KeepNone(r.callees, xs);
      KeepNone(r.indirects, xs);
    } else {
      KeepAll(r.callees, xs);
      KeepAll(r.indirects, xs);
    }
    forall e | e in r.callers ensures e in xs <==> e in SetOf(g.nodes[n].callees) {
      assert EdgeOK(g, e);
    }
    KeepSame(r.callers, xs, SetOf(g.nodes[n].callees));
  }

  lemma {:induction false} KeepSame(s: seq<Edge>, xs: set<Edge>, ys: set<Edge>)
    requires forall e | e in s :: e in xs <==> e in ys
    ensures Keep(s, xs) == Keep(s, ys)
  {
    if s != [] {
      assert s[0] in s;
      KeepSame(s[1..], xs, ys);
    }
  }

  twostate lemma ZapCallsRep(st: State, new n: Node, new xs: set<Edge>)
    requires n in st.g.nodes && old(Represents(st.g, st.hs)) && SetOf(AllCalls(st.g, n)) <= xs
    requires n.callees == null && n.indirectCalls == null && n.callSiteHash == None
    requires RecordsSame(st.g.edges.Keys) && CallerSideSame(st.g.edges.Keys, st.g.nodes.Keys)
    requires forall x | x in st.g.edges :: x.nextCallee == old(x.nextCallee) && x.prevCallee == old(x.prevCallee)
    requires forall m | m in st.g.nodes :: m.references == old(m.references)
    requires forall m | m in st.g.nodes && m != n ::
      m.callees == old(m.callees) && m.indirectCalls == old(m.indirectCalls) && m.callSiteHash == old(m.callSiteHash)
    ensures Represents(ZapCalls(st.g, n, xs), st.hs[n := None])
  {
    var g, g', hs' := st.g, ZapCalls(st.g, n, xs), st.hs[n := None];
    forall x | x in g'.edges ensures FieldsRep(x, g'.edges[x]) && CallerLinks(x, g') && CalleeLinks(x, g') {
      assert old(FieldsRep(x, g.edges[x]) && CallerLinks(x, g) && CalleeLinks(x, g));
    }
    forall m | m in g'.nodes ensures NodeRep(m, g'.nodes[m], hs'[m]) {
      assert old(NodeRep(m, g.nodes[m], st.hs[m]));
    }
  }

  method DropCalls(n: Node, ghost xs: set<Edge>, ghost g: Graph, ghost hs: Tables)
    requires n in g.nodes && Represents(g, hs) && SetOf(AllCalls(g, n)) <= xs
    modifies n`callees, n`indirectCalls, n`callSiteHash
    ensures Represents(ZapCalls(g, n, xs), hs[n := None])
  {
    hide FieldsOK, CalleeLinksOK, CallerLinksOK, NodesOK;
    n.indirectCalls := null;
    n.callees := null;
    if n.callSiteHash.Some? {
      n.callSiteHash := None;
    }
    ZapCallsRep(State(g, hs), n, xs);
  }

  /** One round: a call leaves the callers of the function it calls. */
  method DetachCall(e: Edge, ghost cs: seq<Edge>, ghost k: nat, ghost g: Graph, ghost hs: Tables)
    requires ListsOK(g) && Complete(g) && k < |cs| && cs[k] == e && NoDup(cs)
    requires e in g.edges && EdgeOK(g, e) && !g.edges[e].indirect
    requires ListsOK(InCut(g, SetOf(cs[..k]))) && Represents(InCut(g, SetOf(cs[..k])), hs)
    modifies g.nodes.Keys`callers, g.edges.Keys`prevCaller, g.edges.Keys`nextCaller
    ensures ListsOK(InCut(g, SetOf(cs[..k + 1]))) && Represents(InCut(g, SetOf(cs[..k + 1])), hs)
  {
    ghost var xs := SetOf(cs[..k]);
    InCutStep(g, xs, e);
    SetOfMore(cs, k);
    hide ListsOK, Complete;
    assert FieldsRep(e, InCut(g, xs).edges[e]);
    hide Represents;
    if !e.indirectUnknownCallee {
      TakeIn(e, InCut(g, xs), hs);
    }
  }

  lemma NextCall(g: Graph, xs: set<Edge>, hs: Tables, n: Node, indirect: bool, k: nat)
    requires ListsOK(g) && Complete(g) && n in g.nodes && k < |OutList(g, n, indirect)|
    requires Represents(InCut(g, xs), hs)
    ensures var cs := OutList(g, n, indirect);
      && cs[k] in g.edges && EdgeOK(g, cs[k]) && g.edges[cs[k]].indirect == indirect && NoDup(cs)
      && cs[k].indirectUnknownCallee == indirect
      && cs[k].nextCallee == if k + 1 < |cs| then cs[k + 1] else null
  {
    var cs := OutList(g, n, indirect);
    assert NodeOK(n, g.nodes[n], g.edges) && cs[k] in cs;
    assert EdgeOK(g, cs[k]) && CalleeLinks(cs[k], InCut(g, xs)) && FieldsRep(cs[k], g.edges[cs[k]]);
    AfterAt(cs, k);
  }

  lemma FirstCall(g: Graph, hs: Tables, n: Node)
    requires ListsOK(g) && Complete(g) && n in g.nodes && Represents(g, hs)
    ensures n.callees == Head(g.nodes[n].callees)
    ensures InCut(g, SetOf(g.nodes[n].callees[..0])) == g && Removable(g, AllCalls(g, n))
  {
    assert NodeRep(n, g.nodes[n], hs[n]);
    CalleesRemovable(g, n);
    InCutNone(g);
    assert SetOf(g.nodes[n].callees[..0]) == {};
  }

  lemma FirstIndirect(g: Graph, xs: set<Edge>, hs: Tables, n: Node)
    requires n in g.nodes && Represents(InCut(g, xs), hs)
    ensures n.indirectCalls == Head(g.nodes[n].indirects)
  {
    assert NodeRep(n, InCut(g, xs).nodes[n], hs[n]);
  }

  /** The loop over the direct calls. */
  method DetachCalls(n: Node, ghost g: Graph, ghost hs: Tables) returns (freed: seq<Edge>)
    requires ListsOK(g) && Complete(g) && n in g.nodes && Represents(g, hs)
    modifies g.nodes.Keys`callers, g.edges.Keys`prevCaller, g.edges.Keys`nextCaller
    ensures freed == g.nodes[n].callees
    ensures ListsOK(InCut(g, SetOf(freed))) && Represents(InCut(g, SetOf(freed)), hs)
  {
    hide ListsOK, Complete, Represents, InCut, EdgeOK;
    ghost var cs := g.nodes[n].callees;
    FirstCall(g, hs, n);
    var e := n.callees;
    ghost var k := 0;
    freed := [];
    while e != null
      invariant k <= |cs| && e == (if k < |cs| then cs[k] else null) && freed == cs[..k]
      invariant ListsOK(InCut(g, SetOf(cs[..k]))) && Represents(InCut(g, SetOf(cs[..k])), hs)
      decreases |cs| - k
    {
      NextCall(g, SetOf(cs[..k]), hs, n, false, k);
      var f := e.nextCallee;
      DetachCall(e, cs, k, g, hs);
      freed := freed + [e];
      e := f;
      k := k + 1;
    }
    assert cs[..k] == cs;
  }

  /** cgraph_node::remove_callees, but for freeing the edges. */
  method RemoveAllCallees(n: Node, ghost g: Graph, ghost hs: Tables) returns (freed: seq<Edge>)
    requires ListsOK(g) && Complete(g) && n in g.nodes && Represents(g, hs)
    modifies n`callees, n`indirectCalls, n`callSiteHash
    modifies g.nodes.Keys`callers, g.edges.Keys`prevCaller, g.edges.Keys`nextCaller
    ensures freed == AllCalls(g, n) && Removable(g, freed)
    ensures Represents(RemoveCallees(g, n), hs[n := None])
  {
    hide ListsOK, Complete, Represents, InCut, EdgeOK;
    FirstCall(g, hs, n);
    CallsZapped(g, n);
    freed := DetachCalls(n, g, hs);
    ghost var xs := SetOf(freed);
    FirstIndirect(g, xs, hs, n);
    ghost var cs := g.nodes[n].indirects;
    var e := n.indirectCalls;
    ghost var k := 0;
    while e != null
      invariant k <= |cs| && e == (if k < |cs| then cs[k] else null) && freed == g.nodes[n].callees + cs[..k]
      invariant Represents(InCut(g, xs), hs)
      decreases |cs| - k
    {
      NextCall(g, xs, hs, n, true, k);
      freed := freed + [e];
      e := e.nextCallee;
      k := k + 1;
    }
    assert cs[..k] == cs;
    CallsOf(g, xs, n);
    DropCalls(n, SetOf(AllCalls(g, n)), InCut(g, xs), hs);
  }

  lemma CallsOf(g: Graph, xs: set<Edge>, n: Node)
    requires n in g.nodes
    ensures n in InCut(g, xs).nodes && AllCalls(InCut(g, xs), n) == AllCalls(g, n)
  {
  }

  // ---------- the tables afterwards ----------

  lemma WellFormedNode(g: Graph, m: Node)
    requires WellFormed(g) && m in g.nodes
    ensures NodeSitesOK(g, m)
  {
  }

  lemma RemoveCallersHashes(g: Graph, hs: Tables, n: Node)
    requires WellFormed(g) && HashesOK(hs, g) && n in g.nodes
    requires forall e | e in g.nodes[n].callers :: e in g.edges && !g.edges[e].speculative
    ensures Removable(g, g.nodes[n].callers)
    ensures ListsOK(RemoveCallers(g, n)) && HashesOK(DropSlots(hs, g.edges, g.nodes[n].callers), RemoveCallers(g, n))
  {
    var es := g.nodes[n].callers;
    CallersRemovable(g, n);
    RemoveAllLists(g, es);
    hide ListsOK, Complete, SitesOK, HashOK, NoDup, RemoveAll;
    DropSlotsElsewhere(hs, g.edges, es, n);
    forall m | m in g.nodes ensures HashOK(DropSlots(hs, g.edges, es)[m], RemoveAll(g, es), m) {
      WellFormedNode(g, m);
      DropSlotsKeepHash(g, hs, es, m);
    }
  }

  /** A node that makes none of the calls es keeps its table as it is. */
  lemma ElsewhereHash(g: Graph, hs: Tables, es: seq<Edge>, m: Node)
    requires Removable(g, es) && m in g.nodes && NodeSitesOK(g, m) && m in hs && HashOK(hs[m], g, m)
    requires forall i | 0 <= i < |es| :: es[i].caller != m
    ensures ListsOK(RemoveAll(g, es)) && m in RemoveAll(g, es).nodes && HashOK(hs[m], RemoveAll(g, es), m)
  {
    hide ListsOK, Complete, HashOK, NodeSitesOK, NoDup, RemoveAll;
    DropSlotsElsewhere(hs, g.edges, es, m);
    DropSlotsKeepHash(g, hs, es, m);
  }

  lemma OwnCalls(g: Graph, n: Node)
    requires ListsOK(g) && n in g.nodes
    ensures forall i | 0 <= i < |AllCalls(g, n)| :: AllCalls(g, n)[i].caller == n
  {
    assert NodeOK(n, g.nodes[n], g.edges);
    forall i | 0 <= i < |AllCalls(g, n)| ensures AllCalls(g, n)[i].caller == n {
      assert AllCalls(g, n)[i] in g.nodes[n].callees || AllCalls(g, n)[i] in g.nodes[n].indirects;
    }
  }

  lemma RemoveCalleesHashes(g: Graph, hs: Tables, n: Node)
    requires WellFormed(g) && HashesOK(hs, g) && n in g.nodes
    ensures ListsOK(RemoveCallees(g, n)) && HashesOK(hs[n := None], RemoveCallees(g, n))
  {
    hide ListsOK;
    var es := AllCalls(g, n);
    CalleesRemovable(g, n);
    RemoveAllLists(g, es);
    OwnCalls(g, n);
    hide ListsOK, Complete, SitesOK, NoDup, RemoveAll, TableOK;
    forall m | m in g.nodes && m != n ensures HashOK(hs[m], RemoveAll(g, es), m) {
      WellFormedNode(g, m);
      ElsewhereHash(g, hs, es, m);
    }
  }

  /** The tables once n is gone. */
  ghost function TablesWithout(hs: Tables, g: Graph, n: Node): Tables
    requires ListsOK(g) && Complete(g) && n in g.nodes
  {
    CallersRemovable(g, n);
    DropSlots(hs, g.edges, g.nodes[n].callers)[n := None] - {n}
  }

  lemma RemoveNodeHashes(g: Graph, hs: Tables, n: Node)
    requires WellFormed(g) && HashesOK(hs, g) && n in g.nodes && NoSpeculativeCallers(g, n)
    ensures ListsOK(RemoveNode(g, n)) && HashesOK(TablesWithout(hs, g, n), RemoveNode(g, n))
  {
    hide DropSlots, AllCalls, ListsOK;
    RemoveNodeLists(g, n);
    CallersRemovable(g, n);
    hide ListsOK, Complete, SitesOK, NoDup, TableOK, RemoveAll, HashOK;
    var g', hs' := RemoveNode(g, n), TablesWithout(hs, g, n);
    DropSlotsElsewhere(hs, g.edges, g.nodes[n].callers, n);
    forall m | m in g'.nodes ensures HashOK(hs'[m], g', m) {
      OtherNodeHash(g, hs, n, m);
    }
  }

  lemma OtherNodeHash(g: Graph, hs: Tables, n: Node, m: Node)
    requires WellFormed(g) && HashesOK(hs, g) && n in g.nodes && m in g.nodes && m != n && NoSpeculativeCallers(g, n)
    ensures ListsOK(RemoveNode(g, n)) && m in RemoveNode(g, n).nodes && m in TablesWithout(hs, g, n)
    ensures HashOK(TablesWithout(hs, g, n)[m], RemoveNode(g, n), m)
  {
    hide ListsOK;
    RemoveNodeLists(g, n);
    CallersRemovable(g, n);
    hide ListsOK, Complete, SitesOK, TableOK, RemoveAll, HashOK, NodeSitesOK, DropSlots, NoSpeculativeCallers, HashesOK;
    WithoutCallers(g, hs, n, m);
    var g1, hs1 := RemoveCallers(g, n), DropSlots(hs, g.edges, g.nodes[n].callers);
    CalleesRemovable(g1, n);
    OwnCalls(g1, n);
    assert forall i | 0 <= i < |AllCalls(g1, n)| :: AllCalls(g1, n)[i].caller != m;
    ElsewhereHash(g1, hs1, AllCalls(g1, n), m);
    ForgottenHash(RemoveCallees(g1, n), hs1[m], n, m);
  }

  lemma CallersSpare(g: Graph, n: Node, m: Node)
    requires ListsOK(g) && n in g.nodes && m != n && NoSpeculativeCallers(g, n)
    ensures var cs := g.nodes[n].callers;
      forall i | 0 <= i < |cs| && cs[i].caller == m :: cs[i] in g.edges && !g.edges[cs[i]].speculative
  {
    CallersAre(g, n);
    var cs := g.nodes[n].callers;
    assert forall i | 0 <= i < |cs| :: cs[i] in cs;
  }

  lemma WithoutCallers(g: Graph, hs: Tables, n: Node, m: Node)
    requires WellFormed(g) && HashesOK(hs, g) && n in g.nodes && m in g.nodes && m != n && NoSpeculativeCallers(g, n)
    ensures Removable(g, g.nodes[n].callers)
    ensures var g1, hs1 := RemoveCallers(g, n), DropSlots(hs, g.edges, g.nodes[n].callers);
      ListsOK(g1) && Complete(g1) && m in g1.nodes && m in hs1 && NodeSitesOK(g1, m) && HashOK(hs1[m], g1, m)
  {
    hide SiteIn, Removable;
    var cs := g.nodes[n].callers;
    CallersRemovable(g, n);
    CallersAre(g, n);
    RemoveAllLists(g, cs);
    hide ListsOK, Complete, SitesOK, NoDup, TableOK, RemoveAll, HashOK, NodeSitesOK, DropSlots;
    WellFormedNode(g, m);
    CallersSpare(g, n, m);
    assert Spared(g, hs, cs, m);
    hide Spared, NoSpeculativeCallers;
    DropSlotsKeepHash(g, hs, cs, m);
    RemoveAllKeepsNode(g, cs, m);
  }

  lemma ForgottenHash(g: Graph, h: Option<Table>, n: Node, m: Node)
    requires ListsOK(g) && ListsOK(ForgetNode(g, n)) && m in g.nodes && m != n && HashOK(h, g, m)
    ensures HashOK(h, ForgetNode(g, n), m)
  {
    if h.Some? {
      forall s: Stmt ensures SlotOK(h.value, SiteIn(ForgetNode(g, n), m, s), s) {
        SiteForgotten(g, n, m, s);
        assert SlotOK(h.value, SiteIn(g, m, s), s);
      }
    }
  }

  /** The heap without a node that nothing is left of. */
  lemma ForgetNodeRep(g: Graph, hs: Tables, n: Node)
    requires Represents(g, hs)
    ensures Represents(ForgetNode(g, n), hs - {n})
  {
    var g' := ForgetNode(g, n);
    forall x | x in g'.edges ensures FieldsRep(x, g'.edges[x]) && CallerLinks(x, g') && CalleeLinks(x, g') {
      assert FieldsRep(x, g.edges[x]) && CallerLinks(x, g) && CalleeLinks(x, g);
    }
    forall m | m in g'.nodes ensures NodeRep(m, g'.nodes[m], (hs - {n})[m]) {
      assert NodeRep(m, g.nodes[m], hs[m]);
    }
  }

  lemma RemoveAllFrees(g: Graph, es: seq<Edge>)
    requires Removable(g, es)
    ensures Freed(g.edges.Keys, RemoveAll(g, es).edges.Keys, es)
    ensures ListsOK(RemoveAll(g, es)) && Complete(RemoveAll(g, es)) && RemoveAll(g, es).nodes.Keys == g.nodes.Keys
  {
    hide ListsOK, Complete;
    RemoveAllLists(g, es);
  }
}
