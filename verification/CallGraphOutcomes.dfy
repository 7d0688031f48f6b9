/** What the operations leave at a call site, and which edge they return, said of the site alone. */
module CallGraphOutcomes {
  import opened Common
  import opened CallGraphTypes
  import opened CallSites
  import opened CallGraphSteps
  import opened CallGraphInvariants
  import opened CallGraphDirect
  import opened CallGraphMakeDirect
  import opened CallGraphWalks
  import opened CallGraphSettle

  // ---------- the edge of a statement ----------

  ghost predicate NoneFor(s: seq<Edge>, edges: map<Edge, EdgeRec>, t: Stmt)
    requires Covers(edges, s)
  {
    forall x | x in s :: edges[x].stmt != t
  }

  /** e is the first edge of the list that has statement t. */
  ghost predicate FirstFor(s: seq<Edge>, edges: map<Edge, EdgeRec>, t: Stmt, e: Edge?)
    requires Covers(edges, s)
  {
    exists k | 0 <= k < |s| ::
      s[k] == e && edges[s[k]].stmt == t && forall j | 0 <= j < k :: edges[s[j]].stmt != t
  }

  lemma {:induction false} FirstAt(s: seq<Edge>, edges: map<Edge, EdgeRec>, t: Stmt)
    requires Covers(edges, s)
    ensures At(s, edges, t) == [] <==> NoneFor(s, edges, t)
    ensures At(s, edges, t) != [] ==> FirstFor(s, edges, t, At(s, edges, t)[0].edge)
  {
    if s != [] {
      if edges[s[0]].stmt == t {
        assert s[0] in s;
      } else {
        var rest := s[1..];
        FirstAt(rest, edges, t);
        assert NoneFor(s, edges, t) <==> NoneFor(rest, edges, t);
        if At(rest, edges, t) != [] {
          var k :| 0 <= k < |rest| && rest[k] == At(rest, edges, t)[0].edge && edges[rest[k]].stmt == t
            && forall j | 0 <= j < k :: edges[rest[j]].stmt != t;
          assert s[k + 1] == rest[k] && forall j | 0 < j < k + 1 :: s[j] == rest[j - 1];
        }
      }
    }
  }

  /** The edge for a statement is the first on the list of direct edges that has it, and if there is
      none, the first on the other list. */
  ghost predicate Answers(g: Graph, n: Node, t: Stmt, e: Edge?)
    requires ListsOK(g) && n in g.nodes
  {
    var r := g.nodes[n];
    assert NodeOK(n, r, g.edges);
    if !NoneFor(r.callees, g.edges, t) then FirstFor(r.callees, g.edges, t, e)
    else if !NoneFor(r.indirects, g.edges, t) then FirstFor(r.indirects, g.edges, t, e)
    else e == null
  }

  lemma RepresentativeAnswers(g: Graph, n: Node, t: Stmt)
    requires ListsOK(g) && n in g.nodes
    ensures Answers(g, n, t, Representative(SiteIn(g, n, t)))
  {
    assert NodeOK(n, g.nodes[n], g.edges);
    FirstAt(g.nodes[n].callees, g.edges, t);
    FirstAt(g.nodes[n].indirects, g.edges, t);
  }

  // ---------- references ----------

  /** The reference that is paired with target d stands for the same symbol as callee. */
  ghost predicate StandsFor(v: Site, d: Entry, callee: Node) {
    exists q | q in v.refs :: q.speculativeId == d.rec.speculativeId && q.referred.SemanticallyEquivalent(callee)
  }

  lemma SameElements(a: seq<nat>, b: seq<nat>)
    requires NoDup(a) && multiset(a) == multiset(b)
    ensures NoDup(b) && forall x | x in a :: x in b
  {
    forall i, j | 0 <= i < j < |b| ensures b[i] != b[j] {
      NoDupCount(a, b[i]);
      assert b == b[..j] + b[j..] && multiset(b)[b[i]] == multiset(b[..j])[b[i]] + multiset(b[j..])[b[i]];
      assert b[..j][i] == b[i] && b[j..][0] == b[j];
    }
    forall x | x in a ensures x in b {
      assert x in multiset(a);
    }
  }

  lemma {:induction false} NoDupCount(a: seq<nat>, x: nat)
    requires NoDup(a)
    ensures multiset(a)[x] <= 1
  {
    if a != [] {
      NoDupCount(a[1..], x);
      assert a == [a[0]] + a[1..];
      forall i | 0 <= i < |a[1..]| ensures a[1..][i] != a[0] {
        assert a[1..][i] == a[i + 1];
      }
    }
  }

  /** There is exactly one such reference, and it is the one that is found. */
  lemma FoundRef(v: Site, d: Entry) returns (k: nat)
    requires SpeculativeSite(v) && d in v.targets && RefsOfStmt(v, d.rec.stmt)
    ensures k < |v.refs| && Pairs(v.refs[k], d.rec.stmt, d.rec.speculativeId)
    ensures FindRef(v.refs, d.rec.stmt, d.rec.speculativeId) == Some(v.refs[k])
    ensures DropRef(v.refs, d.rec.stmt, d.rec.speculativeId) == v.refs[..k] + v.refs[k + 1..]
    ensures forall i | 0 <= i < |v.refs| && i != k :: v.refs[i].speculativeId != d.rec.speculativeId
  {
    var a, b := TargetIds(v.targets), RefIds(v.refs);
    SameElements(a, b);
    var i :| 0 <= i < |v.targets| && v.targets[i] == d;
    assert a[i] in a && a[i] in b;
    k :| 0 <= k < |b| && b[k] == a[i];
    assert v.refs[k] in v.refs;
    forall j | 0 <= j < |v.refs| && j != k ensures v.refs[j].speculativeId != d.rec.speculativeId {
      assert b[j] != b[k];
    }
    FindRefIs(v.refs, k, d.rec.stmt, d.rec.speculativeId);
    DropRefIsSlice(v.refs, k, d.rec.stmt, d.rec.speculativeId);
  }

  lemma MatchesMeans(v: Site, d: Entry, callee: Node)
    requires SpeculativeSite(v) && d in v.targets && RefsOfStmt(v, d.rec.stmt)
    ensures Matches(v, d, callee) <==> StandsFor(v, d, callee)
  {
    var k := FoundRef(v, d);
    assert v.refs[k] in v.refs;
  }

  lemma RefsHere(g: Graph, n: Node, t: Stmt)
    requires ListsOK(g) && n in g.nodes
    ensures RefsOfStmt(SiteIn(g, n, t), t)
  {
    RefsAtEntries(g.nodes[n].refs, t);
  }

  // ---------- resolving ----------

  /** The reference of target d is gone, and the others are as they were. */
  ghost predicate RefGone(v: Site, v': Site, d: Entry) {
    exists k | 0 <= k < |v.refs| :: v.refs[k].speculativeId == d.rec.speculativeId && v'.refs == v.refs[..k] + v.refs[k + 1..]
  }

  /** Target i has been given up: the indirect edge has its count, and is speculative as long as there
      is another target. */
  ghost predicate GivenUp(v: Site, v': Site, i: nat)
    requires i < |v.targets| && |v.indirects| == 1
  {
    && v'.targets == v.targets[..i] + v.targets[i + 1..] && RefGone(v, v', v.targets[i])
    && |v'.indirects| == 1 && v'.indirects[0].edge == v.indirects[0].edge
    && var x, x' := v.indirects[0].rec, v'.indirects[0].rec;
       && x'.count == x.count + v.targets[i].rec.count && x'.indirect == x.indirect
       && x'.speculative == (|v.targets| > 1) && x'.info == Some(|v.targets| - 1)
  }

  /** Target i has won: it has the count of the indirect edge, which is gone. */
  ghost predicate HasWon(v: Site, v': Site, i: nat)
    requires i < |v.targets| && |v.indirects| == 1
  {
    && v'.indirects == [] && RefGone(v, v', v.targets[i])
    && var d := v.targets[i];
       && |v'.targets| == |v.targets|
       && (forall j | 0 <= j < |v.targets| && j != i :: v'.targets[j] == v.targets[j])
       && v'.targets[i].edge == d.edge && v'.targets[i].rec.callee == d.rec.callee
       && v'.targets[i].rec.count == d.rec.count + v.indirects[0].rec.count && !v'.targets[i].rec.speculative
  }

  /** A resolution asked for at e, with r as its result, is about e itself if that is a target, and
      about the first target if it is the indirect edge.  The target wins if its reference stands for
      the declaration given, and else it is given up. */
  ghost predicate Resolution(v: Site, v': Site, e: Edge, indirect: bool, decl: Node?, r: Edge, i: nat) {
    && i < |v.targets| && |v.indirects| == 1 && (if indirect then i == 0 else v.targets[i].edge == e)
    && if decl != null && StandsFor(v, v.targets[i], decl) then HasWon(v, v', i) && r == v.targets[i].edge
       else GivenUp(v, v', i) && r == v.indirects[0].edge
  }

  /** Target i of the speculative call with indirect edge x is d. */
  ghost predicate StandsAt(g: Graph, d: Edge, x: Edge, i: nat)
    requires WellFormed(g)
  {
    && SameCall(g, d, x) && d.caller in g.nodes && CallFacts(g, d, x)
    && var v := SiteOfEdge(g, d);
       && SpeculativeSite(v) && DistinctEdges(v.targets) && RefsOfStmt(v, g.edges[d].stmt)
       && i < |v.targets| && v.targets[i] == Entry(d, g.edges[d]) && v.indirects == [Entry(x, g.edges[x])]
  }

  lemma TargetPlace(g: Graph, d: Edge, x: Edge) returns (i: nat)
    requires WellFormed(g) && SameCall(g, d, x)
    ensures StandsAt(g, d, x, i)
  {
    SameCallFacts(g, d, x);
    SiteOfIndirect(g, x);
    SiteDistinct(g, d.caller, g.edges[d].stmt);
    RefsHere(g, d.caller, g.edges[d].stmt);
    SiteOfDirect(g, d);
    var v := SiteOfEdge(g, d);
    i :| 0 <= i < |v.targets| && v.targets[i] == Entry(d, g.edges[d]);
  }

  /** Where the target that a resolution is about stands at its site. */
  lemma ResolvedPlace(g: Graph, e: Edge) returns (i: nat)
    requires WellFormed(g) && e in g.edges && g.edges[e].speculative && e.caller in g.nodes
    ensures SiteOfEdge(g, e).indirects != [] && StandsAt(g, ResolvedTarget(g, e), IndirectOf(g, e), i)
    ensures ResolvedTarget(g, e).caller == e.caller && g.edges[ResolvedTarget(g, e)].stmt == g.edges[e].stmt
    ensures if g.edges[e].indirect then i == 0 else ResolvedTarget(g, e) == e
  {
    hide StandsAt;
    ResolvedCall(g, e);
    i := TargetPlace(g, ResolvedTarget(g, e), IndirectOf(g, e));
    if g.edges[e].indirect {
      i := 0;
      FirstPlace(g, e);
    }
  }

  lemma FirstPlace(g: Graph, e: Edge)
    requires WellFormed(g) && e in g.edges && g.edges[e].speculative && g.edges[e].indirect && e.caller in g.nodes
    requires SiteOfEdge(g, e).indirects != []
    ensures StandsAt(g, ResolvedTarget(g, e), IndirectOf(g, e), 0)
  {
    ResolvedCall(g, e);
    var v, d, x := SiteOfEdge(g, e), ResolvedTarget(g, e), IndirectOf(g, e);
    var i := TargetPlace(g, d, x);
    assert v.targets[0].edge == v.targets[i].edge;
    assert i == 0;
  }

  lemma LostIs(v: Site, i: nat, x: Edge, rx: EdgeRec)
    requires SpeculativeSite(v) && i < |v.targets| && v.indirects == [Entry(x, rx)] && DistinctEdges(v.targets)
    requires RefsOfStmt(v, v.targets[i].rec.stmt)
    ensures GivenUp(v, LostSite(v, v.targets[i].edge, v.targets[i].rec, x, rx), i)
  {
    var k := FoundRef(v, v.targets[i]);
    MinusIsSlice(v.targets, i);
  }

  lemma WonIs(v: Site, i: nat, x: Edge, rx: EdgeRec)
    requires SpeculativeSite(v) && i < |v.targets| && v.indirects == [Entry(x, rx)] && DistinctEdges(v.targets)
    requires RefsOfStmt(v, v.targets[i].rec.stmt)
    ensures HasWon(v, WonSite(v, v.targets[i].edge, v.targets[i].rec, rx), i)
  {
    var k := FoundRef(v, v.targets[i]);
  }

  lemma DropOutcome(g: Graph, d: Edge, x: Edge, i: nat)
    requires WellFormed(g) && StandsAt(g, d, x, i)
    ensures ListsOK(DropTarget(g, d, x)) && d.caller in DropTarget(g, d, x).nodes
    ensures GivenUp(SiteOfEdge(g, d), SiteIn(DropTarget(g, d, x), d.caller, g.edges[d].stmt), i)
  {
    hide GivenUp;
    DropTargetLists(g, d, x);
    DropTargetSite(g, d, x);
    LostIs(SiteOfEdge(g, d), i, x, g.edges[x]);
  }

  lemma KeepOutcome(g: Graph, d: Edge, x: Edge, i: nat)
    requires WellFormed(g) && StandsAt(g, d, x, i)
    ensures ListsOK(KeepTarget(g, d, x)) && d.caller in KeepTarget(g, d, x).nodes
    ensures HasWon(SiteOfEdge(g, d), SiteIn(KeepTarget(g, d, x), d.caller, g.edges[d].stmt), i)
  {
    hide HasWon;
    KeepTargetLists(g, d, x);
    KeepTargetSite(g, d, x);
    WonIs(SiteOfEdge(g, d), i, x, g.edges[x]);
  }

  lemma ProvedMeans(g: Graph, e: Edge, decl: Node?, i: nat)
    requires WellFormed(g) && e in g.edges && g.edges[e].speculative && e.caller in g.nodes
    requires SiteOfEdge(g, e).indirects != [] && StandsAt(g, ResolvedTarget(g, e), IndirectOf(g, e), i)
    ensures Proved(g, e, decl) <==> decl != null && StandsFor(SiteOfEdge(g, ResolvedTarget(g, e)),
                                                             SiteOfEdge(g, ResolvedTarget(g, e)).targets[i], decl)
  {
    var d := ResolvedTarget(g, e);
    if decl != null {
      MatchesInSite(g, d, decl);
      MatchesMeans(SiteOfEdge(g, d), SiteOfEdge(g, d).targets[i], decl);
    }
  }

  lemma ResolutionSite(g: Graph, e: Edge, decl: Node?) returns (i: nat)
    requires WellFormed(g) && e in g.edges && g.edges[e].speculative && e.caller in g.nodes
    ensures ListsOK(Resolve(g, e, decl)) && e.caller in Resolve(g, e, decl).nodes
    ensures Resolution(SiteOfEdge(g, e), SiteIn(Resolve(g, e, decl), e.caller, g.edges[e].stmt), e, g.edges[e].indirect,
                       decl, Resolved(g, e, decl), i)
  {
    i := ResolvedPlace(g, e);
    ProvedMeans(g, e, decl, i);
    var d, x := ResolvedTarget(g, e), IndirectOf(g, e);
    assert SiteOfEdge(g, d) == SiteOfEdge(g, e);
    if Proved(g, e, decl) {
      KeepOutcome(g, d, x, i);
    } else {
      DropOutcome(g, d, x, i);
    }
    hide ListsOK, SiteIn, Complete, SitesOK, RefsLive, HasWon, GivenUp, StandsFor, Proved;
  }

  // ---------- making direct ----------

  /** r is what is left of the call of e when it is made direct: e itself if it is not speculative, a
      target whose reference stands for the callee if there is one, and else the indirect edge. */
  ghost predicate Left(v: Site, e: Edge, speculative: bool, callee: Node, r: Edge) {
    if !speculative then r == e
    else if exists d | d in v.targets :: StandsFor(v, d, callee) then
      exists d | d in v.targets :: StandsFor(v, d, callee) && d.edge == r
    else v.indirects != [] && r == v.indirects[0].edge
  }

  lemma SurvivorIsLeft(g: Graph, e: Edge, callee: Node)
    requires WellFormed(g) && CanBeDirect(g, e) && e.caller in g.nodes
    ensures Left(SiteOfEdge(g, e), e, g.edges[e].speculative, callee, Survivor(g, e, callee))
  {
    if g.edges[e].speculative {
      var n, t := e.caller, g.edges[e].stmt;
      var v, m := SiteOfEdge(g, e), MatchesOf(g, e, callee);
      SpeculativeEdge(g, e);
      RefsHere(g, n, t);
      forall d | d in v.targets ensures StandsFor(v, d, callee) <==> d in m {
        TargetEntry(g, n, t, d);
        MatchesMeans(v, d, callee);
        MatchingMembers(v, v.targets, callee, d);
      }
      if m != [] {
        var d := m[|m| - 1];
        assert d in m;
        MatchingMembers(v, v.targets, callee, d);
      }
    }
  }

  // ---------- new edges ----------

  lemma NewEdgeFields(g: Graph, e: Edge, callee: Node, t: Stmt, count: int)
    requires e.caller in g.nodes && callee in g.nodes && e !in g.edges
    ensures var g' := CreateEdge(g, e, callee, t, count);
      && g'.edges == g.edges[e := EdgeRec(callee, t, false, false, 0, count, None)]
      && e.caller in g'.nodes && g'.nodes[e.caller].callees == [e] + g.nodes[e.caller].callees
      && callee in g'.nodes && g'.nodes[callee].callers == [e] + g.nodes[callee].callers
  {
  }

  lemma NewTargetFields(g: Graph, x: Edge, d: Edge, target: Node, count: int, id: nat)
    requires x in g.edges && d !in g.edges && d.caller in g.nodes && target in g.nodes
    ensures var g', t, was := MakeSpeculative(g, x, d, target, count, id), g.edges[x].stmt, g.edges[x];
      && d in g'.edges && g'.edges[d] == EdgeRec(target, t, true, false, id, count, None)
      && x in g'.edges
      && g'.edges[x] == was.(speculative := true, info := Some(was.NumTargets() + 1), count := was.count - count)
      && d.caller in g'.nodes && g'.nodes[d.caller].refs == g.nodes[d.caller].refs + [Ref(target, t, true, id)]
  {
  }
}
