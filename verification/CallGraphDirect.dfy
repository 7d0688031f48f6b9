/** Counts over a call site, and what making a call direct does to it. */
module CallGraphDirect {
  import opened Common
  import opened CallGraphTypes
  import opened CallSites
  import opened CallGraphSteps
  import opened CallGraphInvariants

  // ---------- counts ----------

  ghost function SumCounts(s: seq<Entry>): int {
    if s == [] then 0 else s[0].rec.count + SumCounts(s[1..])
  }

  /** How often the call is executed, over all edges that share its statement. */
  ghost function TotalCount(v: Site): int {
    SumCounts(v.targets) + SumCounts(v.indirects)
  }

  lemma {:induction false} SumMinus(s: seq<Entry>, k: nat)
    requires k < |s| && DistinctEdges(s)
    ensures SumCounts(Minus(s, s[k].edge)) == SumCounts(s) - s[k].rec.count
  {
    if k > 0 {
      assert s[0].edge != s[k].edge && s[1..][k - 1] == s[k];
      forall i, j | 0 <= i < j < |s[1..]| ensures s[1..][i].edge != s[1..][j].edge {
        assert s[1..][i] == s[i + 1] && s[1..][j] == s[j + 1];
      }
      SumMinus(s[1..], k - 1);
      assert Minus(s, s[k].edge)[1..] == Minus(s[1..], s[k].edge);
    }
  }

  lemma {:induction false} SumPut(s: seq<Entry>, k: nat, r: EdgeRec)
    requires k < |s| && DistinctEdges(s)
    ensures SumCounts(Put(s, s[k].edge, r)) == SumCounts(s) - s[k].rec.count + r.count
  {
    var p := Put(s, s[k].edge, r);
    var tail := s[1..];
    assert p[1..] == Put(tail, s[k].edge, r);
    forall i, j | 0 <= i < j < |tail| ensures tail[i].edge != tail[j].edge {
      assert tail[i] == s[i + 1] && tail[j] == s[j + 1];
    }
    if k > 0 {
      assert s[0].edge != s[k].edge && tail[k - 1] == s[k];
      SumPut(tail, k - 1, r);
    } else {
      forall y | y in tail ensures y.edge != s[0].edge {
        var i :| 0 <= i < |tail| && tail[i] == y;
        assert s[i + 1] == y;
      }
      PutAbsent(tail, s[0].edge, r);
    }
  }

  lemma SumOne(s: seq<Entry>)
    requires |s| == 1
    ensures SumCounts(s) == s[0].rec.count
  {
  }

  /** The count of a further target is taken from the indirect edge. */
  lemma SpeculatedCount(v: Site, x: Edge, r: EdgeRec, d: Edge, target: Node, count: int, id: nat)
    requires v.indirects == [Entry(x, r)]
    ensures TotalCount(SpeculatedSite(v, x, r, d, target, count, id)) == TotalCount(v)
  {
    var v' := SpeculatedSite(v, x, r, d, target, count, id);
    assert v'.targets[1..] == v.targets;
    SumOne(v.indirects);
    SumOne(v'.indirects);
  }

  lemma LostCount(v: Site, d: Edge, rd: EdgeRec, x: Edge, rx: EdgeRec)
    requires v.indirects == [Entry(x, rx)] && Entry(d, rd) in v.targets && DistinctEdges(v.targets)
    ensures TotalCount(LostSite(v, d, rd, x, rx)) == TotalCount(v)
  {
    var k :| 0 <= k < |v.targets| && v.targets[k] == Entry(d, rd);
    SumMinus(v.targets, k);
    SumOne(v.indirects);
    SumOne(LostSite(v, d, rd, x, rx).indirects);
  }

  lemma WonCount(v: Site, d: Edge, rd: EdgeRec, x: Edge, rx: EdgeRec)
    requires v.indirects == [Entry(x, rx)] && Entry(d, rd) in v.targets && DistinctEdges(v.targets)
    ensures TotalCount(WonSite(v, d, rd, rx)) == TotalCount(v)
  {
    var k :| 0 <= k < |v.targets| && v.targets[k] == Entry(d, rd);
    SumPut(v.targets, k, Won(rd, rx.count));
    SumOne(v.indirects);
  }

  // ---------- which targets match a callee ----------

  function FindRef(refs: seq<Ref>, t: Stmt, id: nat): Option<Ref> {
    if refs == [] then None
    else if Pairs(refs[0], t, id) then Some(refs[0])
    else FindRef(refs[1..], t, id)
  }

  lemma {:induction false} FindRefAt(refs: seq<Ref>, t: Stmt, id: nat)
    ensures FindRef(refs, t, id) == FindRef(RefsAt(refs, t), t, id)
  {
    if refs != [] {
      AtHeadRef(refs, t);
      FindRefAt(refs[1..], t, id);
    }
  }

  lemma {:induction false} FindRefDrop(refs: seq<Ref>, t: Stmt, id: nat, id': nat)
    requires id != id'
    ensures FindRef(DropRef(refs, t, id), t, id') == FindRef(refs, t, id')
  {
    if refs != [] {
      FindRefDrop(refs[1..], t, id, id');
      if !Pairs(refs[0], t, id) {
        var u := [refs[0]] + DropRef(refs[1..], t, id);
        assert u[1..] == DropRef(refs[1..], t, id);
      }
    }
  }

  /** The reference paired with the target stands for the same symbol as callee. */
  ghost predicate Matches(v: Site, d: Entry, callee: Node) {
    var r := FindRef(v.refs, d.rec.stmt, d.rec.speculativeId);
    r.Some? && r.value.referred.SemanticallyEquivalent(callee)
  }

  ghost function Matching(v: Site, s: seq<Entry>, callee: Node): seq<Entry> {
    if s == [] then []
    else if Matches(v, s[0], callee) then [s[0]] + Matching(v, s[1..], callee)
    else Matching(v, s[1..], callee)
  }

  lemma {:induction false} MatchingMembers(v: Site, s: seq<Entry>, callee: Node, x: Entry)
    ensures x in Matching(v, s, callee) <==> x in s && Matches(v, x, callee)
  {
    if s != [] {
      MatchingMembers(v, s[1..], callee, x);
    }
  }

  // ---------- dropping the targets that do not match ----------

  ghost predicate AllTargets(g: Graph, ds: seq<Edge>, x: Edge) {
    NoDup(ds) && forall d | d in ds :: SameCall(g, d, x)
  }

  lemma DropTargetLeaves(g: Graph, d: Edge, x: Edge)
    requires Live(g, d) && d != x && x in g.edges
    ensures var g' := DropTarget(g, d, x);
      && g'.edges.Keys == g.edges.Keys - {d}
      && g'.nodes.Keys == g.nodes.Keys
      && (forall y | y in g'.edges && y != x :: g'.edges[y] == g.edges[y])
      && x in g'.edges && g'.edges[x] == LoseTarget(g.edges[x], g.edges[d].count)
  {
  }

  lemma DropTargetTargets(g: Graph, d: Edge, x: Edge, ds: seq<Edge>)
    requires WellFormed(g) && SameCall(g, d, x) && AllTargets(g, ds, x) && d !in ds
    ensures Live(g, d) && WellFormed(DropTarget(g, d, x)) && AllTargets(DropTarget(g, d, x), ds, x)
  {
    DropTargetKeeps(g, d, x);
    DropTargetLeaves(g, d, x);
  }

  lemma AllTargetsTail(g: Graph, ds: seq<Edge>, x: Edge)
    requires AllTargets(g, ds, x) && ds != []
    ensures SameCall(g, ds[0], x) && AllTargets(g, ds[1..], x) && ds[0] !in ds[1..]
  {
    forall i, j | 0 <= i < j < |ds[1..]| ensures ds[1..][i] != ds[1..][j] {
      assert ds[1..][i] == ds[i + 1] && ds[1..][j] == ds[j + 1];
    }
  }

  /** Whether the target d of the graph matches callee. */
  ghost predicate MatchesIn(g: Graph, d: Edge, callee: Node)
    requires d in g.edges && d.caller in g.nodes
  {
    var r := FindRef(g.nodes[d.caller].refs, g.edges[d].stmt, g.edges[d].speculativeId);
    r.Some? && r.value.referred.SemanticallyEquivalent(callee)
  }

  /** The loop over the targets: each one that does not match is resolved away. */
  ghost function DropOthers(g: Graph, ds: seq<Edge>, x: Edge, callee: Node): (g': Graph)
    requires WellFormed(g) && AllTargets(g, ds, x)
    ensures WellFormed(g')
    decreases |ds|
  {
    if ds == [] then g else
      AllTargetsTail(g, ds, x);
      DropTargetTargets(g, ds[0], x, ds[1..]);
      if MatchesIn(g, ds[0], callee) then DropOthers(g, ds[1..], x, callee)
      else DropOthers(DropTarget(g, ds[0], x), ds[1..], x, callee)
  }

  ghost function EdgesOf(s: seq<Entry>): (r: seq<Edge>)
    ensures |r| == |s| && forall i | 0 <= i < |s| :: r[i] == s[i].edge
  {
    seq(|s|, i requires 0 <= i < |s| => s[i].edge)
  }

  lemma EdgesOfHead(s: seq<Entry>)
    requires s != []
    ensures EdgesOf(s[1..]) == EdgesOf(s)[1..] && EdgesOf(s)[0] == s[0].edge
  {
  }

  /** What is left of a site once the targets in `rest` that do not match are gone. */
  ghost predicate OthersDropped(v: Site, v': Site, kept: seq<Entry>, rest: seq<Entry>, x: Edge, callee: Node) {
    && v'.targets == kept + Matching(v, rest, callee)
    && |v'.indirects| == 1 && v'.indirects[0].edge == x
    && TotalCount(v') == TotalCount(v)
  }

  lemma {:induction false} MatchingFrame(v: Site, v': Site, s: seq<Entry>, callee: Node)
    requires forall y | y in s :: Matches(v, y, callee) == Matches(v', y, callee)
    ensures Matching(v, s, callee) == Matching(v', s, callee)
  {
    if s != [] {
      MatchingFrame(v, v', s[1..], callee);
    }
  }

  /** The other targets match a callee after one is given up exactly if they did before. */
  lemma MatchesAfterDrop(v: Site, d: Edge, rd: EdgeRec, x: Edge, rx: EdgeRec, y: Entry, callee: Node)
    requires y.rec.stmt == rd.stmt && y.rec.speculativeId != rd.speculativeId
    ensures Matches(LostSite(v, d, rd, x, rx), y, callee) == Matches(v, y, callee)
  {
    FindRefDrop(v.refs, rd.stmt, rd.speculativeId, y.rec.speculativeId);
  }

  /** One round of the loop: the first target of `rest` does not match and goes. */
  ghost predicate FirstDropped(v: Site, v1: Site, kept: seq<Entry>, rest: seq<Entry>, callee: Node)
    requires rest != []
  {
    && v1.targets == kept + rest[1..]
    && Matching(v1, rest[1..], callee) == Matching(v, rest[1..], callee)
    && TotalCount(v1) == TotalCount(v)
  }

  ghost predicate OneStmt(s: seq<Entry>, t: Stmt) {
    forall y | y in s :: y.rec.stmt == t
  }

  lemma OthersStillMatch(v: Site, kept: seq<Entry>, d: Entry, tail: seq<Entry>, x: Edge, rx: EdgeRec, callee: Node)
    requires NoDup(TargetIds(v.targets)) && v.targets == kept + [d] + tail && OneStmt(v.targets, d.rec.stmt)
    ensures Matching(LostSite(v, d.edge, d.rec, x, rx), tail, callee) == Matching(v, tail, callee)
  {
    var k := |kept|;
    assert v.targets[k] == d;
    forall y | y in tail ensures Matches(LostSite(v, d.edge, d.rec, x, rx), y, callee) == Matches(v, y, callee) {
      var i :| 0 <= i < |tail| && tail[i] == y;
      assert v.targets[k + 1 + i] == y && y in v.targets;
      assert TargetIds(v.targets)[k] != TargetIds(v.targets)[k + 1 + i];
      MatchesAfterDrop(v, d.edge, d.rec, x, rx, y, callee);
    }
    MatchingFrame(LostSite(v, d.edge, d.rec, x, rx), v, tail, callee);
  }

  lemma DropFirst(v: Site, kept: seq<Entry>, rest: seq<Entry>, x: Edge, rx: EdgeRec, callee: Node)
    requires NoDup(TargetIds(v.targets)) && v.indirects == [Entry(x, rx)] && DistinctEdges(v.targets)
    requires rest != [] && v.targets == kept + rest && OneStmt(v.targets, rest[0].rec.stmt)
    ensures FirstDropped(v, LostSite(v, rest[0].edge, rest[0].rec, x, rx), kept, rest, callee)
  {
    var k, d := |kept|, rest[0];
    assert v.targets[k] == d && d in v.targets;
    assert kept + [d] + rest[1..] == kept + rest;
    OthersStillMatch(v, kept, d, rest[1..], x, rx, callee);
    LostCount(v, d.edge, d.rec, x, rx);
    MinusIsSlice(v.targets, k);
    assert v.targets[..k] == kept && v.targets[k + 1..] == rest[1..];
  }

  lemma MatchesInSite(g: Graph, d: Edge, callee: Node)
    requires ListsOK(g) && d in g.edges && d.caller in g.nodes
    ensures MatchesIn(g, d, callee)
      <==> Matches(SiteIn(g, d.caller, g.edges[d].stmt), Entry(d, g.edges[d]), callee)
  {
    FindRefAt(g.nodes[d.caller].refs, g.edges[d].stmt, g.edges[d].speculativeId);
  }

  lemma RestHead(g: Graph, x: Edge, kept: seq<Entry>, rest: seq<Entry>)
    requires ListsOK(g) && x in g.edges && x.caller in g.nodes && rest != []
    requires SiteIn(g, x.caller, g.edges[x].stmt).targets == kept + rest
    ensures rest[0].edge in g.edges && rest[0] == Entry(rest[0].edge, g.edges[rest[0].edge])
    ensures OneStmt(kept + rest, g.edges[x].stmt)
  {
    AtEntries(g.nodes[x.caller].callees, g.edges, g.edges[x].stmt);
    assert (kept + rest)[|kept|] == rest[0] && rest[0] in kept + rest;
    assert NodeOK(x.caller, g.nodes[x.caller], g.edges);
  }

  lemma DropOneSite(g: Graph, d: Edge, x: Edge, callee: Node, kept: seq<Entry>, rest: seq<Entry>)
    requires ListsOK(g) && Complete(g) && SameCall(g, d, x) && CallFacts(g, d, x) && rest != []
    requires ListsOK(DropTarget(g, d, x)) && x.caller in g.nodes
    requires SiteIn(g, x.caller, g.edges[x].stmt).targets == kept + rest && rest[0].edge == d
    ensures var n, t := x.caller, g.edges[x].stmt;
      var v := SiteIn(g, n, t);
      var v1 := LostSite(v, d, g.edges[d], x, g.edges[x]);
      && Changes(g, DropTarget(g, d, x), n, t, v1) && FirstDropped(v, v1, kept, rest, callee)
  {
    DropTargetSite(g, d, x);
    SiteDistinct(g, x.caller, g.edges[x].stmt);
    RestHead(g, x, kept, rest);
    DropFirst(SiteIn(g, x.caller, g.edges[x].stmt), kept, rest, x, g.edges[x], callee);
  }

  lemma MatchingHead(v: Site, kept: seq<Entry>, rest: seq<Entry>, callee: Node)
    requires rest != []
    ensures kept + Matching(v, rest, callee)
         == if Matches(v, rest[0], callee) then (kept + [rest[0]]) + Matching(v, rest[1..], callee)
            else kept + Matching(v, rest[1..], callee)
  {
  }

  /** x is the indirect edge of a call whose targets are `kept` and then those listed in ds. */
  ghost predicate LoopState(g: Graph, ds: seq<Edge>, x: Edge, kept: seq<Entry>, rest: seq<Entry>) {
    && WellFormed(g) && AllTargets(g, ds, x) && x in g.edges && g.edges[x].indirect && x.caller in g.nodes
    && SiteIn(g, x.caller, g.edges[x].stmt).targets == kept + rest && EdgesOf(rest) == ds
  }

  lemma LoopStateSkip(g: Graph, ds: seq<Edge>, x: Edge, kept: seq<Entry>, rest: seq<Entry>)
    requires LoopState(g, ds, x, kept, rest) && ds != []
    ensures LoopState(g, ds[1..], x, kept + [rest[0]], rest[1..])
    ensures SameCall(g, ds[0], x) && ds[0].caller in g.nodes && rest[0] == Entry(ds[0], g.edges[ds[0]])
  {
    hide ListsOK, SiteIn;
    AllTargetsTail(g, ds, x);
    RestHead(g, x, kept, rest);
    assert kept + [rest[0]] + rest[1..] == kept + rest;
    EdgesOfHead(rest);
  }

  lemma DropTargetIndirect(g: Graph, d: Edge, x: Edge)
    requires Live(g, d) && d != x && x in g.edges && g.edges[x].indirect && x.caller in g.nodes
    ensures var g1 := DropTarget(g, d, x);
      x in g1.edges && g1.edges[x].indirect && g1.edges[x].stmt == g.edges[x].stmt && x.caller in g1.nodes
  {
    DropTargetLeaves(g, d, x);
  }

  lemma LoopDropSite(g: Graph, ds: seq<Edge>, x: Edge, callee: Node, kept: seq<Entry>, rest: seq<Entry>)
    requires LoopState(g, ds, x, kept, rest) && ds != []
    requires SameCall(g, ds[0], x) && Live(g, ds[0]) && ListsOK(DropTarget(g, ds[0], x))
    requires rest[0].edge == ds[0] && x.caller in DropTarget(g, ds[0], x).nodes
    ensures var g1, n, t := DropTarget(g, ds[0], x), x.caller, g.edges[x].stmt;
      && Changes(g, g1, n, t, SiteIn(g1, n, t))
      && FirstDropped(SiteIn(g, n, t), SiteIn(g1, n, t), kept, rest, callee)
  {
    SameCallFacts(g, ds[0], x);
    DropOneSite(g, ds[0], x, callee, kept, rest);
  }

  lemma LoopStateDrop(g: Graph, ds: seq<Edge>, x: Edge, callee: Node, kept: seq<Entry>, rest: seq<Entry>)
    requires LoopState(g, ds, x, kept, rest) && ds != []
    ensures SameCall(g, ds[0], x) && Live(g, ds[0])
    ensures var g1, n, t := DropTarget(g, ds[0], x), x.caller, g.edges[x].stmt;
      && LoopState(g1, ds[1..], x, kept, rest[1..]) && g1.edges[x].stmt == t
      && Changes(g, g1, n, t, SiteIn(g1, n, t))
      && FirstDropped(SiteIn(g, n, t), SiteIn(g1, n, t), kept, rest, callee)
  {
    AllTargetsTail(g, ds, x);
    DropTargetTargets(g, ds[0], x, ds[1..]);
    DropTargetIndirect(g, ds[0], x);
    EdgesOfHead(rest);
    LoopDropSite(g, ds, x, callee, kept, rest);
  }

  ghost predicate LoopDone(g: Graph, g': Graph, x: Edge, callee: Node, kept: seq<Entry>, rest: seq<Entry>)
    requires ListsOK(g) && ListsOK(g') && x in g.edges && x.caller in g.nodes
  {
    var n, t := x.caller, g.edges[x].stmt;
    && n in g'.nodes && Changes(g, g', n, t, SiteIn(g', n, t))
    && OthersDropped(SiteIn(g, n, t), SiteIn(g', n, t), kept, rest, x, callee)
  }

  lemma LoopDoneKeep(g: Graph, g': Graph, x: Edge, callee: Node, kept: seq<Entry>, rest: seq<Entry>)
    requires ListsOK(g) && ListsOK(g') && x in g.edges && x.caller in g.nodes && rest != []
    requires Matches(SiteIn(g, x.caller, g.edges[x].stmt), rest[0], callee)
    requires LoopDone(g, g', x, callee, kept + [rest[0]], rest[1..])
    ensures LoopDone(g, g', x, callee, kept, rest)
  {
    MatchingHead(SiteIn(g, x.caller, g.edges[x].stmt), kept, rest, callee);
  }

  lemma LoopDoneDrop(g: Graph, g1: Graph, g': Graph, x: Edge, callee: Node, kept: seq<Entry>, rest: seq<Entry>)
    requires ListsOK(g) && ListsOK(g1) && ListsOK(g') && x in g.edges && x.caller in g.nodes && rest != []
    requires x in g1.edges && x.caller in g1.nodes && g1.edges[x].stmt == g.edges[x].stmt
    requires var n, t := x.caller, g.edges[x].stmt;
      && !Matches(SiteIn(g, n, t), rest[0], callee)
      && Changes(g, g1, n, t, SiteIn(g1, n, t))
      && FirstDropped(SiteIn(g, n, t), SiteIn(g1, n, t), kept, rest, callee)
    requires LoopDone(g1, g', x, callee, kept, rest[1..])
    ensures LoopDone(g, g', x, callee, kept, rest)
  {
    var n, t := x.caller, g.edges[x].stmt;
    ChangesCompose(g, g1, g', n, t, SiteIn(g1, n, t), SiteIn(g', n, t));
    MatchingHead(SiteIn(g, n, t), kept, rest, callee);
  }

  lemma LoopDoneNow(g: Graph, x: Edge, callee: Node, kept: seq<Entry>)
    requires LoopState(g, [], x, kept, [])
    ensures LoopDone(g, g, x, callee, kept, [])
  {
    SiteOfIndirect(g, x);
    assert kept + [] == kept;
  }

  /** The loop leaves the matching targets, in order, and keeps the total count of the site. */
  lemma {:induction false} DropOthersSite(g: Graph, ds: seq<Edge>, x: Edge, callee: Node,
                                          kept: seq<Entry>, rest: seq<Entry>)
    requires LoopState(g, ds, x, kept, rest)
    ensures LoopDone(g, DropOthers(g, ds, x, callee), x, callee, kept, rest)
    decreases |ds|
  {
    if ds == [] {
      LoopDoneNow(g, x, callee, kept);
    } else {
      LoopStateSkip(g, ds, x, kept, rest);
      MatchesInSite(g, ds[0], callee);
      if MatchesIn(g, ds[0], callee) {
        DropOthersSite(g, ds[1..], x, callee, kept + [rest[0]], rest[1..]);
        LoopDoneKeep(g, DropOthers(g, ds[1..], x, callee), x, callee, kept, rest);
      } else {
        LoopStateDrop(g, ds, x, callee, kept, rest);
        var g1 := DropTarget(g, ds[0], x);
        DropOthersSite(g1, ds[1..], x, callee, kept, rest[1..]);
        LoopDoneDrop(g, g1, DropOthers(g1, ds[1..], x, callee), x, callee, kept, rest);
      }
    }
  }
}
