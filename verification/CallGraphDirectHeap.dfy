/** cgraph_edge::make_direct on the heap. */
module CallGraphDirectHeap {
  import opened Common
  import opened CallGraphTypes
  import opened SummaryIds
  import opened CallSites
  import opened CallGraphSteps
  import opened CallGraphInvariants
  import opened CallGraphDirect
  import opened CallGraphMakeDirect
  import opened CallGraphHeap
  import opened CallSiteHash
  import opened CallGraphLinks
  import opened CallGraphWalks
  import opened CallGraphSettle

  // ---------- an indirect edge becomes direct ----------

  ghost function NotIndirect(r: EdgeRec): EdgeRec {
    r.(indirect := false, info := None)
  }

  method ClearIndirect(x: Edge, ghost g: Graph, ghost hs: Tables)
    requires Represents(g, hs) && x in g.edges
    modifies x`indirectUnknownCallee, x`indirectInfo
    ensures Represents(SetRec(g, x, NotIndirect(g.edges[x])), hs)
  {
    assert FieldsRep(x, g.edges[x]);
    x.indirectUnknownCallee := false;
    x.indirectInfo := None;
    RecordRep(State(g, hs), x, NotIndirect(g.edges[x]));
  }

  lemma BecomeDirectSteps(g: Graph, x: Edge, callee: Node)
    requires x in g.edges && x.caller in g.nodes && callee in g.nodes
    ensures var g1 := PullIndirect(SetRec(g, x, NotIndirect(g.edges[x])), x);
      WithCallee(PushCallee(g1, x), x, callee) == BecomeDirect(g, x, callee)
  {
    var g1 := PullIndirect(SetRec(g, x, NotIndirect(g.edges[x])), x);
    assert Retargeted(NotIndirect(g.edges[x]), callee) == Directed(g.edges[x], callee);
    assert WithCallee(PushCallee(g1, x), x, callee).edges == BecomeDirect(g, x, callee).edges;
  }

  /** An edge that is on no list moves to its caller's callees and the callers of its callee. */
  method LinkBoth(x: Edge, callee: Node, ghost g: Graph, ghost hs: Tables)
    requires ListsOK(g) && Represents(g, hs) && x in g.edges && x.caller in g.nodes && callee in g.nodes
    requires OnNoList(g, x)
    modifies g.nodes.Keys`callees, g.nodes.Keys`indirectCalls, g.nodes.Keys`callers, x`callee
    modifies g.edges.Keys`prevCallee, g.edges.Keys`nextCallee, g.edges.Keys`prevCaller, g.edges.Keys`nextCaller
    ensures Represents(WithCallee(PushCallee(g, x), x, callee), hs)
  {
    PutOut(x, false, g, hs);
    PutIn(x, callee, PushCallee(g, x), hs);
  }

  lemma UnlinkedIndirect(g: Graph, x: Edge)
    requires WellFormed(g) && x in g.edges && g.edges[x].indirect
    ensures x.caller in g.nodes && x in g.nodes[x.caller].indirects
    ensures ListsOK(SetRec(g, x, NotIndirect(g.edges[x])))
    ensures OnNoList(PullIndirect(SetRec(g, x, NotIndirect(g.edges[x])), x), x)
  {
    assert EdgeOK(g, x) && NodeOK(x.caller, g.nodes[x.caller], g.edges);
    SetRecLists(g, x, NotIndirect(g.edges[x]), {});
    UnlinkNoDup(g.nodes[x.caller].indirects, x);
    forall n | n in g.nodes ensures x !in g.nodes[n].callees && (n != x.caller ==> x !in g.nodes[n].indirects) && x !in g.nodes[n].callers {
      assert NodeOK(n, g.nodes[n], g.edges);
    }
  }

  /** The tables need no change when the representative of the changed site stays the same. */
  lemma SameRepresentative(hs: Tables, g: Graph, g': Graph, n: Node, t: Stmt, v': Site)
    requires ListsOK(g) && ListsOK(g') && HashesOK(hs, g) && n in g.nodes && Changes(g, g', n, t, v')
    requires Representative(v') == Representative(SiteIn(g, n, t)) != null
    requires !HalfSpeculative(SiteIn(g, n, t))
    ensures HashesOK(hs, g')
  {
    OKBut(hs, g, n, t);
    if hs[n].Some? {
      assert HashOK(hs[n], g, n) && SlotOK(hs[n].value, SiteIn(g, n, t), t);
    }
    HashesAfter(hs, g, g', n, t, v');
  }

  lemma DirectedSiteFacts(g: Graph, x: Edge, callee: Node)
    requires WellFormed(g) && x in g.edges && g.edges[x].indirect && callee in g.nodes
    ensures x.caller in g.nodes && ListsOK(BecomeDirect(g, x, callee))
    ensures Changes(g, BecomeDirect(g, x, callee), x.caller, g.edges[x].stmt,
                    DirectedSite(SiteOfEdge(g, x), x, g.edges[x], callee))
    ensures SiteOfEdge(g, x).indirects == [Entry(x, g.edges[x])]
    ensures !g.edges[x].speculative ==> SiteOfEdge(g, x).targets == []
  {
    assert EdgeOK(g, x) && NodeOK(x.caller, g.nodes[x.caller], g.edges);
    BecomeDirectLists(g, x, callee);
    BecomeDirectSite(g, x, callee);
    SiteOfIndirect(g, x);
  }

  lemma DirectHashes(hs: Tables, g: Graph, x: Edge, callee: Node)
    requires WellFormed(g) && HashesOK(hs, g) && x in g.edges && g.edges[x].indirect && !g.edges[x].speculative
    requires callee in g.nodes && x.caller in g.nodes
    ensures ListsOK(BecomeDirect(g, x, callee)) && HashesOK(hs, BecomeDirect(g, x, callee))
  {
    hide HashesOK;
    DirectedSiteFacts(g, x, callee);
    SameRepresentative(hs, g, BecomeDirect(g, x, callee), x.caller, g.edges[x].stmt,
                       DirectedSite(SiteOfEdge(g, x), x, g.edges[x], callee));
  }

  /** The end of make_direct: an indirect edge becomes an ordinary one. */
  method TurnDirect(x: Edge, callee: Node, ghost g: Graph, ghost hs: Tables)
    requires ListsOK(g) && Represents(g, hs) && x in g.edges && x.caller in g.nodes && callee in g.nodes
    requires x in g.nodes[x.caller].indirects && ListsOK(SetRec(g, x, NotIndirect(g.edges[x])))
    requires OnNoList(PullIndirect(SetRec(g, x, NotIndirect(g.edges[x])), x), x)
    modifies g.nodes.Keys`callees, g.nodes.Keys`indirectCalls, g.nodes.Keys`callers
    modifies x`callee, x`indirectUnknownCallee, x`indirectInfo
    modifies g.edges.Keys`prevCallee, g.edges.Keys`nextCallee, g.edges.Keys`prevCaller, g.edges.Keys`nextCaller
    ensures Represents(BecomeDirect(g, x, callee), hs)
  {
    ghost var g1 := SetRec(g, x, NotIndirect(g.edges[x]));
    ClearIndirect(x, g, hs);
    TakeOut(x, true, g1, hs);
    LinkBoth(x, callee, PullIndirect(g1, x), hs);
    BecomeDirectSteps(g, x, callee);
  }

  // ---------- the loop over the targets ----------

  /** Where the loop stands: the graph is gc, the targets in `kept` match, those in `rest` come next. */
  ghost predicate LoopAt(g: Graph, gc: Graph, ds: seq<Edge>, x: Edge, callee: Node,
                         kept: seq<Entry>, rest: seq<Entry>, m: seq<Entry>, final: Graph)
  {
    && LoopState(gc, ds, x, kept, rest) && gc.edges.Keys <= g.edges.Keys && gc.nodes.Keys == g.nodes.Keys
    && DropOthers(gc, ds, x, callee) == final
    && kept + Matching(SiteOfEdge(gc, x), rest, callee) == m
    && AllMatch(SiteOfEdge(gc, x), kept, callee)
  }

  ghost predicate AllMatch(v: Site, s: seq<Entry>, callee: Node) {
    forall y | y in s :: Matches(v, y, callee)
  }

  lemma LoopKeep(g: Graph, gc: Graph, ds: seq<Edge>, x: Edge, callee: Node,
                 kept: seq<Entry>, rest: seq<Entry>, m: seq<Entry>, final: Graph)
    requires LoopAt(g, gc, ds, x, callee, kept, rest, m, final) && ds != []
    requires ds[0].caller in gc.nodes && ds[0] in gc.edges && MatchesIn(gc, ds[0], callee)
    ensures LoopAt(g, gc, ds[1..], x, callee, kept + [rest[0]], rest[1..], m, final)
  {
    LoopStateSkip(gc, ds, x, kept, rest);
    MatchesInSite(gc, ds[0], callee);
    MatchingHead(SiteOfEdge(gc, x), kept, rest, callee);
  }

  lemma KeptStillMatch(v: Site, kept: seq<Entry>, d: Entry, tail: seq<Entry>, x: Edge, rx: EdgeRec, callee: Node)
    requires NoDup(TargetIds(v.targets)) && v.targets == kept + [d] + tail && OneStmt(v.targets, d.rec.stmt)
    requires AllMatch(v, kept, callee)
    ensures AllMatch(LostSite(v, d.edge, d.rec, x, rx), kept, callee)
  {
    var k := |kept|;
    assert v.targets[k] == d;
    forall y | y in kept ensures Matches(LostSite(v, d.edge, d.rec, x, rx), y, callee) {
      var i :| 0 <= i < |kept| && kept[i] == y;
      assert v.targets[i] == y && y in v.targets;
      assert TargetIds(v.targets)[i] != TargetIds(v.targets)[k];
      MatchesAfterDrop(v, d.edge, d.rec, x, rx, y, callee);
    }
  }

  lemma LoopDropMatches(gc: Graph, ds: seq<Edge>, x: Edge, callee: Node, kept: seq<Entry>, rest: seq<Entry>)
    requires LoopState(gc, ds, x, kept, rest) && ds != [] && AllMatch(SiteOfEdge(gc, x), kept, callee)
    requires Live(gc, ds[0]) && SameCall(gc, ds[0], x)
    requires var g1 := DropTarget(gc, ds[0], x); ListsOK(g1) && x in g1.edges && x.caller in g1.nodes && g1.edges[x].stmt == gc.edges[x].stmt
    ensures AllMatch(SiteOfEdge(DropTarget(gc, ds[0], x), x), kept, callee)
  {
    LoopStateSkip(gc, ds, x, kept, rest);
    SameCallFacts(gc, ds[0], x);
    DropTargetSite(gc, ds[0], x);
    RestHead(gc, x, kept, rest);
    assert kept + [rest[0]] + rest[1..] == kept + rest;
    KeptStillMatch(SiteOfEdge(gc, x), kept, rest[0], rest[1..], x, gc.edges[x], callee);
  }

  lemma LoopDrop(g: Graph, gc: Graph, ds: seq<Edge>, x: Edge, callee: Node,
                 kept: seq<Entry>, rest: seq<Entry>, m: seq<Entry>, final: Graph)
    requires LoopAt(g, gc, ds, x, callee, kept, rest, m, final) && ds != []
    requires ds[0].caller in gc.nodes && ds[0] in gc.edges && !MatchesIn(gc, ds[0], callee)
    ensures SameCall(gc, ds[0], x) && Live(gc, ds[0])
    ensures LoopAt(g, DropTarget(gc, ds[0], x), ds[1..], x, callee, kept, rest[1..], m, final)
  {
    LoopStateSkip(gc, ds, x, kept, rest);
    MatchesInSite(gc, ds[0], callee);
    MatchingHead(SiteOfEdge(gc, x), kept, rest, callee);
    LoopStateDrop(gc, ds, x, callee, kept, rest);
    LoopDropMatches(gc, ds, x, callee, kept, rest);
    DropTargetLeaves(gc, ds[0], x);
  }

  lemma LoopTarget(g: Graph, ds: seq<Edge>, x: Edge, kept: seq<Entry>, rest: seq<Entry>)
    requires LoopState(g, ds, x, kept, rest) && ds != []
    ensures ds[0] in g.edges && g.edges[ds[0]].speculative && !g.edges[ds[0]].indirect && ds[0].caller == x.caller
    ensures ds[0].caller in g.nodes && g.edges[ds[0]].stmt == g.edges[x].stmt
    ensures var a := SiteOfEdge(g, ds[0]).targets;
      && SpeculativeSite(SiteOfEdge(g, ds[0]))
      && |kept| < |a| && a[|kept|].edge == ds[0]
      && (if |ds| > 1 then |kept| + 1 < |a| && a[|kept| + 1].edge == ds[1] else |kept| + 1 == |a|)
    ensures SiteOfEdge(g, ds[0]).indirects != [] && IndirectOf(g, ds[0]) == x
    ensures ResolvedTarget(g, ds[0]) == ds[0]
  {
    LoopStateSkip(g, ds, x, kept, rest);
    SiteOfIndirect(g, x);
    SpeculativeEdge(g, ds[0]);
    assert (kept + rest)[|kept|] == rest[0];
    assert |ds| > 1 ==> (kept + rest)[|kept| + 1] == rest[1];
  }

  /** The target after target i of a call, and whether target i matches. */
  method Inspect(d: Edge, callee: Node, ghost g: Graph, ghost hs: Tables, ghost i: nat)
    returns (next: Edge?, matched: bool)
    requires WellFormed(g) && Represents(g, hs)
    requires d in g.edges && g.edges[d].speculative && !g.edges[d].indirect && d.caller in g.nodes
    requires SpeculativeSite(SiteOfEdge(g, d)) && i < |SiteOfEdge(g, d).targets| && SiteOfEdge(g, d).targets[i].edge == d
    ensures var a := SiteOfEdge(g, d).targets; next == if i + 1 < |a| then a[i + 1].edge else null
    ensures matched == MatchesIn(g, d, callee)
  {
    next := NextSpeculativeCallTarget(d, g, hs, i);
    matched := TargetMatches(d, callee, g, hs);
  }

  method InspectNext(d: Edge, callee: Node, ghost x: Edge, ghost g: Graph, ghost hs: Tables,
                     ghost ds: seq<Edge>, ghost kept: seq<Entry>, ghost rest: seq<Entry>)
    returns (next: Edge?, matched: bool)
    requires LoopState(g, ds, x, kept, rest) && Represents(g, hs)
    requires ds != [] && d == ds[0]
    ensures next == if |ds| > 1 then ds[1] else null
    ensures d in g.edges && d.caller in g.nodes && matched == MatchesIn(g, d, callee)
  {
    hide ListsOK, Complete;
    LoopTarget(g, ds, x, kept, rest);
    next, matched := Inspect(d, callee, g, hs, |kept|);
  }

  method TargetMatches(d: Edge, callee: Node, ghost g: Graph, ghost hs: Tables) returns (matched: bool)
    requires WellFormed(g) && Represents(g, hs)
    requires d in g.edges && g.edges[d].speculative && !g.edges[d].indirect && d.caller in g.nodes
    ensures matched == MatchesIn(g, d, callee)
  {
    var k := TargetRefIndex(d, g, hs);
    assert NodeRep(d.caller, g.nodes[d.caller], hs[d.caller]);
    matched := d.caller.references[k].referred.SemanticallyEquivalent(callee);
  }

  /** Target d does not match and is resolved away. */
  method ResolveAway(d: Edge, ghost x: Edge, ghost g: Graph, ghost hs: Tables) returns (edge: Edge, ghost hs': Tables)
    requires WellFormed(g) && Represents(g, hs) && HashesOK(hs, g)
    requires d in g.edges && g.edges[d].speculative && !g.edges[d].indirect && d.caller in g.nodes && d.caller == x.caller
    requires SiteOfEdge(g, d).indirects != [] && IndirectOf(g, d) == x && Live(g, d) && x in g.edges
    modifies g.edges.Keys`count, g.edges.Keys`indirectInfo, g.edges.Keys`speculative
    modifies g.nodes.Keys`callees, g.nodes.Keys`indirectCalls, g.nodes.Keys`callers
    modifies x.caller`callSiteHash, x.caller`references
    modifies g.edges.Keys`prevCallee, g.edges.Keys`nextCallee, g.edges.Keys`prevCaller, g.edges.Keys`nextCaller
    ensures edge == x
    ensures ListsOK(DropTarget(g, d, x)) && Represents(DropTarget(g, d, x), hs') && HashesOK(hs', DropTarget(g, d, x))
  {
    var gone;
    edge, gone, hs' := ResolveEdge(d, null, g, hs);
  }

  /** Where the loop over the targets stands. */
  datatype Progress = Progress(g: Graph, hs: Tables, ds: seq<Edge>, kept: seq<Entry>, rest: seq<Entry>)

  ghost predicate Under(g: Graph, p: Progress, x: Edge, callee: Node, m: seq<Entry>, final: Graph) {
    LoopAt(g, p.g, p.ds, x, callee, p.kept, p.rest, m, final) && HashesOK(p.hs, p.g)
  }

  ghost function FirstOf(ds: seq<Edge>): Edge? {
    if ds == [] then null else ds[0]
  }

  lemma UnderKeep(g: Graph, p: Progress, x: Edge, callee: Node, m: seq<Entry>, final: Graph)
    requires Under(g, p, x, callee, m, final) && p.ds != [] && |m| <= 1
    requires p.ds[0].caller in p.g.nodes && p.ds[0] in p.g.edges && MatchesIn(p.g, p.ds[0], callee)
    ensures p.rest != [] && p.rest[0].edge == p.ds[0] && p.kept == []
    ensures Under(g, Progress(p.g, p.hs, p.ds[1..], [p.rest[0]], p.rest[1..]), x, callee, m, final)
  {
    LoopKeep(g, p.g, p.ds, x, callee, p.kept, p.rest, m, final);
    assert |p.kept + [p.rest[0]] + Matching(SiteOfEdge(p.g, x), p.rest[1..], callee)| <= 1;
    assert p.kept + [p.rest[0]] == [p.rest[0]];
  }

  lemma UnderDrop(g: Graph, p: Progress, x: Edge, callee: Node, m: seq<Entry>, final: Graph, hs': Tables)
    requires Under(g, p, x, callee, m, final) && p.ds != []
    requires p.ds[0].caller in p.g.nodes && p.ds[0] in p.g.edges && !MatchesIn(p.g, p.ds[0], callee)
    requires Live(p.g, p.ds[0]) && ListsOK(DropTarget(p.g, p.ds[0], x)) && HashesOK(hs', DropTarget(p.g, p.ds[0], x))
    ensures p.rest != []
    ensures Under(g, Progress(DropTarget(p.g, p.ds[0], x), hs', p.ds[1..], p.kept, p.rest[1..]), x, callee, m, final)
  {
    LoopDrop(g, p.g, p.ds, x, callee, p.kept, p.rest, m, final);
  }

  /** A target that does not match is resolved away. */
  method DropTargetEdge(direct: Edge, x: Edge, callee: Node,
                        ghost g: Graph, ghost p: Progress, ghost m: seq<Entry>, ghost final: Graph)
    returns (edge: Edge, ghost p': Progress)
    requires Under(g, p, x, callee, m, final) && Represents(p.g, p.hs)
    requires p.ds != [] && direct == p.ds[0]
    requires direct in p.g.edges && direct.caller in p.g.nodes && !MatchesIn(p.g, direct, callee)
    modifies p.g.edges.Keys`count, p.g.edges.Keys`indirectInfo, p.g.edges.Keys`speculative
    modifies p.g.nodes.Keys`callees, p.g.nodes.Keys`indirectCalls, p.g.nodes.Keys`callers
    modifies x.caller`callSiteHash, x.caller`references
    modifies p.g.edges.Keys`prevCallee, p.g.edges.Keys`nextCallee
    modifies p.g.edges.Keys`prevCaller, p.g.edges.Keys`nextCaller
    ensures Under(g, p', x, callee, m, final) && Represents(p'.g, p'.hs) && edge == x
    ensures p'.ds == p.ds[1..] && p'.kept == p.kept && p'.g.edges.Keys == p.g.edges.Keys - {direct}
  {
    hide MatchesIn, SpeculativeSite, ListsOK, FieldsOK, NodesOK;
    LoopTarget(p.g, p.ds, x, p.kept, p.rest);
    LoopDrop(g, p.g, p.ds, x, callee, p.kept, p.rest, m, final);
    DropTargetLeaves(p.g, direct, x);
    ghost var hs';
    edge, hs' := ResolveAway(direct, x, p.g, p.hs);
    UnderDrop(g, p, x, callee, m, final, hs');
    p' := Progress(DropTarget(p.g, direct, x), hs', p.ds[1..], p.kept, p.rest[1..]);
  }

  /** One round of the loop. */
  method Visit(direct: Edge, x: Edge, callee: Node, found: Edge?,
               ghost g: Graph, ghost p: Progress, ghost m: seq<Entry>, ghost final: Graph)
    returns (next: Edge?, edge: Edge, found': Edge?, dropped: bool, ghost p': Progress)
    requires Under(g, p, x, callee, m, final) && Represents(p.g, p.hs) && |m| <= 1
    requires p.ds != [] && direct == p.ds[0] && found == FirstOf(EdgesOf(p.kept))
    modifies p.g.edges.Keys`count, p.g.edges.Keys`indirectInfo, p.g.edges.Keys`speculative
    modifies p.g.nodes.Keys`callees, p.g.nodes.Keys`indirectCalls, p.g.nodes.Keys`callers
    modifies x.caller`callSiteHash, x.caller`references
    modifies p.g.edges.Keys`prevCallee, p.g.edges.Keys`nextCallee
    modifies p.g.edges.Keys`prevCaller, p.g.edges.Keys`nextCaller
    ensures Under(g, p', x, callee, m, final) && Represents(p'.g, p'.hs)
    ensures |p'.ds| < |p.ds| && next == FirstOf(p'.ds) && edge == x && found' == FirstOf(EdgesOf(p'.kept))
    ensures if dropped then direct in p.g.edges && p'.g.edges.Keys == p.g.edges.Keys - {direct} else p'.g == p.g
  {
    hide LoopState, MatchesIn, ListsOK, Represents;
    var matched;
    next, matched := InspectNext(direct, callee, x, p.g, p.hs, p.ds, p.kept, p.rest);
    edge, found', dropped := x, found, !matched;
    if matched {
      UnderKeep(g, p, x, callee, m, final);
      assert found == null;
      found' := direct;
      p' := Progress(p.g, p.hs, p.ds[1..], [p.rest[0]], p.rest[1..]);
    } else {
      edge, p' := DropTargetEdge(direct, x, callee, g, p, m, final);
    }
  }

  /** One round of the loop, with the edge it may free. */
  method VisitAndFree(direct: Edge, x: Edge, callee: Node, found: Edge?, freed: seq<Edge>,
                      ghost g: Graph, ghost p: Progress, ghost m: seq<Entry>, ghost final: Graph)
    returns (next: Edge?, edge: Edge, found': Edge?, freed': seq<Edge>, ghost p': Progress)
    requires Under(g, p, x, callee, m, final) && Represents(p.g, p.hs) && |m| <= 1
    requires p.ds != [] && direct == p.ds[0] && found == FirstOf(EdgesOf(p.kept))
    requires Freed(g.edges.Keys, p.g.edges.Keys, freed)
    modifies p.g.edges.Keys`count, p.g.edges.Keys`indirectInfo, p.g.edges.Keys`speculative
    modifies p.g.nodes.Keys`callees, p.g.nodes.Keys`indirectCalls, p.g.nodes.Keys`callers
    modifies x.caller`callSiteHash, x.caller`references
    modifies p.g.edges.Keys`prevCallee, p.g.edges.Keys`nextCallee
    modifies p.g.edges.Keys`prevCaller, p.g.edges.Keys`nextCaller
    ensures Under(g, p', x, callee, m, final) && Represents(p'.g, p'.hs)
    ensures |p'.ds| < |p.ds| && next == FirstOf(p'.ds) && edge == x && found' == FirstOf(EdgesOf(p'.kept))
    ensures Freed(g.edges.Keys, p'.g.edges.Keys, freed')
  {
    var dropped;
    next, edge, found', dropped, p' := Visit(direct, x, callee, found, g, p, m, final);
    freed' := freed;
    if dropped {
      FreedOne(g.edges.Keys, p.g.edges.Keys, p'.g.edges.Keys, freed, direct);
      freed' := freed + [direct];
    }
  }

  /** The loop of make_direct: all targets but the matching one are resolved away. */
  method DropOtherTargets(first: Edge, x: Edge, callee: Node, ghost g: Graph, ghost p0: Progress,
                          ghost m: seq<Entry>, ghost final: Graph)
    returns (found: Edge?, freed: seq<Edge>, ghost p: Progress)
    requires Under(g, p0, x, callee, m, final) && Represents(p0.g, p0.hs) && p0.g == g && |m| <= 1
    requires p0.ds != [] && first == p0.ds[0] && p0.kept == []
    modifies g.edges.Keys`count, g.edges.Keys`indirectInfo, g.edges.Keys`speculative
    modifies g.nodes.Keys`callees, g.nodes.Keys`indirectCalls, g.nodes.Keys`callers
    modifies x.caller`callSiteHash, x.caller`references
    modifies g.edges.Keys`prevCallee, g.edges.Keys`nextCallee, g.edges.Keys`prevCaller, g.edges.Keys`nextCaller
    ensures Under(g, p, x, callee, m, final) && Represents(p.g, p.hs)
    ensures p.ds == [] && found == FirstOf(EdgesOf(p.kept)) && Freed(g.edges.Keys, p.g.edges.Keys, freed)
  {
    found, freed, p := null, [], p0;
    var direct: Edge?, edge := first, x;
    while direct != null
      invariant Under(g, p, x, callee, m, final)
      invariant Represents(p.g, p.hs)
      invariant edge == x && direct == FirstOf(p.ds) && found == FirstOf(EdgesOf(p.kept))
      invariant Freed(g.edges.Keys, p.g.edges.Keys, freed)
      decreases |p.ds|
    {
      direct, edge, found, freed, p := VisitAndFree(direct, x, callee, found, freed, g, p, m, final);
    }
  }

  // ---------- after the loop ----------

  /** The target left over matches. */
  lemma LeftoverMatches(g: Graph, x: Edge, callee: Node, d: Entry)
    requires Ready(g, x, [d], callee) && AllMatch(SiteOfEdge(g, x), [d], callee)
    ensures d.edge in g.edges && g.edges[d.edge].speculative && !g.edges[d.edge].indirect && d.edge.caller == x.caller
    ensures MatchesIn(g, d.edge, callee) && Resolve(g, d.edge, callee) == Finish(g, x, [d], callee)
    ensures Resolved(g, d.edge, callee) == d.edge
  {
    assert d in [d];
    SameCallFacts(g, d.edge, x);
    SpeculativeEdge(g, d.edge);
    MatchesInSite(g, d.edge, callee);
    SiteOfIndirect(g, x);
  }

  lemma DirectReady(g: Graph, x: Edge, callee: Node)
    requires Ready(g, x, [], callee)
    ensures x in g.nodes[x.caller].indirects && ListsOK(SetRec(g, x, NotIndirect(g.edges[x])))
    ensures OnNoList(PullIndirect(SetRec(g, x, NotIndirect(g.edges[x])), x), x)
    ensures ListsOK(Finish(g, x, [], callee))
  {
    UnlinkedIndirect(g, x);
    DirectedSiteFacts(g, x, callee);
  }

  method FinishFound(found: Edge, callee: Node, ghost x: Edge, ghost g: Graph, ghost hs: Tables, ghost d: Entry)
    returns (r: Edge, ghost hs': Tables)
    requires Ready(g, x, [d], callee) && AllMatch(SiteOfEdge(g, x), [d], callee) && d.edge == found
    requires Represents(g, hs) && HashesOK(hs, g)
    modifies g.edges.Keys`count, g.edges.Keys`indirectInfo, g.edges.Keys`speculative
    modifies g.nodes.Keys`callees, g.nodes.Keys`indirectCalls, g.nodes.Keys`callers
    modifies x.caller`callSiteHash, x.caller`references
    modifies g.edges.Keys`prevCallee, g.edges.Keys`nextCallee, g.edges.Keys`prevCaller, g.edges.Keys`nextCaller
    ensures r == found && ListsOK(Finish(g, x, [d], callee))
    ensures Represents(Finish(g, x, [d], callee), hs') && HashesOK(hs', Finish(g, x, [d], callee))
  {
    LeftoverMatches(g, x, callee, d);
    var gone;
    r, gone, hs' := ResolveEdge(found, callee, g, hs);
  }

  method FinishUnfound(x: Edge, callee: Node, ghost g: Graph, ghost hs: Tables)
    requires Ready(g, x, [], callee) && Represents(g, hs) && HashesOK(hs, g)
    modifies g.nodes.Keys`callees, g.nodes.Keys`indirectCalls, g.nodes.Keys`callers
    modifies x`callee, x`indirectUnknownCallee, x`indirectInfo
    modifies g.edges.Keys`prevCallee, g.edges.Keys`nextCallee, g.edges.Keys`prevCaller, g.edges.Keys`nextCaller
    ensures ListsOK(Finish(g, x, [], callee))
    ensures Represents(Finish(g, x, [], callee), hs) && HashesOK(hs, Finish(g, x, [], callee))
  {
    DirectReady(g, x, callee);
    DirectHashes(hs, g, x, callee);
    TurnDirect(x, callee, g, hs);
  }

  /** The edge that is left of the call: the last of the kept targets m, or the indirect edge x. */
  ghost function LastKept(x: Edge, m: seq<Entry>): Edge {
    if m == [] then x else m[|m| - 1].edge
  }

  /** The end of make_direct for a speculative call; es holds the live edges. */
  method FinishLoop(found: Edge?, x: Edge, callee: Node, ghost g: Graph, ghost hs: Tables, ghost m: seq<Entry>,
                    ghost es: set<Edge>, ghost ns: set<Node>)
    returns (r: Edge, ghost hs': Tables)
    requires Ready(g, x, m, callee) && AllMatch(SiteOfEdge(g, x), m, callee) && |m| <= 1
    requires found == FirstOf(EdgesOf(m)) && Represents(g, hs) && HashesOK(hs, g)
    requires g.edges.Keys <= es && g.nodes.Keys == ns
    modifies es`count, es`indirectInfo, es`speculative, es`callee, es`indirectUnknownCallee
    modifies ns`callees, ns`indirectCalls, ns`callers
    modifies x.caller`callSiteHash, x.caller`references
    modifies es`prevCallee, es`nextCallee, es`prevCaller, es`nextCaller
    ensures r == LastKept(x, m)
    ensures ListsOK(Finish(g, x, m, callee)) && Represents(Finish(g, x, m, callee), hs')
    ensures HashesOK(hs', Finish(g, x, m, callee))
  {
    hide ListsOK, WellFormed, Represents;
    if found != null {
      assert m == [m[0]];
      r, hs' := FinishFound(found, callee, x, g, hs, m[0]);
    } else {
      hs' := hs;
      FinishUnfound(x, callee, g, hs);
      r := x;
    }
  }

  lemma LoopStart(g: Graph, hs: Tables, e: Edge, callee: Node)
    requires WellFormed(g) && e in g.edges && g.edges[e].speculative && e.caller in g.nodes && HashesOK(hs, g)
    ensures var v := SiteOfEdge(g, e);
      && v.indirects != [] && v.targets != []
      && var x, m := IndirectOf(g, e), MatchesOf(g, e, callee);
         && x in g.edges && x.caller == e.caller && g.edges[x].speculative && SiteOfEdge(g, x) == v
         && Under(g, Progress(g, hs, EdgesOf(v.targets), [], v.targets), x, callee, m, AfterLoop(g, e, callee))
  {
    hide ListsOK;
    SpeculativeEdge(g, e);
    var v, x := SiteOfEdge(g, e), IndirectOf(g, e);
    SiteOfIndirect(g, x);
    assert [] + MatchesOf(g, e, callee) == MatchesOf(g, e, callee);
    assert [] + v.targets == v.targets;
  }

  lemma LoopEnd(g: Graph, p: Progress, e: Edge, x: Edge, callee: Node, m: seq<Entry>, final: Graph)
    requires Under(g, p, x, callee, m, final) && p.ds == []
    ensures p.g == final && p.kept == m && AllMatch(SiteOfEdge(p.g, x), m, callee)
  {
    assert p.rest == [];
    assert p.kept + [] == p.kept;
  }

  /** The loop of make_direct over the targets of a speculative call. */
  method ResolveOthers(e: Edge, callee: Node, ghost g: Graph, ghost hs: Tables)
    returns (x: Edge, found: Edge?, freed: seq<Edge>, ghost hs': Tables)
    requires WellFormed(g) && Represents(g, hs) && HashesOK(hs, g)
    requires e in g.edges && g.edges[e].speculative && e.caller in g.nodes && |MatchesOf(g, e, callee)| <= 1
    modifies g.edges.Keys`count, g.edges.Keys`indirectInfo, g.edges.Keys`speculative
    modifies g.nodes.Keys`callees, g.nodes.Keys`indirectCalls, g.nodes.Keys`callers
    modifies e.caller`callSiteHash, e.caller`references
    modifies g.edges.Keys`prevCallee, g.edges.Keys`nextCallee, g.edges.Keys`prevCaller, g.edges.Keys`nextCaller
    ensures SiteOfEdge(g, e).indirects != [] && x == IndirectOf(g, e) && x.caller == e.caller
    ensures var g1, m := AfterLoop(g, e, callee), MatchesOf(g, e, callee);
      && Represents(g1, hs') && HashesOK(hs', g1) && x.caller in g1.nodes && x in g1.edges
      && AllMatch(SiteOfEdge(g1, x), m, callee) && found == FirstOf(EdgesOf(m))
      && g1.nodes.Keys == g.nodes.Keys && g1.edges.Keys <= g.edges.Keys && Freed(g.edges.Keys, g1.edges.Keys, freed)
  {
    x := SpeculativeCallIndirectEdge(e, g, hs);
    LoopStart(g, hs, e, callee);
    var first;
    first, hs' := FirstSpeculativeCallTarget(x, g, hs);
    LoopStart(g, hs', e, callee);
    ghost var m, final := MatchesOf(g, e, callee), AfterLoop(g, e, callee);
    ghost var a := SiteOfEdge(g, e).targets;
    ghost var p;
    found, freed, p := DropOtherTargets(first, x, callee, g, Progress(g, hs', EdgesOf(a), [], a), m, final);
    LoopEnd(g, p, e, x, callee, m, final);
    hs' := p.hs;
  }

  /** When a target is kept, the indirect edge is freed. */
  lemma FinishFrees(g: Graph, x: Edge, m: seq<Entry>, callee: Node)
    requires Ready(g, x, m, callee)
    ensures Finish(g, x, m, callee).edges.Keys == if m == [] then g.edges.Keys else g.edges.Keys - {x}
  {
    hide ListsOK;
    if m != [] {
      SameCallFacts(g, m[|m| - 1].edge, x);
      assert EdgeOK(g, m[|m| - 1].edge);
    }
  }

  /** make_direct of any component of a speculative call. */
  method MakeCallDirect(e: Edge, callee: Node, ghost g: Graph, ghost hs: Tables)
    returns (r: Edge, freed: seq<Edge>, ghost hs': Tables)
    requires WellFormed(g) && Represents(g, hs) && HashesOK(hs, g) && callee in g.nodes
    requires e in g.edges && g.edges[e].speculative && e.caller in g.nodes && |MatchesOf(g, e, callee)| <= 1
    modifies g.edges.Keys`count, g.edges.Keys`indirectInfo, g.edges.Keys`speculative
    modifies g.edges.Keys`callee, g.edges.Keys`indirectUnknownCallee
    modifies g.nodes.Keys`callees, g.nodes.Keys`indirectCalls, g.nodes.Keys`callers
    modifies e.caller`callSiteHash, e.caller`references
    modifies g.edges.Keys`prevCallee, g.edges.Keys`nextCallee, g.edges.Keys`prevCaller, g.edges.Keys`nextCaller
    ensures r == Survivor(g, e, callee)
    ensures ListsOK(MakeDirect(g, e, callee)) && Represents(MakeDirect(g, e, callee), hs')
    ensures HashesOK(hs', MakeDirect(g, e, callee))
    ensures Freed(g.edges.Keys, MakeDirect(g, e, callee).edges.Keys, freed)
  {
    MakeCallFacts(g, e, callee);
    hide SiteOfEdge, AfterLoop, MatchesOf, Finish, MakeDirect, Survivor, Ready, Represents, HashesOK, EdgesOf, FirstOf, Freed, LastKept;
    var x, found;
    x, found, r, freed, hs' := LoopThenLast(e, callee, g, hs);
    if found != null {
      FreedOne(g.edges.Keys, AfterLoop(g, e, callee).edges.Keys, MakeDirect(g, e, callee).edges.Keys, freed, x);
      freed := freed + [x];
    }
  }

  method LoopThenLast(e: Edge, callee: Node, ghost g: Graph, ghost hs: Tables)
    returns (x: Edge, found: Edge?, r: Edge, freed: seq<Edge>, ghost hs': Tables)
    requires WellFormed(g) && Represents(g, hs) && HashesOK(hs, g) && callee in g.nodes
    requires e in g.edges && g.edges[e].speculative && e.caller in g.nodes && |MatchesOf(g, e, callee)| <= 1
    modifies g.edges.Keys`count, g.edges.Keys`indirectInfo, g.edges.Keys`speculative
    modifies g.edges.Keys`callee, g.edges.Keys`indirectUnknownCallee
    modifies g.nodes.Keys`callees, g.nodes.Keys`indirectCalls, g.nodes.Keys`callers
    modifies e.caller`callSiteHash, e.caller`references
    modifies g.edges.Keys`prevCallee, g.edges.Keys`nextCallee, g.edges.Keys`prevCaller, g.edges.Keys`nextCaller
    ensures SiteOfEdge(g, e).indirects != [] && x == IndirectOf(g, e)
    ensures var g1, m := AfterLoop(g, e, callee), MatchesOf(g, e, callee);
      && found == FirstOf(EdgesOf(m)) && Freed(g.edges.Keys, g1.edges.Keys, freed)
      && r == LastKept(x, m)
      && Ready(g1, x, m, callee) && ListsOK(Finish(g1, x, m, callee))
      && Represents(Finish(g1, x, m, callee), hs') && HashesOK(hs', Finish(g1, x, m, callee))
  {
    MakeCallFacts(g, e, callee);
    ghost var g1, m := AfterLoop(g, e, callee), MatchesOf(g, e, callee);
    hide SiteOfEdge, AfterLoop, IndirectOf, MatchesOf, Finish, Ready, ListsOK, Complete, SitesOK, RefsLive;
    hide Represents, HashesOK, AllMatch, FirstOf, EdgesOf, Freed, LastKept;
    ghost var hs1;
    x, found, freed, hs1 := ResolveOthers(e, callee, g, hs);
    r, hs' := FinishLoop(found, x, callee, g1, hs1, m, g.edges.Keys, g.nodes.Keys);
  }

  lemma FirstOfMatches(m: seq<Entry>)
    ensures FirstOf(EdgesOf(m)) == null <==> m == []
  {
  }

  /** make_direct of a speculative call is the loop over the targets and then its end. */
  lemma MakeCallFacts(g: Graph, e: Edge, callee: Node)
    requires WellFormed(g) && callee in g.nodes
    requires e in g.edges && g.edges[e].speculative && e.caller in g.nodes && |MatchesOf(g, e, callee)| <= 1
    ensures SiteOfEdge(g, e).indirects != []
    ensures var g1, x, m := AfterLoop(g, e, callee), IndirectOf(g, e), MatchesOf(g, e, callee);
      && Ready(g1, x, m, callee) && x in g1.edges && x.caller == e.caller
      && MakeDirect(g, e, callee) == Finish(g1, x, m, callee)
      && Survivor(g, e, callee) == LastKept(x, m)
      && MakeDirect(g, e, callee).edges.Keys == (if m == [] then g1.edges.Keys else g1.edges.Keys - {x})
      && (FirstOf(EdgesOf(m)) == null <==> m == [])
  {
    hide SiteOfEdge, AfterLoop, MatchesOf, Finish, ListsOK, Complete, SitesOK, RefsLive;
    AfterLoopReady(g, e, callee);
    var g1, x, m := AfterLoop(g, e, callee), IndirectOf(g, e), MatchesOf(g, e, callee);
    FinishFrees(g1, x, m, callee);
    FirstOfMatches(m);
  }

  /** cgraph_edge::make_direct. */
  method MakeEdgeDirect(e: Edge, callee: Node, ghost g: Graph, ghost hs: Tables)
    returns (r: Edge, freed: seq<Edge>, ghost hs': Tables)
    requires WellFormed(g) && Represents(g, hs) && HashesOK(hs, g) && callee in g.nodes && e.caller in g.nodes
    requires CanBeDirect(g, e) && (g.edges[e].speculative ==> |MatchesOf(g, e, callee)| <= 1)
    modifies g.edges.Keys`count, g.edges.Keys`indirectInfo, g.edges.Keys`speculative
    modifies g.edges.Keys`callee, g.edges.Keys`indirectUnknownCallee
    modifies g.nodes.Keys`callees, g.nodes.Keys`indirectCalls, g.nodes.Keys`callers
    modifies e.caller`callSiteHash, e.caller`references
    modifies g.edges.Keys`prevCallee, g.edges.Keys`nextCallee, g.edges.Keys`prevCaller, g.edges.Keys`nextCaller
    ensures r == Survivor(g, e, callee)
    ensures ListsOK(MakeDirect(g, e, callee)) && Represents(MakeDirect(g, e, callee), hs')
    ensures HashesOK(hs', MakeDirect(g, e, callee))
    ensures Freed(g.edges.Keys, MakeDirect(g, e, callee).edges.Keys, freed)
  {
    assert FieldsRep(e, g.edges[e]);
    if e.speculative {
      r, freed, hs' := MakeCallDirect(e, callee, g, hs);
    } else {
      PlainReady(g, e, callee);
      FinishFrees(g, e, [], callee);
      FinishUnfound(e, callee, g, hs);
      r, freed, hs' := e, [], hs;
    }
  }
}

