/** Runs from the empty graph that reach the states in which an operation does harm: the conditions
    stated for the operations are not met by themselves. */
module CallGraphExamples {
  import opened Common
  import opened CallGraphTypes
  import opened CallSites
  import opened CallGraphSteps
  import opened CallGraphInvariants
  import opened CallGraphDirect
  import opened CallGraphMakeDirect
  import opened CallGraphSettle
  import opened CallGraphUpdates
  import opened CallGraphRemoval
  import opened CallGraphRuns
  import opened SummaryIds

  const Nothing: Graph := Graph(map[], map[])

  /** A run that goes on with one more step. */
  lemma {:induction false} RunSnoc(g: Graph, steps: seq<Step>, s: Step)
    requires CarefulRun(g, steps) && Possible(Final(g, steps), s) && Careful(Final(g, steps), s)
    ensures CarefulRun(g, steps + [s]) && Final(g, steps + [s]) == Apply(Final(g, steps), s)
    decreases |steps|
  {
    hide Possible;
    if steps == [] {
      assert [] + [s] == [s] && [s][1..] == [];
    } else {
      assert (steps + [s])[1..] == steps[1..] + [s];
      RunSnoc(Apply(g, steps[0]), steps[1..], s);
    }
  }

  /** Three functions and the edges of an example; m makes the calls, and n and k are different. */
  datatype Cast = Cast(m: Node, n: Node, k: Node, x: Edge, d: Edge, e: Edge, f: Edge)

  ghost predicate Apart(c: Cast) {
    && c.m != c.n && c.m != c.k && c.n != c.k && c.n.symbol != c.k.symbol
    && c.x != c.d && c.x != c.e && c.d != c.e && c.f != c.x && c.f != c.d && c.f != c.e
    && c.x.caller == c.m && c.d.caller == c.m && c.e.caller == c.m && c.f.caller == c.m
  }

  const Empty: NodeRec := NodeRec([], [], [], [])

  ghost function Functions(c: Cast): Graph {
    Graph(map[c.m := Empty, c.n := Empty, c.k := Empty], map[])
  }

  /** An indirect call with the statement 1 and the count 10. */
  ghost function Called(c: Cast): Graph {
    Graph(map[c.m := NodeRec([], [c.x], [], []), c.n := Empty, c.k := Empty],
          map[c.x := EdgeRec(null, 1, false, true, 0, 10, Some(0))])
  }

  const TargetRec: EdgeRec := EdgeRec(null, 1, true, false, 0, 4, None)

  /** It has been speculated that the call goes to n. */
  ghost function Guessed(c: Cast): Graph {
    Graph(map[c.m := NodeRec([c.d], [c.x], [], [Ref(c.n, 1, true, 0)]), c.n := NodeRec([], [], [c.d], []), c.k := Empty],
          map[c.x := EdgeRec(null, 1, true, true, 0, 6, Some(1)), c.d := TargetRec.(callee := c.n)])
  }

  ghost function FunctionSteps(c: Cast): seq<Step> {
    [NewNode(c.m)] + [NewNode(c.n)] + [NewNode(c.k)]
  }

  ghost function GuessedSteps(c: Cast): seq<Step> {
    FunctionSteps(c) + [NewIndirectEdge(c.x, 1, 10)] + [Speculate(c.x, c.d, c.n, 4, 0)]
  }

  lemma FunctionsReached(c: Cast)
    requires Apart(c)
    ensures WellFormed(Functions(c)) && CarefulRun(Nothing, FunctionSteps(c)) && Final(Nothing, FunctionSteps(c)) == Functions(c)
  {
    assert WellFormed(Nothing);
    RunKeeps(Nothing, []);
    RunSnoc(Nothing, [], NewNode(c.m));
    assert [] + [NewNode(c.m)] == [NewNode(c.m)];
    RunKeeps(Nothing, [NewNode(c.m)]);
    RunSnoc(Nothing, [NewNode(c.m)], NewNode(c.n));
    RunKeeps(Nothing, [NewNode(c.m)] + [NewNode(c.n)]);
    RunSnoc(Nothing, [NewNode(c.m)] + [NewNode(c.n)], NewNode(c.k));
    RunKeeps(Nothing, FunctionSteps(c));
  }

  lemma CalledReached(c: Cast)
    requires Apart(c)
    ensures var steps := FunctionSteps(c) + [NewIndirectEdge(c.x, 1, 10)];
      WellFormed(Called(c)) && CarefulRun(Nothing, steps) && Final(Nothing, steps) == Called(c)
  {
    FunctionsReached(c);
    hide CarefulRun, Final, WellFormed;
    var s := NewIndirectEdge(c.x, 1, 10);
    StepFromFunctions(c);
    RunSnoc(Nothing, FunctionSteps(c), s);
    StepKeeps(Functions(c), s);
  }

  lemma StepFromFunctions(c: Cast)
    requires Apart(c) && WellFormed(Functions(c))
    ensures var s := NewIndirectEdge(c.x, 1, 10);
      Possible(Functions(c), s) && Careful(Functions(c), s) && Apply(Functions(c), s) == Called(c)
  {
    var g, s := Functions(c), NewIndirectEdge(c.x, 1, 10);
    assert At([], g.edges, 1) == [] && RefsAt([], 1) == [];
    assert [c.x] + g.nodes[c.m].indirects == [c.x];
    assert Apply(g, s) == CreateIndirectEdge(g, c.x, 1, 10);
    assert Apply(g, s).nodes.Keys == Called(c).nodes.Keys;
    forall n | n in g.nodes ensures Apply(g, s).nodes[n] == Called(c).nodes[n] {
    }
  }

  lemma StepFromCalled(c: Cast)
    requires Apart(c) && WellFormed(Called(c))
    ensures var s := Speculate(c.x, c.d, c.n, 4, 0);
      Possible(Called(c), s) && Careful(Called(c), s) && Apply(Called(c), s) == Guessed(c)
  {
    GuessIs(c);
    hide Guessed, MakeSpeculative, WellFormed;
    var g := Called(c);
    assert At([], g.edges, 1) == [];
    assert g.nodes[c.m].callees == [];
  }

  ghost function Between(c: Cast): Graph {
    Graph(map[c.m := NodeRec([c.d], [c.x], [], []), c.n := NodeRec([], [], [c.d], []), c.k := Empty],
          map[c.x := EdgeRec(null, 1, false, true, 0, 10, Some(0)),
              c.d := TargetRec.(callee := c.n, speculative := false)])
  }

  lemma GuessIs(c: Cast)
    requires Apart(c)
    ensures MakeSpeculative(Called(c), c.x, c.d, c.n, 4, 0) == Guessed(c)
  {
    EdgeIs(c);
    var a := MarkTarget(Between(c), c.x, c.d, 0);
    assert [] + [Ref(c.n, 1, true, 0)] == [Ref(c.n, 1, true, 0)];
    assert a.nodes.Keys == Guessed(c).nodes.Keys && a.edges == Guessed(c).edges;
    forall n | n in a.nodes ensures a.nodes[n] == Guessed(c).nodes[n] {
    }
  }

  lemma EdgeIs(c: Cast)
    requires Apart(c)
    ensures CreateEdge(Called(c), c.d, c.n, 1, 4) == Between(c)
  {
    var a := CreateEdge(Called(c), c.d, c.n, 1, 4);
    assert [c.d] + [] == [c.d];
    assert a.nodes.Keys == Between(c).nodes.Keys && a.edges == Between(c).edges;
    forall n | n in a.nodes ensures a.nodes[n] == Between(c).nodes[n] {
    }
  }

  lemma GuessedReached(c: Cast)
    requires Apart(c)
    ensures WellFormed(Guessed(c)) && CarefulRun(Nothing, GuessedSteps(c)) && Final(Nothing, GuessedSteps(c)) == Guessed(c)
  {
    CalledReached(c);
    hide CarefulRun, Final, WellFormed;
    var s := Speculate(c.x, c.d, c.n, 4, 0);
    StepFromCalled(c);
    RunSnoc(Nothing, FunctionSteps(c) + [NewIndirectEdge(c.x, 1, 10)], s);
    StepKeeps(Called(c), s);
  }

  /** What the example looks like from the call. */
  lemma GuessedSite(c: Cast)
    requires Apart(c) && WellFormed(Guessed(c))
    ensures SiteIn(Guessed(c), c.m, 1)
      == Site([Entry(c.d, TargetRec.(callee := c.n))], [Entry(c.x, EdgeRec(null, 1, true, true, 0, 6, Some(1)))], [Ref(c.n, 1, true, 0)])
    ensures forall t: Stmt | t != 1 :: EmptySite(SiteIn(Guessed(c), c.m, t))
  {
    var g := Guessed(c);
    assert g.nodes[c.m] == NodeRec([c.d], [c.x], [], [Ref(c.n, 1, true, 0)]);
    assert [c.d][1..] == [] && [c.x][1..] == [] && [Ref(c.n, 1, true, 0)][1..] == [];
    forall t: Stmt
      ensures At([c.d], g.edges, t) == if t == 1 then [Entry(c.d, g.edges[c.d])] else []
      ensures At([c.x], g.edges, t) == if t == 1 then [Entry(c.x, g.edges[c.x])] else []
      ensures RefsAt([Ref(c.n, 1, true, 0)], t) == if t == 1 then [Ref(c.n, 1, true, 0)] else []
    {
    }
  }

  // ---------- operations that do harm ----------

  /** A careful run leads to a graph in which the operation is possible and does harm. */
  ghost predicate Harmful(steps: seq<Step>, s: Step) {
    CarefulRun(Nothing, steps) && Possible(Final(Nothing, steps), s) && !WellFormed(Apply(Final(Nothing, steps), s))
  }

  lemma GoOn(c: Cast, s: Step)
    requires Apart(c) && WellFormed(Guessed(c)) && Possible(Guessed(c), s) && Careful(Guessed(c), s)
    ensures var steps := GuessedSteps(c) + [s];
      CarefulRun(Nothing, steps) && Final(Nothing, steps) == Apply(Guessed(c), s) && WellFormed(Apply(Guessed(c), s))
  {
    hide Guessed, CarefulRun, Final, Possible, Careful, Apply;
    GuessedReached(c);
    RunSnoc(Nothing, GuessedSteps(c), s);
    StepKeeps(Guessed(c), s);
  }

  /** A further target, after a call with another statement has been put in front. */
  lemma SpeculateBehind(c: Cast)
    requires Apart(c)
    ensures Harmful(GuessedSteps(c) + [NewEdge(c.e, c.k, 2, 5)], Speculate(c.x, c.f, c.k, 1, 1))
  {
    hide ListsOK, CarefulRun, Final, Complete;
    GuessedReached(c);
    GuessedSite(c);
    var g, t, s := Guessed(c), NewEdge(c.e, c.k, 2, 5), Speculate(c.x, c.f, c.k, 1, 1);
    assert g.nodes[c.m].callees == [c.d];
    GoOn(c, t);
    CreateEdgeLists(g, c.e, c.k, 2, 5);
    CreateEdgeSite(g, c.e, c.k, 2, 5);
    var g1 := Apply(g, t);
    assert SiteIn(g1, c.m, 1) == SiteIn(g, c.m, 1);
    assert g1.nodes[c.m].callees[0] == c.e;
    hide WellFormed, CarefulRun, Final, Guessed;
    StepKeeps(g1, s);
  }

  /** A second guess, first in the list and with the id 1. */
  lemma SecondGuess(c: Cast, to: Node)
    requires Apart(c) && (to == c.n || to == c.k)
    ensures var s := Speculate(c.x, c.f, to, 1, 1);
      && WellFormed(Guessed(c)) && Possible(Guessed(c), s)
      && CarefulRun(Nothing, GuessedSteps(c) + [s]) && Final(Nothing, GuessedSteps(c) + [s]) == Apply(Guessed(c), s)
      && var g1 := Apply(Guessed(c), s);
         && WellFormed(g1) && c.m in g1.nodes && {c.x, c.f, c.d} <= g1.edges.Keys
         && g1.edges[c.f] == TargetRec.(callee := to, speculativeId := 1, count := 1)
         && g1.edges[c.x].stmt == 1 && g1.edges[c.x].speculative && g1.edges[c.x].indirect
         && g1.nodes[c.m].refs == [Ref(c.n, 1, true, 0), Ref(to, 1, true, 1)]
         && var v := SiteIn(g1, c.m, 1);
            && v.targets == [Entry(c.f, g1.edges[c.f]), Entry(c.d, TargetRec.(callee := c.n))]
            && v.refs == [Ref(c.n, 1, true, 0), Ref(to, 1, true, 1)]
  {
    hide CreateEdge, CarefulRun;
    GuessedReached(c);
    GuessedSite(c);
    var g, s := Guessed(c), Speculate(c.x, c.f, to, 1, 1);
    assert g.nodes[c.m].callees == [c.d];
    SecondGuessFields(c, to);
    hide WellFormed, Guessed, MakeSpeculative;
    GoOn(c, s);
    CreateEdgeLists(g, c.f, to, 1, 1);
    SecondGuessSite(c, to);
  }

  lemma SecondGuessFields(c: Cast, to: Node)
    requires Apart(c) && (to == c.n || to == c.k)
    ensures var g := Guessed(c);
      && c.f !in g.edges && c.m in g.nodes && to in g.nodes && c.x in g.edges && c.d in g.edges && g.edges[c.x].indirect
      && g.edges[c.x] == EdgeRec(null, 1, true, true, 0, 6, Some(1))
      && var g1 := MakeSpeculative(g, c.x, c.f, to, 1, 1);
         && c.m in g1.nodes && {c.x, c.f, c.d} <= g1.edges.Keys
         && g1.edges[c.f] == TargetRec.(callee := to, speculativeId := 1, count := 1)
         && g1.edges[c.x].stmt == 1 && g1.edges[c.x].speculative && g1.edges[c.x].indirect
         && g1.nodes[c.m].refs == [Ref(c.n, 1, true, 0), Ref(to, 1, true, 1)]
  {
  }

  lemma SecondGuessSite(c: Cast, to: Node)
    requires Apart(c) && (to == c.n || to == c.k) && WellFormed(Guessed(c))
    requires ListsOK(CreateEdge(Guessed(c), c.f, to, 1, 1)) && ListsOK(MakeSpeculative(Guessed(c), c.x, c.f, to, 1, 1))
    ensures var g1 := MakeSpeculative(Guessed(c), c.x, c.f, to, 1, 1);
      && c.m in g1.nodes && c.f in g1.edges
      && var v := SiteIn(g1, c.m, 1);
         && v.targets == [Entry(c.f, g1.edges[c.f]), Entry(c.d, TargetRec.(callee := c.n))]
         && v.refs == [Ref(c.n, 1, true, 0), Ref(to, 1, true, 1)]
  {
    hide ListsOK;
    SecondGuessFields(c, to);
    GuessedSite(c);
    hide WellFormed, Guessed, MakeSpeculative, SiteIn;
    MakeSpeculativeSite(Guessed(c), c.x, c.f, to, 1, 1);
  }

  /** The edge to k turns out right, but the one to n is left. */
  lemma ResolveAmongSeveral(c: Cast)
    requires Apart(c)
    ensures Harmful(GuessedSteps(c) + [Speculate(c.x, c.f, c.k, 1, 1)], ResolveSpeculation(c.f, c.k))
  {
    SecondGuess(c, c.k);
    var g1 := Apply(Guessed(c), Speculate(c.x, c.f, c.k, 1, 1));
    hide Apply, Guessed, CarefulRun, Final, WellFormed;
    assert c.k.SemanticallyEquivalent(c.k);
    var refs := [Ref(c.n, 1, true, 0), Ref(c.k, 1, true, 1)];
    assert refs[1..] == [Ref(c.k, 1, true, 1)];
    assert FindRef(refs, 1, 1) == Some(refs[1]);
    assert Proved(g1, c.f, c.k);
    StepKeeps(g1, ResolveSpeculation(c.f, c.k));
  }

  lemma BothMatch(v: Site, f: Entry, d: Entry, n: Node)
    requires v.targets == [f, d] && v.refs == [Ref(n, 1, true, 0), Ref(n, 1, true, 1)]
    requires f.rec.stmt == d.rec.stmt == 1 && f.rec.speculativeId == 1 && d.rec.speculativeId == 0
    ensures |Matching(v, v.targets, n)| == 2
  {
    assert v.refs[1..] == [Ref(n, 1, true, 1)] && n.SemanticallyEquivalent(n);
    assert FindRef(v.refs, 1, 1) == Some(v.refs[1]) && FindRef(v.refs, 1, 0) == Some(v.refs[0]);
    assert Matches(v, f, n) && Matches(v, d, n);
    assert v.targets[1..] == [d] && [d][1..] == [];
    assert Matching(v, [d], n) == [d] + Matching(v, [], n);
  }

  /** Both guesses are n. */
  lemma DirectToBoth(c: Cast)
    requires Apart(c)
    ensures Harmful(GuessedSteps(c) + [Speculate(c.x, c.f, c.n, 1, 1)], MakeDirect(c.x, c.n))
  {
    SecondGuess(c, c.n);
    var g1 := Apply(Guessed(c), Speculate(c.x, c.f, c.n, 1, 1));
    hide Apply, Guessed, CarefulRun, Final, WellFormed, Matching;
    BothMatch(SiteIn(g1, c.m, 1), Entry(c.f, g1.edges[c.f]), Entry(c.d, TargetRec.(callee := c.n)), c.n);
    assert |MatchesOf(g1, c.x, c.n)| == 2;
    StepKeeps(g1, MakeDirect(c.x, c.n));
  }

  /** The function that is speculated to be called. */
  lemma RemoveGuessed(c: Cast)
    requires Apart(c)
    ensures Harmful(GuessedSteps(c), RemoveNode(c.n))
  {
    GuessedReached(c);
    var g := Guessed(c);
    assert g.edges[c.d].callee == c.n && g.edges[c.d].speculative && c.d.caller != c.n;
    hide CarefulRun, Final, Guessed;
    StepKeeps(g, RemoveNode(c.n));
  }

  /** The function that the call was speculated to go to before it was redirected: nobody calls it any
      more, but a reference to it is left. */
  lemma RemoveRedirected(c: Cast)
    requires Apart(c)
    ensures Harmful(GuessedSteps(c) + [RedirectCallee(c.d, c.k)], RemoveNode(c.n))
    ensures var g := Final(Nothing, GuessedSteps(c) + [RedirectCallee(c.d, c.k)]);
      NoSpeculativeCallers(g, c.n) && forall e | e in g.edges :: g.edges[e].callee != c.n
  {
    hide WellFormed, RefsKept;
    GuessedReached(c);
    var g, s := Guessed(c), RedirectCallee(c.d, c.k);
    GoOn(c, s);
    var g1 := Apply(g, s);
    RedirectRefs(g, c.d, c.k);
    assert g1.edges == g.edges[c.d := Retargeted(g.edges[c.d], c.k)];
    assert g1.nodes[c.m].refs == [Ref(c.n, 1, true, 0)];
    assert Ref(c.n, 1, true, 0) in g1.nodes[c.m].refs && !LacksReferred(g1.nodes[c.m].refs, c.n);
    hide CarefulRun, Final, Guessed;
    StepKeeps(g1, RemoveNode(c.n));
  }

  /** The edge itself. */
  lemma RemoveTarget(c: Cast)
    requires Apart(c)
    ensures Harmful(GuessedSteps(c), RemoveEdge(c.d))
  {
    GuessedReached(c);
    var g := Guessed(c);
    assert g.edges[c.d].speculative;
    hide CarefulRun, Final, Guessed;
    StepKeeps(g, RemoveEdge(c.d));
  }

  /** What is left of the call is an indirect edge that is still marked as speculative, without a direct
      edge: given this edge, the verifier of speculative calls follows a null pointer. */
  lemma NoTargetLeft(c: Cast)
    requires Apart(c)
    ensures var g := Remove(Guessed(c), c.d);
      && Live(Guessed(c), c.d) && ListsOK(g) && Complete(g) && c.m in g.nodes
      && c.x in g.nodes[c.m].indirects && c.x in g.edges && g.edges[c.x].speculative
      && SiteIn(g, c.m, 1).targets == []
  {
    GuessedReached(c);
    GuessedSite(c);
    var g := Guessed(c);
    assert g.nodes[c.m].indirects == [c.x];
    assert Removable(g, [c.d]);
    RemoveStep(g, [c.d]);
    RemoveSite(g, c.d);
    var v := SiteIn(g, c.m, 1);
    assert Minus(v.targets, c.d) == [];
  }

  /** One component gets a new statement, and the others do not. */
  lemma RenameAlone(c: Cast)
    requires Apart(c)
    ensures CarefulRun(Nothing, GuessedSteps(c)) && Final(Nothing, GuessedSteps(c)) == Guessed(c)
    ensures c.d in Guessed(c).edges && !WellFormed(SetRec(Guessed(c), c.d, Renamed(Guessed(c).edges[c.d], 2)))
  {
    GuessedReached(c);
    LoneComponentKeeps(Guessed(c), c.d, 2);
  }

  /** An edge that gets a second summary id: the first one is lost. */
  lemma AssignTwice(e: Edge)
    ensures var s := Allocate(Ids(map[], [], 0), e);
      IdsOK(s) && NoneLost(s) && NoneLost(Assign(s, e)) && !NoneLost(Assign(Assign(s, e), e))
  {
    var s := Allocate(Ids(map[], [], 0), e);
    AssignKeeps(s, e);
    AssignKeeps(Assign(s, e), e);
  }
}
