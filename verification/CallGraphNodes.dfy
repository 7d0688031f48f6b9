/** New functions in the call graph. */
module CallGraphNodes {
  import opened Common
  import opened CallGraphTypes
  import opened CallSites
  import opened CallGraphSteps
  import opened CallGraphHeap
  import opened CallSiteHash

  ghost function AddNode(g: Graph, n: Node): Graph {
    g.(nodes := g.nodes[n := NodeRec([], [], [], [])])
  }

  lemma AddNodeKeeps(g: Graph, n: Node)
    requires WellFormed(g) && n !in g.nodes
    ensures WellFormed(AddNode(g, n))
    ensures forall m, t: Stmt | m in g.nodes :: SiteIn(AddNode(g, n), m, t) == SiteIn(g, m, t)
  {
    var g' := AddNode(g, n);
    forall m | m in g'.nodes ensures NodeOK(m, g'.nodes[m], g'.edges) {
      assert m != n ==> NodeOK(m, g.nodes[m], g.edges);
    }
    forall e | e in g'.edges ensures EdgeOK(g', e) {
      assert EdgeOK(g, e);
    }
    forall m | m in g'.nodes ensures Adjacent(g', m) {
      assert m != n ==> Adjacent(g, m);
    }
    forall m, t: Stmt | m in g'.nodes ensures SiteOK(SiteIn(g', m, t)) {
      assert m != n ==> SiteOK(SiteIn(g, m, t));
    }
  }

  lemma AddNodeHashes(hs: Tables, g: Graph, n: Node)
    requires WellFormed(g) && HashesOK(hs, g) && n !in g.nodes
    ensures WellFormed(AddNode(g, n)) && HashesOK(hs[n := None], AddNode(g, n))
  {
    AddNodeKeeps(g, n);
    forall m | m in AddNode(g, n).nodes ensures HashOK(hs[n := None][m], AddNode(g, n), m) {
      if m != n && hs[m].Some? {
        assert HashOK(hs[m], g, m);
        forall t: Stmt ensures SlotOK(hs[m].value, SiteIn(AddNode(g, n), m, t), t) {
          assert SlotOK(hs[m].value, SiteIn(g, m, t), t);
        }
      }
    }
  }

  lemma AddNodeRep(g: Graph, hs: Tables, n: Node)
    requires ListsOK(g) && Complete(g) && Represents(g, hs) && n !in g.nodes
    requires NodeRep(n, NodeRec([], [], [], []), None)
    ensures Represents(AddNode(g, n), hs[n := None])
  {
    var g' := AddNode(g, n);
    forall e | e in g'.edges ensures FieldsRep(e, g'.edges[e]) && CalleeLinks(e, g') && CallerLinks(e, g') {
      assert FieldsRep(e, g.edges[e]) && CalleeLinks(e, g) && CallerLinks(e, g) && EdgeOK(g, e);
    }
    forall m | m in g'.nodes ensures NodeRep(m, g'.nodes[m], hs[n := None][m]) {
      assert m != n ==> NodeRep(m, g.nodes[m], hs[m]);
    }
  }
}
