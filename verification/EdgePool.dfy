/** The symbol table's account of the live edges: how many there are, and their summary ids. */
module EdgePools {
  import opened CallGraphTypes
  import opened SummaryIds

  class EdgePool {
    var edgesCount: int
    var edgesMaxSummaryId: int
    var edgeReleasedSummaryIds: seq<int>
    /** The summary id of each live edge, -1 for none. */
    var summaryId: map<Edge, int>

    constructor ()
      ensures Tracks({})
    {
      edgesCount, edgesMaxSummaryId, edgeReleasedSummaryIds, summaryId := 0, 0, [], map[];
    }

    ghost function Account(): Ids
      reads this
    {
      Ids(summaryId, edgeReleasedSummaryIds, edgesMaxSummaryId)
    }

    /** The count is that of the live edges es, their ids are distinct, and no id is lost. */
    ghost predicate Tracks(es: set<Edge>)
      reads this
    {
      summaryId.Keys == es && edgesCount == |es| && IdsOK(Account()) && NoneLost(Account())
    }

    /** The bookkeeping of symbol_table::create_edge. */
    method Register(e: Edge, ghost es: set<Edge>)
      requires Tracks(es) && e !in es
      modifies this
      ensures Tracks(es + {e}) && Account() == Allocate(old(Account()), e)
    {
      AllocateKeeps(Account(), e);
      summaryId := summaryId[e := -1];
      edgesCount := edgesCount + 1;
    }

    /** symbol_table::free_edge. */
    method FreeEdge(e: Edge, ghost es: set<Edge>)
      requires Tracks(es) && e in es
      modifies this
      ensures Tracks(es - {e}) && Account() == Free(old(Account()), e)
    {
      FreeKeeps(Account(), e);
      edgesCount := edgesCount - 1;
      if summaryId[e] != -1 {
        edgeReleasedSummaryIds := edgeReleasedSummaryIds + [summaryId[e]];
      }
      summaryId := summaryId - {e};
    }

    /** Frees the edges that an operation has removed, in order. */
    method FreeAll(freed: seq<Edge>, ghost before: set<Edge>, ghost after: set<Edge>)
      requires Tracks(before) && Freed(before, after, freed)
      modifies this
      ensures Tracks(after)
    {
      hide IdsOK, NoneLost, Tracks, Account, Free;
      ghost var es := before;
      var i := 0;
      while i < |freed|
        invariant i <= |freed| && Tracks(es)
        invariant forall e :: e in es <==> e in before && e !in freed[..i]
      {
        assert freed[i] in before && freed[i] !in freed[..i];
        FreeEdge(freed[i], es);
        es := es - {freed[i]};
        i := i + 1;
      }
      assert freed[..|freed|] == freed;
      assert es == after;
    }

    /** symbol_table::assign_summary_id: the new id is nobody else's; the edge's previous one, if
        any, is lost. */
    method AssignSummaryId(e: Edge, ghost es: set<Edge>) returns (id: int)
      requires Tracks(es) && e in es
      modifies this
      ensures Account() == Assign(old(Account()), e) && id == summaryId[e]
      ensures summaryId.Keys == es && edgesCount == |es| && IdsOK(Account())
      ensures Tracks(es) <==> old(summaryId[e]) == -1
    {
      AssignKeeps(Account(), e);
      var k := |edgeReleasedSummaryIds|;
      if k > 0 {
        summaryId := summaryId[e := edgeReleasedSummaryIds[k - 1]];
        edgeReleasedSummaryIds := edgeReleasedSummaryIds[..k - 1];
      } else {
        summaryId := summaryId[e := edgesMaxSummaryId];
        edgesMaxSummaryId := edgesMaxSummaryId + 1;
      }
      id := summaryId[e];
    }
  }
}
