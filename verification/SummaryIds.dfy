/** Summary ids of call graph edges: handed out from a counter, recycled through a free list. */
module SummaryIds {
  import opened Common
  import opened CallGraphTypes

  /** The id of every live edge (-1 for none), the free list, and the first id never handed out. */
  datatype Ids = Ids(live: map<Edge, int>, released: seq<int>, max: int)

  ghost predicate Known(s: Ids, id: int) {
    0 <= id < s.max
  }

  /** Ids in use are distinct, and none of them is on the free list, which has no duplicates. */
  ghost predicate IdsOK(s: Ids) {
    && s.max >= 0
    && (forall e | e in s.live :: s.live[e] == -1 || Known(s, s.live[e]))
    && (forall e, f | e in s.live && f in s.live && e != f && s.live[e] != -1 :: s.live[e] != s.live[f])
    && (forall id | id in s.released :: Known(s, id))
    && NoDup(s.released)
    && (forall e | e in s.live :: s.live[e] !in s.released)
  }

  ghost predicate InUse(s: Ids, id: int) {
    exists e | e in s.live :: s.live[e] == id
  }

  /** No id is lost: each one ever handed out is in use or waits on the free list. */
  ghost predicate NoneLost(s: Ids) {
    forall id | Known(s, id) :: id in s.released || InUse(s, id)
  }

  ghost function Allocate(s: Ids, e: Edge): Ids {
    s.(live := s.live[e := -1])
  }

  ghost function Assign(s: Ids, e: Edge): Ids {
    var k := |s.released|;
    if k > 0 then Ids(s.live[e := s.released[k - 1]], s.released[..k - 1], s.max)
    else Ids(s.live[e := s.max], s.released, s.max + 1)
  }

  ghost function Free(s: Ids, e: Edge): Ids
    requires e in s.live
  {
    Ids(s.live - {e}, if s.live[e] != -1 then s.released + [s.live[e]] else s.released, s.max)
  }

  lemma AllocateKeeps(s: Ids, e: Edge)
    requires IdsOK(s) && e !in s.live
    ensures IdsOK(Allocate(s, e)) && (NoneLost(s) ==> NoneLost(Allocate(s, e)))
  {
    var s' := Allocate(s, e);
    assert !Known(s, -1);
    if NoneLost(s) {
      forall id | Known(s', id) ensures id in s'.released || InUse(s', id) {
        assert Known(s, id);
        if InUse(s, id) {
          var f :| f in s.live && s.live[f] == id;
          assert f in s'.live && s'.live[f] == id;
        }
      }
    }
  }

  /** A new id is never one in use; the edge's previous id, if it had one, is lost. */
  lemma AssignKeeps(s: Ids, e: Edge)
    requires IdsOK(s) && e in s.live
    ensures IdsOK(Assign(s, e))
    ensures NoneLost(s) ==> (NoneLost(Assign(s, e)) <==> s.live[e] == -1)
    ensures NoneLost(s) ==> (Assign(s, e).max != s.max <==> forall id | Known(s, id) :: InUse(s, id))
    ensures Assign(s, e).max == s.max ==> s.released != [] && Assign(s, e).live[e] == s.released[|s.released| - 1]
  {
    var s', k := Assign(s, e), |s.released|;
    var id := s'.live[e];
    if k > 0 {
      assert s.released[k - 1] in s.released;
      assert Known(s, id);
    }
    assert forall x | x in s'.released :: x in s.released;
    assert forall i | 0 <= i < |s'.released| :: s'.released[i] == s.released[i] != id;
    if NoneLost(s) && s.live[e] == -1 {
      AssignLosesNone(s, e);
    }
    if NoneLost(s) && s.live[e] != -1 {
      assert Known(s, s.live[e]) && Known(s', s.live[e]);
      assert !InUse(s', s.live[e]);
    }
  }

  lemma AssignLosesNone(s: Ids, e: Edge)
    requires IdsOK(s) && e in s.live && s.live[e] == -1 && NoneLost(s)
    ensures NoneLost(Assign(s, e))
  {
    var s', k := Assign(s, e), |s.released|;
    forall id | Known(s', id) ensures id in s'.released || InUse(s', id) {
      if id == s'.live[e] {
        assert InUse(s', id);
      } else {
        assert Known(s, id);
        if id in s.released {
          var i :| 0 <= i < |s.released| && s.released[i] == id;
          assert s'.released[i] == id;
        } else {
          var f :| f in s.live && s.live[f] == id;
          assert s'.live[f] == id;
        }
      }
    }
  }

  lemma FreeKeeps(s: Ids, e: Edge)
    requires IdsOK(s) && e in s.live
    ensures IdsOK(Free(s, e)) && (NoneLost(s) ==> NoneLost(Free(s, e)))
  {
    var s' := Free(s, e);
    assert forall x :: x in s'.released <==> x in s.released || (x == s.live[e] && x != -1);
    if NoneLost(s) {
      forall id | Known(s', id) ensures id in s'.released || InUse(s', id) {
        assert Known(s, id);
        if InUse(s, id) {
          var f :| f in s.live && s.live[f] == id;
          assert f != e ==> s'.live[f] == id;
        }
      }
    }
  }

  /** The id that was released last is the first to be used again. */
  lemma LastReleasedFirst(s: Ids, e: Edge, f: Edge)
    requires e in s.live && s.live[e] != -1 && f in s.live && f != e
    ensures Assign(Free(s, e), f).live[f] == s.live[e] && Assign(Free(s, e), f).released == s.released
  {
  }

  /** The edges freed by an operation, in order, and the live edges before and after it. */
  ghost predicate Freed(before: set<Edge>, after: set<Edge>, freed: seq<Edge>) {
    && NoDup(freed) && (forall e | e in freed :: e in before && e !in after)
    && (forall e | e in before :: e in after || e in freed) && after <= before
  }

  lemma FreedOne(before: set<Edge>, after: set<Edge>, after': set<Edge>, freed: seq<Edge>, e: Edge)
    requires Freed(before, after, freed) && e in after && after' == after - {e}
    ensures Freed(before, after', freed + [e])
  {
    assert forall y :: y in freed + [e] <==> y in freed || y == e;
  }
}
