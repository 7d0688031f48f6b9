/** verify_speculative_call: what the verifier of speculative calls accepts. */
module CallGraphVerify {
  import opened Common
  import opened CallGraphTypes
  import opened CallSites
  import opened EdgeLists
  import opened CallGraphSteps
  import opened CallGraphHeap
  import opened CallSiteHash

  /** The routine also has a third outcome: without a direct edge it follows a null pointer. */
  datatype Verdict = Fine | ErrorFound | NullDereference

  /** The edges of statement t form an interval of the list. */
  ghost predicate ContiguousAt(s: seq<Edge>, edges: map<Edge, EdgeRec>, t: Stmt)
    requires Covers(edges, s)
  {
    forall i, k {:trigger Joined(s, edges, i), s[k]} |
      0 <= i < k < |s| && edges[s[i]].stmt == t && edges[s[k]].stmt == t :: Joined(s, edges, i)
  }

  lemma ContiguousEverywhere(s: seq<Edge>, edges: map<Edge, EdgeRec>)
    requires Covers(edges, s)
    ensures Contiguous(s, edges) <==> forall t: Stmt :: ContiguousAt(s, edges, t)
  {
    if forall t: Stmt :: ContiguousAt(s, edges, t) {
      forall i, k | 0 <= i < k < |s| && edges[s[i]].stmt == edges[s[k]].stmt ensures Joined(s, edges, i) {
        assert ContiguousAt(s, edges, edges[s[i]].stmt);
      }
    }
  }

  // ---------- the direct edges ----------

  /** All direct edges are speculative, with different ids in range. */
  ghost predicate DirectsOK(a: seq<Entry>) {
    (forall x | x in a :: x.rec.speculative && x.rec.speculativeId < MaxTargets) && NoDup(TargetIds(a))
  }

  lemma DirectsSnoc(a: seq<Entry>, x: Entry)
    ensures DirectsOK(a + [x]) <==>
      DirectsOK(a) && x.rec.speculative && x.rec.speculativeId < MaxTargets && x.rec.speculativeId !in TargetIds(a)
    ensures TargetIds(a + [x]) == TargetIds(a) + [x.rec.speculativeId]
  {
    var b, ids, id := a + [x], TargetIds(a), x.rec.speculativeId;
    var all := TargetIds(b);
    assert all == ids + [id];
    assert forall y :: y in b <==> y in a || y == x;
    if NoDup(all) {
      forall i | 0 <= i < |ids| ensures ids[i] != id {
        assert all[i] == ids[i] && all[|ids|] == id;
      }
      forall i, j | 0 <= i < j < |ids| ensures ids[i] != ids[j] {
        assert all[i] == ids[i] && all[j] == ids[j];
      }
    }
    if NoDup(ids) && id !in ids {
      forall i, j | 0 <= i < j < |all| ensures all[i] != all[j] {
        assert ids[i] in ids && all[i] == ids[i];
      }
    }
  }

  lemma {:induction false} DirectsPrefix(a: seq<Entry>, b: seq<Entry>)
    requires DirectsOK(a + b)
    ensures DirectsOK(a)
  {
    if b == [] {
      assert a + b == a;
    } else {
      var k := |b| - 1;
      assert a + b == (a + b[..k]) + [b[k]];
      DirectsSnoc(a + b[..k], b[k]);
      DirectsPrefix(a, b[..k]);
    }
  }

  /** After k edges of list s: j is the index of the last one with statement t, or -1. */
  ghost predicate Scanned(s: seq<Edge>, edges: map<Edge, EdgeRec>, t: Stmt, k: nat, j: int, first: Edge?, table: seq<Edge?>)
    requires Covers(edges, s)
  {
    && k <= |s| && -1 <= j < k && |table| == MaxTargets
    && (forall i | 0 <= i < k && edges[s[i]].stmt == t :: i <= j) && (j >= 0 ==> edges[s[j]].stmt == t)
    && (forall i, l {:trigger Joined(s, edges, i), s[l]} |
          0 <= i < l <= j && edges[s[i]].stmt == t && edges[s[l]].stmt == t :: Joined(s, edges, i))
    && assert Covers(edges, s[..k]);
       var a := At(s[..k], edges, t);
       && DirectsOK(a) && (j < 0 <==> a == []) && first == (if a == [] then null else a[0].edge)
       && forall id: nat | id < MaxTargets :: table[id] != null <==> id in TargetIds(a)
  }

  lemma AtStep(s: seq<Edge>, edges: map<Edge, EdgeRec>, t: Stmt, k: nat)
    requires Covers(edges, s) && k < |s|
    ensures Covers(edges, s[..k]) && Covers(edges, s[..k + 1])
    ensures At(s[..k + 1], edges, t) == At(s[..k], edges, t) + if edges[s[k]].stmt == t then [Entry(s[k], edges[s[k]])] else []
  {
    assert s[..k + 1] == s[..k] + [s[k]];
    AtConcat(s[..k], [s[k]], edges, t);
    assert [s[k]][1..] == [];
  }

  /** An error among the first edges is an error. */
  lemma AtRest(s: seq<Edge>, edges: map<Edge, EdgeRec>, t: Stmt, k: nat)
    requires Covers(edges, s) && k <= |s|
    ensures Covers(edges, s[..k])
    ensures DirectsOK(At(s, edges, t)) ==> DirectsOK(At(s[..k], edges, t))
  {
    assert s == s[..k] + s[k..];
    AtConcat(s[..k], s[k..], edges, t);
    if DirectsOK(At(s, edges, t)) {
      DirectsPrefix(At(s[..k], edges, t), At(s[k..], edges, t));
    }
  }

  lemma NotAdjacent(s: seq<Edge>, edges: map<Edge, EdgeRec>, t: Stmt, j: nat, k: nat)
    requires Covers(edges, s) && j + 1 < k < |s| && edges[s[j]].stmt == t && edges[s[k]].stmt == t && edges[s[j + 1]].stmt != t
    ensures !ContiguousAt(s, edges, t)
  {
    assert !Joined(s, edges, j) && s[k] in s;
  }

  /** The next edge has another statement. */
  lemma ScanOther(s: seq<Edge>, edges: map<Edge, EdgeRec>, t: Stmt, k: nat, j: int, first: Edge?, table: seq<Edge?>)
    requires Covers(edges, s) && Scanned(s, edges, t, k, j, first, table) && k < |s| && edges[s[k]].stmt != t
    ensures Scanned(s, edges, t, k + 1, j, first, table)
  {
    AtStep(s, edges, t, k);
    assert Covers(edges, s[..k + 1]);
    assert At(s[..k], edges, t) + [] == At(s[..k], edges, t);
  }

  /** The next edge has the statement, and nothing is wrong with it. */
  lemma ScanMatch(s: seq<Edge>, edges: map<Edge, EdgeRec>, t: Stmt, k: nat, j: int, first: Edge?, table: seq<Edge?>)
    requires Covers(edges, s) && Scanned(s, edges, t, k, j, first, table) && k < |s| && edges[s[k]].stmt == t
    requires j < 0 || j + 1 == k
    requires var r := edges[s[k]]; r.speculative && r.speculativeId < MaxTargets && table[r.speculativeId] == null
    ensures Scanned(s, edges, t, k + 1, k, if first == null then s[k] else first, table[edges[s[k]].speculativeId := s[k]])
  {
    AtStep(s, edges, t, k);
    assert Covers(edges, s[..k + 1]);
    var a, x := At(s[..k], edges, t), Entry(s[k], edges[s[k]]);
    DirectsSnoc(a, x);
    assert forall id :: id in TargetIds(a + [x]) <==> id in TargetIds(a) || id == x.rec.speculativeId;
  }

  /** The next edge has the statement, and is not speculative, out of range, or a duplicate. */
  lemma ScanWrong(s: seq<Edge>, edges: map<Edge, EdgeRec>, t: Stmt, k: nat, j: int, first: Edge?, table: seq<Edge?>)
    requires Covers(edges, s) && Scanned(s, edges, t, k, j, first, table) && k < |s| && edges[s[k]].stmt == t
    requires var r := edges[s[k]]; !r.speculative || r.speculativeId >= MaxTargets || table[r.speculativeId] != null
    ensures !DirectsOK(At(s, edges, t))
  {
    AtStep(s, edges, t, k);
    DirectsSnoc(At(s[..k], edges, t), Entry(s[k], edges[s[k]]));
    AtRest(s, edges, t, k + 1);
  }

  /** The checks of the next direct edge, the k-th of the list. */
  method CheckDirect(direct: Edge, t: Stmt, first: Edge?, prev: Edge?, directCalls: array<Edge?>,
                     ghost s: seq<Edge>, ghost edges: map<Edge, EdgeRec>, ghost k: nat, ghost j: int)
    returns (ok: bool, first': Edge?, prev': Edge?, ghost j': int)
    requires Covers(edges, s) && Walkable(s, edges) && k < |s| && s[k] == direct && FieldsRep(direct, edges[direct])
    requires directCalls.Length == MaxTargets && Scanned(s, edges, t, k, j, first, directCalls[..])
    requires prev == if j < 0 then null else s[j]
    modifies directCalls
    ensures if ok then
        Scanned(s, edges, t, k + 1, j', first', directCalls[..]) && prev' == (if j' < 0 then null else s[j'])
      else !(DirectsOK(At(s, edges, t)) && ContiguousAt(s, edges, t))
  {
    first', prev', j' := first, prev, j;
    if direct.callStmt != t {
      ScanOther(s, edges, t, k, j, first, directCalls[..]);
      return true, first', prev', j';
    }
    if first == null {
      first' := direct;
    }
    if j >= 0 {
      AfterAt(s, j);
    }
    if prev != null && direct != prev.nextCallee {
      NotAdjacent(s, edges, t, j, k);
      return false, first', prev', j';
    }
    prev' := direct;
    if !direct.speculative || direct.speculativeId >= MaxTargets || directCalls[direct.speculativeId] != null {
      ScanWrong(s, edges, t, k, j, first, directCalls[..]);
      return false, first', prev', j';
    }
    ScanMatch(s, edges, t, k, j, first, directCalls[..]);
    ghost var was := directCalls[..];
    directCalls[direct.speculativeId] := direct;
    assert directCalls[..] == was[direct.speculativeId := direct];
    return true, first', prev', k;
  }

  /** The loop over the direct edges. */
  method ScanDirects(n: Node, t: Stmt, directCalls: array<Edge?>, ghost g: Graph) returns (ok: bool, first: Edge?)
    requires ListsOK(g) && n in g.nodes && Listed(n, g)
    requires directCalls.Length == MaxTargets && forall i | 0 <= i < MaxTargets :: directCalls[i] == null
    modifies directCalls
    ensures ok <==> DirectsOK(SiteIn(g, n, t).targets) && ContiguousAt(g.nodes[n].callees, g.edges, t)
    ensures ok ==>
      var a := SiteIn(g, n, t).targets;
      && first == (if a == [] then null else a[0].edge)
      && forall id: nat | id < MaxTargets :: directCalls[id] != null <==> id in TargetIds(a)
  {
    hide DirectsOK, ListsOK, NoDup, RefsAt;
    ghost var s, edges := g.nodes[n].callees, g.edges;
    ghost var k, j := 0, -1;
    var prev: Edge? := null;
    first := null;
    var direct := n.callees;
    ScanStart(s, edges, t, directCalls[..]);
    hide ListsOK, Scanned;
    while direct != null
      invariant 0 <= k <= |s| && direct == if k < |s| then s[k] else null
      invariant Scanned(s, edges, t, k, j, first, directCalls[..])
      invariant prev == if j < 0 then null else s[j]
      invariant Listed(n, g)
      decreases |s| - k
    {
      assert direct in s && FieldsRep(direct, edges[direct]);
      AfterAt(s, k);
      ok, first, prev, j := CheckDirect(direct, t, first, prev, directCalls, s, edges, k, j);
      if !ok {
        return;
      }
      direct := direct.nextCallee;
      k := k + 1;
    }
    ScanEnd(s, edges, t, j, first, directCalls[..]);
    ok := true;
  }

  lemma ScanStart(s: seq<Edge>, edges: map<Edge, EdgeRec>, t: Stmt, table: seq<Edge?>)
    requires Covers(edges, s) && |table| == MaxTargets && forall i | 0 <= i < MaxTargets :: table[i] == null
    ensures Scanned(s, edges, t, 0, -1, null, table)
  {
    assert s[..0] == [];
  }

  lemma ScanEnd(s: seq<Edge>, edges: map<Edge, EdgeRec>, t: Stmt, j: int, first: Edge?, table: seq<Edge?>)
    requires Covers(edges, s) && Scanned(s, edges, t, |s|, j, first, table)
    ensures DirectsOK(At(s, edges, t)) && ContiguousAt(s, edges, t) && |table| == MaxTargets
    ensures first == if At(s, edges, t) == [] then null else At(s, edges, t)[0].edge
    ensures forall id: nat | id < MaxTargets :: table[id] != null <==> id in TargetIds(At(s, edges, t))
  {
    assert s[..|s|] == s;
  }

  // ---------- the references ----------

  /** The ids are different and in range. */
  ghost predicate IdsFine(ids: seq<nat>) {
    NoDup(ids) && forall i | 0 <= i < |ids| :: ids[i] < MaxTargets
  }

  lemma IdsSnoc(ids: seq<nat>, id: nat)
    ensures IdsFine(ids + [id]) <==> IdsFine(ids) && id < MaxTargets && id !in ids
  {
    var b := ids + [id];
    assert b[|ids|] == id && forall i | 0 <= i < |ids| :: b[i] == ids[i];
    if IdsFine(b) {
      forall i | 0 <= i < |ids| ensures ids[i] != id && ids[i] < MaxTargets {
        assert b[i] != b[|ids|];
      }
      forall i, j | 0 <= i < j < |ids| ensures ids[i] != ids[j] {
        assert b[i] != b[j];
      }
    }
    if IdsFine(ids) && id < MaxTargets && id !in ids {
      forall i, j | 0 <= i < j < |b| ensures b[i] != b[j] {
        assert ids[i] in ids;
      }
      forall i | 0 <= i < |b| ensures b[i] < MaxTargets {
      }
    }
  }

  lemma {:induction false} IdsPrefix(a: seq<nat>, b: seq<nat>)
    requires IdsFine(a + b)
    ensures IdsFine(a)
  {
    if b == [] {
      assert a + b == a;
    } else {
      var k := |b| - 1;
      assert a + b == (a + b[..k]) + [b[k]];
      IdsSnoc(a + b[..k], b[k]);
      IdsPrefix(a, b[..k]);
    }
  }

  ghost function IdsOf(refs: seq<Ref>, t: Stmt): seq<nat> {
    RefIds(RefsAt(refs, t))
  }

  lemma IdsOfConcat(a: seq<Ref>, b: seq<Ref>, t: Stmt)
    ensures IdsOf(a + b, t) == IdsOf(a, t) + IdsOf(b, t)
  {
    RefsAtConcat(a, b, t);
  }

  lemma IdsOfStep(refs: seq<Ref>, t: Stmt, k: nat)
    requires k < |refs|
    ensures IdsOf(refs[..k + 1], t)
      == IdsOf(refs[..k], t) + if refs[k].speculative && refs[k].stmt == t then [refs[k].speculativeId] else []
  {
    assert refs[..k + 1] == refs[..k] + [refs[k]];
    IdsOfConcat(refs[..k], [refs[k]], t);
    assert [refs[k]][1..] == [];
    assert RefsAt([refs[k]], t) == if refs[k].speculative && refs[k].stmt == t then [refs[k]] else [];
    assert RefIds([refs[k]]) == [refs[k].speculativeId] && RefIds([]) == [];
  }

  lemma IdsOfRest(refs: seq<Ref>, t: Stmt, k: nat)
    requires k <= |refs| && IdsFine(IdsOf(refs, t))
    ensures IdsFine(IdsOf(refs[..k], t))
  {
    assert refs == refs[..k] + refs[k..];
    IdsOfConcat(refs[..k], refs[k..], t);
    IdsPrefix(IdsOf(refs[..k], t), IdsOf(refs[k..], t));
  }

  /** The loop over the references. */
  method ScanRefs(n: Node, t: Stmt, refs: array<Option<Ref>>) returns (ok: bool)
    requires refs.Length == MaxTargets && forall i | 0 <= i < MaxTargets :: refs[i] == None
    modifies refs
    ensures ok <==> IdsFine(IdsOf(n.references, t))
    ensures ok ==> forall id: nat | id < MaxTargets :: refs[id].Some? <==> id in IdsOf(n.references, t)
  {
    ghost var rs := n.references;
    var i := 0;
    assert rs[..0] == [];
    while i < |n.references|
      invariant i <= |rs| && IdsFine(IdsOf(rs[..i], t))
      invariant forall id: nat | id < MaxTargets :: refs[id].Some? <==> id in IdsOf(rs[..i], t)
    {
      var r := n.references[i];
      IdsOfStep(rs, t, i);
      if r.speculative && r.stmt == t {
        IdsSnoc(IdsOf(rs[..i], t), r.speculativeId);
        if r.speculativeId >= MaxTargets || refs[r.speculativeId].Some? {
          if IdsFine(IdsOf(rs, t)) {
            IdsOfRest(rs, t, i + 1);
          }
          return false;
        }
        refs[r.speculativeId] := Some(r);
      } else {
        assert IdsOf(rs[..i], t) + [] == IdsOf(rs[..i], t);
      }
      i := i + 1;
    }
    assert rs[..i] == rs;
    ok := true;
  }

  // ---------- both together ----------

  ghost function Below(ids: seq<nat>, n: nat): set<nat> {
    set id | id in ids && id < n
  }

  /** The loop over the ids: every one is that of an edge and of a reference, or of neither. */
  method CompareTables(directCalls: array<Edge?>, refs: array<Option<Ref>>, ghost targetIds: seq<nat>, ghost refIds: seq<nat>)
    returns (ok: bool, numTargets: int)
    requires directCalls.Length == refs.Length == MaxTargets
    requires forall id: nat | id < MaxTargets :: directCalls[id] != null <==> id in targetIds
    requires forall id: nat | id < MaxTargets :: refs[id].Some? <==> id in refIds
    ensures ok <==> forall id: nat | id < MaxTargets :: id in targetIds <==> id in refIds
    ensures ok ==> numTargets == |Below(refIds, MaxTargets)|
  {
    numTargets := 0;
    var i: nat := 0;
    assert Below(refIds, 0) == {};
    while i < MaxTargets
      invariant i <= MaxTargets && numTargets == |Below(refIds, i)|
      invariant forall id: nat | id < i :: id in targetIds <==> id in refIds
    {
      if (refs[i].Some? && directCalls[i] == null) || (refs[i].None? && directCalls[i] != null) {
        return false, numTargets;
      }
      if refs[i].Some? {
        numTargets := numTargets + 1;
        assert Below(refIds, i + 1) == Below(refIds, i) + {i};
      } else {
        assert Below(refIds, i + 1) == Below(refIds, i);
      }
      i := i + 1;
    }
    ok := true;
  }

  lemma {:induction false} BelowAll(ids: seq<nat>)
    requires IdsFine(ids)
    ensures |Below(ids, MaxTargets)| == |ids|
  {
    if ids == [] {
      assert Below(ids, MaxTargets) == {};
    } else {
      var k := |ids| - 1;
      assert ids == ids[..k] + [ids[k]];
      IdsSnoc(ids[..k], ids[k]);
      BelowAll(ids[..k]);
      assert Below(ids, MaxTargets) == Below(ids[..k], MaxTargets) + {ids[k]};
    }
  }

  lemma {:induction false} SameMembers(a: seq<nat>, b: seq<nat>)
    requires NoDup(a) && NoDup(b)
    ensures multiset(a) == multiset(b) <==> forall id :: id in a <==> id in b
  {
    if forall id :: id in a <==> id in b {
      forall id ensures multiset(a)[id] == multiset(b)[id] {
        OnceOnly(a, id);
        OnceOnly(b, id);
      }
    } else {
      var id :| !(id in a <==> id in b);
      assert id in multiset(a) <==> id in a;
      assert id in multiset(b) <==> id in b;
    }
  }

  lemma {:induction false} OnceOnly(s: seq<nat>, id: nat)
    requires NoDup(s)
    ensures multiset(s)[id] == if id in s then 1 else 0
  {
    if s != [] {
      assert s == [s[0]] + s[1..];
      OnceOnly(s[1..], id);
    }
  }

  // ---------- the routine ----------

  /** The table, if there is one, has the first direct edge of the statement. */
  ghost predicate TableRight(h: Option<Table>, v: Site, t: Stmt) {
    h.Some? && v.targets != [] ==> t in h.value && h.value[t] == v.targets[0].edge
  }

  /** What the routine checks of a speculative indirect edge with the given number of targets. */
  ghost predicate Accepted(g: Graph, n: Node, t: Stmt, numTargets: nat, h: Option<Table>)
    requires ListsOK(g) && n in g.nodes
  {
    var v := SiteIn(g, n, t);
    && v.targets != [] && DirectsOK(v.targets) && ContiguousAt(g.nodes[n].callees, g.edges, t) && TableRight(h, v, t)
    && IdsFine(RefIds(v.refs)) && (forall id :: id in TargetIds(v.targets) <==> id in RefIds(v.refs))
    && |v.refs| == numTargets
  }

  /** What it checks for the other components of a speculative call. */
  ghost predicate HasSpeculativeIndirect(v: Site) {
    v.indirects != [] && v.indirects[0].rec.speculative
  }

  /** get_edge, but for the table that it may build on the way. */
  method Peek(n: Node, t: Stmt, ghost g: Graph) returns (e: Edge?)
    requires ListsOK(g) && n in g.nodes && Listed(n, g)
    ensures var v := SiteIn(g, n, t);
      e == if n.callSiteHash.Some? then (if t in n.callSiteHash.value then n.callSiteHash.value[t] else null)
           else Representative(v)
  {
    if n.callSiteHash.Some? {
      return if t in n.callSiteHash.value then n.callSiteHash.value[t] else null;
    }
    FirstEntry(g.nodes[n].callees, g.edges, t);
    FirstEntry(g.nodes[n].indirects, g.edges, t);
    var passed;
    e, passed := FindOnList(n.callees, t, g.nodes[n].callees, g.edges);
    if e == null {
      e, passed := FindOnList(n.indirectCalls, t, g.nodes[n].indirects, g.edges);
    }
  }

  /** verify_speculative_call. */
  method VerifySpeculativeCall(n: Node, t: Stmt, indirect: Edge?, ghost g: Graph) returns (verdict: Verdict)
    requires ListsOK(g) && n in g.nodes && Listed(n, g) && n.references == g.nodes[n].refs
    requires indirect != null ==> indirect in g.nodes[n].indirects
    ensures indirect == null ==> verdict == if HasSpeculativeIndirect(SiteIn(g, n, t)) then Fine else ErrorFound
    ensures indirect != null ==>
      verdict == if Accepted(g, n, t, g.edges[indirect].NumTargets(), n.callSiteHash) then Fine
                 else if DirectsOK(SiteIn(g, n, t).targets) && SiteIn(g, n, t).targets == [] then NullDereference
                 else ErrorFound
  {
    ghost var v := SiteIn(g, n, t);
    if indirect == null {
      FirstEntry(g.nodes[n].indirects, g.edges, t);
      var e, passed := FindOnList(n.indirectCalls, t, g.nodes[n].indirects, g.edges);
      assert e != null ==> FieldsRep(e, g.edges[e]);
      return if e == null || !e.speculative then ErrorFound else Fine;
    }
    verdict := VerifyTargets(n, t, indirect, g);
  }

  /** The full check. */
  method VerifyTargets(n: Node, t: Stmt, indirect: Edge, ghost g: Graph) returns (verdict: Verdict)
    requires ListsOK(g) && n in g.nodes && Listed(n, g) && n.references == g.nodes[n].refs
    requires indirect in g.nodes[n].indirects
    ensures verdict == if Accepted(g, n, t, g.edges[indirect].NumTargets(), n.callSiteHash) then Fine
                       else if SiteIn(g, n, t).targets == [] then NullDereference
                       else ErrorFound
  {
    hide ListsOK, DirectsOK, IdsFine, ContiguousAt, Listed, NoDup;
    ghost var v := SiteIn(g, n, t);
    if v.targets == [] {
      NothingWrong(g, n, t);
    }
    var directCalls := new Edge?[MaxTargets](i => null);
    var refs := new Option<Ref>[MaxTargets](i => None);
    var ok, first := ScanDirects(n, t, directCalls, g);
    if !ok {
      return ErrorFound;
    }
    if first == null {
      return NullDereference;
    }
    StmtOfFirst(g, n, t);
    var found := Peek(n, first.callStmt, g);
    if found != first {
      return ErrorFound;
    }
    ok := ScanRefs(n, t, refs);
    if !ok {
      return ErrorFound;
    }
    var numTargets;
    ok, numTargets := CompareTables(directCalls, refs, TargetIds(v.targets), RefIds(v.refs));
    InRange(v);
    if !ok {
      return ErrorFound;
    }
    BelowAll(RefIds(v.refs));
    InfoOf(g, n, indirect);
    return if numTargets == indirect.NumSpeculativeCallTargets() then Fine else ErrorFound;
  }

  lemma NothingWrong(g: Graph, n: Node, t: Stmt)
    requires ListsOK(g) && n in g.nodes && SiteIn(g, n, t).targets == []
    ensures DirectsOK(SiteIn(g, n, t).targets) && ContiguousAt(g.nodes[n].callees, g.edges, t)
  {
    AtEntries(g.nodes[n].callees, g.edges, t);
  }

  lemma StmtOfFirst(g: Graph, n: Node, t: Stmt)
    requires ListsOK(g) && n in g.nodes && Listed(n, g) && SiteIn(g, n, t).targets != []
    ensures SiteIn(g, n, t).targets[0].edge.callStmt == t
  {
    AtEntries(g.nodes[n].callees, g.edges, t);
    var v := SiteIn(g, n, t);
    assert v.targets[0] in v.targets;
  }

  lemma InRange(v: Site)
    requires DirectsOK(v.targets) && IdsFine(RefIds(v.refs))
    ensures (forall id: nat | id < MaxTargets :: id in TargetIds(v.targets) <==> id in RefIds(v.refs))
      <==> forall id :: id in TargetIds(v.targets) <==> id in RefIds(v.refs)
  {
    forall id | id in TargetIds(v.targets) ensures id < MaxTargets {
      var i :| 0 <= i < |v.targets| && TargetIds(v.targets)[i] == id;
      assert v.targets[i] in v.targets;
    }
  }

  lemma InfoOf(g: Graph, n: Node, x: Edge)
    requires ListsOK(g) && n in g.nodes && Listed(n, g) && x in g.nodes[n].indirects
    ensures x in g.edges && x.NumSpeculativeCallTargets() == g.edges[x].NumTargets()
  {
    assert FieldsRep(x, g.edges[x]);
  }

  // ---------- what it comes to ----------

  /** For the only indirect edge of a statement, which is speculative, the routine accepts exactly the
      well-formed speculative calls whose direct edges are adjacent and whose slot is right. */
  lemma AcceptedIsSpeculative(g: Graph, n: Node, t: Stmt, x: Entry, h: Option<Table>)
    requires ListsOK(g) && n in g.nodes && SiteIn(g, n, t).indirects == [x] && x.rec.speculative && x.rec.info.Some?
    ensures Accepted(g, n, t, x.rec.NumTargets(), h) <==>
      SpeculativeSite(SiteIn(g, n, t)) && ContiguousAt(g.nodes[n].callees, g.edges, t) && TableRight(h, SiteIn(g, n, t), t)
  {
    var v := SiteIn(g, n, t);
    var a, b := TargetIds(v.targets), RefIds(v.refs);
    hide ListsOK, ContiguousAt, SiteIn;
    if Accepted(g, n, t, x.rec.NumTargets(), h) {
      SameMembers(a, b);
      assert |multiset(a)| == |a| && |multiset(b)| == |b|;
    }
    if SpeculativeSite(v) {
      PairedIds(v);
      SameMembers(a, b);
    }
  }

  lemma PairedIds(v: Site)
    requires SpeculativeSite(v)
    ensures DirectsOK(v.targets) && IdsFine(RefIds(v.refs)) && |v.refs| == |v.targets|
  {
    var a, b := TargetIds(v.targets), RefIds(v.refs);
    assert |multiset(a)| == |a| && |multiset(b)| == |b|;
    forall i, j | 0 <= i < j < |b| ensures b[i] != b[j] {
      if b[i] == b[j] {
        TwiceCounts(b, i, j);
        OnceOnly(a, b[i]);
      }
    }
    forall i | 0 <= i < |b| ensures b[i] < MaxTargets {
      assert b[i] in multiset(b) && b[i] in multiset(a);
      var k :| 0 <= k < |a| && a[k] == b[i];
      assert v.targets[k] in v.targets;
    }
  }

  lemma TwiceCounts(s: seq<nat>, i: nat, j: nat)
    requires i < j < |s| && s[i] == s[j]
    ensures multiset(s)[s[i]] >= 2
  {
    assert s == s[..i] + [s[i]] + s[i + 1..j] + [s[j]] + s[j + 1..];
  }

  /** No component of the statement is speculative. */
  ghost predicate NoSpeculation(v: Site) {
    (forall x | x in v.targets + v.indirects :: !x.rec.speculative) && v.refs == []
  }

  /** The verifier of nodes calls the routine for every speculative edge and reference; it is content
      with this statement. */
  ghost predicate Content(g: Graph, n: Node, t: Stmt, h: Option<Table>)
    requires ListsOK(g) && n in g.nodes
  {
    var v := SiteIn(g, n, t);
    && (forall x | x in v.indirects && x.rec.speculative :: Accepted(g, n, t, x.rec.NumTargets(), h))
    && ((exists x | x in v.targets :: x.rec.speculative) || v.refs != [] ==> HasSpeculativeIndirect(v))
  }

  /** With at most one indirect edge for the statement, it is content exactly if nothing there is
      speculative or the call is a well-formed speculative one. */
  lemma ContentIff(g: Graph, n: Node, t: Stmt, h: Option<Table>)
    requires ListsOK(g) && n in g.nodes && |SiteIn(g, n, t).indirects| <= 1
    requires forall x | x in SiteIn(g, n, t).indirects :: x.rec.info.Some?
    ensures Content(g, n, t, h) <==>
      NoSpeculation(SiteIn(g, n, t))
      || (SpeculativeSite(SiteIn(g, n, t)) && ContiguousAt(g.nodes[n].callees, g.edges, t) && TableRight(h, SiteIn(g, n, t), t))
  {
    hide SiteIn;
    var v := SiteIn(g, n, t);
    hide ListsOK, ContiguousAt, SiteIn, Accepted, TableRight;
    if v.indirects != [] {
      var x := v.indirects[0];
      assert x in v.indirects && v.indirects == [x];
      if x.rec.speculative {
        AcceptedIsSpeculative(g, n, t, x, h);
      } else {
        assert x in v.targets + v.indirects;
      }
    }
  }

  /** So it is content with every statement of a well-formed graph whose tables are right. */
  lemma WellFormedIsVerified(g: Graph, n: Node, t: Stmt, h: Option<Table>)
    requires WellFormed(g) && n in g.nodes && HashOK(h, g, n)
    ensures Content(g, n, t, h)
  {
    hide Complete, SiteIn;
    var v := SiteIn(g, n, t);
    assert SiteOK(v) && Adjacent(g, n);
    ContiguousEverywhere(g.nodes[n].callees, g.edges);
    assert h.Some? ==> SlotOK(h.value, v, t);
    if SpeculativeSite(v) {
      assert v.indirects == [v.indirects[0]];
      AcceptedIsSpeculative(g, n, t, v.indirects[0], h);
    } else {
      assert forall x | x in v.targets :: x in v.targets + v.indirects;
      assert forall x | x in v.indirects :: x in v.targets + v.indirects;
    }
  }
}
