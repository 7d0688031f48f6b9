/** The call graph as a value, seen call site by call site.

    A graph value records, for every node, the order of its edge lists and, for every edge, the
    contents of its fields.  A `Site` is what one caller holds for one call statement: the direct
    edges in list order, the indirect edges, and the speculative references. */
module CallSites {
  import opened Common
  import opened CallGraphTypes

  datatype EdgeRec = EdgeRec(callee: Node?, stmt: Stmt, speculative: bool, indirect: bool,
                             speculativeId: nat, count: int, info: Option<nat>)
  {
    function NumTargets(): nat {
      if info.Some? then info.value else 0
    }
  }

  datatype NodeRec = NodeRec(callees: seq<Edge>, indirects: seq<Edge>, callers: seq<Edge>, refs: seq<Ref>)

  datatype Graph = Graph(nodes: map<Node, NodeRec>, edges: map<Edge, EdgeRec>)

  /** An edge together with the contents of its fields. */
  datatype Entry = Entry(edge: Edge, rec: EdgeRec)

  datatype Site = Site(targets: seq<Entry>, indirects: seq<Entry>, refs: seq<Ref>)

  // ---------- lists ----------

  /** The list without the edge e. */
  function Unlink(s: seq<Edge>, e: Edge): (r: seq<Edge>)
    ensures forall x | x in r :: x in s
    ensures forall x | x in s && x != e :: x in r
    ensures e !in s ==> r == s
    ensures |r| <= |s|
  {
    if s == [] then [] else if s[0] == e then s[1..] else [s[0]] + Unlink(s[1..], e)
  }

  lemma UnlinkIsSlice(s: seq<Edge>, k: nat)
    requires k < |s| && NoDup(s)
    ensures Unlink(s, s[k]) == s[..k] + s[k + 1..]
    ensures NoDup(Unlink(s, s[k])) && s[k] !in Unlink(s, s[k])
  {
    UnlinkSlices(s, k);
    LeftOut(s, k);
  }

  lemma {:induction false} UnlinkSlices(s: seq<Edge>, k: nat)
    requires k < |s| && NoDup(s)
    ensures Unlink(s, s[k]) == s[..k] + s[k + 1..]
  {
    if k > 0 {
      var u := s[1..];
      assert u[k - 1] == s[k] && s[0] != s[k];
      UnlinkSlices(u, k - 1);
      assert s[..k] + s[k + 1..] == [s[0]] + (u[..k - 1] + u[k..]);
    }
  }

  lemma LeftOut(s: seq<Edge>, k: nat)
    requires k < |s| && NoDup(s)
    ensures NoDup(s[..k] + s[k + 1..]) && s[k] !in s[..k] + s[k + 1..]
  {
    var r := s[..k] + s[k + 1..];
    assert forall i | 0 <= i < |r| :: r[i] == s[if i < k then i else i + 1];
  }

  lemma UnlinkNoDup(s: seq<Edge>, e: Edge)
    requires NoDup(s)
    ensures NoDup(Unlink(s, e)) && e !in Unlink(s, e)
  {
    if e in s {
      var k :| 0 <= k < |s| && s[k] == e;
      UnlinkIsSlice(s, k);
    }
  }

  // ---------- the entries of one statement ----------

  ghost predicate Covers(edges: map<Edge, EdgeRec>, s: seq<Edge>) {
    forall e | e in s :: e in edges
  }

  /** The edges of list s whose statement is t, in list order, with their fields. */
  ghost function At(s: seq<Edge>, edges: map<Edge, EdgeRec>, t: Stmt): seq<Entry>
    requires Covers(edges, s)
  {
    if s == [] then []
    else if edges[s[0]].stmt == t then [Entry(s[0], edges[s[0]])] + At(s[1..], edges, t)
    else At(s[1..], edges, t)
  }

  lemma {:induction false} AtEntries(s: seq<Edge>, edges: map<Edge, EdgeRec>, t: Stmt)
    requires Covers(edges, s)
    ensures forall x | x in At(s, edges, t) :: x.edge in s && x.rec == edges[x.edge] && x.rec.stmt == t
    ensures forall e | e in s && edges[e].stmt == t :: Entry(e, edges[e]) in At(s, edges, t)
  {
    if s != [] {
      AtEntries(s[1..], edges, t);
    }
  }

  /** The list of entries without the one for edge e. */
  ghost function Minus(s: seq<Entry>, e: Edge): seq<Entry> {
    if s == [] then [] else if s[0].edge == e then s[1..] else [s[0]] + Minus(s[1..], e)
  }

  ghost predicate Lacks(s: seq<Entry>, e: Edge) {
    forall x | x in s :: x.edge != e
  }

  lemma AtLacks(s: seq<Edge>, edges: map<Edge, EdgeRec>, t: Stmt, e: Edge)
    requires Covers(edges, s)
    requires e in s ==> edges[e].stmt != t
    ensures Lacks(At(s, edges, t), e)
  {
    AtEntries(s, edges, t);
  }

  lemma {:induction false} MinusAbsent(s: seq<Entry>, e: Edge)
    requires Lacks(s, e)
    ensures Minus(s, e) == s
  {
    if s != [] {
      MinusAbsent(s[1..], e);
    }
  }

  lemma {:induction false} MinusIsSlice(s: seq<Entry>, k: nat)
    requires k < |s|
    requires forall i | 0 <= i < k :: s[i].edge != s[k].edge
    ensures Minus(s, s[k].edge) == s[..k] + s[k + 1..]
  {
    if k > 0 {
      assert s[0].edge != s[k].edge;
      assert s[1..][k - 1] == s[k];
      MinusIsSlice(s[1..], k - 1);
      assert s[..k] + s[k + 1..] == [s[0]] + (s[1..][..k - 1] + s[1..][k..]);
    }
  }

  lemma {:induction false} AtUnlink(s: seq<Edge>, edges: map<Edge, EdgeRec>, e: Edge, t: Stmt)
    requires Covers(edges, s) && NoDup(s)
    ensures At(Unlink(s, e), edges, t) == Minus(At(s, edges, t), e)
  {
    if s != [] {
      if s[0] == e {
        assert e !in s[1..];
        if edges[e].stmt != t {
          AtLacks(s[1..], edges, t, e);
          MinusAbsent(At(s[1..], edges, t), e);
          assert At(s, edges, t) == At(s[1..], edges, t);
        } else {
          var a := At(s, edges, t);
          assert a[0] == Entry(e, edges[e]) && a[1..] == At(s[1..], edges, t);
        }
      } else {
        AtUnlink(s[1..], edges, e, t);
        var u := [s[0]] + Unlink(s[1..], e);
        assert u[1..] == Unlink(s[1..], e);
        if edges[s[0]].stmt == t {
          var a := At(s, edges, t);
          assert a[0] == Entry(s[0], edges[s[0]]) && a[1..] == At(s[1..], edges, t);
        } else {
          assert At(s, edges, t) == At(s[1..], edges, t);
          assert At(u, edges, t) == At(u[1..], edges, t);
        }
      }
    }
  }

  /** Only the entries of the listed edges matter. */
  lemma {:induction false} AtFrame(s: seq<Edge>, edges: map<Edge, EdgeRec>, edges': map<Edge, EdgeRec>, t: Stmt)
    requires Covers(edges, s) && Covers(edges', s)
    requires forall e | e in s :: (edges[e].stmt == t || edges'[e].stmt == t) ==> edges[e] == edges'[e]
    ensures At(s, edges, t) == At(s, edges', t)
  {
    if s != [] {
      AtFrame(s[1..], edges, edges', t);
    }
  }

  lemma {:induction false} AtConcat(a: seq<Edge>, b: seq<Edge>, edges: map<Edge, EdgeRec>, t: Stmt)
    requires Covers(edges, a + b)
    ensures Covers(edges, a) && Covers(edges, b)
    ensures At(a + b, edges, t) == At(a, edges, t) + At(b, edges, t)
  {
    assert forall e :: (e in a || e in b) ==> e in a + b;
    if a == [] {
      assert a + b == b;
    } else {
      assert (a + b)[1..] == a[1..] + b;
      AtConcat(a[1..], b, edges, t);
    }
  }

  lemma {:induction false} AtNoDup(s: seq<Edge>, edges: map<Edge, EdgeRec>, t: Stmt)
    requires Covers(edges, s) && NoDup(s)
    ensures forall i, j | 0 <= i < j < |At(s, edges, t)| :: At(s, edges, t)[i].edge != At(s, edges, t)[j].edge
  {
    if s != [] {
      AtNoDup(s[1..], edges, t);
      AtLacks(s[1..], edges, t, s[0]);
      var a, b := At(s, edges, t), At(s[1..], edges, t);
      if edges[s[0]].stmt == t {
        assert a == [Entry(s[0], edges[s[0]])] + b;
        forall i, j | 0 <= i < j < |a| ensures a[i].edge != a[j].edge {
          if i == 0 {
            assert a[j] == b[j - 1] && b[j - 1] in b;
          } else {
            assert a[i] == b[i - 1] && a[j] == b[j - 1];
          }
        }
      } else {
        assert a == b;
      }
    }
  }

  /** Changing the fields of one listed edge changes its own entry only. */
  ghost function Put(s: seq<Entry>, e: Edge, rec: EdgeRec): (r: seq<Entry>)
    ensures |r| == |s|
    ensures forall i | 0 <= i < |s| :: r[i] == if s[i].edge == e then Entry(e, rec) else s[i]
  {
    seq(|s|, i requires 0 <= i < |s| => if s[i].edge == e then Entry(e, rec) else s[i])
  }

  lemma {:induction false} AtPut(s: seq<Edge>, edges: map<Edge, EdgeRec>, e: Edge, rec: EdgeRec, t: Stmt)
    requires Covers(edges, s) && e in edges && rec.stmt == edges[e].stmt
    ensures At(s, edges[e := rec], t) == Put(At(s, edges, t), e, rec)
  {
    if s != [] {
      AtPut(s[1..], edges, e, rec, t);
    }
  }

  // ---------- references ----------

  predicate Pairs(r: Ref, t: Stmt, id: nat) {
    r.speculative && r.stmt == t && r.speculativeId == id
  }

  ghost function RefsAt(refs: seq<Ref>, t: Stmt): seq<Ref> {
    if refs == [] then []
    else if refs[0].speculative && refs[0].stmt == t then [refs[0]] + RefsAt(refs[1..], t)
    else RefsAt(refs[1..], t)
  }

  lemma {:induction false} RefsAtEntries(refs: seq<Ref>, t: Stmt)
    ensures forall x | x in RefsAt(refs, t) :: x in refs && x.speculative && x.stmt == t
    ensures forall x | x in refs && x.speculative && x.stmt == t :: x in RefsAt(refs, t)
  {
    if refs != [] {
      RefsAtEntries(refs[1..], t);
    }
  }

  /** The references without the first one that pairs with statement t and the given id. */
  function DropRef(refs: seq<Ref>, t: Stmt, id: nat): seq<Ref> {
    if refs == [] then []
    else if Pairs(refs[0], t, id) then refs[1..]
    else [refs[0]] + DropRef(refs[1..], t, id)
  }

  lemma {:induction false} DropRefIsSlice(refs: seq<Ref>, k: nat, t: Stmt, id: nat)
    requires k < |refs| && Pairs(refs[k], t, id)
    requires forall i | 0 <= i < k :: !Pairs(refs[i], t, id)
    ensures DropRef(refs, t, id) == refs[..k] + refs[k + 1..]
  {
    if k > 0 {
      assert !Pairs(refs[0], t, id);
      assert refs[1..][k - 1] == refs[k];
      DropRefIsSlice(refs[1..], k - 1, t, id);
      assert refs[..k] + refs[k + 1..] == [refs[0]] + (refs[1..][..k - 1] + refs[1..][k..]);
    }
  }

  lemma AtHeadRef(refs: seq<Ref>, t: Stmt)
    requires refs != []
    ensures RefsAt(refs, t)
         == if refs[0].speculative && refs[0].stmt == t then [refs[0]] + RefsAt(refs[1..], t) else RefsAt(refs[1..], t)
  {
  }

  lemma {:induction false} RefsAtDrop(refs: seq<Ref>, t: Stmt, id: nat, t': Stmt)
    ensures RefsAt(DropRef(refs, t, id), t') == DropRef(RefsAt(refs, t'), t, id)
  {
    if refs != [] {
      RefsAtDrop(refs[1..], t, id, t');
      if Pairs(refs[0], t, id) {
        if t != t' {
          RefsAtEntries(refs[1..], t');
          DropRefAbsent(RefsAt(refs[1..], t'), t, id);
          AtHeadRef(refs, t');
        } else {
          var a := RefsAt(refs, t');
          assert a[0] == refs[0] && a[1..] == RefsAt(refs[1..], t');
        }
      } else {
        var u := [refs[0]] + DropRef(refs[1..], t, id);
        assert u[1..] == DropRef(refs[1..], t, id);
        if refs[0].speculative && refs[0].stmt == t' {
          var a := RefsAt(refs, t');
          assert a[0] == refs[0] && a[1..] == RefsAt(refs[1..], t');
        } else {
          assert RefsAt(refs, t') == RefsAt(refs[1..], t');
          assert RefsAt(u, t') == RefsAt(u[1..], t');
        }
      }
    }
  }

  lemma {:induction false} DropRefAbsent(refs: seq<Ref>, t: Stmt, id: nat)
    requires forall x | x in refs :: !Pairs(x, t, id)
    ensures DropRef(refs, t, id) == refs
  {
    if refs != [] {
      DropRefAbsent(refs[1..], t, id);
    }
  }

  lemma {:induction false} RefsAtConcat(a: seq<Ref>, b: seq<Ref>, t: Stmt)
    ensures RefsAt(a + b, t) == RefsAt(a, t) + RefsAt(b, t)
  {
    if a == [] {
      assert a + b == b;
    } else {
      assert (a + b)[1..] == a[1..] + b;
      RefsAtConcat(a[1..], b, t);
    }
  }

  // ---------- what makes a call site well formed ----------

  ghost function TargetIds(s: seq<Entry>): (r: seq<nat>)
    ensures |r| == |s| && forall i | 0 <= i < |s| :: r[i] == s[i].rec.speculativeId
  {
    seq(|s|, i requires 0 <= i < |s| => s[i].rec.speculativeId)
  }

  ghost function RefIds(s: seq<Ref>): (r: seq<nat>)
    ensures |r| == |s| && forall i | 0 <= i < |s| :: r[i] == s[i].speculativeId
  {
    seq(|s|, i requires 0 <= i < |s| => s[i].speculativeId)
  }

  /** Speculative ids are below this bound. */
  const MaxTargets := 256

  /** The call is represented by at least one direct edge, exactly one indirect edge, and one
      reference for each direct edge, matched by unique ids; the indirect edge knows how many. */
  ghost predicate SpeculativeSite(v: Site) {
    && |v.targets| > 0 && |v.indirects| == 1
    && v.indirects[0].rec.speculative
    && v.indirects[0].rec.info == Some(|v.targets|)
    && (forall x | x in v.targets :: x.rec.speculative && x.rec.speculativeId < MaxTargets)
    && NoDup(TargetIds(v.targets))
    && multiset(TargetIds(v.targets)) == multiset(RefIds(v.refs))
  }

  /** The call is one direct edge or one indirect edge and involves no speculation. */
  ghost predicate PlainSite(v: Site) {
    && |v.targets| + |v.indirects| <= 1
    && (forall x | x in v.targets + v.indirects :: !x.rec.speculative)
    && (forall x | x in v.indirects :: x.rec.info == Some(0))
    && v.refs == []
  }

  ghost predicate SiteOK(v: Site) {
    PlainSite(v) || SpeculativeSite(v)
  }

  ghost predicate EmptySite(v: Site) {
    v.targets == [] && v.indirects == [] && v.refs == []
  }

  ghost predicate Joined(s: seq<Edge>, edges: map<Edge, EdgeRec>, i: nat)
    requires Covers(edges, s) && i + 1 < |s|
  {
    edges[s[i + 1]].stmt == edges[s[i]].stmt
  }

  /** Edges of one statement form an interval of the list: while there is a later edge with the
      statement of edge i, the edge after i has that statement too. */
  ghost predicate Contiguous(s: seq<Edge>, edges: map<Edge, EdgeRec>)
    requires Covers(edges, s)
  {
    forall i, k {:trigger Joined(s, edges, i), s[k]} |
      0 <= i < k < |s| && edges[s[i]].stmt == edges[s[k]].stmt :: Joined(s, edges, i)
  }

  ghost function SiteOf(r: NodeRec, edges: map<Edge, EdgeRec>, t: Stmt): Site
    requires Covers(edges, r.callees) && Covers(edges, r.indirects)
  {
    Site(At(r.callees, edges, t), At(r.indirects, edges, t), RefsAt(r.refs, t))
  }

  /** The edge that stands for the statement: the first direct edge, else the indirect one. */
  ghost function Representative(v: Site): Edge? {
    if v.targets != [] then v.targets[0].edge
    else if v.indirects != [] then v.indirects[0].edge
    else null
  }

  /** Marked as speculative although no target has been added yet: this happens only inside
      `MakeSpeculative`, between its first assignment and the creation of the direct edge. */
  ghost predicate HalfSpeculative(v: Site) {
    && v.targets == [] && |v.indirects| == 1 && v.indirects[0].rec.speculative
  }

  // ---------- an interval of the list is the site's targets ----------

  ghost function First(s: seq<Edge>, edges: map<Edge, EdgeRec>, t: Stmt): (r: nat)
    requires Covers(edges, s)
    ensures r <= |s|
    ensures forall i | 0 <= i < r :: edges[s[i]].stmt != t
    ensures r < |s| ==> edges[s[r]].stmt == t
  {
    if s == [] then 0 else if edges[s[0]].stmt == t then 0 else 1 + First(s[1..], edges, t)
  }

  lemma ContiguousTail(s: seq<Edge>, edges: map<Edge, EdgeRec>)
    requires s != [] && Covers(edges, s) && Contiguous(s, edges)
    ensures Covers(edges, s[1..]) && Contiguous(s[1..], edges)
  {
    var rest := s[1..];
    forall i, k | 0 <= i < k < |rest| && edges[rest[i]].stmt == edges[rest[k]].stmt
      ensures Joined(rest, edges, i)
    {
      assert s[i + 1] == rest[i] && s[i + 2] == rest[i + 1] && s[k + 1] == rest[k];
      assert Joined(s, edges, i + 1);
    }
  }

  /** Entry i of the statement sits at position k + i, and every edge elsewhere has another statement. */
  ghost predicate Interval(s: seq<Edge>, edges: map<Edge, EdgeRec>, t: Stmt, k: nat, a: seq<Entry>)
    requires Covers(edges, s)
  {
    && k + |a| <= |s|
    && (forall i | k <= i < k + |a| :: a[i - k] == Entry(s[i], edges[s[i]]))
    && (forall i | 0 <= i < |s| && edges[s[i]].stmt == t :: k <= i < k + |a|)
  }

  lemma IntervalShift(s: seq<Edge>, edges: map<Edge, EdgeRec>, t: Stmt, k: nat, a: seq<Entry>)
    requires s != [] && Covers(edges, s) && edges[s[0]].stmt != t
    requires Covers(edges, s[1..]) && Interval(s[1..], edges, t, k, a)
    ensures Interval(s, edges, t, k + 1, a)
  {
    forall i | k + 1 <= i < k + 1 + |a| ensures a[i - (k + 1)] == Entry(s[i], edges[s[i]]) {
      assert s[1..][i - 1] == s[i];
      assert a[(i - 1) - k] == Entry(s[1..][i - 1], edges[s[1..][i - 1]]);
    }
    forall i | 0 <= i < |s| && edges[s[i]].stmt == t ensures k + 1 <= i < k + 1 + |a| {
      assert s[1..][i - 1] == s[i];
    }
  }

  lemma IntervalGrow(s: seq<Edge>, edges: map<Edge, EdgeRec>, t: Stmt, a: seq<Entry>)
    requires s != [] && Covers(edges, s) && edges[s[0]].stmt == t
    requires Covers(edges, s[1..]) && Interval(s[1..], edges, t, 0, a)
    ensures Interval(s, edges, t, 0, [Entry(s[0], edges[s[0]])] + a)
  {
    var b := [Entry(s[0], edges[s[0]])] + a;
    forall i | 0 <= i < |b| ensures b[i] == Entry(s[i], edges[s[i]]) {
      if i > 0 {
        assert s[1..][i - 1] == s[i] && b[i] == a[(i - 1) - 0];
      }
    }
    forall i | 0 <= i < |s| && edges[s[i]].stmt == t ensures 0 <= i < |b| {
      if i > 0 {
        assert s[1..][i - 1] == s[i];
      }
    }
  }

  lemma AtHead(s: seq<Edge>, edges: map<Edge, EdgeRec>, t: Stmt)
    requires s != [] && Covers(edges, s)
    ensures At(s, edges, t)
         == if edges[s[0]].stmt == t then [Entry(s[0], edges[s[0]])] + At(s[1..], edges, t) else At(s[1..], edges, t)
  {
  }

  lemma {:induction false} AtNothing(s: seq<Edge>, edges: map<Edge, EdgeRec>, t: Stmt)
    requires Covers(edges, s) && First(s, edges, t) == |s|
    ensures At(s, edges, t) == []
  {
    if s != [] {
      AtNothing(s[1..], edges, t);
    }
  }

  lemma JoinedHead(s: seq<Edge>, edges: map<Edge, EdgeRec>)
    requires s != [] && Covers(edges, s) && Contiguous(s, edges)
    ensures Covers(edges, s[1..])
    ensures var t := edges[s[0]].stmt; First(s[1..], edges, t) == 0 || First(s[1..], edges, t) == |s[1..]|
  {
    var rest, t := s[1..], edges[s[0]].stmt;
    assert forall e | e in rest :: e in s;
    var k := First(rest, edges, t);
    if k < |rest| {
      assert rest[k] == s[k + 1] && rest[0] == s[1];
      assert Joined(s, edges, 0);
    }
  }

  lemma {:induction false} TargetsAreAnInterval(s: seq<Edge>, edges: map<Edge, EdgeRec>, t: Stmt)
    requires Covers(edges, s) && Contiguous(s, edges)
    ensures Interval(s, edges, t, First(s, edges, t), At(s, edges, t))
  {
    if s != [] {
      var rest := s[1..];
      ContiguousTail(s, edges);
      TargetsAreAnInterval(rest, edges, t);
      AtHead(s, edges, t);
      var k, a := First(rest, edges, t), At(rest, edges, t);
      if edges[s[0]].stmt != t {
        IntervalShift(s, edges, t, k, a);
      } else {
        JoinedHead(s, edges);
        if k == |rest| {
          AtNothing(rest, edges, t);
        }
        IntervalGrow(s, edges, t, a);
      }
    }
  }

  lemma ContiguousFrame(s: seq<Edge>, edges: map<Edge, EdgeRec>, edges': map<Edge, EdgeRec>)
    requires Covers(edges, s) && Covers(edges', s) && Contiguous(s, edges)
    requires forall e | e in s :: edges'[e].stmt == edges[e].stmt
    ensures Contiguous(s, edges')
  {
    forall i, k | 0 <= i < k < |s| && edges'[s[i]].stmt == edges'[s[k]].stmt
      ensures Joined(s, edges', i)
    {
      assert s[i] in s && s[k] in s && s[i + 1] in s;
      assert Joined(s, edges, i);
    }
  }
}
