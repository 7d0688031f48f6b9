/** The forest of function clones: its stackless traversal, and removal of a node from it. */
module CloneForest {
  import opened Common
  import opened CallGraphTypes

  /** For every node its clones in list order, the node it is a clone of, and a rank that falls on
      every step down. */
  datatype Forest = Forest(kids: map<Node, seq<Node>>, up: map<Node, Node?>, rank: map<Node, nat>)

  ghost predicate KidsOK(f: Forest, x: Node)
    requires x in f.kids && f.kids.Keys == f.up.Keys == f.rank.Keys
  {
    NoDup(f.kids[x]) && forall k | k in f.kids[x] :: k in f.kids && f.up[k] == x
  }

  ghost predicate UpOK(f: Forest, x: Node)
    requires x in f.kids && f.kids.Keys == f.up.Keys == f.rank.Keys
  {
    var p := f.up[x];
    p != null ==> p in f.kids && x in f.kids[p] && f.rank[x] < f.rank[p]
  }

  ghost predicate Valid(f: Forest) {
    && f.kids.Keys == f.up.Keys == f.rank.Keys
    && (forall x | x in f.kids :: KidsOK(f, x))
    && (forall x | x in f.kids :: UpOK(f, x))
  }

  // ---------- the heap ----------

  /** The pointers of member i of the list of clones of parent. */
  ghost predicate LinkAt(s: seq<Node>, parent: Node?, i: nat)
    requires i < |s|
    reads s[i]
  {
    && s[i].cloneOf == parent
    && s[i].prevSiblingClone == (if i > 0 then s[i - 1] else null)
    && s[i].nextSiblingClone == (if i + 1 < |s| then s[i + 1] else null)
  }

  ghost predicate Linked(s: seq<Node>, parent: Node?)
    reads s
  {
    forall i | 0 <= i < |s| :: LinkAt(s, parent, i)
  }

  ghost function HeadOf(s: seq<Node>): Node? {
    if s == [] then null else s[0]
  }

  ghost predicate Alone(x: Node)
    reads x
  {
    x.cloneOf == null && x.prevSiblingClone == null && x.nextSiblingClone == null
  }

  /** The clone pointers of the heap are those of the forest. */
  ghost predicate Shows(f: Forest)
    requires Valid(f)
    reads f.kids.Keys
  {
    && (forall x | x in f.kids :: x.clones == HeadOf(f.kids[x]))
    && (forall x | x in f.kids :: Linked(f.kids[x], x))
    && (forall x | x in f.kids && f.up[x] == null :: Alone(x))
  }

  /** The clone pointers of the nodes lead to nodes among them. */
  ghost predicate Closed(ns: set<Node>)
    reads ns
  {
    forall x | x in ns :: PointsInto(x, ns)
  }

  ghost predicate PointsInto(x: Node, ns: set<Node>)
    reads x
  {
    && (x.cloneOf != null ==> x.cloneOf in ns) && (x.clones != null ==> x.clones in ns)
    && (x.prevSiblingClone != null ==> x.prevSiblingClone in ns) && (x.nextSiblingClone != null ==> x.nextSiblingClone in ns)
  }

  /** Following the next pointers from node n gives ks, and comes to an end. */
  ghost predicate ChainFrom(n: Node?, ks: seq<Node>)
    reads ks
  {
    n == HeadOf(ks) && forall i | 0 <= i < |ks| :: NextAt(ks, i)
  }

  ghost predicate NextAt(s: seq<Node>, i: nat)
    requires i < |s|
    reads s[i]
  {
    s[i].nextSiblingClone == if i + 1 < |s| then s[i + 1] else null
  }

  /** What verify_node checks of a node's own clone pointers. */
  ghost predicate OwnChecked(x: Node, ns: set<Node>)
    requires x in ns && Closed(ns)
    reads ns
  {
    assert PointsInto(x, ns);
    var p, prev := x.cloneOf, x.prevSiblingClone;
    && (p != null && p.clones != x ==> prev != null && prev.cloneOf == p)
    && (prev != null || x.nextSiblingClone != null ==> p != null)
    && (prev == null && p != null ==> p.clones == x)
    && (prev != null ==> prev.nextSiblingClone == x)
  }

  /** And of the list of its clones. */
  ghost predicate KidsChecked(x: Node, ks: seq<Node>)
    reads ks
  {
    forall k | k in ks :: k.cloneOf == x
  }

  lemma KidIndex(f: Forest, x: Node) returns (i: nat)
    requires Valid(f) && x in f.kids && f.up[x] != null
    ensures f.up[x] in f.kids && i < |f.kids[f.up[x]]| && f.kids[f.up[x]][i] == x
  {
    assert UpOK(f, x);
    i :| 0 <= i < |f.kids[f.up[x]]| && f.kids[f.up[x]][i] == x;
  }

  datatype Verdict = Fine | ErrorFound | NullDereference

  /** The clone part of cgraph_node::verify_node, for a node whose list of clones comes to an end.  A
      node that is not the first clone of its origin is taken to have a previous sibling. */
  method VerifyClonePointers(x: Node, ghost ks: seq<Node>, ghost ns: set<Node>) returns (verdict: Verdict)
    requires x in ns && Closed(ns) && ChainFrom(x.clones, ks)
    ensures verdict == NullDereference <==>
      PointsInto(x, ns) && x.cloneOf != null && x.cloneOf.clones != x && x.prevSiblingClone == null
    ensures verdict == Fine <==> OwnChecked(x, ns) && KidsChecked(x, ks)
  {
    assert PointsInto(x, ns);
    verdict := Fine;
    if x.cloneOf != null && x.cloneOf.clones != x {
      if x.prevSiblingClone == null {
        return NullDereference;
      }
      if x.prevSiblingClone.cloneOf != x.cloneOf {
        verdict := ErrorFound;
      }
    }
    var wrong := WrongClone(x, ks);
    if wrong {
      verdict := ErrorFound;
    }
    if (x.prevSiblingClone != null || x.nextSiblingClone != null) && x.cloneOf == null {
      verdict := ErrorFound;
    }
    if x.prevSiblingClone == null && x.cloneOf != null && x.cloneOf.clones != x {
      verdict := ErrorFound;
    }
    if x.prevSiblingClone != null && x.prevSiblingClone.nextSiblingClone != x {
      verdict := ErrorFound;
    }
  }

  /** The walk along the clones. */
  method WrongClone(x: Node, ghost ks: seq<Node>) returns (wrong: bool)
    requires ChainFrom(x.clones, ks)
    ensures wrong <==> !KidsChecked(x, ks)
  {
    var n := x.clones;
    ghost var k := 0;
    while n != null && n.cloneOf == x
      invariant 0 <= k <= |ks| && n == if k < |ks| then ks[k] else null
      invariant forall i | 0 <= i < k :: ks[i].cloneOf == x
      decreases |ks| - k
    {
      assert NextAt(ks, k);
      n := n.nextSiblingClone;
      k := k + 1;
    }
    assert k < |ks| ==> ks[k] in ks;
    wrong := n != null;
  }

  ghost predicate KidsWithin(f: Forest) {
    f.kids.Keys == f.up.Keys == f.rank.Keys && forall x | x in f.kids :: forall k | k in f.kids[x] :: k in f.kids
  }

  /** The lists f.kids come to an end, the origins are f.up, and nothing is its own origin, however far. */
  ghost predicate Described(f: Forest)
    requires KidsWithin(f)
    reads f.kids.Keys
  {
    Closed(f.kids.Keys) && forall x | x in f.kids :: DescribedAt(f, x)
  }

  ghost predicate DescribedAt(f: Forest, x: Node)
    requires x in f.kids && f.kids.Keys == f.up.Keys == f.rank.Keys
    reads x, f.kids[x]
  {
    && ChainFrom(x.clones, f.kids[x])
    && f.up[x] == x.cloneOf && (x.cloneOf != null ==> x.cloneOf in f.kids && f.rank[x] < f.rank[x.cloneOf])
  }

  /** All nodes pass the checks. */
  ghost predicate AllChecked(f: Forest)
    requires KidsWithin(f) && Closed(f.kids.Keys)
    reads f.kids.Keys
  {
    forall x | x in f.kids :: OwnChecked(x, f.kids.Keys) && KidsChecked(x, f.kids[x])
  }

  /** Every clone is on the list of its origin; that is not checked. */
  ghost predicate AllListed(f: Forest)
    requires f.kids.Keys == f.up.Keys
  {
    forall x | x in f.kids && f.up[x] != null :: f.up[x] in f.kids && x in f.kids[f.up[x]]
  }

  /** The checks and that condition together say that the pointers are those of a forest. */
  lemma CheckedIsForest(f: Forest)
    requires KidsWithin(f) && Described(f)
    ensures AllChecked(f) && AllListed(f) <==> Valid(f) && Shows(f)
  {
    assert Closed(f.kids.Keys);
    hide Described, AllListed, Shows, Valid;
    if AllChecked(f) && AllListed(f) {
      CheckedIsValid(f);
      CheckedShows(f);
    }
    if Valid(f) && Shows(f) {
      ShownPasses(f);
    }
  }

  lemma ShownPasses(f: Forest)
    requires KidsWithin(f) && Described(f) && Valid(f) && Shows(f)
    ensures AllChecked(f) && AllListed(f)
  {
    hide Shows, OwnChecked, KidsChecked, Closed;
    forall x | x in f.kids ensures OwnChecked(x, f.kids.Keys) && KidsChecked(x, f.kids[x]) {
      ShownIsChecked(f, x);
    }
    forall x | x in f.kids && f.up[x] != null ensures f.up[x] in f.kids && x in f.kids[f.up[x]] {
      assert UpOK(f, x);
    }
  }

  lemma CheckedIsValid(f: Forest)
    requires KidsWithin(f) && Described(f) && AllChecked(f) && AllListed(f)
    ensures Valid(f)
  {
    forall x | x in f.kids ensures KidsOK(f, x) && UpOK(f, x) {
      assert DescribedAt(f, x) && KidsChecked(x, f.kids[x]);
      ChainDistinct(x.clones, f.kids[x]);
      forall k | k in f.kids[x] ensures f.up[k] == x {
        assert DescribedAt(f, k);
      }
    }
  }

  lemma CheckedShows(f: Forest)
    requires KidsWithin(f) && Described(f) && AllChecked(f) && AllListed(f) && Valid(f)
    ensures Shows(f)
  {
    hide Valid, OwnChecked, KidsChecked, Linked, Closed;
    forall x | x in f.kids ensures x.clones == HeadOf(f.kids[x]) && Linked(f.kids[x], x) && (f.up[x] == null ==> Alone(x)) {
      CheckedLinks(f, x);
      CheckedRoot(f, x);
    }
  }

  lemma CheckedRoot(f: Forest, x: Node)
    requires KidsWithin(f) && Described(f) && AllChecked(f) && x in f.kids
    ensures f.up[x] == null ==> Alone(x)
  {
    assert DescribedAt(f, x) && OwnChecked(x, f.kids.Keys);
  }

  /** A list that comes to an end has nothing twice. */
  lemma {:induction false} ChainDistinct(n: Node?, ks: seq<Node>)
    requires ChainFrom(n, ks)
    ensures NoDup(ks)
  {
    if ks != [] {
      forall i | 0 <= i < |ks[1..]| ensures NextAt(ks[1..], i) {
        assert NextAt(ks, i + 1);
      }
      assert NextAt(ks, 0);
      ChainDistinct(n.nextSiblingClone, ks[1..]);
      if j :| 0 < j < |ks| && ks[j] == ks[0] {
        SameRest(ks, 0, j);
      }
    }
  }

  /** What follows a node does not depend on where it stands. */
  lemma {:induction false} SameRest(ks: seq<Node>, i: nat, j: nat)
    requires i < |ks| && j < |ks| && ks[i] == ks[j] && forall k | 0 <= k < |ks| :: NextAt(ks, k)
    ensures i == j
    decreases |ks| - i
  {
    assert NextAt(ks, i) && NextAt(ks, j);
    if i + 1 < |ks| {
      SameRest(ks, i + 1, j + 1);
    }
  }

  /** A node that passes the checks and stands on a list is linked to its neighbours there. */
  lemma CheckedLinks(f: Forest, x: Node)
    requires KidsWithin(f) && Described(f) && AllChecked(f) && AllListed(f) && x in f.kids
    ensures x.clones == HeadOf(f.kids[x]) && Linked(f.kids[x], x)
  {
    assert DescribedAt(f, x) && KidsChecked(x, f.kids[x]);
    var ks := f.kids[x];
    ChainDistinct(x.clones, ks);
    forall i | 0 <= i < |ks| ensures LinkAt(ks, x, i) {
      assert ks[i] in ks && NextAt(ks, i);
      CheckedPrev(f, x, i);
    }
  }

  lemma CheckedPrev(f: Forest, x: Node, i: nat)
    requires KidsWithin(f) && Described(f) && AllChecked(f) && AllListed(f) && x in f.kids && i < |f.kids[x]|
    ensures f.kids[x][i].prevSiblingClone == if i > 0 then f.kids[x][i - 1] else null
  {
    var ks := f.kids[x];
    CheckedKid(f, x, i);
    hide KidsWithin, Described, AllChecked, AllListed;
    if ks[i].prevSiblingClone != null {
      var j := PlaceOfPrev(f, x, i);
      assert NextAt(ks, j);
    } else {
      assert ks[0] == ks[i];
    }
  }

  lemma CheckedKid(f: Forest, x: Node, i: nat)
    requires KidsWithin(f) && Described(f) && AllChecked(f) && x in f.kids && i < |f.kids[x]|
    ensures NoDup(f.kids[x]) && forall j | 0 <= j < |f.kids[x]| :: NextAt(f.kids[x], j)
    ensures f.kids[x][i].prevSiblingClone == null ==> f.kids[x][0] == f.kids[x][i]
  {
    var ks := f.kids[x];
    var k := ks[i];
    assert DescribedAt(f, x) && KidsChecked(x, ks) && k in ks;
    ChainDistinct(x.clones, ks);
    assert OwnChecked(k, f.kids.Keys) && PointsInto(k, f.kids.Keys);
  }

  /** The previous sibling is on the same list. */
  lemma PlaceOfPrev(f: Forest, x: Node, i: nat) returns (j: nat)
    requires KidsWithin(f) && Described(f) && AllChecked(f) && AllListed(f) && x in f.kids && i < |f.kids[x]|
    requires f.kids[x][i].prevSiblingClone != null
    ensures j < |f.kids[x]| && f.kids[x][j] == f.kids[x][i].prevSiblingClone && f.kids[x][j].nextSiblingClone == f.kids[x][i]
  {
    var ks := f.kids[x];
    var k := ks[i];
    assert DescribedAt(f, x) && KidsChecked(x, ks) && k in ks;
    assert OwnChecked(k, f.kids.Keys) && PointsInto(k, f.kids.Keys);
    var prev := k.prevSiblingClone;
    assert OwnChecked(prev, f.kids.Keys) && DescribedAt(f, prev);
    var q := prev.cloneOf;
    assert q != null && prev in f.kids[q] && DescribedAt(f, q) && KidsChecked(q, f.kids[q]);
    var ls := f.kids[q];
    var l :| 0 <= l < |ls| && ls[l] == prev;
    assert NextAt(ls, l);
    assert ls[l + 1] in ls && ls[l + 1] == k;
    j := l;
  }

  lemma ShownIsChecked(f: Forest, x: Node)
    requires Valid(f) && Shows(f) && x in f.kids && KidsWithin(f) && Described(f)
    ensures OwnChecked(x, f.kids.Keys) && KidsChecked(x, f.kids[x])
  {
    ShownIsVerified(f, x);
    assert DescribedAt(f, x) && PointsInto(x, f.kids.Keys);
    forall k | k in f.kids[x] ensures k.cloneOf == x {
      var i :| 0 <= i < |f.kids[x]| && f.kids[x][i] == k;
      assert LinkAt(f.kids[x], x, i);
    }
    if f.up[x] != null {
      var i := KidIndex(f, x);
      var s := f.kids[f.up[x]];
      assert Linked(s, f.up[x]) && LinkAt(s, f.up[x], i);
      if i > 0 {
        assert LinkAt(s, f.up[x], i - 1);
      }
    } else {
      assert Alone(x);
    }
  }

  /** What a forest says of the pointers of a node. */
  lemma ShownIsVerified(f: Forest, x: Node)
    requires Valid(f) && Shows(f) && x in f.kids
    ensures x.clones == HeadOf(f.kids[x])
    ensures forall i | 0 <= i < |f.kids[x]| :: LinkAt(f.kids[x], x, i) && f.kids[x][i] in f.kids
    ensures x.cloneOf == f.up[x] && (x.cloneOf != null ==> x.cloneOf in f.kids)
    ensures PointsInto(x, f.kids.Keys) && DescribedAt(f, x)
  {
    assert KidsOK(f, x) && Linked(f.kids[x], x) && UpOK(f, x);
    forall i | 0 <= i < |f.kids[x]| ensures LinkAt(f.kids[x], x, i) && NextAt(f.kids[x], i) && f.kids[x][i] in f.kids {
      assert f.kids[x][i] in f.kids[x];
    }
    if f.up[x] != null {
      var i := KidIndex(f, x);
      var s := f.kids[f.up[x]];
      assert Linked(s, f.up[x]) && KidsOK(f, f.up[x]) && LinkAt(s, f.up[x], i);
      assert i > 0 ==> s[i - 1] in s;
      assert i + 1 < |s| ==> s[i + 1] in s;
    } else {
      assert Alone(x);
    }
  }

  /** So a heap that shows a forest passes. */
  lemma ShownIsDescribed(f: Forest)
    requires Valid(f) && Shows(f)
    ensures KidsWithin(f) && Described(f) && AllChecked(f)
  {
    assert forall x | x in f.kids :: KidsOK(f, x);
    forall x | x in f.kids ensures PointsInto(x, f.kids.Keys) && DescribedAt(f, x) {
      ShownIsVerified(f, x);
    }
    ShownPasses(f);
  }

  /** A ring of two clones that are on nobody's list passes as well. */
  method RingPasses() returns (p: Node, a: Node, b: Node, verdicts: seq<Verdict>)
    ensures a.cloneOf == b.cloneOf == p && p.clones == null && verdicts == [Fine, Fine, Fine]
  {
    p, a, b := Ring();
    ghost var ns := {p, a, b};
    var v := VerifyClonePointers(p, [], ns);
    var w := VerifyClonePointers(a, [], ns);
    var u := VerifyClonePointers(b, [], ns);
    verdicts := [v, w, u];
  }

  method Ring() returns (p: Node, a: Node, b: Node)
    ensures p != a && p != b && a != b && p.clones == null && Alone(p)
    ensures a.cloneOf == p && a.clones == null && a.prevSiblingClone == b && a.nextSiblingClone == b
    ensures b.cloneOf == p && b.clones == null && b.prevSiblingClone == a && b.nextSiblingClone == a
  {
    p := new Node(0);
    a := new Node(0);
    b := new Node(0);
    a.cloneOf, a.prevSiblingClone, a.nextSiblingClone := p, b, b;
    b.cloneOf, b.prevSiblingClone, b.nextSiblingClone := p, a, a;
  }

  // ---------- descendants ----------

  /** How far x is below a at most. */
  ghost function Gap(f: Forest, x: Node, a: Node): nat
    requires x in f.rank && a in f.rank
  {
    if f.rank[x] <= f.rank[a] then f.rank[a] - f.rank[x] else 0
  }

  /** x is a or a descendant of it, by way of the clone-of pointers. */
  ghost predicate Under(f: Forest, x: Node, a: Node)
    requires Valid(f) && x in f.kids && a in f.kids
    decreases Gap(f, x, a)
  {
    x == a || (f.rank[x] < f.rank[a] && f.up[x] != null && UpOK(f, x) && Under(f, f.up[x], a))
  }

  /** The node and its descendants, each before its own clones, clones in list order. */
  ghost function Preorder(f: Forest, x: Node): seq<Node>
    requires Valid(f) && x in f.kids
    decreases f.rank[x], 1, 0
  {
    [x] + PreorderAll(f, x, f.kids[x])
  }

  /** The trees below x of the nodes in s. */
  ghost function PreorderAll(f: Forest, x: Node, s: seq<Node>): seq<Node>
    requires Valid(f) && x in f.kids && forall k | k in s :: k in f.kids[x]
    decreases f.rank[x], 0, |s|
  {
    if s == [] then [] else
      assert KidsOK(f, x) && UpOK(f, s[0]);
      Preorder(f, s[0]) + PreorderAll(f, x, s[1..])
  }

  lemma {:induction false} UnderTrans(f: Forest, x: Node, y: Node, a: Node)
    requires Valid(f) && x in f.kids && y in f.kids && a in f.kids && Under(f, x, y) && Under(f, y, a)
    ensures Under(f, x, a) && f.rank[x] <= f.rank[a]
    decreases Gap(f, x, y)
  {
    if x != y {
      UnderTrans(f, f.up[x], y, a);
    }
  }

  lemma KidUnder(f: Forest, k: Node, x: Node)
    requires Valid(f) && x in f.kids && k in f.kids[x]
    ensures k in f.kids && Under(f, k, x) && f.rank[k] < f.rank[x]
  {
    assert KidsOK(f, x) && UpOK(f, k);
  }

  /** Everything below x other than x is below exactly one clone of x. */
  lemma {:induction false} UnderKid(f: Forest, m: Node, x: Node) returns (k: Node)
    requires Valid(f) && m in f.kids && x in f.kids && Under(f, m, x) && m != x
    ensures k in f.kids[x] && k in f.kids && Under(f, m, k)
    decreases Gap(f, m, x)
  {
    assert UpOK(f, m);
    if f.up[m] == x {
      k := m;
    } else {
      k := UnderKid(f, f.up[m], x);
      UnderTrans(f, m, f.up[m], k);
    }
  }

  lemma {:induction false} OneKid(f: Forest, m: Node, j: Node, k: Node, x: Node)
    requires Valid(f) && m in f.kids && x in f.kids && j in f.kids[x] && k in f.kids[x] && j in f.kids && k in f.kids
    requires Under(f, m, j) && Under(f, m, k)
    ensures j == k
    decreases Gap(f, m, x)
  {
    assert KidsOK(f, x);
    KidUnder(f, j, x);
    KidUnder(f, k, x);
    if m == j || m == k {
      RankUnder(f, j, k);
      RankUnder(f, k, j);
      SiblingsApart(f, j, k, x);
    } else {
      UnderTrans(f, m, j, x);
      assert UpOK(f, m);
      OneKid(f, f.up[m], j, k, x);
    }
  }

  lemma {:induction false} RankUnder(f: Forest, m: Node, a: Node)
    requires Valid(f) && m in f.kids && a in f.kids
    ensures Under(f, m, a) ==> f.rank[m] <= f.rank[a]
    decreases Gap(f, m, a)
  {
    if Under(f, m, a) && m != a {
      RankUnder(f, f.up[m], a);
    }
  }

  /** A node is not below its sibling. */
  lemma SiblingsApart(f: Forest, j: Node, k: Node, x: Node)
    requires Valid(f) && x in f.kids && j in f.kids[x] && k in f.kids[x] && j in f.kids && k in f.kids
    ensures Under(f, j, k) ==> j == k
  {
    assert KidsOK(f, x);
    KidUnder(f, k, x);
    if Under(f, j, k) && j != k {
      RankUnder(f, x, k);
    }
  }

  /** The traversal order lists exactly the node and its descendants. */
  lemma {:induction false} PreorderMembers(f: Forest, x: Node, m: Node)
    requires Valid(f) && x in f.kids
    ensures m in Preorder(f, x) <==> m in f.kids && Under(f, m, x)
    decreases f.rank[x], 1, 0
  {
    PreorderAllMembers(f, x, f.kids[x], m);
    if m in PreorderAll(f, x, f.kids[x]) {
      var k :| k in f.kids[x] && k in f.kids && m in f.kids && Under(f, m, k);
      KidUnder(f, k, x);
      UnderTrans(f, m, k, x);
    } else if m in f.kids && Under(f, m, x) && m != x {
      var k := UnderKid(f, m, x);
    }
  }

  lemma {:induction false} PreorderAllMembers(f: Forest, x: Node, s: seq<Node>, m: Node)
    requires Valid(f) && x in f.kids && forall k | k in s :: k in f.kids[x]
    ensures m in PreorderAll(f, x, s) <==> m in f.kids && exists k | k in s :: k in f.kids && Under(f, m, k)
    decreases f.rank[x], 0, |s|
  {
    if s != [] {
      KidUnder(f, s[0], x);
      PreorderMembers(f, s[0], m);
      PreorderAllMembers(f, x, s[1..], m);
      assert forall k | k in s :: k == s[0] || k in s[1..];
    }
  }

  /** No node is listed twice. */
  lemma {:induction false} PreorderDistinct(f: Forest, x: Node)
    requires Valid(f) && x in f.kids
    ensures NoDup(Preorder(f, x))
    decreases f.rank[x], 1, 0
  {
    assert KidsOK(f, x);
    PreorderAllDistinct(f, x, f.kids[x]);
    PreorderAllMembers(f, x, f.kids[x], x);
    if x in PreorderAll(f, x, f.kids[x]) {
      var k :| k in f.kids[x] && k in f.kids && Under(f, x, k);
      KidUnder(f, k, x);
      RankUnder(f, x, k);
    }
    ConcatDistinct([x], PreorderAll(f, x, f.kids[x]));
  }

  lemma ConcatDistinct(a: seq<Node>, b: seq<Node>)
    requires NoDup(a) && NoDup(b) && forall m | m in a :: m !in b
    ensures NoDup(a + b)
  {
    var s := a + b;
    forall i, j | 0 <= i < j < |s| ensures s[i] != s[j] {
      if i < |a| <= j {
        assert s[i] in a && s[j] in b;
      }
    }
  }

  lemma {:induction false} PreorderAllDistinct(f: Forest, x: Node, s: seq<Node>)
    requires Valid(f) && x in f.kids && (forall k | k in s :: k in f.kids[x]) && NoDup(s)
    ensures NoDup(PreorderAll(f, x, s))
    decreases f.rank[x], 0, |s|
  {
    if s != [] {
      var rest := s[1..];
      KidUnder(f, s[0], x);
      PreorderDistinct(f, s[0]);
      assert NoDup(rest) by {
        forall i, j | 0 <= i < j < |rest| ensures rest[i] != rest[j] {
          assert rest[i] == s[i + 1] && rest[j] == s[j + 1];
        }
      }
      PreorderAllDistinct(f, x, rest);
      forall m | m in Preorder(f, s[0]) ensures m !in PreorderAll(f, x, rest) {
        PreorderMembers(f, s[0], m);
        PreorderAllMembers(f, x, rest, m);
        forall k | k in rest && k in f.kids ensures !Under(f, m, k) {
          if Under(f, m, k) {
            OneKid(f, m, s[0], k, x);
          }
        }
      }
      ConcatDistinct(Preorder(f, s[0]), PreorderAll(f, x, rest));
    }
  }

  // ---------- the traversal ----------

  /** The nodes whose bodies are there to adjust. */
  ghost function Bodies(s: seq<Node>): seq<Node>
    reads s
  {
    if s == [] then [] else (if s[0].thunk then [] else [s[0]]) + Bodies(s[1..])
  }

  lemma {:induction false} BodiesConcat(a: seq<Node>, b: seq<Node>)
    ensures Bodies(a + b) == Bodies(a) + Bodies(b)
  {
    if a == [] {
      assert a + b == b;
    } else {
      assert (a + b)[1..] == a[1..] + b;
      BodiesConcat(a[1..], b);
    }
  }

  ghost function IndexIn(s: seq<Node>, x: Node): nat
    requires x in s
    ensures IndexIn(s, x) < |s| && s[IndexIn(s, x)] == x
  {
    if s[0] == x then 0 else 1 + IndexIn(s[1..], x)
  }

  lemma IndexIs(s: seq<Node>, i: nat)
    requires i < |s| && NoDup(s)
    ensures s[i] in s && IndexIn(s, s[i]) == i
  {
  }

  /** What is still to be visited below a once x and everything below it has been. */
  ghost function Rest(f: Forest, x: Node, a: Node): seq<Node>
    requires Valid(f) && x in f.kids && a in f.kids && Under(f, x, a)
    decreases Gap(f, x, a)
  {
    if x == a then [] else
      var p := f.up[x];
      assert UpOK(f, x);
      PreorderAll(f, p, f.kids[p][IndexIn(f.kids[p], x) + 1..]) + Rest(f, p, a)
  }

  /** What is still to be visited when x is next. */
  ghost function Todo(f: Forest, x: Node, a: Node): seq<Node>
    requires Valid(f) && x in f.kids && a in f.kids && Under(f, x, a)
  {
    if x == a then [] else Preorder(f, x) + Rest(f, x, a)
  }

  lemma PreorderAllHead(f: Forest, x: Node, s: seq<Node>)
    requires Valid(f) && x in f.kids && (forall k | k in s :: k in f.kids[x]) && s != []
    ensures s[0] in f.kids
    ensures PreorderAll(f, x, s) == Preorder(f, s[0]) + PreorderAll(f, x, s[1..])
  {
    assert KidsOK(f, x) && UpOK(f, s[0]);
  }

  /** Going down to the first clone. */
  lemma TodoDown(f: Forest, x: Node, a: Node)
    requires Valid(f) && x in f.kids && a in f.kids && Under(f, x, a) && f.kids[x] != []
    ensures var k := f.kids[x][0];
      && k in f.kids && k != a && Under(f, k, a) && f.rank[k] < f.rank[x]
      && Preorder(f, x) + Rest(f, x, a) == [x] + Todo(f, k, a)
  {
    var s, k := f.kids[x], f.kids[x][0];
    KidUnder(f, k, x);
    UnderTrans(f, k, x, a);
    RankUnder(f, x, a);
    assert KidsOK(f, x);
    IndexIs(s, 0);
    PreorderAllHead(f, x, s);
  }

  /** Going on to the next sibling. */
  lemma RestNext(f: Forest, x: Node, a: Node)
    requires Valid(f) && x in f.kids && a in f.kids && Under(f, x, a) && x != a
    ensures var p := f.up[x];
      && p != null && p in f.kids && x in f.kids[p] && Under(f, p, a) && f.rank[x] < f.rank[p] <= f.rank[a]
      && var s, i := f.kids[p], IndexIn(f.kids[p], x);
         if i + 1 < |s| then
           && s[i + 1] in f.kids && Under(f, s[i + 1], a) && s[i + 1] != a
           && Rest(f, x, a) == Todo(f, s[i + 1], a)
         else Rest(f, x, a) == Rest(f, p, a)
  {
    var p := f.up[x];
    assert UpOK(f, x) && KidsOK(f, p);
    RankUnder(f, p, a);
    RestIs(f, x, a);
    var s, i := f.kids[p], IndexIn(f.kids[p], x);
    hide Preorder, PreorderAll, NoDup, Rest, KidsOK, UpOK;
    if i + 1 < |s| {
      var q := s[i + 1];
      IndexIs(s, i + 1);
      KidUnder(f, q, p);
      UnderTrans(f, q, p, a);
      PreorderAllHead(f, p, s[i + 1..]);
      RestIs(f, q, a);
      assert s[i + 1..][1..] == s[i + 2..];
      Associative(Preorder(f, q), PreorderAll(f, p, s[i + 2..]), Rest(f, p, a));
    } else {
      assert s[i + 1..] == [];
      NothingLeft(f, p);
    }
  }

  lemma NothingLeft(f: Forest, p: Node)
    requires Valid(f) && p in f.kids
    ensures PreorderAll(f, p, []) == []
  {
  }

  lemma Associative(a: seq<Node>, b: seq<Node>, c: seq<Node>)
    ensures (a + b) + c == a + (b + c)
  {
  }

  lemma RestIs(f: Forest, x: Node, a: Node)
    requires Valid(f) && x in f.kids && a in f.kids && Under(f, x, a) && x != a
    ensures var p := f.up[x];
      && p != null && p in f.kids && x in f.kids[p] && Under(f, p, a) && f.rank[x] < f.rank[p]
      && (forall k | k in f.kids[p][IndexIn(f.kids[p], x) + 1..] :: k in f.kids[p])
      && Rest(f, x, a) == PreorderAll(f, p, f.kids[p][IndexIn(f.kids[p], x) + 1..]) + Rest(f, p, a)
  {
    hide Preorder, PreorderAll, NoDup, KidsOK;
    assert UpOK(f, x);
  }

  lemma Next(f: Forest, x: Node, a: Node)
    requires Valid(f) && Shows(f) && x in f.kids && a in f.kids && Under(f, x, a)
    ensures x.clones == HeadOf(f.kids[x])
    ensures x != a ==>
      && f.up[x] != null && f.up[x] in f.kids && x in f.kids[f.up[x]] && x.cloneOf == f.up[x]
      && var s, i := f.kids[f.up[x]], IndexIn(f.kids[f.up[x]], x);
         x.nextSiblingClone == if i + 1 < |s| then s[i + 1] else null
  {
    hide NoDup;
    if x != a {
      assert UpOK(f, x) && KidsOK(f, f.up[x]);
      assert Linked(f.kids[f.up[x]], f.up[x]) && LinkAt(f.kids[f.up[x]], f.up[x], IndexIn(f.kids[f.up[x]], x));
    }
  }

  /** The climb: up to the next node that has a sibling to go on with, or back to the root of the walk. */
  method Climb(x: Node, orig: Node, ghost f: Forest) returns (y: Node)
    requires Valid(f) && Shows(f) && x in f.kids && orig in f.kids && Under(f, x, orig)
    ensures y in f.kids && Under(f, y, orig) && Rest(f, y, orig) == Rest(f, x, orig)
    ensures y != orig ==> y.nextSiblingClone != null
  {
    y := x;
    while y != orig && y.nextSiblingClone == null
      invariant y in f.kids && Under(f, y, orig) && Rest(f, y, orig) == Rest(f, x, orig)
      decreases Gap(f, y, orig)
    {
      Next(f, y, orig);
      RestNext(f, y, orig);
      y := y.cloneOf;
    }
  }

  lemma NextSibling(f: Forest, x: Node, a: Node)
    requires Valid(f) && Shows(f) && x in f.kids && a in f.kids && Under(f, x, a) && x != a
    requires x.nextSiblingClone != null
    ensures var q := x.nextSiblingClone; q in f.kids && Under(f, q, a) && q != a && Rest(f, x, a) == Todo(f, q, a)
  {
    Next(f, x, a);
    RestNext(f, x, a);
  }

  /** One step of the walk. */
  method Advance(x: Node, orig: Node, ghost f: Forest) returns (y: Node)
    requires Valid(f) && Shows(f) && x in f.kids && orig in f.kids && Under(f, x, orig) && x != orig
    ensures y in f.kids && Under(f, y, orig) && Todo(f, x, orig) == [x] + Todo(f, y, orig)
  {
    Next(f, x, orig);
    if x.clones != null {
      TodoDown(f, x, orig);
      y := x.clones;
    } else {
      assert Preorder(f, x) == [x];
      if x.nextSiblingClone != null {
        NextSibling(f, x, orig);
        y := x.nextSiblingClone;
      } else {
        y := Climb(x, orig, f);
        if y != orig {
          NextSibling(f, y, orig);
          y := y.nextSiblingClone;
        }
      }
    }
  }

  lemma FirstStep(f: Forest, a: Node)
    requires Valid(f) && a in f.kids
    ensures Under(f, a, a)
    ensures if f.kids[a] == [] then Preorder(f, a) == [a]
      else f.kids[a][0] in f.kids && Under(f, f.kids[a][0], a) && Preorder(f, a) == [a] + Todo(f, f.kids[a][0], a)
  {
    if f.kids[a] != [] {
      TodoDown(f, a, a);
      assert Preorder(f, a) + [] == Preorder(f, a);
    }
  }

  lemma Regroup(a: seq<Node>, x: Node, b: seq<Node>)
    ensures a + ([x] + b) == (a + [x]) + b
  {
  }

  /** The walk of cgraph_update_edges_for_call_stmt: the node and all nodes below it that are not
      thunks are updated, each once, in preorder, even when the node has siblings of its own. */
  method UpdateClones(orig: Node, ghost f: Forest) returns (updated: seq<Node>)
    requires Valid(f) && Shows(f) && orig in f.kids && !orig.thunk
    ensures updated == Bodies(Preorder(f, orig))
  {
    hide Preorder, PreorderAll, Under, Rest, Shows, Valid;
    updated := [orig];
    ghost var seen: seq<Node> := [orig];
    FirstStep(f, orig);
    Next(f, orig, orig);
    if orig.clones != null {
      var node: Node := orig.clones;
      while node != orig
        invariant node in f.kids && Under(f, node, orig)
        invariant Preorder(f, orig) == seen + Todo(f, node, orig) && updated == Bodies(seen)
        decreases |Todo(f, node, orig)|
      {
        BodiesConcat(seen, [node]);
        if !node.thunk {
          updated := updated + [node];
        }
        var next := Advance(node, orig, f);
        Regroup(seen, node, Todo(f, next, orig));
        seen, node := seen + [node], next;
      }
      assert seen + [] == seen;
    }
  }

  // ---------- removal ----------

  ghost function Without(s: seq<Node>, x: Node): seq<Node>
    requires x in s
  {
    s[..IndexIn(s, x)] + s[IndexIn(s, x) + 1..]
  }

  lemma WithoutMembers(s: seq<Node>, x: Node)
    requires x in s && NoDup(s)
    ensures NoDup(Without(s, x)) && forall y :: y in Without(s, x) <==> y in s && y != x
  {
    var i := IndexIn(s, x);
    forall y | y in s && y != x ensures y in Without(s, x) {
      var j :| 0 <= j < |s| && s[j] == y;
      assert Without(s, x)[if j < i then j else j - 1] == y;
    }
  }

  /** The forest without node n: its clones become clones of its parent, in front of the others, or
      roots of their own. */
  ghost function Splice(f: Forest, n: Node): Forest
    requires Valid(f) && n in f.kids
  {
    var p := f.up[n];
    assert UpOK(f, n);
    var kids := if p == null then f.kids else f.kids[p := f.kids[n] + Without(f.kids[p], n)];
    Forest(kids - {n}, map x | x in f.up && x != n :: if f.up[x] == n then p else f.up[x], f.rank - {n})
  }

  lemma SpliceNames(f: Forest, n: Node)
    requires Valid(f) && n in f.kids
    ensures var f' := Splice(f, n); f'.kids.Keys == f'.up.Keys == f'.rank.Keys == f.kids.Keys - {n}
    ensures forall x | x in f.kids && x != n :: Splice(f, n).rank[x] == f.rank[x]
  {
    assert UpOK(f, n);
  }

  /** The list of clones of a node after the removal. */
  lemma SplicedList(f: Forest, n: Node, x: Node)
    requires Valid(f) && n in f.kids && x in f.kids && x != n
    ensures x in Splice(f, n).kids && NoDup(Splice(f, n).kids[x])
    ensures forall k :: k in Splice(f, n).kids[x] <==>
      if x == f.up[n] then k in f.kids[n] || (k in f.kids[x] && k != n) else k in f.kids[x]
  {
    assert KidsOK(f, x) && UpOK(f, n) && KidsOK(f, n);
    if x == f.up[n] {
      WithoutMembers(f.kids[x], n);
      forall y | y in f.kids[n] ensures y !in Without(f.kids[x], n) {
        KidUnder(f, y, n);
      }
      ConcatDistinct(f.kids[n], Without(f.kids[x], n));
    }
  }

  lemma SpliceKids(f: Forest, n: Node, x: Node)
    requires Valid(f) && n in f.kids && x in f.kids && x != n
    ensures Splice(f, n).kids.Keys == Splice(f, n).up.Keys == Splice(f, n).rank.Keys == f.kids.Keys - {n}
    ensures KidsOK(Splice(f, n), x)
  {
    SpliceNames(f, n);
    SplicedList(f, n, x);
    assert KidsOK(f, x) && KidsOK(f, n);
    forall k | k in Splice(f, n).kids[x] ensures k in f.kids && k != n && Splice(f, n).up[k] == x {
      if k in f.kids[n] {
        KidUnder(f, k, n);
      } else {
        assert k in f.kids[x];
      }
    }
  }

  lemma SpliceUp(f: Forest, n: Node, x: Node)
    requires Valid(f) && n in f.kids && x in f.kids && x != n
    ensures Splice(f, n).kids.Keys == Splice(f, n).up.Keys == Splice(f, n).rank.Keys == f.kids.Keys - {n}
    ensures UpOK(Splice(f, n), x)
  {
    SpliceNames(f, n);
    assert UpOK(f, x) && UpOK(f, n);
    var p := Splice(f, n).up[x];
    if p != null {
      SplicedList(f, n, p);
    }
  }

  /** Removing any node leaves a valid forest. */
  lemma SpliceValid(f: Forest, n: Node)
    requires Valid(f) && n in f.kids
    ensures Valid(Splice(f, n))
  {
    forall x | x in f.kids && x != n
      ensures var f' := Splice(f, n);
        && f'.kids.Keys == f'.up.Keys == f'.rank.Keys == f.kids.Keys - {n} && KidsOK(f', x) && UpOK(f', x)
    {
      SpliceKids(f, n, x);
      SpliceUp(f, n, x);
    }
  }

  /** Every other node keeps exactly the descendants it had, apart from the removed one. */
  lemma {:induction false} SpliceUnder(f: Forest, n: Node, m: Node, a: Node)
    requires Valid(f) && n in f.kids && m in f.kids && a in f.kids && m != n && a != n
    requires Valid(Splice(f, n))
    ensures Under(Splice(f, n), m, a) <==> Under(f, m, a)
    decreases Gap(f, m, a)
  {
    var f', p := Splice(f, n), f.up[n];
    if m != a && f.rank[m] < f.rank[a] && f.up[m] != null {
      assert UpOK(f, m) && UpOK(f, n) && UpOK(f', m);
      if f.up[m] != n {
        SpliceUnder(f, n, f.up[m], a);
      } else if p != null {
        SpliceUnder(f, n, p, a);
        RankUnder(f', p, a);
        RankUnder(f, p, a);
      }
    }
  }

  /** In terms of what the walks visit: a walk from any other node visits what it did before, but
      not the removed node. */
  lemma SplicePreorder(f: Forest, n: Node, a: Node, m: Node)
    requires Valid(f) && n in f.kids && a in f.kids && a != n
    ensures Valid(Splice(f, n))
    ensures m in Preorder(Splice(f, n), a) <==> m in Preorder(f, a) && m != n
  {
    SpliceValid(f, n);
    PreorderMembers(f, a, m);
    PreorderMembers(Splice(f, n), a, m);
    if m in f.kids && m != n {
      SpliceUnder(f, n, m, a);
    }
  }

  /** The clones of a removed root are roots. */
  lemma SpliceRoots(f: Forest, n: Node, k: Node)
    requires Valid(f) && n in f.kids && f.up[n] == null && k in f.kids[n]
    ensures k in Splice(f, n).kids && Splice(f, n).up[k] == null
  {
    KidUnder(f, k, n);
    assert KidsOK(f, n);
  }

  // ---------- removal on the heap ----------

  lemma CutLinks(s: seq<Node>, j: nat, parent: Node?, i: nat)
    requires NoDup(s) && j < |s| && i < |s| - 1
    ensures var s' := s[..j] + s[j + 1..];
      && s'[i] == (if i < j then s[i] else s[i + 1]) && s'[i] != s[j]
      && (i > 0 ==> s'[i - 1] == if i - 1 < j then s[i - 1] else s[i])
      && (i + 1 < |s'| ==> s'[i + 1] == if i + 1 < j then s[i + 1] else s[i + 2])
  {
  }

  /** The first part of cgraph_node::remove: n leaves its parent's list. */
  method UnlinkSibling(n: Node)
    requires n.prevSiblingClone != n && n.nextSiblingClone != n
    modifies (if n.prevSiblingClone == null then {} else {n.prevSiblingClone})`nextSiblingClone
    modifies (if n.nextSiblingClone == null then {} else {n.nextSiblingClone})`prevSiblingClone
    modifies (if n.cloneOf == null || n.prevSiblingClone != null then {} else {n.cloneOf})`clones
    ensures old(n.prevSiblingClone) != null ==> old(n.prevSiblingClone).nextSiblingClone == old(n.nextSiblingClone)
    ensures old(n.nextSiblingClone) != null ==> old(n.nextSiblingClone).prevSiblingClone == old(n.prevSiblingClone)
    ensures old(n.prevSiblingClone) == null && n.cloneOf != null ==> n.cloneOf.clones == old(n.nextSiblingClone)
  {
    if n.prevSiblingClone != null {
      n.prevSiblingClone.nextSiblingClone := n.nextSiblingClone;
    } else if n.cloneOf != null {
      n.cloneOf.clones := n.nextSiblingClone;
    }
    if n.nextSiblingClone != null {
      n.nextSiblingClone.prevSiblingClone := n.prevSiblingClone;
    }
  }

  /** After the pointers around the node have been written, the list without it is linked. */
  twostate lemma UnlinkedList(s: seq<Node>, new j: nat)
    requires NoDup(s) && j < |s|
    requires forall i | 0 <= i < |s| :: old(LinkAt(s, s[j].cloneOf, i)) && s[i].cloneOf == old(s[i].cloneOf)
    requires old(s[j].prevSiblingClone) != null ==> old(s[j].prevSiblingClone).nextSiblingClone == old(s[j].nextSiblingClone)
    requires old(s[j].nextSiblingClone) != null ==> old(s[j].nextSiblingClone).prevSiblingClone == old(s[j].prevSiblingClone)
    requires forall i | 0 <= i < |s| && s[i] != old(s[j].prevSiblingClone) :: s[i].nextSiblingClone == old(s[i].nextSiblingClone)
    requires forall i | 0 <= i < |s| && s[i] != old(s[j].nextSiblingClone) :: s[i].prevSiblingClone == old(s[i].prevSiblingClone)
    ensures Linked(s[..j] + s[j + 1..], s[j].cloneOf)
  {
    var s' := s[..j] + s[j + 1..];
    assert old(LinkAt(s, s[j].cloneOf, j));
    forall i | 0 <= i < |s'| ensures LinkAt(s', s[j].cloneOf, i) {
      CutLinks(s, j, s[j].cloneOf, i);
      assert old(LinkAt(s, s[j].cloneOf, if i < j then i else i + 1));
    }
  }

  lemma JoinLinks(a: seq<Node>, b: seq<Node>, i: nat)
    requires i < |a| + |b|
    ensures (a + b)[i] == (if i < |a| then a[i] else b[i - |a|])
    ensures i > 0 ==> (a + b)[i - 1] == if i - 1 < |a| then a[i - 1] else b[i - 1 - |a|]
    ensures i + 1 < |a| + |b| ==> (a + b)[i + 1] == if i + 1 < |a| then a[i + 1] else b[i + 1 - |a|]
  {
  }

  lemma ParentOf(s: seq<Node>, parent: Node?, i: nat)
    requires Linked(s, parent) && i < |s|
    ensures s[i].cloneOf == parent
    ensures s[i].nextSiblingClone == if i + 1 < |s| then s[i + 1] else null
  {
    assert LinkAt(s, parent, i);
  }

  /** The loop that gives the clones of n a new parent, and stops at the last of them. */
  method Reparent(n: Node, p: Node, ghost ks: seq<Node>) returns (last: Node)
    requires NoDup(ks) && ks != [] && n.clones == HeadOf(ks) && Linked(ks, n) && n != p
    modifies ks`cloneOf
    ensures Linked(ks, p) && last == ks[|ks| - 1]
  {
    last := n.clones;
    ghost var k := 0;
    ParentOf(ks, n, 0);
    while last.nextSiblingClone != null
      invariant k < |ks| && last == ks[k]
      invariant forall i | 0 <= i < k :: LinkAt(ks, p, i)
      invariant forall i | k <= i < |ks| :: LinkAt(ks, n, i)
      decreases |ks| - k
    {
      assert LinkAt(ks, n, k);
      last.cloneOf := p;
      last := last.nextSiblingClone;
      k := k + 1;
    }
    assert LinkAt(ks, n, k);
    last.cloneOf := p;
  }

  /** The clones ks of n join those of its parent p, in front. */
  method Adopt(n: Node, p: Node, ghost ks: seq<Node>, ghost s: seq<Node>)
    requires NoDup(ks) && (forall x | x in ks :: x !in s) && ks != [] && n.clones == HeadOf(ks) && Linked(ks, n)
    requires p.clones == HeadOf(s) && Linked(s, p) && NoDup(s) && n != p
    modifies ks`cloneOf, ks`nextSiblingClone, s`prevSiblingClone, p`clones
    ensures p.clones == HeadOf(ks + s) && Linked(ks + s, p)
  {
    var last := Reparent(n, p, ks);
    forall i | 0 <= i < |s| ensures LinkAt(s, p, i) {
      assert old(LinkAt(s, p, i)) && s[i] in s;
    }
    Join(n, p, last, ks, s);
  }

  method Join(n: Node, p: Node, last: Node, ghost ks: seq<Node>, ghost s: seq<Node>)
    requires NoDup(ks) && (forall x | x in ks :: x !in s) && ks != [] && n.clones == HeadOf(ks) && Linked(ks, p)
    requires p.clones == HeadOf(s) && Linked(s, p) && NoDup(s) && n != p && last == ks[|ks| - 1]
    modifies last`nextSiblingClone, s`prevSiblingClone, p`clones
    ensures p.clones == HeadOf(ks + s) && Linked(ks + s, p)
  {
    last.nextSiblingClone := p.clones;
    if p.clones != null {
      p.clones.prevSiblingClone := last;
    }
    p.clones := n.clones;
    forall i | 0 <= i < |ks + s| ensures LinkAt(ks + s, p, i) {
      JoinLinks(ks, s, i);
      if i < |ks| {
        assert old(LinkAt(ks, p, i)) && ks[i] in ks;
      } else {
        assert old(LinkAt(s, p, i - |ks|)) && s[i - |ks|] in s;
      }
    }
  }

  /** The clones of a removed root become roots. */
  method Orphan(n: Node, ghost ks: seq<Node>)
    requires NoDup(ks) && n.clones == HeadOf(ks) && Linked(ks, n)
    modifies ks`cloneOf, ks`nextSiblingClone, ks`prevSiblingClone
    ensures forall k | k in ks :: Alone(k)
  {
    var m := n.clones;
    ghost var k := 0;
    while m != null
      invariant k <= |ks| && m == if k < |ks| then ks[k] else null
      invariant forall i | 0 <= i < k :: Alone(ks[i])
      invariant forall i | k <= i < |ks| :: LinkAt(ks, n, i)
      decreases |ks| - k
    {
      assert LinkAt(ks, n, k);
      var next := m.nextSiblingClone;
      m.nextSiblingClone := null;
      m.prevSiblingClone := null;
      m.cloneOf := null;
      m := next;
      k := k + 1;
    }
  }

  // ---------- what the removal leaves alone ----------

  /** The pointers that the removal of n does not concern. */
  ghost predicate OthersShown(f: Forest, n: Node)
    requires Valid(f) && n in f.kids
    reads f.kids.Keys
  {
    && (forall x | x in f.kids && x != n && x != f.up[n] :: x.clones == HeadOf(f.kids[x]) && Linked(f.kids[x], x))
    && (forall x | x in f.kids && x != n && f.up[x] == null :: Alone(x))
  }

  ghost function Parents(f: Forest, n: Node): seq<Node>
    requires Valid(f) && n in f.kids
  {
    assert UpOK(f, n);
    if f.up[n] == null then [] else f.kids[f.up[n]]
  }

  twostate predicate OnlyAround(f: Forest, n: Node)
    requires Valid(f) && n in f.kids
    reads f.kids.Keys
  {
    && (forall x | x in f.kids && x !in Parents(f, n) && x !in f.kids[n] ::
          x.cloneOf == old(x.cloneOf) && x.prevSiblingClone == old(x.prevSiblingClone)
          && x.nextSiblingClone == old(x.nextSiblingClone))
    && (forall x | x in f.kids && x != f.up[n] :: x.clones == old(x.clones))
  }

  twostate lemma OthersStay(f: Forest, new n: Node)
    requires Valid(f) && n in f.kids && old(OthersShown(f, n)) && OnlyAround(f, n)
    ensures OthersShown(f, n)
  {
    assert UpOK(f, n) && KidsOK(f, n);
    forall x | x in f.kids && x != n && x != f.up[n] ensures x.clones == HeadOf(f.kids[x]) && Linked(f.kids[x], x) {
      assert KidsOK(f, x) && old(Linked(f.kids[x], x));
      forall i | 0 <= i < |f.kids[x]| ensures LinkAt(f.kids[x], x, i) {
        assert old(LinkAt(f.kids[x], x, i)) && f.kids[x][i] in f.kids[x];
        assert f.up[n] != null ==> KidsOK(f, f.up[n]);
      }
    }
    forall x | x in f.kids && x != n && f.up[x] == null ensures Alone(x) {
      assert f.up[n] != null ==> KidsOK(f, f.up[n]);
      assert old(Alone(x));
    }
  }

  lemma OthersAtFirst(f: Forest, n: Node)
    requires Valid(f) && Shows(f) && n in f.kids
    ensures OthersShown(f, n)
  {
  }

  /** When the lists around n are as they should be, the heap shows the forest without n. */
  lemma SpliceShown(f: Forest, n: Node)
    requires Valid(f) && n in f.kids && Valid(Splice(f, n)) && OthersShown(f, n)
    requires var p := f.up[n];
      if p == null then forall k | k in f.kids[n] :: Alone(k)
      else
        && p in Splice(f, n).kids
        && p.clones == HeadOf(Splice(f, n).kids[p]) && Linked(Splice(f, n).kids[p], p)
    ensures Shows(Splice(f, n))
  {
    var f', p := Splice(f, n), f.up[n];
    SpliceNames(f, n);
    assert UpOK(f, n) && KidsOK(f, n);
    forall x | x in f'.kids ensures x.clones == HeadOf(f'.kids[x]) && Linked(f'.kids[x], x) {
      assert x != p ==> f'.kids[x] == f.kids[x];
    }
    forall x | x in f'.kids && f'.up[x] == null ensures Alone(x) {
      assert UpOK(f, x);
    }
  }

  twostate lemma LinkedStays(s: seq<Node>, new parent: Node)
    requires old(allocated(parent)) && old(Linked(s, parent))
    requires forall i | 0 <= i < |s| :: s[i].cloneOf == old(s[i].cloneOf)
    requires forall i | 0 <= i < |s| :: s[i].prevSiblingClone == old(s[i].prevSiblingClone)
    requires forall i | 0 <= i < |s| :: s[i].nextSiblingClone == old(s[i].nextSiblingClone)
    ensures Linked(s, parent)
  {
    forall i | 0 <= i < |s| ensures LinkAt(s, parent, i) {
      assert old(LinkAt(s, parent, i));
    }
  }

  /** The writes of UnlinkSibling are all that has happened to the nodes. */
  twostate predicate SiblingUnlinked(ns: set<Node>, n: Node)
    reads ns, n
  {
    var p, x, parent := old(n.prevSiblingClone), old(n.nextSiblingClone), old(n.cloneOf);
    && (p != null && p in ns ==> p.nextSiblingClone == x) && (x != null && x in ns ==> x.prevSiblingClone == p)
    && (p == null && parent != null && parent in ns ==> parent.clones == x)
    && (forall y | y in ns :: y.cloneOf == old(y.cloneOf))
    && (forall y | y in ns && y != p :: y.nextSiblingClone == old(y.nextSiblingClone))
    && (forall y | y in ns && y != x :: y.prevSiblingClone == old(y.prevSiblingClone))
    && (forall y | y in ns && (p != null || y != parent) :: y.clones == old(y.clones))
  }

  /** n leaves its parent's list. */
  method LeaveList(n: Node, ghost f: Forest)
    requires Valid(f) && Shows(f) && n in f.kids
    modifies f.kids.Keys`clones, f.kids.Keys`nextSiblingClone, f.kids.Keys`prevSiblingClone
    ensures OthersShown(f, n) && n.cloneOf == f.up[n]
    ensures n.clones == HeadOf(f.kids[n]) && Linked(f.kids[n], n)
    ensures f.up[n] != null ==>
      f.up[n] in f.kids && n in f.kids[f.up[n]]
      && f.up[n].clones == HeadOf(Without(f.kids[f.up[n]], n)) && Linked(Without(f.kids[f.up[n]], n), f.up[n])
  {
    OthersAtFirst(f, n);
    SiblingPlaces(f, n);
    UnlinkHere(n, f.kids.Keys);
    UnlinkAround(f, n);
    OwnListStays(f, n);
    if f.up[n] != null {
      ParentListCut(f, n);
    }
    hide Shows, SiblingUnlinked, OthersShown, Linked, Without, Parents, OnlyAround;
    OthersStay(f, n);
  }

  lemma SiblingPlaces(f: Forest, n: Node)
    requires Valid(f) && Shows(f) && n in f.kids
    ensures n.prevSiblingClone != n && n.nextSiblingClone != n
    ensures n.prevSiblingClone != null ==> n.prevSiblingClone in f.kids
    ensures n.nextSiblingClone != null ==> n.nextSiblingClone in f.kids
    ensures n.cloneOf != null ==> n.cloneOf in f.kids
  {
    assert UpOK(f, n);
    var p, s := f.up[n], Parents(f, n);
    if p != null {
      assert KidsOK(f, p) && Linked(s, p) && LinkAt(s, p, IndexIn(s, n));
    } else {
      assert Alone(n);
    }
  }

  method UnlinkHere(n: Node, ghost ns: set<Node>)
    requires n in ns && n.prevSiblingClone != n && n.nextSiblingClone != n
    requires n.prevSiblingClone != null ==> n.prevSiblingClone in ns
    requires n.nextSiblingClone != null ==> n.nextSiblingClone in ns
    requires n.cloneOf != null ==> n.cloneOf in ns
    modifies ns`clones, ns`nextSiblingClone, ns`prevSiblingClone
    ensures SiblingUnlinked(ns, n)
  {
    UnlinkSibling(n);
  }

  twostate lemma UnlinkAround(f: Forest, new n: Node)
    requires Valid(f) && n in f.kids && old(allocated(n)) && old(Shows(f)) && SiblingUnlinked(f.kids.Keys, n)
    ensures OnlyAround(f, n)
  {
    hide NoDup, HeadOf;
    assert UpOK(f, n);
    var p, s := f.up[n], Parents(f, n);
    if p != null {
      assert KidsOK(f, p) && old(Linked(s, p)) && old(LinkAt(s, p, IndexIn(s, n)));
    } else {
      assert old(Alone(n));
    }
  }

  twostate lemma OwnListStays(f: Forest, new n: Node)
    requires Valid(f) && n in f.kids && old(allocated(n)) && old(Shows(f)) && SiblingUnlinked(f.kids.Keys, n)
    ensures n.clones == HeadOf(f.kids[n]) && Linked(f.kids[n], n) && n.cloneOf == f.up[n]
  {
    hide NoDup, HeadOf;
    assert UpOK(f, n) && KidsOK(f, n);
    var p, s := f.up[n], Parents(f, n);
    if p != null {
      assert KidsOK(f, p) && old(Linked(s, p)) && old(LinkAt(s, p, IndexIn(s, n)));
    } else {
      assert old(Alone(n));
    }
    assert old(Linked(f.kids[n], n));
    LinkedStays(f.kids[n], n);
  }

  twostate lemma ParentListCut(f: Forest, new n: Node)
    requires Valid(f) && n in f.kids && old(allocated(n)) && old(Shows(f)) && SiblingUnlinked(f.kids.Keys, n)
    requires f.up[n] != null
    ensures f.up[n] in f.kids && n in f.kids[f.up[n]]
    ensures f.up[n].clones == HeadOf(Without(f.kids[f.up[n]], n)) && Linked(Without(f.kids[f.up[n]], n), f.up[n])
  {
    assert UpOK(f, n);
    var p, s := f.up[n], Parents(f, n);
    var j := IndexIn(s, n);
    assert KidsOK(f, p) && old(Linked(s, p)) && old(LinkAt(s, p, j));
    hide Valid, Shows, NoDup, LinkAt, KidsOK, UpOK, Parents, IndexIn;
    assert forall i | 0 <= i < |s| :: s[i] in s;
    UnlinkedList(s, j);
  }

  /** The clones of n go to its parent, or become roots. */
  method GiveClones(n: Node, ghost f: Forest)
    requires Valid(f) && n in f.kids && OthersShown(f, n) && n.cloneOf == f.up[n]
    requires n.clones == HeadOf(f.kids[n]) && Linked(f.kids[n], n)
    requires f.up[n] != null ==>
      f.up[n] in f.kids && n in f.kids[f.up[n]]
      && f.up[n].clones == HeadOf(Without(f.kids[f.up[n]], n)) && Linked(Without(f.kids[f.up[n]], n), f.up[n])
    modifies f.kids.Keys`cloneOf, f.kids.Keys`clones, f.kids.Keys`nextSiblingClone, f.kids.Keys`prevSiblingClone
    ensures OthersShown(f, n)
    ensures f.up[n] == null ==> forall k | k in f.kids[n] :: Alone(k)
    ensures f.up[n] != null ==>
      var ks := f.kids[n] + Without(f.kids[f.up[n]], n);
      f.up[n].clones == HeadOf(ks) && Linked(ks, f.up[n])
  {
    hide Preorder, OthersShown, Linked, Without, NoDup, LinkAt;
    ghost var p, ks := f.up[n], f.kids[n];
    assert UpOK(f, n) && KidsOK(f, n);
    if p != null {
      assert KidsOK(f, p);
      WithoutMembers(f.kids[p], n);
      assert [] + Without(f.kids[p], n) == Without(f.kids[p], n);
    }
    if n.clones != null {
      if n.cloneOf != null {
        Adopt(n, n.cloneOf, ks, Without(f.kids[p], n));
      } else {
        Orphan(n, ks);
      }
      OthersStay(f, n);
    }
  }

  /** The part of cgraph_node::remove that takes n out of the clone tree. */
  method RemoveClone(n: Node, ghost f: Forest)
    requires Valid(f) && Shows(f) && n in f.kids
    modifies f.kids.Keys`cloneOf, f.kids.Keys`clones, f.kids.Keys`nextSiblingClone, f.kids.Keys`prevSiblingClone
    ensures Valid(Splice(f, n)) && Shows(Splice(f, n))
  {
    SpliceValid(f, n);
    SpliceNames(f, n);
    LeaveList(n, f);
    GiveClones(n, f);
    SpliceShown(f, n);
  }
}
