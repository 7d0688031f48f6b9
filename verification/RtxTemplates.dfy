/** Expanding a template over the values of its iterators: the template is changed in place for each
    combination of values, and a deep copy is taken each time. */
module RtxTemplates {
  import opened Common
  import opened Odometer

  // ---------- iterators ----------

  class MapValue {
    var next: MapValue?
    const number: int

    constructor (number: int)
      ensures this.number == number && next == null
    {
      this.number, next := number, null;
    }
  }

  ghost predicate Chained(s: seq<MapValue>, i: nat)
    requires i < |s|
    reads {s[i]}`next
  {
    s[i].next == if i + 1 < |s| then s[i + 1] else null
  }

  class Mapping {
    var values: MapValue?
    var currentValue: MapValue?
    ghost var list: seq<MapValue>

    ghost predicate Valid()
      reads this`values, this`list, list`next
    {
      && values == (if list == [] then null else list[0])
      && (forall i | 0 <= i < |list| :: Chained(list, i))
      && NoDup(list)
    }

    constructor ()
      ensures Valid() && list == []
    {
      values, currentValue, list := null, null, [];
    }

    /** add_map_value: `last` is the last value of the list, null if it is empty. */
    method AddMapValue(last: MapValue?, number: int) returns (value: MapValue)
      requires Valid() && last == if list == [] then null else list[|list| - 1]
      modifies this`values, this`list, list`next
      ensures Valid() && fresh(value) && value.number == number && list == old(list) + [value]
    {
      value := new MapValue(number);
      ghost var was := list;
      if last == null {
        values := value;
      } else {
        last.next := value;
      }
      list := list + [value];
      forall i | 0 <= i < |list| ensures Chained(list, i) {
        if i < |was| {
          assert old(Chained(was, i));
        }
      }
    }
  }

  ghost function AllValues(its: seq<Mapping>): set<MapValue>
    reads its`list
  {
    set m, v | m in its && v in m.list :: v
  }

  /** The iterators in use, each with at least one value. */
  ghost predicate Ready(its: seq<Mapping>)
    reads its`list, its`values, AllValues(its)`next
  {
    NoDup(its) && forall m | m in its ::
      assert forall v | v in m.list :: v in AllValues(its);
      IteratorReady(m)
  }

  ghost predicate IteratorReady(m: Mapping)
    reads m`values, m`list, m.list`next
  {
    m.Valid() && m.list != []
  }

  ghost function Sizes(its: seq<Mapping>): (s: seq<nat>)
    reads its`list
    ensures |s| == |its| && forall i | 0 <= i < |its| :: s[i] == |its[i].list|
  {
    if its == [] then [] else [|its[0].list|] + Sizes(its[1..])
  }

  /** Iterator i has its d[i]-th value. */
  ghost predicate Shows(its: seq<Mapping>, d: seq<nat>)
    reads its`list, its`currentValue
  {
    |d| == |its| && forall i | 0 <= i < |its| :: d[i] < |its[i].list| && its[i].currentValue == its[i].list[d[i]]
  }

  lemma NextValue(its: seq<Mapping>, d: seq<nat>, i: nat)
    requires Ready(its) && Shows(its, d) && i < |its|
    ensures its[i].currentValue != null && its[i].values == its[i].list[0]
    ensures its[i].currentValue.next == if d[i] + 1 < |its[i].list| then its[i].list[d[i] + 1] else null
  {
    assert IteratorReady(its[i]);
    assert Chained(its[i].list, d[i]);
  }

  /** One turn of the loop: iterator i goes to its next value, or back to its first. */
  method Turn(its: seq<Mapping>, ghost d: seq<nat>, i: nat) returns (up: bool, ghost d': seq<nat>)
    requires Ready(its) && Shows(its, d) && i < |its| && Digits(d, Sizes(its))
    modifies {its[i]}`currentValue
    ensures Ready(its) && Sizes(its) == old(Sizes(its)) && Shows(its, d') && Digits(d', Sizes(its))
    ensures up == (d[i] + 1 < Sizes(its)[i]) && d' == d[i := if up then d[i] + 1 else 0]
  {
    hide Sizes;
    var it := its[i];
    NextValue(its, d, i);
    it.currentValue := it.currentValue.next;
    up := it.currentValue != null;
    if !up {
      it.currentValue := it.values;
    }
    d' := d[i := if up then d[i] + 1 else 0];
  }

  /** The loop that lexicographically increments the iterator values. */
  method Advance(its: seq<Mapping>, ghost d: seq<nat>) returns (more: bool, ghost d': seq<nat>)
    requires Ready(its) && Shows(its, d) && Digits(d, Sizes(its))
    modifies its`currentValue
    ensures Ready(its) && Sizes(its) == old(Sizes(its)) && Shows(its, d') && Digits(d', Sizes(its))
    ensures (more, d') == Increment(d, Sizes(its), |d|)
  {
    hide Ready, Shows, Increment, Digits, Sizes;
    ghost var sizes := Sizes(its);
    DigitsLength(d, sizes);
    var i: nat := |its|;
    d', more := d, false;
    while i > 0
      invariant i <= |its| == |d'| && Ready(its) && Sizes(its) == sizes && Shows(its, d') && Digits(d', sizes)
      invariant Increment(d', sizes, i) == Increment(d, sizes, |d|)
      decreases i
    {
      DigitsLength(d', sizes);
      IncrementStep(d', sizes, i);
      i := i - 1;
      more, d' := Turn(its, d', i);
      if more {
        return;
      }
    }
    IncrementNone(d', sizes);
  }

  lemma DigitsLength(d: seq<nat>, sizes: seq<nat>)
    requires Digits(d, sizes)
    ensures |d| == |sizes|
  {
  }

  lemma IncrementNone(d: seq<nat>, sizes: seq<nat>)
    requires Digits(d, sizes)
    ensures Increment(d, sizes, 0) == (false, d)
  {
  }

  /** What the loop does with position i - 1. */
  lemma IncrementStep(d: seq<nat>, sizes: seq<nat>, i: nat)
    requires Digits(d, sizes) && 0 < i <= |d|
    ensures var up := d[i - 1] + 1 < sizes[i - 1];
      var d' := d[i - 1 := if up then d[i - 1] + 1 else 0];
      Digits(d', sizes) && Increment(d, sizes, i) == if up then (true, d') else Increment(d', sizes, i - 1)
  {
  }

  // ---------- expressions ----------

  /** A node with the fields that iterators can set, and its operands, some of which may be missing. */
  class Rtx {
    var fields: seq<int>
    var kids: seq<Rtx?>

    constructor (fields: seq<int>, kids: seq<Rtx?>)
      ensures this.fields == fields && this.kids == kids
    {
      this.fields, this.kids := fields, kids;
    }
  }

  /** The nodes of an expression, as a tree. */
  datatype Tree = Nil | Tree(node: Rtx, kids: seq<Tree>)

  /** What an expression says. */
  datatype Term = NoTerm | Term(fields: seq<int>, kids: seq<Term>)

  ghost function Nodes(t: Tree): set<Rtx> {
    match t
    case Nil => {}
    case Tree(n, ks) => {n} + NodesAll(ks)
  }

  ghost function NodesAll(ts: seq<Tree>): set<Rtx> {
    if ts == [] then {} else Nodes(ts[0]) + NodesAll(ts[1..])
  }

  ghost predicate Shape(t: Tree, n: Rtx?)
    reads Nodes(t)`kids
  {
    match t
    case Nil => n == null
    case Tree(m, ks) => n == m && ShapeAll(ks, m.kids)
  }

  ghost predicate ShapeAll(ts: seq<Tree>, ns: seq<Rtx?>)
    reads NodesAll(ts)`kids
  {
    |ts| == |ns| && (ts != [] ==> Shape(ts[0], ns[0]) && ShapeAll(ts[1..], ns[1..]))
  }

  ghost function Reading(t: Tree): Term
    reads Nodes(t)`fields
  {
    match t
    case Nil => NoTerm
    case Tree(n, ks) => Term(n.fields, ReadingAll(ks))
  }

  ghost function ReadingAll(ts: seq<Tree>): seq<Term>
    reads NodesAll(ts)`fields
  {
    if ts == [] then [] else [Reading(ts[0])] + ReadingAll(ts[1..])
  }

  lemma {:induction false} ShapeAt(ts: seq<Tree>, ns: seq<Rtx?>, i: nat)
    requires ShapeAll(ts, ns) && i < |ts|
    ensures Shape(ts[i], ns[i]) && Nodes(ts[i]) <= NodesAll(ts)
  {
    if i > 0 {
      ShapeAt(ts[1..], ns[1..], i - 1);
    }
  }

  lemma {:induction false} ShapeSnoc(ts: seq<Tree>, ns: seq<Rtx?>, t: Tree, n: Rtx?)
    requires ShapeAll(ts, ns) && Shape(t, n)
    ensures ShapeAll(ts + [t], ns + [n]) && NodesAll(ts + [t]) == NodesAll(ts) + Nodes(t)
  {
    if ts == [] {
      assert [] + [t] == [t] && ns + [n] == [n] && [t][1..] == [] && [n][1..] == [];
    } else {
      ShapeSnoc(ts[1..], ns[1..], t, n);
      assert (ts + [t])[1..] == ts[1..] + [t] && (ns + [n])[1..] == ns[1..] + [n];
    }
  }

  lemma {:induction false} ReadingSnoc(ts: seq<Tree>, t: Tree)
    ensures ReadingAll(ts + [t]) == ReadingAll(ts) + [Reading(t)]
  {
    if ts == [] {
      assert [] + [t] == [t] && [t][1..] == [];
    } else {
      ReadingSnoc(ts[1..], t);
      assert (ts + [t])[1..] == ts[1..] + [t];
    }
  }

  lemma {:induction false} ReadingAt(ts: seq<Tree>, i: nat)
    requires i < |ts|
    ensures |ReadingAll(ts)| == |ts| && ReadingAll(ts)[i] == Reading(ts[i])
  {
    ReadingLength(ts[1..]);
    if i > 0 {
      ReadingAt(ts[1..], i - 1);
    }
  }

  lemma {:induction false} ReadingLength(ts: seq<Tree>)
    ensures |ReadingAll(ts)| == |ts|
  {
    if ts != [] {
      ReadingLength(ts[1..]);
    }
  }

  /** copy_rtx_for_iterators, without the strings: a copy that shares no node with the original. */
  method Copy(original: Rtx?, ghost t: Tree) returns (x: Rtx?, ghost u: Tree)
    requires Shape(t, original) && forall n | n in Nodes(t) :: allocated(n)
    ensures Shape(u, x) && Reading(u) == Reading(t)
    ensures forall n | n in Nodes(u) :: fresh(n) && allocated(n)
    decreases t, 1
  {
    if original == null {
      return null, Nil;
    }
    var kids;
    ghost var us;
    kids, us := CopyOperands(original, t);
    var r := new Rtx(original.fields, kids);
    x, u := r, Tree(r, us);
  }

  lemma CopySnoc(us: seq<Tree>, kids: seq<Rtx?>, u: Tree, k: Rtx?, want: seq<Term>, i: nat)
    requires ShapeAll(us, kids) && Shape(u, k) && i < |want|
    requires ReadingAll(us) == want[..i] && Reading(u) == want[i]
    ensures ShapeAll(us + [u], kids + [k]) && ReadingAll(us + [u]) == want[..i + 1]
    ensures NodesAll(us + [u]) == NodesAll(us) + Nodes(u)
  {
    ShapeSnoc(us, kids, u, k);
    ReadingSnoc(us, u);
  }

  /** The loop over the operands. */
  method CopyOperands(original: Rtx, ghost t: Tree) returns (kids: seq<Rtx?>, ghost us: seq<Tree>)
    requires t.Tree? && Shape(t, original) && forall n | n in Nodes(t) :: allocated(n)
    ensures ShapeAll(us, kids) && ReadingAll(us) == ReadingAll(t.kids)
    ensures forall n | n in NodesAll(us) :: fresh(n) && allocated(n)
    decreases t, 0
  {
    hide Reading;
    ghost var want := ReadingAll(t.kids);
    assert Nodes(t) == {t.node} + NodesAll(t.kids);
    ReadingLength(t.kids);
    kids, us := [], [];
    assert NodesAll([]) == {} && ShapeAll([], []) && ReadingAll([]) == [];
    hide Nodes, NodesAll;
    var i := 0;
    while i < |original.kids|
      invariant i <= |original.kids| == |t.kids|
      invariant ShapeAll(t.kids, original.kids) && ReadingAll(t.kids) == want
      invariant forall n | n in NodesAll(t.kids) :: allocated(n)
      invariant ShapeAll(us, kids) && ReadingAll(us) == want[..i]
      invariant forall n | n in NodesAll(us) :: fresh(n) && allocated(n)
    {
      ShapeAt(t.kids, original.kids, i);
      ReadingAt(t.kids, i);
      var k;
      ghost var u;
      k, u := Copy(original.kids[i], t.kids[i]);
      CopySnoc(us, kids, u, k, want, i);
      kids, us := kids + [k], us + [u];
      i := i + 1;
    }
  }

  // ---------- uses of iterators ----------

  /** A field of a template node whose value an iterator gives. */
  datatype Use = Use(it: Mapping, x: Rtx, index: nat)

  /** Fields f of node x after the uses have been applied in order, the j-th with number ns[j]. */
  ghost function Applied(x: Rtx, f: seq<int>, uses: seq<Use>, ns: seq<int>): (r: seq<int>)
    requires |uses| == |ns|
    ensures |r| == |f|
  {
    if uses == [] then f
    else
      var k := |uses| - 1;
      var g := Applied(x, f, uses[..k], ns[..k]);
      if uses[k].x == x && uses[k].index < |f| then g[uses[k].index := ns[k]] else g
  }

  /** Whether some use sets field p of node x. */
  ghost predicate IsUsed(x: Rtx, p: nat, uses: seq<Use>) {
    exists j | 0 <= j < |uses| :: uses[j].x == x && uses[j].index == p
  }

  /** What was in the fields that are set does not matter. */
  lemma {:induction false} AppliedFrame(x: Rtx, f: seq<int>, g: seq<int>, uses: seq<Use>, ns: seq<int>, p: nat)
    requires |uses| == |ns| && |f| == |g| && p < |f| && (!IsUsed(x, p, uses) ==> f[p] == g[p])
    ensures Applied(x, f, uses, ns)[p] == Applied(x, g, uses, ns)[p]
    ensures !IsUsed(x, p, uses) ==> Applied(x, f, uses, ns)[p] == f[p]
  {
    if uses != [] {
      var k := |uses| - 1;
      if !(uses[k].x == x && uses[k].index == p) {
        if IsUsed(x, p, uses) {
          var j :| 0 <= j < |uses| && uses[j].x == x && uses[j].index == p;
          assert uses[..k][j].x == x && uses[..k][j].index == p;
        }
        if IsUsed(x, p, uses[..k]) {
          var j :| 0 <= j < k && uses[..k][j].x == x && uses[..k][j].index == p;
          assert uses[j].x == x && uses[j].index == p;
        }
        AppliedFrame(x, f, g, uses[..k], ns[..k], p);
      }
    }
  }

  /** The fields that no use sets are the same. */
  ghost predicate SameUnused(x: Rtx, f: seq<int>, g: seq<int>, uses: seq<Use>) {
    |f| == |g| && forall p: nat | p < |f| && !IsUsed(x, p, uses) :: f[p] == g[p]
  }

  lemma AppliedSame(x: Rtx, f: seq<int>, g: seq<int>, uses: seq<Use>, ns: seq<int>)
    requires |uses| == |ns| && SameUnused(x, f, g, uses)
    ensures Applied(x, f, uses, ns) == Applied(x, g, uses, ns)
    ensures SameUnused(x, f, Applied(x, g, uses, ns), uses)
  {
    forall p: nat | p < |f|
      ensures Applied(x, f, uses, ns)[p] == Applied(x, g, uses, ns)[p]
      ensures !IsUsed(x, p, uses) ==> Applied(x, g, uses, ns)[p] == g[p]
    {
      AppliedFrame(x, f, g, uses, ns, p);
      AppliedFrame(x, g, g, uses, ns, p);
    }
  }

  /** If the last use of a field belongs to an iterator, the field gets that iterator's number. */
  lemma LastUseWins(x: Rtx, f: seq<int>, uses: seq<Use>, ns: seq<int>, j: nat)
    requires |uses| == |ns| && j < |uses| && uses[j].x == x && uses[j].index < |f|
    requires forall k | j < k < |uses| :: !(uses[k].x == x && uses[k].index == uses[j].index)
    ensures Applied(x, f, uses, ns)[uses[j].index] == ns[j]
    decreases |uses|
  {
    var k := |uses| - 1;
    if j < k {
      LastUseWins(x, f, uses[..k], ns[..k], j);
    }
  }

  ghost function IndexOf(its: seq<Mapping>, m: Mapping): (k: nat)
    requires m in its
    ensures k < |its| && its[k] == m
  {
    if its[0] == m then 0 else 1 + IndexOf(its[1..], m)
  }

  ghost predicate UsesOK(uses: seq<Use>, its: seq<Mapping>) {
    forall u | u in uses :: u.it in its
  }

  /** The number of every use when iterator i has its d[i]-th value: all uses of one iterator get the
      same. */
  ghost function Numbers(uses: seq<Use>, its: seq<Mapping>, d: seq<nat>): (ns: seq<int>)
    requires UsesOK(uses, its) && |d| == |its| && forall i | 0 <= i < |its| :: d[i] < |its[i].list|
    reads its`list
    ensures |ns| == |uses|
    ensures forall j | 0 <= j < |uses| ::
      ns[j] == var i := IndexOf(its, uses[j].it); its[i].list[d[i]].number
  {
    if uses == [] then []
    else
      var k := |uses| - 1;
      var i := IndexOf(its, uses[k].it);
      Numbers(uses[..k], its, d) + [its[i].list[d[i]].number]
  }

  /** The template t, with the fields recorded in f0, for the given numbers. */
  ghost function Instance(t: Tree, f0: map<Rtx, seq<int>>, uses: seq<Use>, ns: seq<int>): Term
    requires |uses| == |ns| && Nodes(t) <= f0.Keys
  {
    match t
    case Nil => NoTerm
    case Tree(n, ks) => Term(Applied(n, f0[n], uses, ns), InstanceAll(ks, f0, uses, ns))
  }

  ghost function InstanceAll(ts: seq<Tree>, f0: map<Rtx, seq<int>>, uses: seq<Use>, ns: seq<int>): seq<Term>
    requires |uses| == |ns| && NodesAll(ts) <= f0.Keys
  {
    if ts == [] then [] else [Instance(ts[0], f0, uses, ns)] + InstanceAll(ts[1..], f0, uses, ns)
  }

  lemma {:induction false} ReadingIsInstance(t: Tree, f0: map<Rtx, seq<int>>, uses: seq<Use>, ns: seq<int>)
    requires |uses| == |ns| && Nodes(t) <= f0.Keys
    requires forall n | n in Nodes(t) :: n.fields == Applied(n, f0[n], uses, ns)
    ensures Reading(t) == Instance(t, f0, uses, ns)
    decreases t
  {
    if t.Tree? {
      ReadingIsInstanceAll(t.kids, f0, uses, ns);
    }
  }

  lemma {:induction false} ReadingIsInstanceAll(ts: seq<Tree>, f0: map<Rtx, seq<int>>, uses: seq<Use>, ns: seq<int>)
    requires |uses| == |ns| && NodesAll(ts) <= f0.Keys
    requires forall n | n in NodesAll(ts) :: n.fields == Applied(n, f0[n], uses, ns)
    ensures ReadingAll(ts) == InstanceAll(ts, f0, uses, ns)
    decreases ts
  {
    if ts != [] {
      ReadingIsInstance(ts[0], f0, uses, ns);
      ReadingIsInstanceAll(ts[1..], f0, uses, ns);
    }
  }

  /** The loop that applies the current iterator values to the template. */
  method ApplyUses(uses: seq<Use>, its: seq<Mapping>, ghost d: seq<nat>, ghost ns: set<Rtx>)
    requires UsesOK(uses, its) && Shows(its, d) && forall u | u in uses :: u.x in ns && u.index < |u.x.fields|
    modifies ns`fields
    ensures forall x | x in ns :: x.fields == Applied(x, old(x.fields), uses, Numbers(uses, its, d))
  {
    hide Numbers;
    ghost var numbers := Numbers(uses, its, d);
    var j := 0;
    while j < |uses|
      invariant j <= |uses|
      invariant forall x | x in ns :: x.fields == Applied(x, old(x.fields), uses[..j], numbers[..j])
    {
      var u := uses[j];
      assert u in uses;
      u.x.fields := u.x.fields[u.index := u.it.currentValue.number];
      assert uses[..j + 1][..j] == uses[..j] && numbers[..j + 1][..j] == numbers[..j];
      j := j + 1;
    }
    assert uses[..j] == uses && numbers[..j] == numbers;
  }

  // ---------- which iterators are in use ----------

  ghost predicate InUse(m: Mapping, uses: seq<Use>) {
    exists j | 0 <= j < |uses| :: uses[j].it == m
  }

  /** The defined iterators that are in use, in the order of their definition. */
  ghost function Used(defined: seq<Mapping>, uses: seq<Use>): seq<Mapping> {
    if defined == [] then []
    else
      var k := |defined| - 1;
      Used(defined[..k], uses) + if InUse(defined[k], uses) then [defined[k]] else []
  }

  lemma {:induction false} UsedMembers(defined: seq<Mapping>, uses: seq<Use>)
    requires NoDup(defined)
    ensures NoDup(Used(defined, uses))
    ensures forall m :: m in Used(defined, uses) <==> m in defined && InUse(m, uses)
  {
    if defined != [] {
      var k := |defined| - 1;
      UsedMembers(defined[..k], uses);
      assert defined == defined[..k] + [defined[k]];
      assert forall i | 0 <= i < k :: defined[..k][i] == defined[i] != defined[k];
    }
  }

  /** They come in the order of their definition: the i-th one in use is the ps[i]-th one defined. */
  lemma {:induction false} UsedInOrder(defined: seq<Mapping>, uses: seq<Use>) returns (ps: seq<nat>)
    ensures |ps| == |Used(defined, uses)| && forall i, j | 0 <= i < j < |ps| :: ps[i] < ps[j]
    ensures forall i | 0 <= i < |ps| :: ps[i] < |defined| && Used(defined, uses)[i] == defined[ps[i]]
  {
    ps := [];
    if defined != [] {
      var k := |defined| - 1;
      ps := UsedInOrder(defined[..k], uses);
      if InUse(defined[k], uses) {
        ps := ps + [k];
      }
    }
  }

  /** The iterators of the last run are cleared, and those with a use get their first value. */
  method MarkIterators(defined: seq<Mapping>, last: seq<Mapping>, uses: seq<Use>) returns (its: seq<Mapping>)
    requires NoDup(defined) && UsesOK(uses, defined) && forall m | m in defined :: IteratorReady(m)
    requires forall m | m in defined :: m.currentValue != null ==> m in last
    modifies last`currentValue, defined`currentValue
    ensures its == Used(defined, uses)
    ensures forall m | m in its :: m.list != [] && m.currentValue == m.list[0]
  {
    var i := 0;
    while i < |last|
      invariant i <= |last| && forall j | 0 <= j < i :: last[j].currentValue == null
      invariant forall m | m in defined :: m.currentValue != null ==> m in last
    {
      last[i].currentValue := null;
      i := i + 1;
    }
    assert forall m | m in defined :: m.currentValue == null;
    i := 0;
    while i < |uses|
      invariant i <= |uses|
      invariant forall m | m in defined :: m.currentValue == if InUse(m, uses[..i]) then m.values else null
    {
      assert uses[i] in uses;
      InUseMore(uses, i);
      uses[i].it.currentValue := uses[i].it.values;
      i := i + 1;
    }
    assert uses[..i] == uses;
    its := CollectIterators(defined, uses);
    UsedMembers(defined, uses);
    forall m | m in its ensures m.list != [] && m.currentValue == m.list[0] {
      assert IteratorReady(m);
    }
  }

  lemma InUseMore(uses: seq<Use>, i: nat)
    requires i < |uses|
    ensures forall m :: InUse(m, uses[..i + 1]) <==> InUse(m, uses[..i]) || m == uses[i].it
  {
    forall m ensures InUse(m, uses[..i + 1]) <==> InUse(m, uses[..i]) || m == uses[i].it {
      if InUse(m, uses[..i]) {
        var j :| 0 <= j < i && uses[..i][j].it == m;
        assert uses[..i + 1][j].it == m;
      }
      assert uses[..i + 1][i] == uses[i];
      if InUse(m, uses[..i + 1]) && m != uses[i].it {
        var j :| 0 <= j < i + 1 && uses[..i + 1][j].it == m;
        assert uses[..i][j].it == m;
      }
    }
  }

  /** The traversals of the iterator tables. */
  method CollectIterators(defined: seq<Mapping>, uses: seq<Use>) returns (its: seq<Mapping>)
    requires forall m | m in defined :: IteratorReady(m)
    requires forall m | m in defined :: m.currentValue == if InUse(m, uses) then m.values else null
    ensures its == Used(defined, uses)
  {
    its := [];
    var i := 0;
    while i < |defined|
      invariant i <= |defined| && its == Used(defined[..i], uses)
    {
      assert defined[i] in defined && IteratorReady(defined[i]);
      assert defined[..i + 1][..i] == defined[..i];
      if defined[i].currentValue != null {
        its := its + [defined[i]];
      }
      i := i + 1;
    }
    assert defined[..i] == defined;
  }

  // ---------- the expansion ----------

  ghost function FieldsOf(ns: set<Rtx>): map<Rtx, seq<int>>
    reads ns`fields
  {
    map n | n in ns :: n.fields
  }

  /** The template for the k-th combination of iterator values. */
  ghost predicate IsOutput(u: Tree, x: Rtx?, t: Tree, f0: map<Rtx, seq<int>>, uses: seq<Use>, its: seq<Mapping>, d: seq<nat>)
    requires UsesOK(uses, its) && |d| == |its| && (forall i | 0 <= i < |its| :: d[i] < |its[i].list|)
    requires Nodes(t) <= f0.Keys
    reads Nodes(u)`fields, Nodes(u)`kids, its`list
  {
    Shape(u, x) && Reading(u) == Instance(t, f0, uses, Numbers(uses, its, d))
  }

  /** The template fields are as at the start, apart from those that uses set. */
  ghost predicate Unspoilt(t: Tree, f0: map<Rtx, seq<int>>, uses: seq<Use>)
    requires Nodes(t) <= f0.Keys
    reads Nodes(t)`fields
  {
    forall n | n in Nodes(t) :: SameUnused(n, n.fields, f0[n], uses)
  }

  /** One round: the template takes the current values, and is copied. */
  method Emit(original: Rtx, its: seq<Mapping>, uses: seq<Use>, ghost d: seq<nat>, ghost t: Tree,
              ghost f0: map<Rtx, seq<int>>)
    returns (x: Rtx?, ghost u: Tree)
    requires Shape(t, original) && (forall n | n in Nodes(t) :: allocated(n)) && Nodes(t) <= f0.Keys
    requires UsesOK(uses, its) && Shows(its, d) && (forall v | v in uses :: v.x in Nodes(t) && v.index < |f0[v.x]|)
    requires Unspoilt(t, f0, uses)
    modifies Nodes(t)`fields
    ensures Unspoilt(t, f0, uses) && IsOutput(u, x, t, f0, uses, its, d)
    ensures forall n | n in Nodes(u) :: fresh(n) && allocated(n)
  {
    ghost var ns := Numbers(uses, its, d);
    ghost var was := FieldsOf(Nodes(t));
    ApplyUses(uses, its, d, Nodes(t));
    forall n | n in Nodes(t)
      ensures n.fields == Applied(n, f0[n], uses, ns) && SameUnused(n, n.fields, f0[n], uses)
    {
      assert SameUnused(n, was[n], f0[n], uses);
      AppliedSame(n, was[n], f0[n], uses, ns);
      AppliedSame(n, f0[n], f0[n], uses, ns);
    }
    ReadingIsInstance(t, f0, uses, ns);
    x, u := Copy(original, t);
  }

  ghost function OutputNodes(outs: seq<Tree>): set<Rtx> {
    set k, n | 0 <= k < |outs| && n in Nodes(outs[k]) :: n
  }

  /** Output k is the template for the k-th combination of values. */
  ghost predicate OutputAt(outs: seq<Tree>, queue: seq<Rtx?>, k: nat, t: Tree, f0: map<Rtx, seq<int>>, uses: seq<Use>,
                           its: seq<Mapping>)
    requires UsesOK(uses, its) && Nodes(t) <= f0.Keys && k < |outs| == |queue|
    reads Nodes(outs[k])`fields, Nodes(outs[k])`kids, its`list
  {
    var sizes := Sizes(its);
    k < |All(sizes)| && Digits(All(sizes)[k], sizes) && IsOutput(outs[k], queue[k], t, f0, uses, its, All(sizes)[k])
  }

  /** The outputs so far are those of the first combinations, and share no node. */
  ghost predicate OutputsOK(outs: seq<Tree>, queue: seq<Rtx?>, t: Tree, f0: map<Rtx, seq<int>>, uses: seq<Use>,
                            its: seq<Mapping>)
    requires UsesOK(uses, its) && Nodes(t) <= f0.Keys
    reads OutputNodes(outs)`fields, OutputNodes(outs)`kids, its`list
  {
    && |outs| == |queue|
    && (forall k | 0 <= k < |outs| ::
          assert Nodes(outs[k]) <= OutputNodes(outs);
          OutputAt(outs, queue, k, t, f0, uses, its))
    && forall k, l | 0 <= k < l < |outs| :: Nodes(outs[k]) !! Nodes(outs[l])
  }

  /** One round, whose output goes to the end of the queue. */
  method EmitNext(original: Rtx, its: seq<Mapping>, uses: seq<Use>, queue: seq<Rtx?>, ghost d: seq<nat>, ghost t: Tree,
                  ghost f0: map<Rtx, seq<int>>, ghost outs: seq<Tree>)
    returns (queue': seq<Rtx?>, ghost outs': seq<Tree>)
    requires Shape(t, original) && (forall n | n in Nodes(t) :: allocated(n)) && Nodes(t) <= f0.Keys
    requires UsesOK(uses, its) && Shows(its, d) && (forall v | v in uses :: v.x in Nodes(t) && v.index < |f0[v.x]|)
    requires Unspoilt(t, f0, uses) && OutputsOK(outs, queue, t, f0, uses, its)
    requires Digits(d, Sizes(its)) && |outs| < |All(Sizes(its))| && All(Sizes(its))[|outs|] == d
    requires forall n | n in OutputNodes(outs) :: allocated(n) && n !in Nodes(t)
    modifies Nodes(t)`fields
    ensures Unspoilt(t, f0, uses) && OutputsOK(outs', queue', t, f0, uses, its) && |queue'| == |queue| + 1 == |outs'|
    ensures forall n | n in OutputNodes(outs') :: n in OutputNodes(outs) || (fresh(n) && allocated(n))
  {
    hide Instance, Numbers, Reading, Shape, Unspoilt, Shows, Nodes;
    var x;
    ghost var u;
    x, u := Emit(original, its, uses, d, t, f0);
    queue', outs' := queue + [x], outs + [u];
    forall k | 0 <= k < |outs'| ensures OutputAt(outs', queue', k, t, f0, uses, its) {
      if k < |outs| {
        assert old(OutputAt(outs, queue, k, t, f0, uses, its));
        assert Nodes(outs[k]) <= OutputNodes(outs);
      }
    }
    forall k, l | 0 <= k < l < |outs'| ensures Nodes(outs'[k]) !! Nodes(outs'[l]) {
      assert Nodes(outs[k]) <= OutputNodes(outs);
    }
  }

  /** Counting on touches neither the template nor the outputs. */
  method AdvanceOnly(its: seq<Mapping>, ghost d: seq<nat>, ghost outs: seq<Tree>, ghost queue: seq<Rtx?>, ghost t: Tree,
                     ghost f0: map<Rtx, seq<int>>, ghost uses: seq<Use>)
    returns (more: bool, ghost d': seq<nat>)
    requires Ready(its) && Shows(its, d) && Digits(d, Sizes(its))
    requires UsesOK(uses, its) && Nodes(t) <= f0.Keys && Unspoilt(t, f0, uses)
    requires OutputsOK(outs, queue, t, f0, uses, its)
    requires (forall n | n in Nodes(t) :: allocated(n)) && forall n | n in OutputNodes(outs) :: allocated(n)
    modifies its`currentValue
    ensures Ready(its) && Sizes(its) == old(Sizes(its)) && Shows(its, d') && Digits(d', Sizes(its))
    ensures (more, d') == Increment(d, Sizes(its), |d|)
    ensures Unspoilt(t, f0, uses) && OutputsOK(outs, queue, t, f0, uses, its)
  {
    hide Ready, Shows, Increment;
    more, d' := Advance(its, d);
  }

  /** The loop of apply_iterators: one output for every combination of values, in lexicographic order,
      the last iterator fastest. */
  method EmitAll(original: Rtx, its: seq<Mapping>, uses: seq<Use>, ghost t: Tree)
    returns (queue: seq<Rtx?>, ghost outs: seq<Tree>)
    requires Shape(t, original) && (forall n | n in Nodes(t) :: allocated(n))
    requires Ready(its) && UsesOK(uses, its) && Shows(its, Zeros(|its|)) && AllPositive(Sizes(its))
    requires forall v | v in uses :: v.x in Nodes(t) && v.index < |v.x.fields|
    modifies Nodes(t)`fields, its`currentValue
    ensures Sizes(its) == old(Sizes(its)) && |queue| == Product(Sizes(its))
    ensures OutputsOK(outs, queue, t, old(FieldsOf(Nodes(t))), uses, its)
    ensures forall n | n in OutputNodes(outs) :: fresh(n)
  {
    hide Instance, Numbers, Reading, Rank, Product, All, Increment, OutputAt, OutputsOK, Unspoilt, OutputNodes, Zeros, Digits, AllPositive, UsesOK, Shows, Sizes;
    ghost var f0, sizes := FieldsOf(Nodes(t)), Sizes(its);
    ghost var d := Zeros(|its|);
    ZerosRank(sizes);
    AllLength(sizes);
    AtStart(t, f0, uses);
    queue, outs := [], [];
    NoOutputs(t, f0, uses, its);
    var more := true;
    while more
      invariant Ready(its) && Sizes(its) == sizes && Shows(its, d) && Digits(d, sizes)
      invariant Unspoilt(t, f0, uses) && Shape(t, original)
      invariant OutputsOK(outs, queue, t, f0, uses, its) && |outs| == |queue|
      invariant forall n | n in OutputNodes(outs) :: fresh(n) && allocated(n)
      invariant if more then |queue| == Rank(d, sizes) else |queue| == Product(sizes)
      decreases Product(sizes) - |queue|, more
    {
      AllAt(d, sizes);
      queue, outs := EmitNext(original, its, uses, queue, d, t, f0, outs);
      IncrementIsNext(d, sizes);
      more, d := AdvanceOnly(its, d, outs, queue, t, f0, uses);
    }
  }

  lemma NoOutputs(t: Tree, f0: map<Rtx, seq<int>>, uses: seq<Use>, its: seq<Mapping>)
    requires UsesOK(uses, its) && Nodes(t) <= f0.Keys
    ensures OutputsOK([], [], t, f0, uses, its) && OutputNodes([]) == {}
  {
  }

  lemma AtStart(t: Tree, f0: map<Rtx, seq<int>>, uses: seq<Use>)
    requires f0 == FieldsOf(Nodes(t))
    ensures Unspoilt(t, f0, uses)
  {
  }

  lemma UsedReady(defined: seq<Mapping>, uses: seq<Use>)
    requires NoDup(defined) && UsesOK(uses, defined) && forall m | m in defined :: IteratorReady(m)
    requires forall m | m in Used(defined, uses) :: m.list != [] && m.currentValue == m.list[0]
    ensures var its := Used(defined, uses);
      Ready(its) && UsesOK(uses, its) && Shows(its, Zeros(|its|)) && AllPositive(Sizes(its))
  {
    UsedMembers(defined, uses);
    forall u | u in uses ensures u.it in Used(defined, uses) {
      var j :| 0 <= j < |uses| && uses[j] == u;
      assert InUse(u.it, uses);
    }
    var its := Used(defined, uses);
    forall i | 0 <= i < |its| ensures its[i].list != [] && its[i].currentValue == its[i].list[0] {
      assert its[i] in its;
    }
    forall m | m in its ensures IteratorReady(m) {
      assert m in Used(defined, uses) && InUse(m, uses);
    }
  }

  /** apply_iterators, without attributes, overloaded names, conditions and define_subst. */
  method ApplyIterators(original: Rtx, defined: seq<Mapping>, last: seq<Mapping>, uses: seq<Use>, ghost t: Tree)
    returns (queue: seq<Rtx?>, its: seq<Mapping>, ghost outs: seq<Tree>)
    requires Shape(t, original) && (forall n | n in Nodes(t) :: allocated(n))
    requires NoDup(defined) && UsesOK(uses, defined) && forall m | m in defined :: IteratorReady(m)
    requires forall m | m in defined :: m.currentValue != null ==> m in last
    requires forall v | v in uses :: v.x in Nodes(t) && v.index < |v.x.fields|
    modifies Nodes(t)`fields, defined`currentValue, last`currentValue
    ensures uses == [] ==> queue == [original] && FieldsOf(Nodes(t)) == old(FieldsOf(Nodes(t)))
    ensures uses != [] ==>
      && its == Used(defined, uses) && UsesOK(uses, its) && |queue| == Product(Sizes(its))
      && OutputsOK(outs, queue, t, old(FieldsOf(Nodes(t))), uses, its)
      && forall n | n in OutputNodes(outs) :: fresh(n)
  {
    hide Sizes, OutputsOK;
    if uses == [] {
      return [original], [], [];
    }
    hide OutputsOK, Product, Used;
    its := MarkIterators(defined, last, uses);
    UsedReady(defined, uses);
    UsedMembers(defined, uses);
    queue, outs := EmitAll(original, its, uses, t);
  }
}
