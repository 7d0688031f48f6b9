/** The lists of collected names: appending without duplicates, and sorting in place. */
module NameLists {
  import opened Common
  import opened StableSort

  class Id {
    var next: Id?
    var sequence: int
    const name: string

    constructor (name: string)
      ensures this.name == name && next == null && sequence == 0
    {
      this.name, next, sequence := name, null, 0;
    }
  }

  ghost predicate LinkAt(s: seq<Id>, i: nat)
    requires i < |s|
    reads {s[i]}`next
  {
    s[i].next == if i + 1 < |s| then s[i + 1] else null
  }

  ghost predicate Chain(s: seq<Id>)
    reads s`next
  {
    NoDup(s) && forall i | 0 <= i < |s| :: LinkAt(s, i)
  }

  ghost function HeadOf(s: seq<Id>): Id? {
    if s == [] then null else s[0]
  }

  ghost function NamesOf(s: seq<Id>): (names: seq<string>)
    ensures |names| == |s| && forall i | 0 <= i < |s| :: names[i] == s[i].name
  {
    seq(|s|, i requires 0 <= i < |s| => s[i].name)
  }

  /** No name is on the list twice. */
  ghost predicate NoneTwice(names: seq<string>) {
    forall x | x in names :: multiset(names)[x] == 1
  }

  class Head {
    var first: Id?
    var last: Id?
    var number: int
    /** The list, in order. */
    ghost var ids: seq<Id>

    ghost predicate Linked()
      reads this, ids`next
    {
      Chain(ids) && first == HeadOf(ids) && number == |ids| && NoneTwice(NamesOf(ids))
    }

    /** A list that can be appended to. */
    ghost predicate Valid()
      reads this, ids`next
    {
      Linked() && (ids != [] ==> last == ids[|ids| - 1])
    }

    constructor ()
      ensures Valid() && ids == []
    {
      first, last, number, ids := null, null, 0, [];
    }
  }

  /** The lists are numbered from one counter. */
  class Collector {
    var sequenceNumber: int

    /** The search for a name that the last id has. */
    method FindName(head: Head, name: string, ghost all: seq<Id>) returns (p: Id, ghost k: nat)
      requires Chain(all) && all != [] && head.first == all[0] && all[|all| - 1].name == name
      ensures k < |all| && p == all[k] && p.name == name && forall j | 0 <= j < k :: all[j].name != name
    {
      p, k := head.first, 0;
      while name != p.name
        invariant k < |all| && p == all[k] && forall j | 0 <= j < k :: all[j].name != name
        decreases |all| - k
      {
        assert LinkAt(all, k);
        p := p.next;
        k := k + 1;
      }
    }

    method LinkLast(head: Head, newid: Id)
      requires head.Valid() && newid !in head.ids && newid.next == null
      modifies head`first, (if head.ids == [] then {} else {head.ids[|head.ids| - 1]})`next
      ensures Chain(head.ids + [newid]) && head.first == (head.ids + [newid])[0]
    {
      hide NoneTwice, NamesOf;
      ghost var was := head.ids;
      if head.first != null {
        head.last.next := newid;
      } else {
        head.first := newid;
      }
      Appended(was, newid);
    }

    method UnlinkLast(head: Head, ghost newid: Id)
      requires Chain(head.ids + [newid]) && head.ids != [] && head.last == head.ids[|head.ids| - 1]
      modifies head.last`next
      ensures Chain(head.ids)
    {
      ghost var was, all := head.ids, head.ids + [newid];
      assert forall i | 0 <= i < |was| :: was[i] == all[i];
      assert forall i | 0 <= i < |was| - 1 :: LinkAt(all, i) && was[i] != head.last;
      head.last.next := null;
    }

    method Keep(head: Head, newid: Id)
      requires Chain(head.ids + [newid]) && head.first == (head.ids + [newid])[0]
      requires head.number == |head.ids| && NoneTwice(NamesOf(head.ids + [newid]))
      modifies this`sequenceNumber, newid`sequence, head`last, head`number, head`ids
      ensures head.Valid() && head.ids == old(head.ids) + [newid] && head.last == newid
      ensures newid.sequence == sequenceNumber == old(sequenceNumber) + 1
    {
      hide NoneTwice, NamesOf;
      sequenceNumber := sequenceNumber + 1;
      newid.sequence := sequenceNumber;
      head.last := newid;
      head.number := head.number + 1;
      head.ids := head.ids + [newid];
    }

    /** add_to_list: a name goes to the end unless it is there already. */
    method AddToList(head: Head, name: string)
      requires head.Valid()
      modifies this, head, (if head.ids == [] then {} else {head.ids[|head.ids| - 1]})`next
      ensures head.Valid()
      ensures if name in NamesOf(old(head.ids)) then head.ids == old(head.ids) && sequenceNumber == old(sequenceNumber)
        else
          && |head.ids| == |old(head.ids)| + 1 && head.ids[..|old(head.ids)|] == old(head.ids)
          && fresh(head.last) && head.last.name == name
          && head.last.sequence == sequenceNumber == old(sequenceNumber) + 1
    {
      hide NoneTwice, NamesOf;
      ghost var was := head.ids;
      var newid := new Id(name);
      ghost var all := was + [newid];
      LinkLast(head, newid);
      var p, k := FindName(head, name, all);
      FoundAt(was, newid, k);
      if p != newid {
        UnlinkLast(head, newid);
      } else {
        Keep(head, newid);
      }
    }

    /** The search for the place of an id: in front of the first one with a lower priority. */
    method FindPlace(head: Head, id: Id, ghost s: seq<Id>) returns (prev: Id?, cur: Id?, ghost j: nat)
      requires Chain(s) && head.first == HeadOf(s)
      ensures j <= |s| && prev == (if j == 0 then null else s[j - 1]) && cur == if j < |s| then s[j] else null
      ensures forall i | 0 <= i < j :: id.sequence <= s[i].sequence
      ensures j < |s| ==> id.sequence > s[j].sequence
    {
      prev, cur, j := null, head.first, 0;
      while cur != null && id.sequence <= cur.sequence
        invariant j <= |s| && prev == (if j == 0 then null else s[j - 1]) && cur == if j < |s| then s[j] else null
        invariant forall i | 0 <= i < j :: id.sequence <= s[i].sequence
        decreases |s| - j
      {
        assert LinkAt(s, j);
        prev, cur := cur, cur.next;
        j := j + 1;
      }
    }

    /** One round of the insertion sort. */
    method InsertId(head: Head, id: Id, ghost s: seq<Id>) returns (ghost s': seq<Id>)
      requires Chain(s) && id !in s && head.first == HeadOf(s)
      requires id.sequence == Priority(id.name) && forall x | x in s :: x.sequence == Priority(x.name)
      modifies head`first, {id}`next, s`next
      ensures Chain(s') && head.first == HeadOf(s')
      ensures NamesOf(s') == Insert(id.name, NamesOf(s)) && multiset(s') == multiset(s) + multiset{id}
    {
      var prev, cur;
      ghost var j;
      prev, cur, j := FindPlace(head, id, s);
      s' := s[..j] + [id] + s[j..];
      PlaceIsInsert(id, s, j);
      LinkIn(head, id, prev, cur, s, j);
    }

    method LinkIn(head: Head, id: Id, prev: Id?, cur: Id?, ghost s: seq<Id>, ghost j: nat)
      requires Chain(s) && id !in s && head.first == HeadOf(s)
      requires j <= |s| && prev == (if j == 0 then null else s[j - 1]) && cur == if j < |s| then s[j] else null
      modifies head`first, {id}`next, s`next
      ensures Chain(s[..j] + [id] + s[j..]) && head.first == HeadOf(s[..j] + [id] + s[j..])
    {
      ghost var s' := s[..j] + [id] + s[j..];
      id.next := cur;
      if prev == null {
        head.first := id;
      } else {
        prev.next := id;
      }
      forall i | 0 <= i < |s'| ensures LinkAt(s', i) {
        Spliced(s, id, j, i);
        if i != j {
          assert old(LinkAt(s, if i < j then i else i - 1));
        }
      }
      forall i, k | 0 <= i < k < |s'| ensures s'[i] != s'[k] {
        Spliced(s, id, j, i);
        Spliced(s, id, j, k);
      }
    }

    /** One round: the id is given its priority, and goes to its place among those before it. */
    method SortOne(head: Head, id: Id, ghost all: seq<Id>, ghost k: nat, ghost s: seq<Id>)
      returns (next: Id?, ghost s': seq<Id>)
      requires NoDup(all) && k < |all| && id == all[k]
      requires SortState(head, all, k, s)
      modifies head`first, all`next, all`sequence
      ensures next == (if k + 1 < |all| then all[k + 1] else null) && SortState(head, all, k + 1, s')
    {
      hide HeadOf, Priority, NamesOf, Insert;
      assert LinkAt(all, k);
      Separate(all, k, s);
      next := id.next;
      id.sequence := ExtractInitPriority(id.name);
      s' := InsertId(head, id, s);
      SortedOne(all, k, s, s');
      forall i | k + 1 <= i < |all| ensures LinkAt(all, i) {
        assert old(LinkAt(all, i));
      }
    }

    /** The sorting loop. */
    method InsertRounds(head: Head, ghost all: seq<Id>) returns (ghost s: seq<Id>)
      requires Chain(all) && head.first == HeadOf(all)
      modifies head`first, all`next, all`sequence
      ensures SortState(head, all, |all|, s)
    {
      hide SortState, NamesOf, Sorted, LinkAt;
      var id := head.first;
      head.first := null;
      s := [];
      ghost var k := 0;
      SortNone(head, all);
      while id != null
        invariant k <= |all| && id == if k < |all| then all[k] else null
        invariant SortState(head, all, k, s)
        decreases |all| - k
      {
        id, s := SortOne(head, id, all, k, s);
        k := k + 1;
      }
    }

    method InsertAll(head: Head) returns (ghost s: seq<Id>)
      requires head.Linked()
      modifies head`first, head.ids`next, head.ids`sequence
      ensures Chain(s) && head.first == HeadOf(s) && NamesOf(s) == Sorted(NamesOf(head.ids))
      ensures multiset(s) == multiset(head.ids) && |s| == |head.ids| && NoneTwice(NamesOf(s))
      ensures forall i | 0 <= i < |s| :: s[i] in head.ids
    {
      ghost var all := head.ids;
      s := InsertRounds(head, all);
      SortDone(head, all, s);
    }

    /** sort_ids: by priority, descending, and stable. What last points to is not looked at, and stays. */
    method SortIds(head: Head)
      requires head.Linked()
      modifies this, head`first, head`ids, head.ids`next, head.ids`sequence
      ensures head.Linked() && NamesOf(head.ids) == Sorted(NamesOf(old(head.ids)))
      ensures multiset(head.ids) == multiset(old(head.ids))
      ensures sequenceNumber == old(sequenceNumber) + |head.ids|
      ensures forall i | 0 <= i < |head.ids| :: head.ids[i].sequence == old(sequenceNumber) + 1 + i
      ensures old(head.Valid()) && old(head.ids) != [] ==>
        (head.Valid() <==> forall x | x in head.ids :: Priority(x.name) >= Priority(head.last.name))
    {
      hide NoneTwice, Chain, LinkAt, Sorted, NamesOf, Priority;
      ghost var all := head.ids;
      ghost var s := InsertAll(head);
      Renumber(head, s);
      head.ids := s;
      if all != [] {
        LastAgain(all, s);
      }
    }

    /** The numbers that the tables are written with. */
    method Renumber(head: Head, ghost s: seq<Id>)
      requires Chain(s) && head.first == HeadOf(s)
      modifies this, s`sequence
      ensures Chain(s) && sequenceNumber == old(sequenceNumber) + |s|
      ensures forall i | 0 <= i < |s| :: s[i].sequence == old(sequenceNumber) + 1 + i
    {
      var id := head.first;
      ghost var k := 0;
      while id != null
        invariant k <= |s| && id == if k < |s| then s[k] else null
        invariant sequenceNumber == old(sequenceNumber) + k
        invariant forall i | 0 <= i < k :: s[i].sequence == old(sequenceNumber) + 1 + i
        decreases |s| - k
      {
        assert LinkAt(s, k);
        sequenceNumber := sequenceNumber + 1;
        id.sequence := sequenceNumber;
        id := id.next;
        k := k + 1;
      }
    }
  }

  /** The first k ids have been sorted into s. */
  ghost predicate SortState(head: Head, all: seq<Id>, k: nat, s: seq<Id>)
    requires k <= |all|
    reads head`first, s`next, s`sequence, all`next
  {
    && Chain(s) && head.first == HeadOf(s) && (forall i | k <= i < |all| :: LinkAt(all, i))
    && multiset(s) == multiset(all[..k]) && (forall x | x in s :: x.sequence == Priority(x.name))
    && SortInto(NamesOf(s), NamesOf(all)[k..]) == Sorted(NamesOf(all))
  }

  lemma SortNone(head: Head, all: seq<Id>)
    requires head.first == null && forall i | 0 <= i < |all| :: LinkAt(all, i)
    ensures SortState(head, all, 0, [])
  {
    assert NamesOf(all)[0..] == NamesOf(all) && NamesOf([]) == [];
  }

  lemma SortedOne(all: seq<Id>, k: nat, s: seq<Id>, s': seq<Id>)
    requires k < |all| && multiset(s) == multiset(all[..k]) && multiset(s') == multiset(s) + multiset{all[k]}
    requires NamesOf(s') == Insert(all[k].name, NamesOf(s))
    requires SortInto(NamesOf(s), NamesOf(all)[k..]) == Sorted(NamesOf(all))
    ensures multiset(s') == multiset(all[..k + 1])
    ensures forall x | x in s' :: x in s || x == all[k]
    ensures SortInto(NamesOf(s'), NamesOf(all)[k + 1..]) == Sorted(NamesOf(all))
  {
    assert all[..k + 1] == all[..k] + [all[k]];
    var rest := NamesOf(all)[k..];
    assert rest[0] == all[k].name && rest[1..] == NamesOf(all)[k + 1..];
    forall x | x in s' ensures x in s || x == all[k] {
      assert x in multiset(s');
    }
  }

  lemma SortDone(head: Head, all: seq<Id>, s: seq<Id>)
    requires SortState(head, all, |all|, s) && NoneTwice(NamesOf(all))
    ensures Chain(s) && head.first == HeadOf(s) && NamesOf(s) == Sorted(NamesOf(all))
    ensures multiset(s) == multiset(all) && |s| == |all|
    ensures NoneTwice(NamesOf(s)) && forall i | 0 <= i < |s| :: s[i] in all
  {
    assert all[..|all|] == all;
    assert |multiset(s)| == |s| && |multiset(all)| == |all|;
    SortIsStable(NamesOf(all));
    forall x | x in NamesOf(s) ensures multiset(NamesOf(s))[x] == 1 {
      assert x in multiset(NamesOf(all));
    }
    forall i | 0 <= i < |s| ensures s[i] in all {
      assert s[i] in multiset(s);
    }
  }

  /** What was last is last again exactly if no priority is lower. */
  lemma LastAgain(all: seq<Id>, s: seq<Id>)
    requires all != [] && multiset(s) == multiset(all) && NamesOf(s) == Sorted(NamesOf(all)) && NoneTwice(NamesOf(s))
    ensures s != []
    ensures var b := all[|all| - 1];
      s[|s| - 1] == b <==> forall x | x in s :: Priority(x.name) >= Priority(b.name)
  {
    var b, names := all[|all| - 1], NamesOf(all);
    assert multiset(all)[b] > 0 && b in s;
    SamePriorities(all, s, b);
    LastByName(s, b);
    hide NamesOf, Sorted, Priority, NoneTwice;
    LastStays(names);
  }

  lemma LastByName(s: seq<Id>, b: Id)
    requires b in s && NoneTwice(NamesOf(s))
    ensures s[|s| - 1] == b <==> NamesOf(s)[|s| - 1] == b.name
  {
    hide NoneTwice;
    var i :| 0 <= i < |s| && s[i] == b;
    if i < |s| - 1 {
      NoneTwiceAt(NamesOf(s), i, |s| - 1);
    }
  }

  lemma SamePriorities(all: seq<Id>, s: seq<Id>, b: Id)
    requires multiset(s) == multiset(all)
    ensures (forall x | x in NamesOf(all) :: Priority(x) >= Priority(b.name))
      <==> forall x | x in s :: Priority(x.name) >= Priority(b.name)
  {
    hide Priority;
    var names := NamesOf(all);
    forall x | x in s ensures x.name in names {
      assert multiset(all)[x] > 0;
      var i :| 0 <= i < |all| && all[i] == x;
      assert names[i] == x.name;
    }
    forall n | n in names ensures exists x | x in s :: x.name == n {
      var i :| 0 <= i < |names| && names[i] == n;
      assert multiset(s)[all[i]] > 0;
    }
  }

  lemma Appended(was: seq<Id>, newid: Id)
    requires newid !in was && newid.next == null && NoDup(was)
    requires forall i | 0 <= i < |was| - 1 :: LinkAt(was, i)
    requires was != [] ==> was[|was| - 1].next == newid
    ensures Chain(was + [newid])
  {
    var all := was + [newid];
    forall i | 0 <= i < |all| ensures LinkAt(all, i) {
      assert i < |was| - 1 ==> LinkAt(was, i);
    }
  }

  /** Where the loop stops says whether the name is new. */
  lemma FoundAt(was: seq<Id>, newid: Id, k: nat)
    requires newid !in was && NoneTwice(NamesOf(was)) && k <= |was|
    requires var all := was + [newid];
      all[k].name == newid.name && forall j | 0 <= j < k :: all[j].name != newid.name
    ensures (k == |was| <==> newid.name !in NamesOf(was)) && (k == |was| <==> (was + [newid])[k] == newid)
    ensures k == |was| ==> NoneTwice(NamesOf(was + [newid]))
  {
    var all, names := was + [newid], NamesOf(was);
    if k == |was| {
      forall j | 0 <= j < |was| ensures names[j] != newid.name {
        assert all[j] == was[j];
      }
      assert NamesOf(all) == names + [newid.name];
    } else {
      assert all[k] == was[k] && names[k] == newid.name;
    }
  }

  /** The place found is the one the specification inserts at. */
  lemma PlaceIsInsert(id: Id, s: seq<Id>, j: nat)
    requires Chain(s) && id !in s && j <= |s|
    requires id.sequence == Priority(id.name) && forall x | x in s :: x.sequence == Priority(x.name)
    requires forall i | 0 <= i < j :: id.sequence <= s[i].sequence
    requires j < |s| ==> id.sequence > s[j].sequence
    ensures NamesOf(s[..j] + [id] + s[j..]) == Insert(id.name, NamesOf(s))
    ensures multiset(s[..j] + [id] + s[j..]) == multiset(s) + multiset{id}
  {
    hide NamesOf, Chain, NoDup, Priority, Insert;
    forall i | 0 <= i < |s| ensures s[i].sequence == Priority(NamesOf(s)[i]) {
      assert s[i] in s;
    }
    InsertAt(id.name, NamesOf(s), j);
    NamesSpliced(s, id, j);
    SplicedElements(s, id, j);
  }

  lemma SplicedElements(s: seq<Id>, id: Id, j: nat)
    requires j <= |s|
    ensures multiset(s[..j] + [id] + s[j..]) == multiset(s) + multiset{id}
  {
    assert s == s[..j] + s[j..];
  }

  lemma NamesSpliced(s: seq<Id>, id: Id, j: nat)
    requires j <= |s|
    ensures NamesOf(s[..j] + [id] + s[j..]) == NamesOf(s)[..j] + [id.name] + NamesOf(s)[j..]
  {
    var a, b := NamesOf(s[..j] + [id] + s[j..]), NamesOf(s)[..j] + [id.name] + NamesOf(s)[j..];
    assert |a| == |b| && forall i | 0 <= i < |a| :: a[i] == b[i];
  }

  lemma Spliced(s: seq<Id>, id: Id, j: nat, i: nat)
    requires j <= |s| && i <= |s|
    ensures var u := s[..j] + [id] + s[j..];
      && u[i] == (if i < j then s[i] else if i == j then id else s[i - 1])
      && (i < |s| ==> u[i + 1] == if i + 1 < j then s[i + 1] else if i + 1 == j then id else s[i])
  {
  }

  /** The ids still to be sorted are not among those that have been. */
  lemma Separate(all: seq<Id>, k: nat, s: seq<Id>)
    requires NoDup(all) && k < |all|
    requires multiset(s) == multiset(all[..k])
    ensures forall i | k <= i < |all| :: all[i] !in s
    ensures forall i | 0 <= i < |s| :: s[i] in all
  {
    forall i | 0 <= i < |s| ensures s[i] in all[..k] {
      assert s[i] in multiset(s);
    }
  }

  lemma NoneTwiceAt(names: seq<string>, i: nat, j: nat)
    requires NoneTwice(names) && i < j < |names|
    ensures names[i] != names[j]
  {
    var x := names[j];
    assert names == names[..j] + ([x] + names[j + 1..]);
    assert multiset(names) == multiset(names[..j]) + multiset([x] + names[j + 1..]);
    assert x in names && multiset([x] + names[j + 1..])[x] >= 1;
    assert x !in multiset(names[..j]);
    assert names[..j][i] in names[..j];
  }

  lemma {:induction false} LastWith(s: seq<string>)
    requires s != []
    ensures var w := WithPriority(s, Priority(s[|s| - 1])); w != [] && w[|w| - 1] == s[|s| - 1]
  {
    if |s| > 1 {
      LastWith(s[1..]);
    }
  }

  /** Appending goes on to work after sorting exactly if the name that was last is last again, which
      it is if and only if none has a lower priority. */
  lemma LastStays(before: seq<string>)
    requires before != []
    ensures var after, b := Sorted(before), before[|before| - 1];
      after != [] && (after[|after| - 1] == b <==> forall x | x in before :: Priority(x) >= Priority(b))
  {
    hide Sorted, Priority, WithPriority;
    var after, b := Sorted(before), before[|before| - 1];
    SortIsStable(before);
    LastIsLowest(before);
    var z := after[|after| - 1];
    assert Priority(b) >= Priority(z);
    if Priority(z) == Priority(b) {
      LastWith(before);
      LastWith(after);
      assert WithPriority(after, Priority(b)) == WithPriority(before, Priority(b));
    }
  }

  lemma LastIsLowest(before: seq<string>)
    requires before != []
    ensures var after := Sorted(before);
      after != [] && after[|after| - 1] in before
      && forall x | x in before :: Priority(x) >= Priority(after[|after| - 1])
  {
    hide Sorted, Priority;
    var after := Sorted(before);
    SortIsStable(before);
    assert before[0] in multiset(after);
    var z := after[|after| - 1];
    assert z in multiset(before);
    forall x | x in before ensures Priority(x) >= Priority(z) {
      assert x in multiset(after);
      var i :| 0 <= i < |after| && after[i] == x;
    }
  }
}
