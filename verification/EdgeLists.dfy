/** Neighbours in a list of edges, and how linking and unlinking an edge changes them. */
module EdgeLists {
  import opened Common
  import opened CallGraphTypes
  import opened CallSites

  ghost function Head(s: seq<Edge>): Edge? {
    if s == [] then null else s[0]
  }

  /** The edge after e in s, if any. */
  ghost function After(s: seq<Edge>, e: Edge): Edge? {
    if |s| < 2 then null else if s[0] == e then s[1] else After(s[1..], e)
  }

  /** The edge before e in s, if any. */
  ghost function Before(s: seq<Edge>, e: Edge): Edge? {
    if |s| < 2 then null else if s[1] == e then s[0] else Before(s[1..], e)
  }

  lemma NoDupTail(s: seq<Edge>)
    requires NoDup(s) && s != []
    ensures NoDup(s[1..]) && s[0] !in s[1..]
  {
  }

  lemma {:induction false} NeighboursIn(s: seq<Edge>, e: Edge)
    ensures After(s, e) != null ==> After(s, e) in s && e in s
    ensures Before(s, e) != null ==> Before(s, e) in s && e in s
  {
    if |s| >= 2 {
      NeighboursIn(s[1..], e);
    }
  }

  lemma {:induction false} AfterAt(s: seq<Edge>, k: nat)
    requires NoDup(s) && k < |s|
    ensures After(s, s[k]) == if k + 1 < |s| then s[k + 1] else null
    ensures Before(s, s[k]) == if k > 0 then s[k - 1] else null
  {
    if |s| >= 2 {
      NoDupTail(s);
      if k > 0 {
        assert s[1..][k - 1] == s[k];
        AfterAt(s[1..], k - 1);
      } else {
        NeighboursIn(s[1..], s[0]);
      }
    }
  }

  lemma {:induction false} AfterIsNotHead(s: seq<Edge>, x: Edge)
    requires NoDup(s) && s != []
    ensures After(s, x) != s[0]
  {
    if |s| >= 2 {
      NoDupTail(s);
      NeighboursIn(s[1..], x);
    }
  }

  /** x comes before e exactly if e comes after x. */
  lemma {:induction false} NeighboursAgree(s: seq<Edge>, x: Edge, e: Edge)
    requires NoDup(s)
    ensures After(s, x) == e <==> Before(s, e) == x
  {
    if |s| >= 2 {
      NoDupTail(s);
      NeighboursIn(s[1..], x);
      NeighboursIn(s[1..], e);
      AfterIsNotHead(s[1..], x);
      NeighboursAgree(s[1..], x, e);
    }
  }

  lemma PushNeighbours(s: seq<Edge>, e: Edge, x: Edge)
    requires e !in s && NoDup(s)
    ensures After([e] + s, x) == if x == e then Head(s) else After(s, x)
    ensures x != e ==> Before([e] + s, x) == if x == Head(s) then e else Before(s, x)
    ensures Before([e] + s, e) == null
  {
    var u := [e] + s;
    assert u[1..] == s;
    NeighboursIn(s, e);
    if x == Head(s) {
      AfterAt(s, 0);
    }
  }

  lemma UnlinkSecond(s: seq<Edge>, x: Edge)
    requires NoDup(s) && |s| >= 2 && x != s[1]
    ensures Before([s[0]] + s[2..], x) == if Before(s, x) == s[1] then s[0] else Before(s, x)
  {
    var t, u := s[1..], [s[0]] + s[2..];
    NoDupTail(s);
    NoDupTail(t);
    assert t[1..] == s[2..] && u[1..] == s[2..];
    NeighboursIn(s[2..], x);
  }

  lemma UnlinkFirst(s: seq<Edge>, x: Edge)
    requires NoDup(s) && s != [] && x != s[0]
    ensures After(s[1..], x) == if After(s, x) == s[0] then After(s, s[0]) else After(s, x)
    ensures Before(s[1..], x) == if Before(s, x) == s[0] then Before(s, s[0]) else Before(s, x)
    ensures Head(s[1..]) == After(s, s[0])
  {
    var t := s[1..];
    NoDupTail(s);
    AfterIsNotHead(s, x);
    AfterAt(s, 0);
    NeighboursIn(t, x);
    if t != [] {
      AfterAt(t, 0);
    }
  }

  /** Taking e out joins its neighbours. */
  lemma {:induction false} UnlinkNeighbours(s: seq<Edge>, e: Edge, x: Edge)
    requires NoDup(s) && x != e && e in s
    ensures After(Unlink(s, e), x) == if After(s, x) == e then After(s, e) else After(s, x)
    ensures Before(Unlink(s, e), x) == if Before(s, x) == e then Before(s, e) else Before(s, x)
    ensures Head(Unlink(s, e)) == if Head(s) == e then After(s, e) else Head(s)
  {
    if s[0] == e {
      UnlinkFirst(s, x);
    } else {
      NoDupTail(s);
      var t := s[1..];
      assert e in t;
      UnlinkNeighbours(t, e, x);
      NeighboursIn(t, e);
      var u := Unlink(t, e);
      assert ([s[0]] + u)[1..] == u;
      if t[0] == e {
        assert u == s[2..];
        UnlinkSecond(s, x);
      }
    }
  }

  lemma UnlinkHead(s: seq<Edge>, e: Edge)
    requires NoDup(s) && e in s
    ensures Head(Unlink(s, e)) == if Before(s, e) == null then After(s, e) else Head(s)
    ensures After(s, e) != e && Before(s, e) != e
    ensures After(s, e) != null ==> After(s, e) != Before(s, e)
  {
    var k :| 0 <= k < |s| && s[k] == e;
    AfterAt(s, k);
    UnlinkIsSlice(s, k);
  }
}
