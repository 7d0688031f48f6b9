/** What the emitted initialization and finalization routines run, and in which order. */
module InitTables {
  import opened StableSort

  datatype Call = RegisterFrames | DeregisterFrames | Entry(name: string)

  ghost function Entries(names: seq<string>): (r: seq<Call>)
    ensures |r| == |names| && forall i | 0 <= i < |names| :: r[i] == Entry(names[i])
  {
    seq(|names|, i requires 0 <= i < |names| => Entry(names[i]))
  }

  /** The tables of the emitted file: the names in list order, then the frames if there are any. */
  method WriteTable(names: seq<string>, frames: bool, last: Call) returns (table: seq<Call>)
    ensures table == Entries(names) + if frames then [last] else []
  {
    table := [];
    var i := 0;
    while i < |names|
      invariant i <= |names| && |table| == i && forall j | 0 <= j < i :: table[j] == Entry(names[j])
    {
      table := table + [Entry(names[i])];
      i := i + 1;
    }
    assert table == Entries(names);
    if frames {
      table := table + [last];
    }
  }

  /** Frames are registered first; then the constructors, from right to left. */
  ghost function InitCalls(ctors: seq<string>, frames: bool): seq<Call> {
    (if frames then [RegisterFrames] else []) + Entries(Reversed(ctors))
  }

  ghost function FiniCalls(dtors: seq<string>, frames: bool): seq<Call> {
    Entries(dtors) + if frames then [DeregisterFrames] else []
  }

  ghost function Reversed(s: seq<string>): (r: seq<string>)
    ensures |r| == |s| && forall i | 0 <= i < |s| :: r[i] == s[|s| - 1 - i]
  {
    if s == [] then [] else Reversed(s[1..]) + [s[0]]
  }

  /** The counter of the emitted file, and what has been called so far. */
  datatype State = State(count: int, trace: seq<Call>)

  ghost function AfterInit(s: State, calls: seq<Call>): State {
    State(s.count + 1, s.trace + if s.count == 0 then calls else [])
  }

  /** Without destructors and frames it does not even count. */
  ghost function AfterFini(s: State, calls: seq<Call>): State {
    if calls == [] then s else State(s.count - 1, s.trace + if s.count == 1 then calls else [])
  }

  /** A program linked with the emitted file. */
  class Program {
    const ctors: seq<Call>
    const dtors: seq<Call>
    var count: int
    /** What has been called so far. */
    var trace: seq<Call>

    constructor (constructors: seq<string>, destructors: seq<string>, frames: bool)
      ensures ctors == Entries(constructors) + (if frames then [RegisterFrames] else [])
      ensures dtors == Entries(destructors) + (if frames then [DeregisterFrames] else [])
      ensures count == 0 && trace == []
    {
      var c := WriteTable(constructors, frames, RegisterFrames);
      var d := WriteTable(destructors, frames, DeregisterFrames);
      ctors, dtors := c, d;
      count, trace := 0, [];
    }

    /** The emitted initialization routine; n is the size written into it. */
    method Init(n: nat, ghost names: seq<string>, ghost frames: bool)
      requires ctors == Entries(names) + (if frames then [RegisterFrames] else []) && n == |ctors|
      modifies this
      ensures State(count, trace) == AfterInit(old(State(count, trace)), InitCalls(names, frames))
    {
      count := count + 1;
      if n > 0 {
        if count - 1 != 0 {
          return;
        }
        RunBackwards(n, InitCalls(names, frames));
      }
    }

    /** The loop down the table. */
    method RunBackwards(n: nat, ghost calls: seq<Call>)
      requires n == |ctors| == |calls| && forall k | 0 <= k < n :: calls[k] == ctors[n - 1 - k]
      modifies this`trace
      ensures trace == old(trace) + calls
    {
      var p := n;
      ghost var k := 0;
      while p > 0
        invariant p >= 0 && p + k == n && trace == old(trace) + calls[..k]
      {
        p := p - 1;
        assert calls[..k + 1] == calls[..k] + [calls[k]];
        trace := trace + [ctors[p]];
        k := k + 1;
      }
      assert calls[..k] == calls;
    }

    /** The emitted finalization routine. */
    method Fini(n: nat, ghost names: seq<string>, ghost frames: bool)
      requires dtors == FiniCalls(names, frames) && n == |dtors|
      modifies this
      ensures State(count, trace) == AfterFini(old(State(count, trace)), FiniCalls(names, frames))
    {
      if n > 0 {
        count := count - 1;
        if count != 0 {
          return;
        }
        var p := 0;
        while p < n
          invariant p <= n && count == old(count) - 1 && trace == old(trace) + dtors[..p]
        {
          assert dtors[..p + 1] == dtors[..p] + [dtors[p]];
          trace := trace + [dtors[p]];
          p := p + 1;
        }
        assert dtors[..n] == dtors;
      }
    }
  }

  // ---------- the order ----------

  lemma EntriesCons(names: seq<string>)
    requires names != []
    ensures Entries(names) == [Entry(names[0])] + Entries(names[1..])
  {
  }

  lemma {:induction false} EntriesCount(names: seq<string>, x: string)
    ensures multiset(Entries(names))[Entry(x)] == multiset(names)[x]
  {
    if names != [] {
      hide Entries;
      var first, rest := names[0], names[1..];
      EntriesCount(rest, x);
      EntriesCons(names);
      assert names == [first] + rest && multiset(names) == multiset{first} + multiset(rest);
      assert multiset(Entries(names)) == multiset{Entry(first)} + multiset(Entries(rest));
    }
  }

  lemma {:induction false} ReversedCount(s: seq<string>)
    ensures multiset(Reversed(s)) == multiset(s)
  {
    if s != [] {
      ReversedCount(s[1..]);
      assert s == [s[0]] + s[1..];
    }
  }

  /** Every constructor that was collected runs, once for each time it was, and nothing else does. */
  lemma AllConstructorsRun(ctors: seq<string>, frames: bool, x: string)
    ensures multiset(InitCalls(Sorted(ctors), frames))[Entry(x)] == multiset(ctors)[x]
    ensures |InitCalls(Sorted(ctors), frames)| == |ctors| + if frames then 1 else 0
  {
    SortIsStable(ctors);
    EntriesCount(Reversed(Sorted(ctors)), x);
    ReversedCount(Sorted(ctors));
    assert |multiset(Sorted(ctors))| == |Sorted(ctors)| && |multiset(ctors)| == |ctors|;
  }

  /** Constructors run in the order of their priority numbers, after the frames have been registered. */
  lemma ConstructorOrder(ctors: seq<string>, frames: bool)
    ensures var calls := InitCalls(Sorted(ctors), frames);
      && (frames ==> calls[0] == RegisterFrames)
      && forall i, j | 0 <= i < j < |calls| && calls[i].Entry? && calls[j].Entry? ::
           Priority(calls[i].name) <= Priority(calls[j].name)
  {
    SortIsStable(ctors);
  }

  /** The finalization undoes a call of the initialization. */
  ghost predicate Undoes(fini: Call, init: Call, ctors: seq<string>, dtors: seq<string>) {
    match fini
    case DeregisterFrames => init == RegisterFrames
    case Entry(d) => init.Entry? && PairIn(init.name, d, ctors, dtors)
    case RegisterFrames => false
  }

  /** Constructors and destructors that were collected in pairs: what was set up last is torn down
      first. */
  lemma FiniReversesInit(ctors: seq<string>, dtors: seq<string>, frames: bool)
    requires |ctors| == |dtors| && forall k | 0 <= k < |ctors| :: Priority(ctors[k]) == Priority(dtors[k])
    ensures var init, fini := InitCalls(Sorted(ctors), frames), FiniCalls(Sorted(dtors), frames);
      |fini| == |init| && forall k | 0 <= k < |fini| :: Undoes(fini[k], init[|init| - 1 - k], ctors, dtors)
  {
    hide Priority;
    SortPairs(ctors, dtors);
  }

  // ---------- runs ----------

  /** A run of calls, true for the initialization and false for the finalization. */
  ghost function RunOf(ops: seq<bool>, init: seq<Call>, fini: seq<Call>): State {
    if ops == [] then State(0, [])
    else
      var s := RunOf(ops[..|ops| - 1], init, fini);
      if ops[|ops| - 1] then AfterInit(s, init) else AfterFini(s, fini)
  }

  /** No more finalizations than initializations, at any time. */
  ghost predicate Balanced(ops: seq<bool>, init: seq<Call>, fini: seq<Call>) {
    forall i | 0 <= i <= |ops| :: RunOf(ops[..i], init, fini).count >= 0
  }

  ghost function Rounds(k: nat, init: seq<Call>, fini: seq<Call>): seq<Call> {
    if k == 0 then [] else Rounds(k - 1, init, fini) + init + fini
  }

  /** In a balanced run everything is set up and torn down in turns, and is set up exactly while the
      count is positive. */
  lemma {:induction false} WorkAlternates(ops: seq<bool>, init: seq<Call>, fini: seq<Call>) returns (k: nat)
    requires Balanced(ops, init, fini) && fini != []
    ensures var s := RunOf(ops, init, fini);
      s.trace == Rounds(k, init, fini) + if s.count > 0 then init else []
  {
    if ops == [] {
      k := 0;
    } else {
      var n := |ops| - 1;
      assert ops[..|ops|] == ops;
      forall i | 0 <= i <= n ensures RunOf(ops[..n][..i], init, fini).count >= 0 {
        assert ops[..n][..i] == ops[..i];
      }
      k := WorkAlternates(ops[..n], init, fini);
      var s := RunOf(ops[..n], init, fini);
      assert RunOf(ops, init, fini).count >= 0;
      if !ops[n] && s.count == 1 {
        assert s.trace + fini == Rounds(k, init, fini) + init + fini;
        k := k + 1;
      }
    }
  }

  /** With nothing to finalize the count never goes down: a second initialization does nothing, even
      after as many finalizations. */
  lemma {:induction false} SetUpOnce(ops: seq<bool>, init: seq<Call>)
    ensures var s := RunOf(ops, init, []);
      s.count >= 0 && (s.count > 0 <==> true in ops) && s.trace == if true in ops then init else []
  {
    if ops != [] {
      var n := |ops| - 1;
      SetUpOnce(ops[..n], init);
      assert ops == ops[..n] + [ops[n]];
    }
  }

  ghost function Nesting(ops: seq<bool>): int {
    if ops == [] then 0 else Nesting(ops[..|ops| - 1]) + if ops[|ops| - 1] then 1 else -1
  }

  lemma {:induction false} CountIsNesting(ops: seq<bool>, init: seq<Call>, fini: seq<Call>)
    requires fini != []
    ensures RunOf(ops, init, fini).count == Nesting(ops)
  {
    if ops != [] {
      CountIsNesting(ops[..|ops| - 1], init, fini);
    }
  }

  /** After as many finalizations as initializations, the next initialization sets everything up again
      exactly if there is something to finalize. */
  lemma SetUpAgainIff(ops: seq<bool>, init: seq<Call>, fini: seq<Call>)
    requires Nesting(ops) == 0 && true in ops && init != []
    ensures RunOf(ops + [true], init, fini).trace == RunOf(ops, init, fini).trace + init <==> fini != []
  {
    assert (ops + [true])[..|ops|] == ops;
    if fini != [] {
      CountIsNesting(ops, init, fini);
    } else {
      SetUpOnce(ops, init);
    }
  }
}
