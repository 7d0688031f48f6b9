/** Inputs at which the other parts of the code fall short of what they promise. */
module OtherExamples {
  import opened Common
  import opened DiagnosticOutput
  import opened DiagnosticContexts
  import TokenPasses
  import StableSort
  import NameLists
  import opened LineWrapping
  import InitTables

  /** Moving a buffer, and a report after it: counts and contents part exactly if it was the active
      buffer that gave its per-sink buffers away.  The report is then counted in the one buffer and
      kept in the other. */
  method ReportAfterMove(c: Context, src: Buffer, dest: Buffer, d: Diagnostic)
    requires c.Valid() && src in c.all && dest in c.all && src != dest && c.groupNestingDepth > 0
    modifies c`emissionCount, c`calls, c`reported, c.counters, c.AllCounters()
    modifies c.sinks`calls, c.sinks`written, c.AllFormats()
    modifies src, dest, src.counters, dest.counters, FormatsOf(src), FormatsOf(dest)
    ensures var parts := old(src.formats).Some? && old(dest.formats).None? && src == c.buffer;
      && (c.ContentsOK() <==> !parts)
      && (parts ==>
            && CountIn(src.counters.countForKind, KindForCount(d)) == 1
            && dest.formats == old(src.formats)
            && forall f | f in FormatsOf(dest) :: f.held == old(f.held) + [d])
    ensures c.Conserved()
  {
    hide Context.ContentsOK, Context.Conserved, Context.GroupsOK, Context.Apart, Held, NoDup;
    ghost var keeper := if src.formats.Some? && dest.formats.None? && src == c.buffer then dest else c.buffer;
    c.MoveBuffer(src, dest);
    c.ReportDiagnostic(d, keeper);
  }

  /** A context with one sink and two buffers, of which the first is active. */
  method OneActive() returns (c: Context, src: Buffer, dest: Buffer)
    ensures fresh(c) && fresh(c.counters) && fresh(src) && fresh(dest) && fresh(src.counters) && fresh(dest.counters)
    ensures c.Valid() && |c.sinks| == 1 && fresh(c.sinks[0]) && c.all == [src, dest] && c.buffer == src && src != dest
    ensures c.groupNestingDepth == 0 && dest.formats == None && c.reported == [] && src.counters.countForKind == map[]
    ensures src.formats.Some? && forall f | f in FormatsOf(src) :: fresh(f) && f.held == []
  {
    hide Context.ContentsOK, Context.Conserved, Context.GroupsOK, Context.Apart, Held, NoDup;
    var s := new Sink();
    AloneDistinct(s);
    c := new Context([s]);
    src := c.NewBuffer();
    dest := c.NewBuffer();
    c.SetDiagnosticBuffer(src);
  }

  lemma AloneDistinct(s: Sink)
    ensures NoDup([s])
  {
  }

  /** It happens. */
  method MoveActiveBuffer(d: Diagnostic) returns (c: Context, src: Buffer, dest: Buffer)
    ensures c.Conserved() && !c.ContentsOK()
    ensures c.buffer == src != dest && CountIn(src.counters.countForKind, KindForCount(d)) == 1
    ensures |FormatsOf(dest)| == 1 && FormatsOf(dest)[0].held == [d]
  {
    hide Context.ContentsOK, Context.Conserved, Context.GroupsOK, Context.Apart, Held, NoDup;
    c, src, dest := OneActive();
    c.BeginGroup();
    assert c.sinks == [c.sinks[0]] && c.AllCounters() == {src.counters, dest.counters};
    assert forall f | f in c.AllFormats() :: f in FormatsOf(src);
    ghost var f0 := FormatsOf(src)[0];
    assert f0 in FormatsOf(src) && f0.held == [];
    ReportAfterMove(c, src, dest, d);
    assert FormatsOf(dest)[0] in FormatsOf(dest);
  }

  /** A context with one sink, whose active buffer holds one report. */
  method OneHeld(d: Diagnostic) returns (c: Context, b: Buffer)
    ensures fresh(b) && fresh(b.counters) && forall f | f in FormatsOf(b) :: fresh(f)
    ensures c.Valid() && b in c.all && b.formats.Some? && c.reported == [d]
    ensures CountIn(b.counters.countForKind, KindForCount(d)) > 0
  {
    hide Context.ContentsOK, Context.Conserved, Context.GroupsOK, Context.Apart, Held, NoDup;
    var dest;
    c, b, dest := OneActive();
    ghost var parts := FormatsOf(b);
    assert forall f | f in parts :: fresh(f);
    c.BeginGroup();
    assert c.sinks == [c.sinks[0]] && c.AllCounters() == {b.counters, dest.counters};
    assert forall f | f in c.AllFormats() :: f in parts;
    c.ReportDiagnostic(d, b);
    assert FormatsOf(b) == parts;
  }

  /** A buffer with a report that is moved to itself: the report is lost. */
  method MoveToItself(d: Diagnostic) returns (c: Context, b: Buffer)
    ensures c.reported == [d] && !c.Conserved()
  {
    hide Context.Valid;
    c, b := OneHeld(d);
    assert forall i | 0 <= i < |FormatsOf(b)| :: FormatsOf(b)[i] in FormatsOf(b);
    MovesSomething(c, b, KindForCount(d));
  }

  method MovesSomething(c: Context, b: Buffer, ghost k: Kind)
    requires c.Valid() && b in c.all && b.formats.Some? && CountIn(b.counters.countForKind, k) > 0
    modifies b, b.counters, FormatsOf(b)
    ensures !c.Conserved()
  {
    hide Context.ContentsOK, Context.Conserved, Context.GroupsOK, Context.Apart, Held, NoDup;
    c.MoveBuffer(b, b);
    assert !c.CountedNothing(b);
  }

  /** An expansion into two tokens comes out in reverse. */
  lemma ExpansionReversed(a: TokenPasses.Piece, b: TokenPasses.Piece)
    requires a != b
    ensures var ps := [TokenPasses.Custom(0, Some([a, b]))];
      TokenPasses.Expand(ps) == [b, a] && TokenPasses.ExpandInOrder(ps) == [a, b]
  {
    var ps := [TokenPasses.Custom(0, Some([a, b]))];
    assert ps[1..] == [] && [a, b][1..] == [b] && [b][1..] == [];
    assert TokenPasses.Reverse([b]) == [b] && TokenPasses.Reverse([a, b]) == TokenPasses.Reverse([b]) + [a];
    assert TokenPasses.Expand(ps) == TokenPasses.Reverse([a, b]) + TokenPasses.Expand([]);
  }

  /** A constructor with a higher priority number collected last does not stay last. */
  lemma LastMoves()
    ensures var before := ["GLOBAL__I_1", "GLOBAL__I_2"];
      NameLists.NoneTwice(before) && StableSort.Sorted(before) == ["GLOBAL__I_2", "GLOBAL__I_1"]
  {
    var a, b := "GLOBAL__I_1", "GLOBAL__I_2";
    StableSort.PriorityRead("", "GLOBAL__I_", "1", "");
    assert "" + "GLOBAL__I_" + ("1" + "") == a;
    StableSort.PriorityRead("", "GLOBAL__I_", "2", "");
    assert "" + "GLOBAL__I_" + ("2" + "") == b;
    assert StableSort.Value("1") == 1 && StableSort.Value("2") == 2;
    SortedTwo(a, b);
  }

  lemma SortedTwo(a: string, b: string)
    requires StableSort.Priority(a) < StableSort.Priority(b)
    ensures NameLists.NoneTwice([a, b]) && StableSort.Sorted([a, b]) == [b, a]
  {
    assert [a, b][1..] == [b] && [b][1..] == [];
    assert StableSort.SortInto([a], [b]) == StableSort.SortInto(StableSort.Insert(b, [a]), []);
    assert StableSort.SortInto([], [a, b]) == StableSort.SortInto(StableSort.Insert(a, []), [b]);
    assert multiset([a, b])[a] == 1 && multiset([a, b])[b] == 1;
  }

  /** After a newline has been printed as a character, the length of the line is wrong. */
  method NewlineCounted() returns (p: Printer)
    ensures p.lineLength == 1 && LineAfter(0, p.out) == 0 && !p.Valid()
  {
    p := new Printer(0);
    p.Character(Newline);
  }

  /** Initialized, finalized and initialized again without destructors: the constructors run once. */
  lemma NotSetUpAgain(init: seq<InitTables.Call>)
    ensures InitTables.RunOf([true, false, true], init, []).trace == init
  {
    InitTables.SetUpOnce([true, false, true], init);
  }
}
