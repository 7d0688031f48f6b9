/** The diagnostic context: groups of diagnostics, and where reports are counted and kept. */
module DiagnosticContexts {
  import opened Common
  import opened DiagnosticOutput

  lemma CountPush(ds: seq<Diagnostic>, d: Diagnostic, k: Kind)
    ensures CountOf(ds + [d], k) == CountOf(ds, k) + if KindForCount(d) == k then 1 else 0
  {
    assert (ds + [d])[..|ds|] == ds;
  }

  ghost function Sum(a: Counts, b: Counts): (r: Counts)
    ensures forall k :: CountIn(r, k) == CountIn(a, k) + CountIn(b, k)
  {
    map k | k in a.Keys + b.Keys :: CountIn(a, k) + CountIn(b, k)
  }

  lemma CountedPush(c: Counts, c': Counts, ds: seq<Diagnostic>, d: Diagnostic)
    requires Counted(c, ds)
    requires forall j :: CountIn(c', j) == CountIn(c, j) + if j == KindForCount(d) then 1 else 0
    ensures Counted(c', ds + [d])
  {
    forall k: Kind ensures CountIn(c', k) == CountOf(ds + [d], k) {
      CountPush(ds, d, k);
    }
  }

  lemma CountedConcat(a: Counts, b: Counts, c: Counts, da: seq<Diagnostic>, db: seq<Diagnostic>)
    requires Counted(a, da) && Counted(b, db)
    requires forall k: Kind :: CountIn(c, k) == CountIn(a, k) + CountIn(b, k)
    ensures Counted(c, da + db)
  {
    forall k: Kind ensures CountIn(c, k) == CountOf(da + db, k) {
      CountConcat(da, db, k);
    }
  }

  class Context {
    const sinks: seq<Sink>
    const counters: Counters
    var groupNestingDepth: int
    var diagnosticNestingLevel: int
    var emissionCount: int
    var buffer: Buffer?

    /** All buffers made for this context, what every sink has been told, all diagnostics reported,
        and the counts of those discarded. */
    ghost var all: seq<Buffer>
    ghost var calls: seq<Call>
    ghost var reported: seq<Diagnostic>
    ghost var discarded: Counts

    ghost function AllCounters(): set<Counters>
      reads this`all
    {
      set b | b in all :: b.counters
    }

    ghost function AllFormats(): set<FormatBuffer>
      reads this`all, all`formats
    {
      set b, f | b in all && f in FormatsOf(b) :: f
    }

    /** Nothing is shared between buffers. */
    ghost predicate Apart()
      reads this`all, all`formats
    {
      && NoDup(sinks) && NoDup(all)
      && (forall b | b in all :: b.counters != counters && NoDup(FormatsOf(b)))
      && (forall b, c | b in all && c in all && b != c :: b.counters != c.counters)
      && (forall b, c, f | b in all && c in all && b != c && f in FormatsOf(b) :: f !in FormatsOf(c))
    }

    /** The sinks have been told of whole groups, and of the open one if something was reported in it. */
    ghost predicate GroupsOK()
      reads this`groupNestingDepth, this`emissionCount, this`calls, sinks`calls
    {
      && groupNestingDepth >= 0 && emissionCount >= 0
      && (groupNestingDepth == 0 ==> emissionCount == 0)
      && (forall s | s in sinks :: s.calls == calls)
      && PhaseOf(calls) == if emissionCount == 0 then Outside else Reporting
    }

    /** Every sink writes to buffer b, or straight out if that is null. */
    ghost predicate SinksOn(b: Buffer?)
      reads this`all, sinks`buffer, all`formats, (if b == null then {} else {b})`formats
    {
      if b == null then forall s | s in sinks :: s.buffer == null
      else
        && b in all && b.formats.Some? && |b.formats.value| == |sinks|
        && forall i | 0 <= i < |sinks| :: sinks[i].buffer == b.formats.value[i]
    }

    /** Every sink writes to the active buffer, or straight out. */
    ghost predicate ActiveOK()
      reads this`buffer, this`all, sinks`buffer, all`formats, (if buffer == null then {} else {buffer})`formats
    {
      SinksOn(buffer)
    }

    /** Every sink writes to the keeper, which may have got its per-sink buffers from the active one. */
    ghost predicate KeptBy(keeper: Buffer?)
      reads this`buffer, this`all, sinks`buffer, all`formats
      reads (if buffer == null then {} else {buffer})`formats, (if keeper == null then {} else {keeper})`formats
    {
      && SinksOn(keeper) && (buffer == null <==> keeper == null)
      && (buffer != null ==> buffer in all && (keeper != buffer ==> buffer.formats.None?))
    }

    /** Counters agree with contents: of every buffer, and of what every sink has written. */
    ghost predicate ContentsOK()
      reads this`all, sinks`written, counters, all`formats, AllCounters(), AllFormats()
    {
      && (forall b | b in all ::
            assert b.counters in AllCounters() && forall f | f in FormatsOf(b) :: f in AllFormats();
            BufferOK(b, |sinks|))
      && (forall s | s in sinks :: Counted(counters.countForKind, s.written))
    }

    /** No report is lost: it is counted in the context, held in a buffer, or was discarded. */
    ghost predicate Conserved()
      reads this`all, this`discarded, this`reported, counters, AllCounters()
    {
      forall k: Kind ::
        CountIn(counters.countForKind, k) + Held(all, k) + CountIn(discarded, k) == CountOf(reported, k)
    }

    ghost predicate Valid()
      reads this, sinks, counters, all, AllCounters(), AllFormats()
      reads (if buffer == null then {} else {buffer})`formats
    {
      Apart() && GroupsOK() && ActiveOK() && ContentsOK() && Conserved()
    }

    constructor (sinks: seq<Sink>)
      requires NoDup(sinks) && forall s | s in sinks :: s.calls == [] && s.buffer == null && s.written == []
      ensures Valid() && all == [] && reported == [] && calls == [] && this.sinks == sinks && fresh(counters)
      ensures groupNestingDepth == 0 && diagnosticNestingLevel == 0 && emissionCount == 0 && buffer == null
    {
      this.sinks := sinks;
      counters := new Counters();
      groupNestingDepth, diagnosticNestingLevel, emissionCount, buffer := 0, 0, 0, null;
      all, calls, reported, discarded := [], [], [], map[];
    }

    method BeginGroup()
      requires Valid()
      modifies this`groupNestingDepth
      ensures Valid() && groupNestingDepth == old(groupNestingDepth) + 1
    {
      groupNestingDepth := groupNestingDepth + 1;
    }

    /** The sinks are told that the group has ended, if they were told that it began. */
    method CloseGroup()
      requires NoDup(sinks) && groupNestingDepth == 0 && emissionCount >= 0
      requires forall s | s in sinks :: s.calls == calls
      requires PhaseOf(calls) == if emissionCount == 0 then Outside else Reporting
      modifies this`emissionCount, this`calls, sinks`calls
      ensures GroupsOK() && emissionCount == 0
      ensures calls == old(calls) + if old(emissionCount) > 0 then [GroupEnded] else []
    {
      PhaseEnd(calls);
      if emissionCount > 0 {
        TellAll(sinks, GroupEnded);
        calls := calls + [GroupEnded];
      }
      emissionCount := 0;
    }

    method LeaveGroup()
      requires NoDup(sinks) && GroupsOK() && groupNestingDepth > 0
      modifies this`groupNestingDepth, this`emissionCount, this`calls, sinks`calls
      ensures GroupsOK() && groupNestingDepth == old(groupNestingDepth) - 1
      ensures calls == old(calls) + if old(groupNestingDepth) == 1 && old(emissionCount) > 0 then [GroupEnded] else []
      ensures emissionCount == if old(groupNestingDepth) == 1 then 0 else old(emissionCount)
    {
      groupNestingDepth := groupNestingDepth - 1;
      if groupNestingDepth == 0 {
        CloseGroup();
      }
    }

    /** diagnostic_context::end_group. */
    method EndGroup()
      requires Valid() && groupNestingDepth > 0
      modifies this`groupNestingDepth, this`emissionCount, this`calls, sinks`calls
      ensures Valid() && groupNestingDepth == old(groupNestingDepth) - 1
      ensures calls == old(calls) + if old(groupNestingDepth) == 1 && old(emissionCount) > 0 then [GroupEnded] else []
      ensures emissionCount == if old(groupNestingDepth) == 1 then 0 else old(emissionCount)
    {
      hide GroupsOK, ActiveOK, NoDup, AllCounters, CountOf, BufferOK, Held, CountIn;
      LeaveGroup();
    }

    /** Tells the sinks of a report, and of the beginning of a group if it is the first one there. */
    method TellReport(d: Diagnostic)
      requires NoDup(sinks) && GroupsOK() && groupNestingDepth > 0
      modifies this`emissionCount, this`calls, sinks`calls
      ensures GroupsOK() && emissionCount == old(emissionCount) + 1
      ensures calls == old(calls) + (if old(emissionCount) == 0 then [GroupBegun] else []) + [Reported(d)]
    {
      PhaseReport(calls, d);
      if emissionCount == 0 {
        TellAll(sinks, GroupBegun);
        calls := calls + [GroupBegun];
      }
      emissionCount := emissionCount + 1;
      TellAll(sinks, Reported(d));
      calls := calls + [Reported(d)];
    }

    /** So errors and promoted warnings are told apart, wherever they are counted. */
    lemma ErrorsAreCounted()
      requires Conserved()
      ensures CountIn(counters.countForKind, Error) + Held(all, Error) + CountIn(discarded, Error)
        == Reports(reported, Error, false)
      ensures CountIn(counters.countForKind, WError) + Held(all, WError) + CountIn(discarded, WError)
        == Reports(reported, WError, true) + Reports(reported, WError, false) + Reports(reported, Error, true)
    {
      CountOfMeans(reported, Error);
    }

    /** A report that is written straight away. */
    method WriteReport(d: Diagnostic)
      requires Apart() && ActiveOK() && ContentsOK() && Conserved() && buffer == null
      modifies this`reported, counters, sinks`written
      ensures ContentsOK() && Conserved() && reported == old(reported) + [d]
      ensures forall s | s in sinks :: s.written == old(s.written) + [d]
      ensures Tallied(old(counters.countForKind), counters.countForKind, d)
    {
      counters.Increment(KindForCount(d));
      TalliedIs(old(counters.countForKind), counters.countForKind, d);
      Deliver(sinks, d, []);
      reported := reported + [d];
      forall s | s in sinks ensures Counted(counters.countForKind, s.written) {
        CountedPush(old(counters.countForKind), counters.countForKind, old(s.written), d);
      }
      forall b | b in all ensures BufferOK(b, |sinks|) {
        assert old(BufferOK(b, |sinks|));
      }
      forall k: Kind
        ensures CountIn(counters.countForKind, k) + Held(all, k) + CountIn(discarded, k) == CountOf(reported, k)
      {
        HeldSame(all, k);
        CountPush(old(reported), d, k);
      }
    }

    /** Report d is counted in buffer b. */
    twostate predicate CountedIn(b: Buffer, d: Diagnostic)
      reads b.counters
    {
      forall k :: CountIn(b.counters.countForKind, k)
        == CountIn(old(b.counters.countForKind), k) + if k == KindForCount(d) then 1 else 0
    }

    /** Report d is kept in buffer b, for every sink. */
    twostate predicate KeptIn(b: Buffer, d: Diagnostic)
      reads b`formats, FormatsOf(b)
    {
      b.formats == old(b.formats) && forall f | f in FormatsOf(b) :: f.held == old(f.held) + [d]
    }

    /** Nothing has changed in buffer b but possibly its counters. */
    twostate predicate NotKeptIn(b: Buffer)
      reads b`formats, FormatsOf(b)
    {
      b.formats == old(b.formats) && forall f | f in FormatsOf(b) :: f.held == old(f.held)
    }

    twostate lemma BufferStays(b: Buffer, new n: nat)
      requires old(BufferOK(b, n)) && b.formats == old(b.formats)
      requires b.counters.countForKind == old(b.counters.countForKind)
      requires forall f | f in FormatsOf(b) :: f.held == old(f.held)
      ensures BufferOK(b, n)
    {
    }

    twostate lemma BufferHolds(b: Buffer, new n: nat, new d: Diagnostic)
      requires old(BufferOK(b, n)) && b.formats.Some? && CountedIn(b, d) && KeptIn(b, d)
      ensures BufferOK(b, n)
    {
      var bufs := FormatsOf(b);
      forall i | 0 <= i < n ensures Counted(b.counters.countForKind, bufs[i].held) {
        assert bufs[i] in bufs;
        CountedPush(old(b.counters.countForKind), b.counters.countForKind, old(bufs[i].held), d);
      }
    }

    /** A buffer that has no part for the sinks cannot account for a report that it counts. */
    twostate lemma BufferWithout(b: Buffer, new n: nat, new d: Diagnostic)
      requires old(BufferOK(b, n)) && b.formats.None? && b.formats == old(b.formats) && CountedIn(b, d)
      ensures !BufferOK(b, n)
    {
      assert CountIn(b.counters.countForKind, KindForCount(d)) == 1;
    }

    /** One of the counters goes up, and the sinks take the report. */
    method CountAndDeliver(c: Counters, d: Diagnostic, ghost bufs: seq<FormatBuffer>)
      requires NoDup(sinks) && NoDup(bufs) && |bufs| == |sinks|
      requires forall i | 0 <= i < |sinks| :: sinks[i].buffer == bufs[i]
      modifies c, bufs
      ensures forall k :: CountIn(c.countForKind, k) == CountIn(old(c.countForKind), k) + if k == KindForCount(d) then 1 else 0
      ensures forall f | f in bufs :: f.held == old(f.held) + [d]
    {
      c.Increment(KindForCount(d));
      Deliver(sinks, d, bufs);
    }

    /** A report is counted in the active buffer, and goes where the sinks write. */
    method Hold(d: Diagnostic, ghost keeper: Buffer)
      requires Apart() && KeptBy(keeper) && buffer != null
      modifies AllCounters(), AllFormats()
      ensures CountedIn(buffer, d) && KeptIn(keeper, d) && (keeper != buffer ==> NotKeptIn(buffer))
      ensures forall b | b in all && b != buffer :: b.counters.countForKind == old(b.counters.countForKind)
      ensures forall b | b in all && b != keeper :: forall f | f in FormatsOf(b) :: f.held == old(f.held)
      ensures counters.countForKind == old(counters.countForKind)
    {
      hide NoDup, KindForCount;
      ghost var bufs := FormatsOf(keeper);
      assert buffer.counters in AllCounters() && forall f | f in bufs :: f in AllFormats();
      CountAndDeliver(buffer.counters, d, bufs);
    }

    /** A report that is held back. */
    method HoldReport(d: Diagnostic, ghost keeper: Buffer)
      requires Apart() && KeptBy(keeper) && ContentsOK() && Conserved() && buffer != null
      modifies this`reported, AllCounters(), AllFormats()
      ensures Conserved() && reported == old(reported) + [d] && (ContentsOK() <==> keeper == buffer)
      ensures CountedIn(buffer, d) && KeptIn(keeper, d)
      ensures Tallied(old(buffer.counters.countForKind), buffer.counters.countForKind, d)
    {
      hide NoDup, CountOf, BufferOK, AllCounters, Held, FormatsOf;
      Hold(d, keeper);
      TalliedIs(old(buffer.counters.countForKind), buffer.counters.countForKind, d);
      reported := reported + [d];
      if keeper == buffer {
        HeldContents(d);
      } else {
        assert old(BufferOK(buffer, |sinks|));
        BufferWithout(buffer, |sinks|, d);
      }
      forall k: Kind
        ensures CountIn(counters.countForKind, k) + Held(all, k) + CountIn(discarded, k) == CountOf(reported, k)
      {
        HeldChange(all, buffer, k);
        CountPush(old(reported), d, k);
      }
    }

    twostate lemma HeldContents(new d: Diagnostic)
      requires Apart() && old(ContentsOK()) && buffer != null && buffer == old(buffer) && buffer in all && all == old(all)
      requires buffer.formats.Some? && CountedIn(buffer, d) && KeptIn(buffer, d)
      requires forall b | b in all && b != buffer ::
        b.formats == old(b.formats) && b.counters.countForKind == old(b.counters.countForKind)
        && forall f | f in FormatsOf(b) :: f.held == old(f.held)
      requires counters.countForKind == old(counters.countForKind) && forall s | s in sinks :: s.written == old(s.written)
      ensures ContentsOK()
    {
      forall b | b in all ensures BufferOK(b, |sinks|) {
        assert old(BufferOK(b, |sinks|));
        if b == buffer {
          BufferHolds(b, |sinks|, d);
        } else {
          BufferStays(b, |sinks|);
        }
      }
    }

    /** The report itself, once the sinks know of its group. */
    method EmitReport(d: Diagnostic, ghost keeper: Buffer?)
      requires Apart() && GroupsOK() && KeptBy(keeper) && ContentsOK() && Conserved()
      modifies this`reported, counters, AllCounters(), sinks`written, AllFormats()
      ensures Apart() && GroupsOK() && KeptBy(keeper)
      ensures Conserved() && reported == old(reported) + [d] && (ContentsOK() <==> keeper == buffer)
      ensures buffer == null ==> forall s | s in sinks :: s.written == old(s.written) + [d]
      ensures buffer != null ==> CountedIn(buffer, d) && KeptIn(keeper, d)
      ensures buffer == null ==> Tallied(old(counters.countForKind), counters.countForKind, d)
      ensures buffer != null ==> Tallied(old(buffer.counters.countForKind), buffer.counters.countForKind, d)
    {
      hide ContentsOK, Conserved, SinksOn, Apart, CountedIn, KeptIn, Tallied;
      if buffer == null {
        WriteReport(d);
      } else {
        HoldReport(d, keeper);
      }
    }

    /** The emission part of report_diagnostic.  The report is counted in the active buffer and kept
        where the sinks write; when that is another buffer, counts and contents part. */
    method ReportDiagnostic(d: Diagnostic, ghost keeper: Buffer?)
      requires Apart() && GroupsOK() && KeptBy(keeper) && ContentsOK() && Conserved() && groupNestingDepth > 0
      modifies this`emissionCount, this`calls, this`reported, counters, AllCounters()
      modifies sinks`calls, sinks`written, AllFormats()
      ensures Apart() && GroupsOK() && KeptBy(keeper) && Conserved()
      ensures (ContentsOK() <==> keeper == buffer) && (Valid() <==> keeper == buffer)
      ensures reported == old(reported) + [d] && emissionCount == old(emissionCount) + 1
      ensures calls == old(calls) + (if old(emissionCount) == 0 then [GroupBegun] else []) + [Reported(d)]
      ensures buffer == null ==> forall s | s in sinks :: s.written == old(s.written) + [d]
      ensures buffer != null ==> CountedIn(buffer, d) && KeptIn(keeper, d)
      ensures buffer == null ==> Tallied(old(counters.countForKind), counters.countForKind, d)
      ensures buffer != null ==> Tallied(old(buffer.counters.countForKind), buffer.counters.countForKind, d)
    {
      hide Tallied, ContentsOK, Conserved, Next, Held, Counted, PhaseOf, SinksOn, NoDup, CountOf, GroupsOK, CountIn;
      TellReport(d);
      EmitReport(d, keeper);
    }

    /** A new buffer, without anything in it. */
    method NewBuffer() returns (b: Buffer)
      requires Valid()
      modifies this`all
      ensures Valid() && fresh(b) && fresh(b.counters) && all == old(all) + [b] && b.formats == None
      ensures b.counters.countForKind == map[]
    {
      b := new Buffer();
      Add(b);
    }

    ghost method Add(b: Buffer)
      requires Valid() && b !in all && b.formats == None && b.counters.countForKind == map[]
      requires b.counters != counters && forall c | c in all :: c.counters != b.counters
      modifies this`all
      ensures Valid() && all == old(all) + [b]
    {
      EmptyOK(b, |sinks|);
      hide GroupsOK, Apart, ContentsOK, Conserved, ActiveOK, SinksOn, BufferOK, Counted;
      all := all + [b];
      ApartWith(b);
      ContentsWith(b);
      ConservedWith(b);
      ActiveWith(b);
    }

    twostate lemma ApartWith(new b: Buffer)
      requires old(Apart()) && all == old(all) + [b] && b !in old(all) && b.formats == None && b.counters != counters
      requires forall c | c in old(all) :: c.formats == old(c.formats) && c.counters != b.counters
      ensures Apart()
    {
    }

    twostate lemma ContentsWith(new b: Buffer)
      requires old(ContentsOK()) && all == old(all) + [b] && BufferOK(b, |sinks|)
      requires forall c | c in old(all) :: c.formats == old(c.formats) && c.counters.countForKind == old(c.counters.countForKind)
      requires forall c | c in old(all) :: forall f | f in FormatsOf(c) :: f.held == old(f.held)
      requires counters.countForKind == old(counters.countForKind) && forall s | s in sinks :: s.written == old(s.written)
      ensures ContentsOK()
    {
      forall c | c in all ensures BufferOK(c, |sinks|) {
        if c != b {
          assert old(BufferOK(c, |sinks|));
          BufferStays(c, |sinks|);
        }
      }
    }

    twostate lemma ConservedWith(new b: Buffer)
      requires old(Conserved()) && all == old(all) + [b] && b.counters.countForKind == map[]
      requires forall c | c in old(all) :: c.counters.countForKind == old(c.counters.countForKind)
      requires counters.countForKind == old(counters.countForKind) && reported == old(reported) && discarded == old(discarded)
      ensures Conserved()
    {
      assert all[..|all| - 1] == old(all);
      forall k: Kind ensures Held(all, k) == old(Held(all, k)) {
        HeldSame(old(all), k);
        NothingHeld(b, k);
      }
    }

    twostate lemma ActiveWith(new b: Buffer)
      requires old(ActiveOK()) && all == old(all) + [b] && buffer == old(buffer)
      requires forall s | s in sinks :: s.buffer == old(s.buffer)
      requires forall c | c in old(all) :: c.formats == old(c.formats)
      ensures ActiveOK()
    {
    }

    lemma NothingHeld(b: Buffer, k: Kind)
      ensures b.counters.countForKind == map[] ==> CountIn(b.counters.countForKind, k) == 0
    {
    }

    /** diagnostic_buffer::ensure_per_format_buffers. */
    method EnsureFormats(b: Buffer)
      requires Apart() && ActiveOK() && ContentsOK() && Conserved() && b in all
      modifies b`formats
      ensures Apart() && ActiveOK() && ContentsOK() && Conserved()
      ensures b.formats.Some? && |b.formats.value| == |sinks|
      ensures if old(b.formats).Some? then b.formats == old(b.formats)
        else forall f | f in FormatsOf(b) :: fresh(f) && f.held == []
    {
      hide GroupsOK, Held;
      if b.formats.None? {
        var bufs := MakeFormats(|sinks|);
        b.formats := Some(bufs);
        forall c | c in all ensures BufferOK(c, |sinks|) {
          assert old(BufferOK(c, |sinks|));
        }
      } else {
        assert BufferOK(b, |sinks|);
      }
    }

    /** All sinks switch to the buffer. */
    method Activate(b: Buffer?)
      requires NoDup(sinks)
      requires b != null ==> b in all && b.formats.Some? && |b.formats.value| == |sinks|
      modifies this`buffer, sinks`buffer
      ensures ActiveOK() && buffer == b
    {
      buffer := b;
      if b != null {
        SetBuffers(sinks, b.formats.value);
      } else {
        ResetBuffers(sinks);
      }
    }

    /** diagnostic_context::set_diagnostic_buffer. */
    method SetDiagnosticBuffer(b: Buffer?)
      requires Valid() && groupNestingDepth == 0 && diagnosticNestingLevel == 0
      requires b != null ==> b in all
      modifies this`buffer, sinks`buffer, (if b == null then {} else {b})`formats
      ensures Valid() && buffer == b
      ensures b != null ==>
        if old(b.formats).Some? then b.formats == old(b.formats)
        else b.formats.Some? && forall f | f in FormatsOf(b) :: fresh(f) && f.held == []
    {
      hide Held, CountIn, SinksOn, PhaseOf, Counted, GroupsOK, NoDup, BufferOK;
      if b != null {
        EnsureFormats(b);
      }
      Activate(b);
    }

    /** Everything about the other buffers is as before. */
    twostate predicate OthersSame(new b: Buffer)
      reads this`all, all`formats, AllCounters(), AllFormats()
    {
      all == old(all) && forall c | c in old(all) && c != b ::
        assert c.counters in AllCounters() && forall f | f in FormatsOf(c) :: f in AllFormats();
        c.formats == old(c.formats) && c.counters.countForKind == old(c.counters.countForKind)
        && forall f | f in FormatsOf(c) :: f.held == old(f.held)
    }

    /** Nothing is left in the buffer. */
    ghost predicate EmptyBuffer(b: Buffer)
      reads b`formats, b.counters, FormatsOf(b)
    {
      b.counters.countForKind == map[] && forall f | f in FormatsOf(b) :: f.held == []
    }

    method Empty(b: Buffer)
      requires Apart() && b in all
      modifies b.counters, FormatsOf(b)
      ensures EmptyBuffer(b) && OthersSame(b) && counters.countForKind == old(counters.countForKind)
    {
      if b.formats.Some? {
        EmptyAll(b.formats.value);
      }
      b.counters.Clear();
    }

    lemma EmptyOK(b: Buffer, n: nat)
      requires EmptyBuffer(b) && (b.formats.Some? ==> |b.formats.value| == n)
      ensures BufferOK(b, n)
    {
    }

    twostate lemma OthersOK(new b: Buffer)
      requires old(ContentsOK()) && all == old(all) && OthersSame(b)
      ensures forall c | c in all && c != b :: BufferOK(c, |sinks|)
    {
      forall c | c in all && c != b ensures BufferOK(c, |sinks|) {
        assert old(BufferOK(c, |sinks|));
        BufferStays(c, |sinks|);
      }
    }

    twostate lemma ClearContents(new b: Buffer)
      requires old(ContentsOK()) && all == old(all) && b in all && OthersSame(b) && EmptyBuffer(b)
      requires old(allocated(b)) && b.formats == old(b.formats) && counters.countForKind == old(counters.countForKind)
      requires forall s | s in sinks :: s.written == old(s.written)
      ensures ContentsOK()
    {
      OthersOK(b);
      assert old(BufferOK(b, |sinks|));
      EmptyOK(b, |sinks|);
    }

    twostate lemma ClearConserved(new b: Buffer)
      requires Apart() && old(Conserved()) && all == old(all) && b in all && OthersSame(b) && EmptyBuffer(b)
      requires old(allocated(b)) && counters.countForKind == old(counters.countForKind) && reported == old(reported)
      requires discarded == Sum(old(discarded), old(b.counters.countForKind))
      ensures Conserved()
    {
      forall k: Kind
        ensures CountIn(counters.countForKind, k) + Held(all, k) + CountIn(discarded, k) == CountOf(reported, k)
      {
        HeldChange(all, b, k);
      }
    }

    /** diagnostic_context::clear_diagnostic_buffer: what the buffer held is discarded. */
    method ClearDiagnosticBuffer(b: Buffer)
      requires Valid() && b in all
      modifies this`discarded, b.counters, FormatsOf(b)
      ensures Valid() && discarded == Sum(old(discarded), old(b.counters.countForKind)) && EmptyBuffer(b)
    {
      hide GroupsOK, Apart, Held, CountIn;
      discarded := Sum(discarded, b.counters.countForKind);
      Empty(b);
      ClearContents(b);
      ClearConserved(b);
    }

    /** Every sink has written what the buffer held for it, and its counts have moved to the context. */
    twostate predicate Written(b: Buffer)
      reads this, counters, sinks, b
    {
      && (forall k :: CountIn(counters.countForKind, k)
            == CountIn(old(counters.countForKind), k) + CountIn(old(b.counters.countForKind), k))
      && if b.formats.None? then forall s | s in sinks :: s.written == old(s.written)
         else
           && |b.formats.value| == |sinks| && b.formats == old(b.formats)
           && forall i | 0 <= i < |sinks| :: sinks[i].written == old(sinks[i].written) + old(FormatsOf(b)[i].held)
    }

    method Write(b: Buffer)
      requires Apart() && b in all && BufferOK(b, |sinks|)
      modifies counters, b.counters, sinks`written, FormatsOf(b)
      ensures EmptyBuffer(b) && OthersSame(b) && Written(b)
    {
      hide NoDup, Counted, CountIn;
      if b.formats.Some? {
        FlushAll(sinks, b.formats.value);
      }
      b.counters.MoveTo(counters);
    }

    twostate lemma FlushContents(new b: Buffer)
      requires old(ContentsOK()) && all == old(all) && b in all && OthersSame(b) && EmptyBuffer(b)
      requires old(allocated(b)) && b.formats == old(b.formats) && Written(b)
      ensures ContentsOK()
    {
      OthersOK(b);
      assert old(BufferOK(b, |sinks|));
      EmptyOK(b, |sinks|);
      forall s | s in sinks ensures Counted(counters.countForKind, s.written) {
        var i :| 0 <= i < |sinks| && sinks[i] == s;
        if b.formats.Some? {
          CountedConcat(old(counters.countForKind), old(b.counters.countForKind), counters.countForKind,
                        old(s.written), old(FormatsOf(b)[i].held));
        }
      }
    }

    twostate lemma FlushConserved(new b: Buffer)
      requires Apart() && old(Conserved()) && all == old(all) && b in all && OthersSame(b) && EmptyBuffer(b)
      requires old(allocated(b)) && Written(b) && reported == old(reported) && discarded == old(discarded)
      ensures Conserved()
    {
      forall k: Kind
        ensures CountIn(counters.countForKind, k) + Held(all, k) + CountIn(discarded, k) == CountOf(reported, k)
      {
        HeldChange(all, b, k);
      }
    }

    /** diagnostic_context::flush_diagnostic_buffer: what the buffer held is written. */
    method FlushDiagnosticBuffer(b: Buffer)
      requires Valid() && b in all
      modifies counters, b.counters, sinks`written, FormatsOf(b)
      ensures Valid() && EmptyBuffer(b) && Written(b)
    {
      hide FormatsOf;
      assert BufferOK(b, |sinks|);
      Write(b);
      FlushContents(b);
      FlushConserved(b);
    }

    /** All that is in src has moved to dest; nothing else has changed. */
    twostate predicate Moved(new src: Buffer, new dest: Buffer)
      requires old(allocated(src)) && old(allocated(dest))
      reads this, all, counters, src, dest, AllCounters(), AllFormats(), src.counters, dest.counters, FormatsOf(src)
      reads FormatsOf(dest)
    {
      && all == old(all) && counters.countForKind == old(counters.countForKind)
      && EmptyBuffer(src)
      && (forall k :: CountIn(dest.counters.countForKind, k)
            == CountIn(old(dest.counters.countForKind), k) + CountIn(old(src.counters.countForKind), k))
      && (forall c | c in old(all) && c != src && c != dest ::
            assert c.counters in AllCounters() && forall f | f in FormatsOf(c) :: f in AllFormats();
            c.formats == old(c.formats) && c.counters.countForKind == old(c.counters.countForKind)
            && forall f | f in FormatsOf(c) :: f.held == old(f.held))
    }

    twostate lemma MoveConserved(new src: Buffer, new dest: Buffer)
      requires old(allocated(src)) && old(allocated(dest)) && src in all && dest in all && src != dest
      requires Apart() && old(Conserved()) && Moved(src, dest)
      requires reported == old(reported) && discarded == old(discarded)
      ensures Conserved()
    {
      forall k: Kind
        ensures CountIn(counters.countForKind, k) + Held(all, k) + CountIn(discarded, k) == CountOf(reported, k)
      {
        HeldPair(all, src, dest, k);
      }
    }

    twostate lemma MoveContents(new src: Buffer, new dest: Buffer)
      requires old(allocated(src)) && old(allocated(dest)) && src in all && dest in all && src != dest
      requires old(ContentsOK()) && Moved(src, dest) && old(src.formats).Some?
      requires forall s | s in sinks :: s.written == old(s.written)
      requires if old(dest.formats).None? then
          && src.formats == None && dest.formats == old(src.formats)
          && forall f | f in FormatsOf(dest) :: f.held == old(f.held)
        else
          && src.formats == old(src.formats) && dest.formats == old(dest.formats)
          && |FormatsOf(src)| == |FormatsOf(dest)|
          && forall i | 0 <= i < |FormatsOf(dest)| ::
               FormatsOf(dest)[i].held == old(FormatsOf(dest)[i].held) + old(FormatsOf(src)[i].held)
      ensures ContentsOK()
    {
      assert old(BufferOK(src, |sinks|)) && old(BufferOK(dest, |sinks|));
      EmptyOK(src, |sinks|);
      forall c | c in all ensures BufferOK(c, |sinks|) {
        if c != src && c != dest {
          assert old(BufferOK(c, |sinks|));
          BufferStays(c, |sinks|);
        } else if c == dest {
          forall i | 0 <= i < |sinks| ensures Counted(dest.counters.countForKind, FormatsOf(dest)[i].held) {
            if old(dest.formats).None? {
              assert FormatsOf(dest)[i] in FormatsOf(dest);
            } else {
              CountedConcat(old(dest.counters.countForKind), old(src.counters.countForKind), dest.counters.countForKind,
                            old(FormatsOf(dest)[i].held), old(FormatsOf(src)[i].held));
            }
          }
        }
      }
    }

    /** The contents of the per-sink buffers move, or the whole set of those buffers does. */
    method MoveFormats(src: Buffer, dest: Buffer)
      requires src.formats.Some? && NoDup(FormatsOf(src)) && NoDup(FormatsOf(dest))
      requires src != dest ==> forall f | f in FormatsOf(src) :: f !in FormatsOf(dest)
      requires dest.formats.Some? ==> |src.formats.value| == |dest.formats.value|
      modifies src`formats, dest`formats, FormatsOf(src), FormatsOf(dest)
      ensures forall f | f in FormatsOf(src) :: f.held == []
      ensures src == dest ==> src.formats == old(src.formats)
      ensures src != dest ==> if old(dest.formats).None? then
          && src.formats == None && dest.formats == old(src.formats)
          && forall f | f in FormatsOf(dest) :: f.held == old(f.held)
        else
          && src.formats == old(src.formats) && dest.formats == old(dest.formats)
          && forall i | 0 <= i < |FormatsOf(dest)| ::
               FormatsOf(dest)[i].held == old(FormatsOf(dest)[i].held) + old(FormatsOf(src)[i].held)
    {
      hide NoDup;
      if dest.formats.None? {
        dest.formats := src.formats;
        src.formats := None;
      } else {
        assert src == dest || FormatsOf(src) == [] || FormatsOf(src)[0] !in FormatsOf(dest);
        AppendAll(src.formats.value, dest.formats.value);
      }
    }

    /** The counters and the contents move. */
    method Move(src: Buffer, dest: Buffer)
      requires Apart() && src in all && dest in all && src.formats.Some?
      requires dest.formats.Some? ==> |src.formats.value| == |dest.formats.value|
      modifies src, dest, src.counters, dest.counters, FormatsOf(src), FormatsOf(dest)
      ensures src == dest ==> EmptyBuffer(src) && OthersSame(src) && counters.countForKind == old(counters.countForKind)
      ensures src == dest ==> src.formats == old(src.formats)
      ensures src != dest ==> Moved(src, dest)
      ensures src != dest ==> if old(dest.formats).None? then
          && src.formats == None && dest.formats == old(src.formats)
          && forall f | f in FormatsOf(dest) :: f.held == old(f.held)
        else
          && src.formats == old(src.formats) && dest.formats == old(dest.formats)
          && forall i | 0 <= i < |FormatsOf(dest)| ::
               FormatsOf(dest)[i].held == old(FormatsOf(dest)[i].held) + old(FormatsOf(src)[i].held)
    {
      OthersApart(src, dest);
      hide Apart, NoDup, CountIn;
      src.counters.MoveTo(dest.counters);
      MoveFormats(src, dest);
    }

    /** The two buffers share nothing with the others, or with each other. */
    lemma OthersApart(src: Buffer, dest: Buffer)
      requires Apart() && src in all && dest in all
      ensures src.counters != counters && dest.counters != counters
      ensures NoDup(FormatsOf(src)) && NoDup(FormatsOf(dest))
      ensures src != dest ==> forall f | f in FormatsOf(src) :: f !in FormatsOf(dest)
      ensures src != dest ==> src.counters != dest.counters
      ensures forall c | c in all && c != src && c != dest :: c.counters != src.counters && c.counters != dest.counters
      ensures forall c, f | c in all && c != src && c != dest && f in FormatsOf(c) :: f !in FormatsOf(src) && f !in FormatsOf(dest)
    {
    }

    /** The counters of a buffer that was moved to itself are cleared, and their reports are nowhere
        accounted for. */
    twostate lemma SelfMoveConserved(new b: Buffer)
      requires old(allocated(b)) && b in all && all == old(all) && Apart() && old(Conserved())
      requires EmptyBuffer(b) && OthersSame(b) && counters.countForKind == old(counters.countForKind)
      requires reported == old(reported) && discarded == old(discarded)
      ensures Conserved() <==> forall k: Kind :: CountIn(old(b.counters.countForKind), k) == 0
    {
      forall k: Kind
        ensures CountIn(counters.countForKind, k) + Held(all, k) + CountIn(discarded, k)
          == CountOf(reported, k) - CountIn(old(b.counters.countForKind), k)
      {
        HeldChange(all, b, k);
      }
    }

    /** The buffer counted nothing. */
    twostate predicate CountedNothing(b: Buffer)
      reads b.counters
    {
      forall k: Kind :: CountIn(old(b.counters.countForKind), k) == 0
    }

    method MoveToSelf(b: Buffer)
      requires Valid() && b in all && b.formats.Some?
      modifies b, b.counters, FormatsOf(b)
      ensures Apart() && GroupsOK() && ContentsOK() && KeptBy(buffer)
      ensures Conserved() <==> CountedNothing(b)
      ensures b.formats == old(b.formats) && EmptyBuffer(b)
    {
      hide GroupsOK, Held, NoDup, CountIn, CountOf, Counted;
      assert BufferOK(b, |sinks|);
      Move(b, b);
      ClearContents(b);
      SelfMoveConserved(b);
    }

    method MoveToOther(src: Buffer, dest: Buffer)
      requires Valid() && src in all && dest in all && src != dest && src.formats.Some?
      modifies src, dest, src.counters, dest.counters, FormatsOf(src), FormatsOf(dest)
      ensures Apart() && GroupsOK() && ContentsOK() && Conserved() && Moved(src, dest)
      ensures KeptBy(if old(dest.formats).None? && src == buffer then dest else buffer)
      ensures ActiveOK() <==> !(old(dest.formats).None? && src == buffer)
      ensures if old(dest.formats).None? then
          && src.formats == None && dest.formats == old(src.formats)
          && forall f | f in FormatsOf(dest) :: f.held == old(f.held)
        else
          && src.formats == old(src.formats) && dest.formats == old(dest.formats)
          && forall i | 0 <= i < |FormatsOf(dest)| ::
               FormatsOf(dest)[i].held == old(FormatsOf(dest)[i].held) + old(FormatsOf(src)[i].held)
    {
      hide GroupsOK, Held, NoDup, CountIn, CountOf, Counted;
      assert BufferOK(src, |sinks|) && BufferOK(dest, |sinks|);
      Move(src, dest);
      MoveApart(src, dest);
      MoveActive(src, dest);
      hide Apart, ActiveOK, KeptBy;
      MoveContents(src, dest);
      MoveConserved(src, dest);
    }

    twostate lemma MoveApart(new src: Buffer, new dest: Buffer)
      requires old(allocated(src)) && old(allocated(dest)) && src in all && dest in all && src != dest
      requires old(Apart()) && Moved(src, dest)
      requires if old(dest.formats).None? then src.formats == None && dest.formats == old(src.formats)
        else src.formats == old(src.formats) && dest.formats == old(dest.formats)
      ensures Apart()
    {
      hide CountIn, EmptyBuffer;
      assert forall c | c in all && c != src && c != dest :: FormatsOf(c) == old(FormatsOf(c));
    }

    twostate lemma MoveActive(new src: Buffer, new dest: Buffer)
      requires old(allocated(src)) && old(allocated(dest)) && src in all && dest in all && src != dest
      requires old(ActiveOK()) && Moved(src, dest) && old(src.formats).Some? && buffer == old(buffer)
      requires forall s | s in sinks :: s.buffer == old(s.buffer)
      requires if old(dest.formats).None? then src.formats == None && dest.formats == old(src.formats)
        else src.formats == old(src.formats) && dest.formats == old(dest.formats)
      ensures KeptBy(if old(dest.formats).None? && src == buffer then dest else buffer)
      ensures ActiveOK() <==> !(old(dest.formats).None? && src == buffer)
    {
      hide CountIn, EmptyBuffer;
    }

    /** diagnostic_buffer::move_to.  No report is lost and counts stay right, unless a buffer is moved
        to itself; but if the active buffer gives its per-sink buffers away to one that had none, the
        sinks go on writing to those. */
    method MoveBuffer(src: Buffer, dest: Buffer)
      requires Valid() && src in all && dest in all
      modifies src, dest, src.counters, dest.counters, FormatsOf(src), FormatsOf(dest)
      ensures Apart() && GroupsOK() && ContentsOK()
      ensures Conserved() <==> (src == dest && old(src.formats).Some? ==> CountedNothing(src))
      ensures Valid() <==> Conserved() && !(old(src.formats).Some? && old(dest.formats).None? && src == buffer)
      ensures KeptBy(if old(src.formats).Some? && old(dest.formats).None? && src == buffer then dest else buffer)
      ensures if old(src.formats).None? then unchanged(src) && unchanged(dest) && unchanged(src.counters) && unchanged(dest.counters)
        else if src == dest then src.formats == old(src.formats) && EmptyBuffer(src)
        else
          && Moved(src, dest)
          && if old(dest.formats).None? then
               && src.formats == None && dest.formats == old(src.formats)
               && forall f | f in FormatsOf(dest) :: f.held == old(f.held)
             else
               && src.formats == old(src.formats) && dest.formats == old(dest.formats)
               && forall i | 0 <= i < |FormatsOf(dest)| ::
                    FormatsOf(dest)[i].held == old(FormatsOf(dest)[i].held) + old(FormatsOf(src)[i].held)
    {
      hide Apart, GroupsOK, ContentsOK, Held, NoDup, CountIn, CountOf, Counted, EmptyBuffer, Moved;
      if src.formats.None? {
        return;
      }
      if src == dest {
        MoveToSelf(src);
      } else {
        MoveToOther(src, dest);
      }
    }
  }

  lemma PhaseEnd(calls: seq<Call>)
    ensures PhaseOf(calls + [GroupEnded]) == Next(PhaseOf(calls), GroupEnded)
    ensures PhaseOf(calls) == Reporting ==> PhaseOf(calls + [GroupEnded]) == Outside
  {
    var c := calls + [GroupEnded];
    assert c[..|c| - 1] == calls;
  }

  lemma PhaseReport(calls: seq<Call>, d: Diagnostic)
    ensures PhaseOf(calls) == Reporting ==> PhaseOf(calls + [Reported(d)]) == Reporting
    ensures PhaseOf(calls) == Outside ==> PhaseOf(calls + [GroupBegun] + [Reported(d)]) == Reporting
  {
    var c, b := calls + [Reported(d)], calls + [GroupBegun];
    var e := b + [Reported(d)];
    assert c[..|c| - 1] == calls && b[..|b| - 1] == calls && e[..|e| - 1] == b;
  }
}
