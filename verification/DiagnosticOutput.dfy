/** Reporting diagnostics: groups, output sinks, counters, and buffers that hold diagnostics back. */
module DiagnosticOutput {
  import opened Common

  datatype Kind = Warning | Error | WError | Note | Other(code: nat)

  /** A diagnostic that passed all filters, with the kind it was reported with originally. */
  datatype Diagnostic = Diagnostic(id: nat, kind: Kind, origKind: Kind)

  /** A warning that was turned into an error is counted as such. */
  function KindForCount(d: Diagnostic): Kind {
    if d.kind == Error && d.origKind == Warning then WError else d.kind
  }

  /** How many diagnostics of each kind; kinds without an entry have none. */
  type Counts = map<Kind, int>

  function CountIn(c: Counts, k: Kind): int {
    if k in c then c[k] else 0
  }

  ghost function CountOf(ds: seq<Diagnostic>, k: Kind): int {
    if ds == [] then 0
    else (if KindForCount(ds[|ds| - 1]) == k then 1 else 0) + CountOf(ds[..|ds| - 1], k)
  }

  lemma {:induction false} CountConcat(a: seq<Diagnostic>, b: seq<Diagnostic>, k: Kind)
    ensures CountOf(a + b, k) == CountOf(a, k) + CountOf(b, k)
  {
    if b == [] {
      assert a + b == a;
    } else {
      assert (a + b)[..|a + b| - 1] == a + b[..|b| - 1];
      CountConcat(a, b[..|b| - 1], k);
    }
  }

  /** How many of the reports have kind k and were, or were not, warnings at first. */
  ghost function Reports(ds: seq<Diagnostic>, k: Kind, wasWarning: bool): nat {
    if ds == [] then 0
    else
      var d := ds[|ds| - 1];
      Reports(ds[..|ds| - 1], k, wasWarning) + if d.kind == k && (d.origKind == Warning) == wasWarning then 1 else 0
  }

  /** What the counts say: errors that were warnings count with the promoted warnings, and everything
      else counts as what it is. */
  lemma {:induction false} CountOfMeans(ds: seq<Diagnostic>, k: Kind)
    ensures CountOf(ds, Error) == Reports(ds, Error, false)
    ensures CountOf(ds, WError) == Reports(ds, WError, true) + Reports(ds, WError, false) + Reports(ds, Error, true)
    ensures k != Error && k != WError ==> CountOf(ds, k) == Reports(ds, k, true) + Reports(ds, k, false)
  {
    if ds != [] {
      CountOfMeans(ds[..|ds| - 1], k);
    }
  }

  /** What one report does to the counts. */
  ghost predicate Tallied(before: Counts, after: Counts, d: Diagnostic) {
    if d.kind == Error && d.origKind == Warning then
      && CountIn(after, WError) == CountIn(before, WError) + 1
      && forall k | k != WError :: CountIn(after, k) == CountIn(before, k)
    else
      && CountIn(after, d.kind) == CountIn(before, d.kind) + 1
      && forall k | k != d.kind :: CountIn(after, k) == CountIn(before, k)
  }

  lemma TalliedIs(before: Counts, after: Counts, d: Diagnostic)
    ensures Tallied(before, after, d)
      <==> forall k :: CountIn(after, k) == CountIn(before, k) + if k == KindForCount(d) then 1 else 0
  {
    if Tallied(before, after, d) {
      forall k ensures CountIn(after, k) == CountIn(before, k) + if k == KindForCount(d) then 1 else 0 {
      }
    }
  }

  // ---------- what a sink is told ----------

  datatype Call = GroupBegun | Reported(diagnostic: Diagnostic) | GroupEnded

  datatype Phase = Outside | Begun | Reporting | Broken

  ghost function Next(p: Phase, c: Call): Phase {
    match (p, c)
    case (Outside, GroupBegun) => Begun
    case (Begun, Reported(_)) => Reporting
    case (Reporting, Reported(_)) => Reporting
    case (Reporting, GroupEnded) => Outside
    case _ => Broken
  }

  ghost function PhaseOf(calls: seq<Call>): Phase {
    if calls == [] then Outside else Next(PhaseOf(calls[..|calls| - 1]), calls[|calls| - 1])
  }

  /** The calls for one group of diagnostics. */
  ghost function GroupCalls(ds: seq<Diagnostic>): seq<Call> {
    [GroupBegun] + seq(|ds|, i requires 0 <= i < |ds| => Reported(ds[i])) + [GroupEnded]
  }

  ghost function AllGroups(gs: seq<seq<Diagnostic>>): seq<Call> {
    if gs == [] then [] else AllGroups(gs[..|gs| - 1]) + GroupCalls(gs[|gs| - 1])
  }

  ghost predicate NoneEmpty(gs: seq<seq<Diagnostic>>) {
    forall g | g in gs :: g != []
  }

  /** The calls since the last completed group, when one is open. */
  ghost predicate OpenGroup(calls: seq<Call>, gs: seq<seq<Diagnostic>>, ds: seq<Diagnostic>) {
    calls == AllGroups(gs) + [GroupBegun] + seq(|ds|, i requires 0 <= i < |ds| => Reported(ds[i]))
  }

  /** Outside a group, what a sink has seen is a sequence of non-empty groups; inside one, such a
      sequence and the beginning of another group. */
  lemma {:induction false} PhaseMeans(calls: seq<Call>) returns (gs: seq<seq<Diagnostic>>, ds: seq<Diagnostic>)
    requires PhaseOf(calls) != Broken
    ensures NoneEmpty(gs)
    ensures PhaseOf(calls) == Outside ==> calls == AllGroups(gs)
    ensures PhaseOf(calls) != Outside ==> OpenGroup(calls, gs, ds) && (PhaseOf(calls) == Reporting <==> ds != [])
    decreases |calls|
  {
    gs, ds := [], [];
    if calls != [] {
      var rest, c := calls[..|calls| - 1], calls[|calls| - 1];
      assert calls == rest + [c];
      gs, ds := PhaseMeans(rest);
      match c
      case GroupBegun =>
        ds := [];
        assert OpenGroup(calls, gs, ds);
      case Reported(d) =>
        var before := seq(|ds|, i requires 0 <= i < |ds| => Reported(ds[i]));
        ds := ds + [d];
        assert seq(|ds|, i requires 0 <= i < |ds| => Reported(ds[i])) == before + [c];
      case GroupEnded =>
        var closed := gs + [ds];
        assert closed[..|closed| - 1] == gs && closed[|closed| - 1] == ds;
        assert calls == AllGroups(gs) + GroupCalls(ds);
        gs := closed;
    }
  }

  // ---------- counters ----------

  class Counters {
    var countForKind: Counts

    constructor ()
      ensures countForKind == map[]
    {
      countForKind := map[];
    }

    method Increment(k: Kind)
      modifies this
      ensures forall j :: CountIn(countForKind, j) == CountIn(old(countForKind), j) + if j == k then 1 else 0
    {
      countForKind := countForKind[k := CountIn(countForKind, k) + 1];
    }

    method Clear()
      modifies this
      ensures countForKind == map[]
    {
      countForKind := map[];
    }

    /** Adds to dest what is here, and clears what is here: nothing is left if dest is this object. */
    method MoveTo(dest: Counters)
      modifies this, dest
      ensures countForKind == map[]
      ensures dest != this ==> forall k ::
        CountIn(dest.countForKind, k) == CountIn(old(dest.countForKind), k) + CountIn(old(countForKind), k)
    {
      dest.countForKind := map k | k in countForKind.Keys + dest.countForKind.Keys ::
        CountIn(dest.countForKind, k) + CountIn(countForKind, k);
      Clear();
    }
  }

  // ---------- buffers and sinks ----------

  /** The diagnostics one sink keeps for one buffer. */
  class FormatBuffer {
    var held: seq<Diagnostic>

    constructor ()
      ensures held == []
    {
      held := [];
    }
  }

  class Sink {
    var calls: seq<Call>
    /** Where reports go while a buffer is active. */
    var buffer: FormatBuffer?
    /** What has been written, directly or by a flush. */
    var written: seq<Diagnostic>

    constructor ()
      ensures calls == [] && buffer == null && written == []
    {
      calls, buffer, written := [], null, [];
    }
  }

  class Buffer {
    const counters: Counters
    var formats: Option<seq<FormatBuffer>>

    constructor ()
      ensures counters.countForKind == map[] && formats == None && fresh(counters)
    {
      counters := new Counters();
      formats := None;
    }
  }

  ghost predicate Counted(c: Counts, ds: seq<Diagnostic>) {
    forall k: Kind :: CountIn(c, k) == CountOf(ds, k)
  }

  ghost function FormatsOf(b: Buffer): seq<FormatBuffer>
    reads b`formats
  {
    if b.formats.Some? then b.formats.value else []
  }

  /** The counters of a buffer are right for what each sink holds for it. */
  ghost predicate BufferOK(b: Buffer, n: nat)
    reads b`formats, b.counters, FormatsOf(b)
  {
    if b.formats.None? then forall k: Kind :: CountIn(b.counters.countForKind, k) == 0
    else
      && |b.formats.value| == n
      && forall i | 0 <= i < n :: Counted(b.counters.countForKind, FormatsOf(b)[i].held)
  }

  /** The counts held back in the buffers bs together. */
  ghost function Held(bs: seq<Buffer>, k: Kind): int
    reads set b | b in bs :: b.counters
  {
    if bs == [] then 0
    else CountIn(bs[|bs| - 1].counters.countForKind, k) + Held(bs[..|bs| - 1], k)
  }

  /** The counters of all buffers of bs but b are as before. */
  twostate predicate OtherCountersSame(bs: seq<Buffer>, b: Buffer)
    reads set x | x in bs :: x.counters
  {
    forall x | x in bs && x != b :: x.counters.countForKind == old(x.counters.countForKind)
  }

  twostate lemma {:induction false} HeldSame(bs: seq<Buffer>, new k: Kind)
    requires forall x | x in bs :: x.counters.countForKind == old(x.counters.countForKind)
    ensures Held(bs, k) == old(Held(bs, k))
    decreases |bs|
  {
    if bs != [] {
      assert forall x | x in bs[..|bs| - 1] :: x in bs;
      HeldSame(bs[..|bs| - 1], k);
    }
  }

  /** When the counters of one buffer change, the sum changes by as much. */
  twostate lemma {:induction false} HeldChange(bs: seq<Buffer>, new b: Buffer, new k: Kind)
    requires NoDup(bs) && b in bs && old(allocated(b)) && OtherCountersSame(bs, b)
    ensures Held(bs, k) - old(Held(bs, k)) == CountIn(b.counters.countForKind, k) - old(CountIn(b.counters.countForKind, k))
    decreases |bs|
  {
    var last, rest := bs[|bs| - 1], bs[..|bs| - 1];
    assert forall x | x in rest :: x in bs;
    assert forall x | x in bs :: x in rest || x == last;
    if b == last {
      forall x | x in rest ensures x.counters.countForKind == old(x.counters.countForKind) {
        var i :| 0 <= i < |rest| && rest[i] == x;
        assert bs[i] != bs[|bs| - 1];
      }
      HeldSame(rest, k);
    } else {
      HeldChange(rest, b, k);
    }
  }

  twostate lemma {:induction false} HeldPair(bs: seq<Buffer>, new a: Buffer, new b: Buffer, new k: Kind)
    requires NoDup(bs) && a in bs && b in bs && a != b && old(allocated(a)) && old(allocated(b))
    requires forall x | x in bs && x != a && x != b :: x.counters.countForKind == old(x.counters.countForKind)
    ensures Held(bs, k) - old(Held(bs, k))
         == CountIn(a.counters.countForKind, k) - old(CountIn(a.counters.countForKind, k))
            + CountIn(b.counters.countForKind, k) - old(CountIn(b.counters.countForKind, k))
    decreases |bs|
  {
    var last, rest := bs[|bs| - 1], bs[..|bs| - 1];
    assert forall x | x in rest :: x in bs;
    assert forall x | x in bs :: x in rest || x == last;
    assert forall i | 0 <= i < |rest| :: rest[i] == bs[i] != last;
    if a == last {
      HeldChange(rest, b, k);
    } else if b == last {
      HeldChange(rest, a, k);
    } else {
      HeldPair(rest, a, b, k);
    }
  }

  // ---------- loops over the sinks ----------

  method TellAll(sinks: seq<Sink>, c: Call)
    requires NoDup(sinks)
    modifies sinks`calls
    ensures forall s | s in sinks :: s.calls == old(s.calls) + [c]
  {
    var i := 0;
    while i < |sinks|
      invariant i <= |sinks|
      invariant forall j | 0 <= j < |sinks| :: sinks[j].calls == if j < i then old(sinks[j].calls) + [c] else old(sinks[j].calls)
    {
      sinks[i].calls := sinks[i].calls + [c];
      i := i + 1;
    }
  }

  /** on_report_diagnostic of every sink: into its buffer if it has one, and else straight out. */
  method Deliver(sinks: seq<Sink>, d: Diagnostic, ghost bufs: seq<FormatBuffer>)
    requires NoDup(sinks) && NoDup(bufs)
    requires bufs == [] ==> forall s | s in sinks :: s.buffer == null
    requires bufs != [] ==> |bufs| == |sinks| && forall i | 0 <= i < |sinks| :: sinks[i].buffer == bufs[i]
    modifies (if bufs == [] then sinks else [])`written, bufs
    ensures bufs == [] ==> forall s | s in sinks :: s.written == old(s.written) + [d]
    ensures forall b | b in bufs :: b.held == old(b.held) + [d]
  {
    var i := 0;
    while i < |sinks|
      invariant i <= |sinks|
      invariant bufs == [] ==> forall j | 0 <= j < |sinks| ::
        sinks[j].written == if j < i then old(sinks[j].written) + [d] else old(sinks[j].written)
      invariant forall j | 0 <= j < |bufs| :: bufs[j].held == if j < i then old(bufs[j].held) + [d] else old(bufs[j].held)
    {
      if sinks[i].buffer != null {
        sinks[i].buffer.held := sinks[i].buffer.held + [d];
      } else {
        sinks[i].written := sinks[i].written + [d];
      }
      i := i + 1;
    }
  }

  method EmptyAll(bufs: seq<FormatBuffer>)
    modifies bufs
    ensures forall b | b in bufs :: b.held == []
  {
    var i := 0;
    while i < |bufs|
      invariant i <= |bufs| && forall j | 0 <= j < i :: bufs[j].held == []
    {
      bufs[i].held := [];
      i := i + 1;
    }
  }

  /** Each sink writes what its buffer holds, and the buffer is emptied. */
  method FlushAll(sinks: seq<Sink>, bufs: seq<FormatBuffer>)
    requires NoDup(sinks) && NoDup(bufs) && |bufs| == |sinks|
    modifies sinks`written, bufs
    ensures forall i | 0 <= i < |sinks| :: sinks[i].written == old(sinks[i].written) + old(bufs[i].held)
    ensures forall b | b in bufs :: b.held == []
  {
    var i := 0;
    while i < |bufs|
      invariant i <= |bufs|
      invariant forall j | 0 <= j < i :: sinks[j].written == old(sinks[j].written) + old(bufs[j].held)
      invariant forall j | i <= j < |sinks| :: sinks[j].written == old(sinks[j].written)
      invariant forall j | 0 <= j < i :: bufs[j].held == []
      invariant forall j | i <= j < |bufs| :: bufs[j].held == old(bufs[j].held)
    {
      sinks[i].written := sinks[i].written + bufs[i].held;
      bufs[i].held := [];
      i := i + 1;
    }
  }

  method AppendAll(src: seq<FormatBuffer>, dest: seq<FormatBuffer>)
    requires NoDup(src) && NoDup(dest) && |src| == |dest| && (src == dest || forall b | b in src :: b !in dest)
    modifies src, dest
    ensures forall b | b in src :: b.held == []
    ensures src != dest ==> forall i | 0 <= i < |dest| :: dest[i].held == old(dest[i].held) + old(src[i].held)
  {
    var i := 0;
    while i < |src|
      invariant i <= |src|
      invariant forall j | 0 <= j < |src| :: src[j].held == if j < i then [] else old(src[j].held)
      invariant src != dest ==> forall j | 0 <= j < |dest| ::
        dest[j].held == if j < i then old(dest[j].held) + old(src[j].held) else old(dest[j].held)
    {
      ApartAt(src, dest, i);
      hide NoDup;
      AppendOne(src[i], dest[i]);
      i := i + 1;
    }
  }

  lemma ApartAt(src: seq<FormatBuffer>, dest: seq<FormatBuffer>, i: nat)
    requires NoDup(src) && NoDup(dest) && |src| == |dest| && (src == dest || forall b | b in src :: b !in dest) && i < |src|
    ensures src[i] in src && dest[i] in dest
    ensures forall j | 0 <= j < |src| && j != i :: src[j] != src[i] && dest[j] != dest[i] && src[j] != dest[i] && dest[j] != src[i]
    ensures src != dest ==> src[i] != dest[i]
  {
    assert forall j | 0 <= j < |src| :: src[j] in src && dest[j] in dest;
  }

  /** The contents go to the end of the other buffer, and the first one is cleared. */
  method AppendOne(src: FormatBuffer, dest: FormatBuffer)
    modifies src, dest
    ensures src.held == [] && (src != dest ==> dest.held == old(dest.held) + old(src.held))
  {
    dest.held := dest.held + src.held;
    src.held := [];
  }

  method SetBuffers(sinks: seq<Sink>, bufs: seq<FormatBuffer>)
    requires NoDup(sinks) && |bufs| == |sinks|
    modifies sinks`buffer
    ensures forall i | 0 <= i < |sinks| :: sinks[i].buffer == bufs[i]
  {
    var i := 0;
    while i < |sinks|
      invariant i <= |sinks| && forall j | 0 <= j < i :: sinks[j].buffer == bufs[j]
    {
      sinks[i].buffer := bufs[i];
      i := i + 1;
    }
  }

  method ResetBuffers(sinks: seq<Sink>)
    modifies sinks`buffer
    ensures forall s | s in sinks :: s.buffer == null
  {
    var i := 0;
    while i < |sinks|
      invariant i <= |sinks| && forall j | 0 <= j < i :: sinks[j].buffer == null
    {
      sinks[i].buffer := null;
      i := i + 1;
    }
  }

  method MakeFormats(n: nat) returns (bufs: seq<FormatBuffer>)
    ensures |bufs| == n && NoDup(bufs) && forall b | b in bufs :: fresh(b) && b.held == []
  {
    bufs := [];
    while |bufs| < n
      invariant |bufs| <= n && NoDup(bufs) && forall b | b in bufs :: fresh(b) && b.held == []
    {
      var b := new FormatBuffer();
      bufs := bufs + [b];
    }
  }
}
