/** Diagnostic pragmas.  The classifier keeps one flat list of changes, in which a pop is a jump back
    to where its push was; looking an option up from the end of the list gives what a stack of
    settings would give. */
module DiagnosticPragmas {
  import opened Common

  /** Kinds of diagnostics.  `Pop` marks the entries of pops; `OutOfRange` stands for the values from
      DK_LAST_DIAGNOSTIC_KIND on. */
  datatype Kind = Unspecified | Ignored | Any | Pop | Other(code: nat) | OutOfRange(code: nat)

  type Location = nat
  const UNKNOWN_LOCATION: Location := 0

  /** An entry of the list; for a pop, `option` is the length the list had at its push. */
  datatype Change = Change(location: Location, option: int, kind: Kind)

  // ---------- what the pragmas mean ----------

  datatype Event =
    | Pushed(location: Location)
    | Popped(location: Location)
    | Classified(location: Location, option: int, kind: Kind)

  /** The settings in force: one for all options, and one for each option set since. */
  datatype Settings = Settings(all: Option<Kind>, each: map<int, Kind>)

  const NoSettings := Settings(None, map[])

  ghost function Setting(s: Settings, option: int): Option<Kind> {
    if option in s.each then Some(s.each[option]) else s.all
  }

  /** The current settings and the saved ones, innermost last. */
  datatype Stack = Stack(current: Settings, saved: seq<Settings>)

  /** Option 0 sets all options; a pop without a push goes back to no settings at all. */
  ghost function Step(s: Stack, e: Event): Stack {
    match e
    case Pushed(_) => Stack(s.current, s.saved + [s.current])
    case Popped(_) =>
      if s.saved == [] then Stack(NoSettings, [])
      else Stack(s.saved[|s.saved| - 1], s.saved[..|s.saved| - 1])
    case Classified(_, o, k) =>
      if o == 0 then Stack(Settings(Some(k), map[]), s.saved)
      else Stack(Settings(s.current.all, s.current.each[o := k]), s.saved)
  }

  ghost function Replay(es: seq<Event>): Stack {
    if es == [] then Stack(NoSettings, []) else Step(Replay(es[..|es| - 1]), es[|es| - 1])
  }

  /** A classification sets its option, or all options at once, and leaves the others. */
  lemma ClassifiedSets(s: Stack, w: Location, o: int, k: Kind, p: int)
    ensures Setting(Step(s, Classified(w, o, k)).current, p) == if o == 0 || p == o then Some(k) else Setting(s.current, p)
  {
  }

  ghost function ReplayFrom(s: Stack, es: seq<Event>): Stack {
    if es == [] then s else Step(ReplayFrom(s, es[..|es| - 1]), es[|es| - 1])
  }

  /** How many pushes are open. */
  ghost function Depth(es: seq<Event>): int {
    if es == [] then 0
    else
      var e := es[|es| - 1];
      Depth(es[..|es| - 1]) + if e.Pushed? then 1 else if e.Popped? then -1 else 0
  }

  /** No pop without its push. */
  ghost predicate Nested(es: seq<Event>) {
    forall i | 0 <= i <= |es| :: Depth(es[..i]) >= 0
  }

  lemma {:induction false} SavedStay(s: Stack, es: seq<Event>)
    requires Nested(es)
    ensures var r := ReplayFrom(s, es);
      |r.saved| == |s.saved| + Depth(es) && |s.saved| <= |r.saved| && r.saved[..|s.saved|] == s.saved
  {
    assert es[..|es|] == es;
    if es != [] {
      var rest := es[..|es| - 1];
      forall i | 0 <= i <= |rest| ensures Depth(rest[..i]) >= 0 {
        assert rest[..i] == es[..i];
      }
      SavedStay(s, rest);
      assert Depth(es) >= 0;
    }
  }

  /** Whatever happens in between, a pop brings back the settings of its push. */
  lemma PopRestores(s: Stack, w: Location, es: seq<Event>, w': Location)
    requires Nested(es) && Depth(es) == 0
    ensures Step(ReplayFrom(Step(s, Pushed(w)), es), Popped(w')) == s
  {
    var t := Step(s, Pushed(w));
    SavedStay(t, es);
    assert t.saved[..|t.saved| - 1] == s.saved;
  }

  ghost predicate InOrder(es: seq<Event>) {
    forall i, j | 0 <= i < j < |es| :: es[i].location <= es[j].location
  }

  /** The events up to the location; in an ordered list they come first. */
  ghost function UpTo(es: seq<Event>, loc: Location): seq<Event> {
    if es == [] then []
    else if es[|es| - 1].location <= loc then es
    else UpTo(es[..|es| - 1], loc)
  }

  /** An event at the location itself counts, and a later one does not. */
  lemma {:induction false} UpToMeans(es: seq<Event>, loc: Location)
    requires InOrder(es)
    ensures var k := |UpTo(es, loc)|;
      && k <= |es| && UpTo(es, loc) == es[..k]
      && forall i | 0 <= i < |es| :: i < k <==> es[i].location <= loc
  {
    if es != [] {
      if es[|es| - 1].location <= loc {
        assert es[..|es|] == es;
      } else {
        var rest := es[..|es| - 1];
        UpToMeans(rest, loc);
        assert forall i | 0 <= i < |rest| :: rest[i] == es[i];
      }
    }
  }

  // ---------- the flat list ----------

  datatype Log = Log(history: seq<Change>, pushes: seq<int>)

  ghost function Record(l: Log, e: Event): Log {
    match e
    case Pushed(_) => Log(l.history, l.pushes + [|l.history|])
    case Popped(w) =>
      if l.pushes == [] then Log(l.history + [Change(w, 0, Pop)], [])
      else Log(l.history + [Change(w, l.pushes[|l.pushes| - 1], Pop)], l.pushes[..|l.pushes| - 1])
    case Classified(w, o, k) => Log(l.history + [Change(w, o, k)], l.pushes)
  }

  ghost function LogOf(es: seq<Event>): Log {
    if es == [] then Log([], []) else Record(LogOf(es[..|es| - 1]), es[|es| - 1])
  }

  /** Jumps lead to earlier entries. */
  ghost predicate JumpsBack(h: seq<Change>) {
    forall i | 0 <= i < |h| && h[i].kind == Pop :: 0 <= h[i].option <= i
  }

  /** The first entry that counts for the option, from the n-th entry backwards. */
  ghost function Scan(h: seq<Change>, n: nat, loc: Location, option: int): Option<Kind>
    requires n <= |h| && JumpsBack(h)
  {
    if n == 0 then None
    else
      var p := h[n - 1];
      if p.location > loc then Scan(h, n - 1, loc, option)
      else if p.kind == Pop then Scan(h, p.option, loc, option)
      else if p.option == 0 || p.option == option then Some(p.kind)
      else Scan(h, n - 1, loc, option)
  }

  /** Only the first n entries matter. */
  lemma {:induction false} ScanPrefix(h: seq<Change>, h': seq<Change>, n: nat, loc: Location, option: int)
    requires n <= |h| && n <= |h'| && JumpsBack(h) && JumpsBack(h') && h[..n] == h'[..n]
    ensures Scan(h, n, loc, option) == Scan(h', n, loc, option)
  {
    if n > 0 {
      var p := h[n - 1];
      assert p == h[..n][n - 1] == h'[..n][n - 1] == h'[n - 1];
      var next := if p.location <= loc && p.kind == Pop then p.option else n - 1;
      assert h[..next] == h[..n][..next] == h'[..n][..next] == h'[..next];
      ScanPrefix(h, h', next, loc, option);
    }
  }

  /** Jumps lead to earlier entries, and saved lengths are lengths that the list has had. */
  ghost predicate LogOK(l: Log) {
    && JumpsBack(l.history)
    && forall i | 0 <= i < |l.pushes| :: 0 <= l.pushes[i] <= |l.history|
  }

  ghost predicate NoPopKinds(es: seq<Event>) {
    forall i | 0 <= i < |es| && es[i].Classified? :: es[i].kind != Pop
  }

  lemma {:induction false} LogIsOK(es: seq<Event>)
    requires NoPopKinds(es)
    ensures LogOK(LogOf(es))
  {
    if es != [] {
      LogIsOK(es[..|es| - 1]);
    }
  }

  /** Once all entries count, the scan agrees with the settings, now and at every open push. */
  ghost predicate Agrees(l: Log, s: Stack, loc: Location, option: int)
    requires LogOK(l)
  {
    && |l.pushes| == |s.saved|
    && Scan(l.history, |l.history|, loc, option) == Setting(s.current, option)
    && forall i | 0 <= i < |l.pushes| :: Scan(l.history, l.pushes[i], loc, option) == Setting(s.saved[i], option)
  }

  lemma AgreesStep(l: Log, s: Stack, e: Event, loc: Location, option: int)
    requires LogOK(l) && LogOK(Record(l, e)) && Agrees(l, s, loc, option) && e.location <= loc
    requires e.Classified? ==> e.kind != Pop
    ensures Agrees(Record(l, e), Step(s, e), loc, option)
  {
    var l', s', h, h' := Record(l, e), Step(s, e), l.history, Record(l, e).history;
    forall n: nat | n <= |h| ensures Scan(h', n, loc, option) == Scan(h, n, loc, option) {
      assert h'[..n] == h[..n];
      ScanPrefix(h, h', n, loc, option);
    }
  }

  /** With every event in force, the flat list and the stack of settings say the same. */
  lemma {:induction false} LogAgrees(es: seq<Event>, loc: Location, option: int)
    requires NoPopKinds(es) && forall i | 0 <= i < |es| :: es[i].location <= loc
    ensures LogOK(LogOf(es)) && Agrees(LogOf(es), Replay(es), loc, option)
  {
    LogIsOK(es);
    if es != [] {
      var rest := es[..|es| - 1];
      LogIsOK(rest);
      LogAgrees(rest, loc, option);
      AgreesStep(LogOf(rest), Replay(rest), es[|es| - 1], loc, option);
    }
  }

  /** The events after the location only add entries that the scan skips. */
  lemma {:induction false} LaterSkipped(es: seq<Event>, loc: Location, option: int)
    requires NoPopKinds(es) && InOrder(es)
    ensures NoPopKinds(UpTo(es, loc)) && LogOK(LogOf(UpTo(es, loc))) && LogOK(LogOf(es))
    ensures forall i | 0 <= i < |UpTo(es, loc)| :: UpTo(es, loc)[i].location <= loc
    ensures var h, h0 := LogOf(es).history, LogOf(UpTo(es, loc)).history;
      Scan(h, |h|, loc, option) == Scan(h0, |h0|, loc, option)
  {
    hide LogOK;
    LogIsOK(es);
    if es != [] && es[|es| - 1].location > loc {
      var rest, e := es[..|es| - 1], es[|es| - 1];
      LaterSkipped(rest, loc, option);
      var h, h1 := LogOf(es).history, LogOf(rest).history;
      assert h[..|h1|] == h1[..|h1|];
      ScanPrefix(h, h1, |h1|, loc, option);
    }
  }

  /** For any pragmas in location order, any location and any option: looking the option up in the
      flat list gives its setting after replaying the pragmas up to that location. */
  lemma ScanIsReplay(es: seq<Event>, loc: Location, option: int)
    requires NoPopKinds(es) && InOrder(es)
    ensures LogOK(LogOf(es))
    ensures Scan(LogOf(es).history, |LogOf(es).history|, loc, option) == Setting(Replay(UpTo(es, loc)).current, option)
  {
    LaterSkipped(es, loc, option);
    LogAgrees(UpTo(es, loc), loc, option);
  }

  // ---------- several locations ----------

  /** The first location at which the option has a setting decides, even if that setting is
      `Unspecified`. */
  ghost function Decide(es: seq<Event>, locs: seq<Location>, option: int): Kind {
    if locs == [] then Unspecified
    else
      var s := Setting(Replay(UpTo(es, locs[0])).current, option);
      if s.Some? then s.value else Decide(es, locs[1..], option)
  }

  /** The comment on the loop promises to go on when the setting found is `Unspecified`; this is
      what that would give. */
  ghost function DecideSpecified(es: seq<Event>, locs: seq<Location>, option: int): Kind {
    if locs == [] then Unspecified
    else
      var s := Setting(Replay(UpTo(es, locs[0])).current, option);
      if s.Some? && s.value != Unspecified then s.value else DecideSpecified(es, locs[1..], option)
  }

  /** The two differ: a pragma resets option 7 at the first location and disables it at the second. */
  lemma CommentFails()
    ensures var es := [Classified(1, 7, Ignored), Classified(5, 7, Unspecified)];
      Decide(es, [6, 2], 7) == Unspecified && DecideSpecified(es, [6, 2], 7) == Ignored
  {
    var es := [Classified(1, 7, Ignored), Classified(5, 7, Unspecified)];
    assert es[..1] == [Classified(1, 7, Ignored)] && es[..1][..0] == [];
    assert UpTo(es, 6) == es && UpTo(es, 2) == es[..1];
    assert Replay(es[..1][..0]) == Stack(NoSettings, []);
    assert Replay(es[..1]) == Step(Replay(es[..1][..0]), es[0]);
    assert Replay(es) == Step(Replay(es[..1]), es[1]);
    assert [6, 2][1..] == [2];
    assert Setting(Replay(UpTo(es, 6)).current, 7) == Some(Unspecified);
    assert Setting(Replay(UpTo(es, 2)).current, 7) == Some(Ignored);
    assert DecideSpecified(es, [2], 7) == Ignored;
  }

  /** The first location that decides, and the first that decides on a kind. */
  ghost function FirstHit(es: seq<Event>, locs: seq<Location>, option: int): nat
    ensures FirstHit(es, locs, option) <= |locs|
  {
    if locs == [] || Setting(Replay(UpTo(es, locs[0])).current, option).Some? then 0
    else 1 + FirstHit(es, locs[1..], option)
  }

  /** The option has no kind at the location: no setting, or the setting `Unspecified`. */
  ghost predicate NoKindAt(es: seq<Event>, loc: Location, option: int) {
    var s := Setting(Replay(UpTo(es, loc)).current, option);
    s == None || s == Some(Unspecified)
  }

  lemma {:induction false} NothingSpecified(es: seq<Event>, locs: seq<Location>, option: int)
    ensures DecideSpecified(es, locs, option) == Unspecified <==> forall j | 0 <= j < |locs| :: NoKindAt(es, locs[j], option)
  {
    if locs != [] {
      NothingSpecified(es, locs[1..], option);
      assert (forall j | 0 <= j < |locs| :: NoKindAt(es, locs[j], option))
        <==> NoKindAt(es, locs[0], option) && forall j | 0 <= j < |locs[1..]| :: NoKindAt(es, locs[1..][j], option) by {
        if forall j | 0 <= j < |locs[1..]| :: NoKindAt(es, locs[1..][j], option) {
          forall j | 0 < j < |locs| ensures NoKindAt(es, locs[j], option) {
            assert locs[j] == locs[1..][j - 1];
          }
        }
      }
    }
  }

  /** The code and its comment agree exactly if the first location with a setting does not have
      `Unspecified`, or no later location has a kind. */
  lemma {:induction false} CommentHoldsIff(es: seq<Event>, locs: seq<Location>, option: int)
    ensures Decide(es, locs, option) == DecideSpecified(es, locs, option) <==>
      var k := FirstHit(es, locs, option);
      k == |locs|
      || Setting(Replay(UpTo(es, locs[k])).current, option) != Some(Unspecified)
      || forall j | k < j < |locs| :: NoKindAt(es, locs[j], option)
  {
    var k := FirstHit(es, locs, option);
    FirstHitDecides(es, locs, option);
    if k < |locs| {
      var rest := locs[k + 1..];
      NothingSpecified(es, rest, option);
      assert forall i | 0 <= i < |rest| :: rest[i] == locs[k + 1 + i];
      assert forall j | k < j < |locs| :: locs[j] == rest[j - k - 1];
    }
  }

  /** Up to the first location with a setting, code and comment do the same. */
  lemma {:induction false} FirstHitDecides(es: seq<Event>, locs: seq<Location>, option: int)
    ensures var k := FirstHit(es, locs, option);
      if k == |locs| then Decide(es, locs, option) == DecideSpecified(es, locs, option) == Unspecified
      else
        var s := Setting(Replay(UpTo(es, locs[k])).current, option);
        && s.Some? && Decide(es, locs, option) == s.value
        && DecideSpecified(es, locs, option)
           == if s.value != Unspecified then s.value else DecideSpecified(es, locs[k + 1..], option)
  {
    if locs != [] && Setting(Replay(UpTo(es, locs[0])).current, option).None? {
      FirstHitDecides(es, locs[1..], option);
      var k := FirstHit(es, locs[1..], option);
      if k < |locs[1..]| {
        assert locs[1..][k] == locs[k + 1] && locs[1..][k + 1..] == locs[k + 2..];
      }
    }
  }

  // ---------- the classifier ----------

  /** The last entry whose option field is the given one, pops included. */
  ghost function LastAbout(h: seq<Change>, option: int, otherwise: Kind): Kind {
    if h == [] then otherwise
    else if h[|h| - 1].option == option then h[|h| - 1].kind
    else LastAbout(h[..|h| - 1], option, otherwise)
  }

  /** It is entry i when no later one has that option, and the default when none has. */
  lemma {:induction false} LastAboutMeans(h: seq<Change>, option: int, otherwise: Kind, i: int)
    requires -1 <= i < |h| && (i >= 0 ==> h[i].option == option)
    requires forall j | i < j < |h| :: h[j].option != option
    ensures LastAbout(h, option, otherwise) == if i >= 0 then h[i].kind else otherwise
    decreases |h|
  {
    if i < |h| - 1 {
      LastAboutMeans(h[..|h| - 1], option, otherwise, i);
    }
  }

  class OptionClassifier {
    var nOpts: int
    var classifyDiagnostic: seq<Kind>
    var classificationHistory: seq<Change>
    var pushList: seq<int>
    /** The pragmas seen, in order. */
    ghost var events: seq<Event>

    ghost predicate Valid()
      reads this
    {
      && nOpts == |classifyDiagnostic|
      && NoPopKinds(events) && InOrder(events)
      && LogOf(events) == Log(classificationHistory, pushList)
    }

    /** The event comes no earlier than those before. */
    ghost predicate Follows(w: Location)
      reads this
    {
      events != [] ==> events[|events| - 1].location <= w
    }

    constructor (nOpts: nat)
      ensures Valid() && events == [] && classifyDiagnostic == seq(nOpts, _ => Unspecified)
    {
      this.nOpts := nOpts;
      classifyDiagnostic := seq(nOpts, _ => Unspecified);
      classificationHistory, pushList, events := [], [], [];
    }

    lemma Grow(e: Event)
      requires Valid() && Follows(e.location) && (e.Classified? ==> e.kind != Pop)
      ensures NoPopKinds(events + [e]) && InOrder(events + [e])
      ensures LogOf(events + [e]) == Record(Log(classificationHistory, pushList), e)
    {
      var es := events + [e];
      assert es[..|es| - 1] == events;
    }

    /** The location of the pragma is not recorded; it only places the event. */
    method Push(ghost w: Location)
      requires Valid() && Follows(w)
      modifies this`pushList, this`events
      ensures Valid() && events == old(events) + [Pushed(w)]
    {
      Grow(Pushed(w));
      pushList := pushList + [|classificationHistory|];
      events := events + [Pushed(w)];
    }

    method PopTo(w: Location)
      requires Valid() && Follows(w)
      modifies this`pushList, this`classificationHistory, this`events
      ensures Valid() && events == old(events) + [Popped(w)]
    {
      Grow(Popped(w));
      var jumpTo := 0;
      if pushList != [] {
        jumpTo := pushList[|pushList| - 1];
        pushList := pushList[..|pushList| - 1];
      }
      classificationHistory := classificationHistory + [Change(w, jumpTo, Pop)];
      events := events + [Popped(w)];
    }

    method FindLastAbout(option: int, otherwise: Kind) returns (kind: Kind)
      ensures kind == LastAbout(classificationHistory, option, otherwise)
    {
      kind := otherwise;
      var i := |classificationHistory|;
      assert classificationHistory[..i] == classificationHistory;
      while i > 0
        invariant 0 <= i <= |classificationHistory| && kind == otherwise
        invariant LastAbout(classificationHistory[..i], option, otherwise)
               == LastAbout(classificationHistory, option, otherwise)
      {
        assert classificationHistory[..i][..i - 1] == classificationHistory[..i - 1];
        var p := classificationHistory[i - 1];
        if p.option == option {
          return p.kind;
        }
        i := i - 1;
      }
    }

    /** Without a location the command-line setting changes; with one, a pragma is recorded and the
        command-line setting is only filled in. */
    method Classify(enabled: bool, option: int, newKind: Kind, w: Location) returns (oldKind: Kind)
      requires Valid() && newKind != Pop && (w != UNKNOWN_LOCATION ==> Follows(w))
      modifies this`classifyDiagnostic, this`classificationHistory, this`events
      ensures Valid()
      ensures var inRange := 0 <= option < nOpts && !newKind.OutOfRange?;
        var pragma := inRange && w != UNKNOWN_LOCATION;
        && events == (if pragma then old(events) + [Classified(w, option, newKind)] else old(events))
        && (!inRange ==> oldKind == Unspecified && classifyDiagnostic == old(classifyDiagnostic))
        && (inRange && !pragma ==>
              && oldKind == old(classifyDiagnostic)[option]
              && classifyDiagnostic == old(classifyDiagnostic)[option := newKind])
        && (pragma ==>
              var was := old(classifyDiagnostic)[option];
              var now := if was != Unspecified then was else if enabled then Any else Ignored;
              && classifyDiagnostic == old(classifyDiagnostic)[option := now]
              && oldKind == LastAbout(old(classificationHistory), option, now))
    {
      if option < 0 || option >= nOpts || newKind.OutOfRange? {
        return Unspecified;
      }
      oldKind := classifyDiagnostic[option];
      if w != UNKNOWN_LOCATION {
        Grow(Classified(w, option, newKind));
        if oldKind == Unspecified {
          oldKind := if !enabled then Ignored else Any;
          classifyDiagnostic := classifyDiagnostic[option := oldKind];
        }
        oldKind := FindLastAbout(option, oldKind);
        classificationHistory := classificationHistory + [Change(w, option, newKind)];
        events := events + [Classified(w, option, newKind)];
      } else {
        classifyDiagnostic := classifyDiagnostic[option := newKind];
      }
    }

    /** The inner loop of update_effective_level_from_pragmas. */
    method LookUp(loc: Location, option: int) returns (kind: Option<Kind>)
      requires Valid()
      ensures kind == Setting(Replay(UpTo(events, loc)).current, option)
    {
      ScanIsReplay(events, loc, option);
      var i := |classificationHistory|;
      while i > 0
        invariant 0 <= i <= |classificationHistory|
        invariant JumpsBack(classificationHistory)
        invariant Scan(classificationHistory, i, loc, option)
               == Scan(classificationHistory, |classificationHistory|, loc, option)
      {
        var p := classificationHistory[i - 1];
        if p.location > loc {
          i := i - 1;
          continue;
        }
        if p.kind == Pop {
          i := p.option;
          continue;
        }
        if p.option == 0 || p.option == option {
          return Some(p.kind);
        }
        i := i - 1;
      }
      kind := None;
    }

    /** update_effective_level_from_pragmas: the result, and the kind of the diagnostic afterwards. */
    method UpdateEffectiveLevel(ilocs: seq<Location>, option: int, kind: Kind) returns (r: Kind, kind': Kind)
      requires Valid()
      ensures r == Decide(events, ilocs, option)
      ensures kind' == if r != Unspecified then r else kind
    {
      kind' := kind;
      if classificationHistory == [] {
        NoHistory(ilocs, option);
        return Unspecified, kind;
      }
      var j := 0;
      while j < |ilocs|
        invariant j <= |ilocs|
        invariant Decide(events, ilocs, option) == Decide(events, ilocs[j..], option)
      {
        assert ilocs[j..][0] == ilocs[j] && ilocs[j..][1..] == ilocs[j + 1..];
        var found := LookUp(ilocs[j], option);
        if found.Some? {
          if found.value != Unspecified {
            kind' := found.value;
          }
          return found.value, kind';
        }
        j := j + 1;
      }
      r := Unspecified;
    }

    lemma {:induction false} NoHistory(ilocs: seq<Location>, option: int)
      requires Valid() && classificationHistory == []
      ensures Decide(events, ilocs, option) == Unspecified
      decreases |ilocs|
    {
      if ilocs != [] {
        ScanIsReplay(events, ilocs[0], option);
        NoHistory(ilocs[1..], option);
      }
    }
  }
}
