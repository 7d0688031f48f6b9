/** Where the line wrapper breaks lines: only in front of a word that does not fit, and always there. */
module LineBreaks {
  import opened Utf8
  import opened LineWrapping

  ghost predicate OneLine(s: seq<byte>) {
    forall i | 0 <= i < |s| :: s[i] != Newline
  }

  // ---------- one round ----------

  ghost function Front(n: nat, s: seq<byte>, max: int): seq<byte> {
    if WordLength(s) >= max - n then [Newline] else []
  }

  lemma WordEnds(w: seq<byte>, rest: seq<byte>)
    requires (forall i | 0 <= i < |w| :: !Ends(w[i])) && (rest != [] ==> Ends(rest[0]))
    ensures WordLength(w + rest) == |w|
  {
    WordFirst(w, rest);
  }

  /** What a round reads and puts out: a word, perhaps on a new line, and white space. */
  lemma RoundParts(n: nat, s: seq<byte>, max: int) returns (sep: seq<byte>)
    requires s != []
    ensures var r, k, f := OneRound(n, s, max), WordLength(s), Front(n, s, max);
      && r.out == f + s[..k] + sep && (r.read < |s| ==> sep != [])
      && (forall i | 0 <= i < |sep| :: Ends(sep[i])) && r.line == LineAfter(n, r.out) && r.read > 0
  {
    var k := WordLength(s);
    var w := WordOut(n, s, max);
    sep := SeparatorsRead(w.line, s, k, max);
    RoundAdds(n, s, max);
    hide WordLength, BlankOut, BreakOut, Ends, IsBlank, LineAfter;
    var b := BlankOut(w.line, s[k..], max);
    Associative(w.out, b.out, BreakOut(b.line, s[k + b.read..]).out);
  }

  lemma RoundAdds(n: nat, s: seq<byte>, max: int)
    requires s != []
    ensures var r := OneRound(n, s, max); r.read > 0 && r.line == LineAfter(n, r.out)
  {
    var m := (if max > 0 then max else 0) + n + |s|;
    RoundLines(n, s, max, m);
  }

  /** On one line, the white space is at most one blank; it becomes the line break when the line is
      full. */
  lemma RoundOnLine(n: nat, s: seq<byte>, max: int)
    requires s != [] && OneLine(s)
    ensures var r, k, f := OneRound(n, s, max), WordLength(s), Front(n, s, max);
      && k <= r.read <= k + 1
      && var m := if f == [] then n + k else k;
         r.out == f + s[..k] + if r.read == k then [] else if max - m <= 0 then [Newline] else [Space]
  {
    hide WordLength;
    var k := WordLength(s);
    var w := WordOut(n, s, max);
    var b := BlankOut(w.line, s[k..], max);
    assert s[k + b.read..] == [] || s[k + b.read..][0] == s[k + b.read];
    assert BreakOut(b.line, s[k + b.read..]) == Round(0, [], b.line);
    assert w.out + b.out + [] == w.out + b.out;
  }

  // ---------- a word that does not fit begins a line ----------

  ghost predicate BeginsWord(out: seq<byte>, i: nat)
    requires i < |out|
  {
    !Ends(out[i]) && (i == 0 || Ends(out[i - 1]))
  }

  /** The word at position i stands at the beginning of a line, or fits in what is left of it. */
  ghost predicate FitsAt(n: nat, out: seq<byte>, max: int, i: nat)
    requires i < |out|
  {
    var line := LineAfter(n, out[..i]);
    BeginsWord(out, i) ==> line == 0 || WordLength(out[i..]) < max - line
  }

  ghost predicate AllFit(n: nat, out: seq<byte>, max: int) {
    forall i | 0 <= i < |out| :: FitsAt(n, out, max, i)
  }

  lemma WordPlace(f: seq<byte>, w: seq<byte>, sep: seq<byte>, more: seq<byte>, i: nat)
    requires (forall j | 0 <= j < |f| :: Ends(f[j])) && (forall j | 0 <= j < |sep| :: Ends(sep[j]))
    requires (forall j | 0 <= j < |w| :: !Ends(w[j])) && i < |f + w + sep|
    ensures BeginsWord(f + w + sep + more, i) ==> i == |f|
  {
    hide Ends;
    var out := f + w + sep + more;
    assert i < |f| ==> out[i] == f[i];
    assert i >= |f| + |w| ==> out[i] == sep[i - |f| - |w|];
    assert |f| < i < |f| + |w| ==> out[i - 1] == w[i - 1 - |f|];
  }

  lemma RoundFitsAt(n: nat, s: seq<byte>, max: int, more: seq<byte>, i: nat)
    requires s != [] && (more != [] ==> OneRound(n, s, max).read < |s|) && i < |OneRound(n, s, max).out|
    ensures FitsAt(n, OneRound(n, s, max).out + more, max, i)
  {
    hide OneRound, LineAfter;
    var r, k, f := OneRound(n, s, max), WordLength(s), Front(n, s, max);
    var sep := RoundParts(n, s, max);
    var out := r.out + more;
    WordPlace(f, s[..k], sep, more, i);
    if BeginsWord(out, i) {
      assert out[i..] == s[..k] + (sep + more);
      WordEnds(s[..k], sep + more);
      assert out[..i] == f;
      LineOfOne(n, Newline);
      NothingAdded(n);
    }
  }

  lemma NothingAdded(n: nat)
    ensures LineAfter(n, []) == n
  {
  }

  lemma FitsLater(n: nat, a: seq<byte>, b: seq<byte>, max: int, i: nat)
    requires |a| <= i < |a| + |b| && a != [] && Ends(a[|a| - 1]) && FitsAt(LineAfter(n, a), b, max, i - |a|)
    ensures FitsAt(n, a + b, max, i)
  {
    var out, j := a + b, i - |a|;
    assert out[i..] == b[j..] && out[..i] == a + b[..j] && out[i] == b[j];
    assert j > 0 ==> out[i - 1] == b[j - 1];
    LineAfterConcat(n, a, b[..j]);
  }

  /** A word that does not fit on its line begins the next one: every word that is put out stands at
      the beginning of a line, or is shorter than what was left of its line. */
  lemma {:induction false} UnfittingBegin(n: nat, s: seq<byte>, max: int)
    ensures AllFit(n, Wrapped(n, s, max), max)
    decreases |s|
  {
    hide OneRound, FitsAt, LineAfter;
    if s != [] {
      var r := OneRound(n, s, max);
      var rest := s[r.read..];
      var more := Wrapped(r.line, rest, max);
      RoundWords(n, s, max);
      RoundAdds(n, s, max);
      UnfittingBegin(r.line, rest, max);
      NothingWrapped(r.line, rest, max);
      forall i | 0 <= i < |r.out + more| ensures FitsAt(n, r.out + more, max, i) {
        if i < |r.out| {
          RoundFitsAt(n, s, max, more, i);
        } else {
          FitsLater(n, r.out, more, max, i);
        }
      }
    }
  }

  // ---------- no other line breaks ----------

  /** If there is a line break at position i, the word behind it reaches the end of the line in front
      of it. */
  ghost predicate NeededAt(n: nat, out: seq<byte>, max: int, i: nat)
    requires i < |out|
  {
    out[i] == Newline ==> LineAfter(n, out[..i]) + WordLength(out[i + 1..]) >= max
  }

  ghost predicate AllNeeded(n: nat, out: seq<byte>, max: int) {
    forall i | 0 <= i < |out| :: NeededAt(n, out, max, i)
  }

  lemma RoundNeededAt(n: nat, s: seq<byte>, max: int, more: seq<byte>, i: nat)
    requires s != [] && OneLine(s) && (more != [] ==> OneRound(n, s, max).read < |s|) && i < |OneRound(n, s, max).out|
    ensures NeededAt(n, OneRound(n, s, max).out + more, max, i)
  {
    hide OneRound, LineAfter;
    var r, k, f := OneRound(n, s, max), WordLength(s), Front(n, s, max);
    var sep := RoundParts(n, s, max);
    RoundOnLine(n, s, max);
    var out := r.out + more;
    NothingAdded(n);
    assert |f| <= i < |f| + k ==> out[i] == s[i - |f|];
    if out[i] == Newline {
      if i < |f| {
        assert out[i + 1..] == s[..k] + (sep + more) && out[..i] == [];
        WordEnds(s[..k], sep + more);
      } else {
        assert i == |f| + k && out[..i] == f + s[..k];
        LineOfOne(n, Newline);
        LineAfterConcat(n, f, s[..k]);
        LineOfWord(LineAfter(n, f), s[..k]);
      }
    }
  }

  lemma NeededLater(n: nat, a: seq<byte>, b: seq<byte>, max: int, i: nat)
    requires |a| <= i < |a| + |b| && NeededAt(LineAfter(n, a), b, max, i - |a|)
    ensures NeededAt(n, a + b, max, i)
  {
    var out, j := a + b, i - |a|;
    assert out[i + 1..] == b[j + 1..] && out[..i] == a + b[..j] && out[i] == b[j];
    LineAfterConcat(n, a, b[..j]);
  }

  /** A line is broken only where it has to be: the line in front of a break, together with the word
      behind it, would have reached the maximum. */
  lemma {:induction false} BreaksAreNeeded(n: nat, s: seq<byte>, max: int)
    requires OneLine(s)
    ensures AllNeeded(n, Wrapped(n, s, max), max)
    decreases |s|
  {
    hide OneRound, NeededAt, LineAfter;
    if s != [] {
      var r := OneRound(n, s, max);
      var rest := s[r.read..];
      var more := Wrapped(r.line, rest, max);
      RoundAdds(n, s, max);
      BreaksAreNeeded(r.line, rest, max);
      NothingWrapped(r.line, rest, max);
      forall i | 0 <= i < |r.out + more| ensures NeededAt(n, r.out + more, max, i) {
        if i < |r.out| {
          RoundNeededAt(n, s, max, more, i);
        } else {
          NeededLater(n, r.out, more, max, i);
        }
      }
    }
  }

  // ---------- several lines ----------

  /** The word in front of a newline is the same without it. */
  lemma WordBefore(n: nat, a: seq<byte>, b: seq<byte>, max: int)
    requires a != [] && OneLine(a)
    ensures WordOut(n, a + [Newline] + b, max) == WordOut(n, a, max) && WordOut(n, a, max).read <= |a|
  {
    var s, k := a + [Newline] + b, WordLength(a);
    assert a == a[..k] + a[k..] && s == a[..k] + (a[k..] + ([Newline] + b));
    WordEnds(a[..k], a[k..] + ([Newline] + b));
    hide WordLength;
    assert s[..k] == a[..k];
  }

  lemma BlankBefore(n: nat, a: seq<byte>, b: seq<byte>, max: int, k: nat)
    requires k <= |a|
    ensures BlankOut(n, (a + [Newline] + b)[k..], max) == BlankOut(n, a[k..], max) && k + BlankOut(n, a[k..], max).read <= |a|
  {
    var s := a + [Newline] + b;
    assert s[k..][0] == s[k] == if k < |a| then a[k] else Newline;
  }

  lemma BreakBefore(n: nat, a: seq<byte>, b: seq<byte>, k: nat)
    requires OneLine(a) && k <= |a|
    ensures BreakOut(n, a[k..]) == Round(0, [], n)
    ensures BreakOut(n, (a + [Newline] + b)[k..]) == if k < |a| then Round(0, [], n) else Round(1, [Newline], 0)
  {
    var s := a + [Newline] + b;
    assert s[k..][0] == s[k] == if k < |a| then a[k] else Newline;
  }

  lemma RoundBefore(n: nat, a: seq<byte>, b: seq<byte>, max: int)
    requires a != [] && OneLine(a)
    ensures var r, u := OneRound(n, a, max), OneRound(n, a + [Newline] + b, max);
      if r.read < |a| then u == r else u == Round(|a| + 1, r.out + [Newline], 0)
  {
    hide WordLength, BlankOut, BreakOut, WordOut;
    var s, w := a + [Newline] + b, WordOut(n, a, max);
    WordBefore(n, a, b, max);
    BlankBefore(w.line, a, b, max, w.read);
    var p := BlankOut(w.line, a[w.read..], max);
    BreakBefore(p.line, a, b, w.read + p.read);
    assert w.out + p.out + [] == w.out + p.out;
  }

  lemma EmptyLine(n: nat, b: seq<byte>, max: int)
    ensures OneRound(n, [Newline] + b, max) == Round(1, (if n >= max then [Newline] else []) + [Newline], 0)
  {
    var s := [Newline] + b;
    assert WordLength(s) == 0 && s[..0] == [] && s[0..] == s;
  }

  lemma WrapStep(n: nat, s: seq<byte>, max: int)
    requires s != []
    ensures var r := OneRound(n, s, max);
      r.read > 0 && Wrapped(n, s, max) == r.out + Wrapped(r.line, s[r.read..], max)
  {
  }

  /** A newline of the text ends the line, and what follows it is wrapped by itself.  In front of an
      empty line there is one line break more if the line was full. */
  lemma {:induction false} LinesAreWrapped(n: nat, a: seq<byte>, b: seq<byte>, max: int)
    requires OneLine(a)
    ensures Wrapped(n, a + [Newline] + b, max)
      == Wrapped(n, a, max) + (if a == [] && n >= max then [Newline] else []) + [Newline] + Wrapped(0, b, max)
    decreases |a|
  {
    hide OneRound, Wrapped;
    var s := a + [Newline] + b;
    WrapStep(n, s, max);
    NothingWrapped(n, [], max);
    if a == [] {
      assert s == [Newline] + b && s[1..] == b;
      EmptyLine(n, b, max);
    } else {
      var r := OneRound(n, a, max);
      WrapStep(n, a, max);
      RoundBefore(n, a, b, max);
      if r.read < |a| {
        var rest := a[r.read..];
        assert s[r.read..] == rest + [Newline] + b;
        LinesAreWrapped(r.line, rest, b, max);
      } else {
        RoundAdds(n, a, max);
        NothingWrapped(r.line, a[r.read..], max);
        assert s[|a| + 1..] == b;
      }
    }
  }

  // ---------- nothing else is changed ----------

  /** But for added line breaks, out says what s says; a tab is a space, and a blank may have become a
      line break. */
  ghost predicate Says(out: seq<byte>, s: seq<byte>)
    decreases |out|
  {
    if out == [] then s == []
    else
      || (s != [] && (if s[0] == 32 || s[0] == 9 then out[0] == 32 || out[0] == 10 else out[0] == s[0]) && Says(out[1..], s[1..]))
      || (out[0] == Newline && Says(out[1..], s))
  }

  lemma {:induction false} SaysConcat(o: seq<byte>, s: seq<byte>, o': seq<byte>, s': seq<byte>)
    requires Says(o, s) && Says(o', s')
    ensures Says(o + o', s + s')
    decreases |o|
  {
    if o == [] {
      assert o + o' == o' && s + s' == s';
    } else {
      assert (o + o')[1..] == o[1..] + o';
      if o[0] == Newline && Says(o[1..], s) {
        SaysConcat(o[1..], s, o', s');
      } else {
        assert (s + s')[1..] == s[1..] + s';
        SaysConcat(o[1..], s[1..], o', s');
      }
    }
  }

  lemma {:induction false} WordSaysItself(w: seq<byte>)
    requires forall i | 0 <= i < |w| :: !IsBlank(w[i])
    ensures Says(w, w)
  {
    if w != [] {
      WordSaysItself(w[1..]);
    }
  }

  lemma SaysThree(o: seq<byte>, s: seq<byte>, o': seq<byte>, s': seq<byte>, o'': seq<byte>, s'': seq<byte>)
    requires Says(o, s) && Says(o', s') && Says(o'', s'')
    ensures Says(o + o' + o'', s + s' + s'')
  {
    SaysConcat(o, s, o', s');
    SaysConcat(o + o', s + s', o'', s'');
  }

  lemma WordSays(n: nat, s: seq<byte>, max: int)
    ensures Says(WordOut(n, s, max).out, s[..WordLength(s)])
  {
    var f, w := Front(n, s, max), s[..WordLength(s)];
    assert f == [] || (f[1..] == [] && f[0] == Newline);
    WordSaysItself(w);
    SaysConcat(f, [], w, w);
    assert [] + w == w;
  }

  lemma BlankSays(n: nat, t: seq<byte>, max: int)
    ensures var b := BlankOut(n, t, max); b.read <= |t| && Says(b.out, t[..b.read])
  {
    OneSays(BlankOut(n, t, max).out, t[..BlankOut(n, t, max).read]);
  }

  lemma BreakSays(n: nat, t: seq<byte>)
    ensures var l := BreakOut(n, t); l.read <= |t| && Says(l.out, t[..l.read])
  {
    OneSays(BreakOut(n, t).out, t[..BreakOut(n, t).read]);
  }

  lemma ThreeParts(s: seq<byte>, i: nat, j: nat, k: nat)
    requires i + j + k <= |s|
    ensures s[..i] + s[i..][..j] + s[i + j..][..k] == s[..i + j + k]
  {
  }

  lemma RoundSays(n: nat, s: seq<byte>, max: int)
    requires s != []
    ensures var r := OneRound(n, s, max); Says(r.out, s[..r.read])
  {
    hide WordLength, BlankOut, BreakOut, Says, WordOut;
    var w := WordOut(n, s, max);
    WordRead(n, s, max);
    WordSays(n, s, max);
    var b := BlankOut(w.line, s[w.read..], max);
    BlankSays(w.line, s[w.read..], max);
    var l := BreakOut(b.line, s[w.read + b.read..]);
    BreakSays(b.line, s[w.read + b.read..]);
    SaysThree(w.out, s[..w.read], b.out, s[w.read..][..b.read], l.out, s[w.read + b.read..][..l.read]);
    ThreeParts(s, w.read, b.read, l.read);
  }

  lemma WordRead(n: nat, s: seq<byte>, max: int)
    ensures WordOut(n, s, max).read == WordLength(s) <= |s|
  {
  }

  lemma OneSays(o: seq<byte>, s: seq<byte>)
    requires |o| == |s| <= 1
    requires o != [] ==> if IsBlank(s[0]) then o[0] == Space || o[0] == Newline else o[0] == s[0]
    ensures Says(o, s)
  {
  }

  /** But for the line breaks, and tabs that become spaces, the text is put out as it is. */
  lemma {:induction false} WrappedSays(n: nat, s: seq<byte>, max: int)
    ensures Says(Wrapped(n, s, max), s)
    decreases |s|
  {
    if s != [] {
      hide OneRound, Says;
      var r := OneRound(n, s, max);
      var rest := s[r.read..];
      RoundSays(n, s, max);
      WrappedSays(r.line, rest, max);
      assert s[..r.read] + rest == s;
      hide Wrapped;
      SaysConcat(r.out, s[..r.read], Wrapped(r.line, rest, max), rest);
      WrapStep(n, s, max);
    }
  }
}
