/** The line wrapper of the pretty-printer, without a prefix. */
module LineWrapping {
  import opened Utf8

  const Space: byte := 32
  const Newline: byte := 10

  predicate IsBlank(c: byte) {
    c == 32 || c == 9
  }

  /** White space as isspace sees it. */
  predicate IsSpace(c: byte) {
    c == 32 || 9 <= c <= 13
  }

  /** What ends a word. */
  predicate Ends(c: byte) {
    IsBlank(c) || c == Newline
  }

  predicate IsContinuation(c: byte) {
    0x80 <= c < 0xC0
  }

  /** The length of the word at the front of s. */
  ghost function WordLength(s: seq<byte>): (n: nat)
    ensures n <= |s| && (forall i | 0 <= i < n :: !Ends(s[i])) && (n < |s| ==> Ends(s[n]))
  {
    if s == [] || Ends(s[0]) then 0 else 1 + WordLength(s[1..])
  }

  ghost function Words(s: seq<byte>): seq<seq<byte>>
    decreases |s|
  {
    if s == [] then []
    else if Ends(s[0]) then Words(s[1..])
    else [s[..WordLength(s)]] + Words(s[WordLength(s)..])
  }

  /** The text without the spaces at its front. */
  ghost function Trimmed(s: seq<byte>): seq<byte> {
    if s != [] && s[0] == Space then Trimmed(s[1..]) else s
  }

  /** Only spaces are taken off, and all of them. */
  lemma {:induction false} TrimmedMeans(s: seq<byte>)
    ensures var r := Trimmed(s);
      && |r| <= |s| && r == s[|s| - |r|..] && (forall i | 0 <= i < |s| - |r| :: s[i] == Space)
      && (r != [] ==> r[0] != Space)
  {
    if s != [] && s[0] == Space {
      TrimmedMeans(s[1..]);
      assert Trimmed(s[1..]) == s[1..][|s| - 1 - |Trimmed(s[1..])|..] == s[|s| - |Trimmed(s[1..])|..];
    }
  }

  // ---------- lines ----------

  /** The length of the last line after s has been put out, when it was n before. */
  ghost function LineAfter(n: nat, s: seq<byte>): nat {
    if s == [] then n
    else if s[|s| - 1] == Newline then 0
    else 1 + LineAfter(n, s[..|s| - 1])
  }

  lemma {:induction false} LineAfterConcat(n: nat, a: seq<byte>, b: seq<byte>)
    ensures LineAfter(n, a + b) == LineAfter(LineAfter(n, a), b)
  {
    if b == [] {
      assert a + b == a;
    } else {
      assert (a + b)[..|a + b| - 1] == a + b[..|b| - 1];
      LineAfterConcat(n, a, b[..|b| - 1]);
    }
  }

  /** No line is longer than m, the one that has been begun with n bytes included. */
  ghost predicate LinesWithin(n: nat, s: seq<byte>, m: int) {
    forall i | 0 <= i <= |s| :: LineAfter(n, s[..i]) <= m
  }

  lemma LinesWithinConcat(n: nat, a: seq<byte>, b: seq<byte>, m: int)
    requires LinesWithin(n, a, m) && LinesWithin(LineAfter(n, a), b, m)
    ensures LinesWithin(n, a + b, m)
  {
    forall i | 0 <= i <= |a + b| ensures LineAfter(n, (a + b)[..i]) <= m {
      if i <= |a| {
        assert (a + b)[..i] == a[..i];
      } else {
        assert (a + b)[..i] == a + b[..i - |a|];
        LineAfterConcat(n, a, b[..i - |a|]);
      }
    }
  }

  lemma {:induction false} LineOfWord(n: nat, w: seq<byte>)
    requires forall i | 0 <= i < |w| :: w[i] != Newline
    ensures LineAfter(n, w) == n + |w| && LinesWithin(n, w, n + |w|)
  {
    if w != [] {
      var k := |w| - 1;
      LineOfWord(n, w[..k]);
      forall i | 0 <= i <= |w| ensures LineAfter(n, w[..i]) <= n + |w| {
        if i <= k {
          assert w[..i] == w[..k][..i];
        } else {
          assert w[..i] == w;
        }
      }
    }
  }

  /** A text makes the line as much longer as it is long itself exactly if it has no newline. */
  lemma {:induction false} LineOfText(n: nat, s: seq<byte>)
    ensures LineAfter(n, s) <= n + |s|
    ensures LineAfter(n, s) == n + |s| <==> forall i | 0 <= i < |s| :: s[i] != Newline
  {
    if s != [] {
      LineOfText(n, s[..|s| - 1]);
    }
  }

  lemma LineOfOne(n: nat, c: byte)
    ensures LineAfter(n, [c]) == if c == Newline then 0 else n + 1
    ensures LinesWithin(n, [c], if c == Newline then n else n + 1)
  {
    assert [c][..0] == [] && [c][..1] == [c];
  }

  // ---------- what the wrapper puts out ----------

  /** One round: how much of s is read, what is put out for it, and the length of the line after it.
      A word that does not fit begins a new line; a tab becomes a space, and at the end of a full
      line a blank becomes the line break. */
  datatype Round = Round(read: nat, out: seq<byte>, line: nat)

  ghost function WordOut(n: nat, s: seq<byte>, max: int): (r: Round) {
    var k := WordLength(s);
    var breaks := k >= max - n;
    Round(k, (if breaks then [Newline] else []) + s[..k], (if breaks then 0 else n) + k)
  }

  ghost function BlankOut(n: nat, s: seq<byte>, max: int): (r: Round) {
    if s == [] || !IsBlank(s[0]) then Round(0, [], n)
    else if max - n <= 0 then Round(1, [Newline], 0)
    else Round(1, [Space], n + 1)
  }

  ghost function BreakOut(n: nat, s: seq<byte>): (r: Round) {
    if s == [] || s[0] != Newline then Round(0, [], n) else Round(1, [Newline], 0)
  }

  ghost function OneRound(n: nat, s: seq<byte>, max: int): (r: Round)
    ensures r.read <= |s| && (s != [] ==> r.read > 0)
  {
    var w := WordOut(n, s, max);
    var b := BlankOut(w.line, s[w.read..], max);
    var l := BreakOut(b.line, s[w.read + b.read..]);
    Round(w.read + b.read + l.read, w.out + b.out + l.out, l.line)
  }

  ghost function Wrapped(n: nat, s: seq<byte>, max: int): seq<byte>
    decreases |s|
  {
    if s == [] then []
    else
      var r := OneRound(n, s, max);
      r.out + Wrapped(r.line, s[r.read..], max)
  }

  lemma WrappedStep(out: seq<byte>, n: nat, s: seq<byte>, start: nat, max: int)
    requires start < |s|
    ensures var r := OneRound(n, s[start..], max);
      && start + r.read <= |s| && r.read > 0
      && out + Wrapped(n, s[start..], max) == (out + r.out) + Wrapped(r.line, s[start + r.read..], max)
  {
    var r := OneRound(n, s[start..], max);
    assert s[start..][r.read..] == s[start + r.read..];
    assert out + (r.out + Wrapped(r.line, s[start + r.read..], max))
        == (out + r.out) + Wrapped(r.line, s[start + r.read..], max);
  }

  lemma WrappedEnd(n: nat, s: seq<byte>, max: int)
    requires s == []
    ensures Wrapped(n, s, max) == []
  {
  }

  /** A piece read is a word and white space; so is the piece put out, with a line break in front of it
      if the word does not fit. */
  lemma RoundShape(n: nat, s: seq<byte>, max: int) returns (front: seq<byte>, sep: seq<byte>)
    requires s != []
    ensures var r, k := OneRound(n, s, max), WordLength(s);
      && r.out == front + s[..k] + sep && |sep| == r.read - k
      && (forall i | 0 <= i < |front| :: Ends(front[i])) && (forall i | 0 <= i < |sep| :: Ends(sep[i]))
      && (forall i | k <= i < r.read :: Ends(s[i])) && (r.read < |s| ==> r.read > k)
  {
    var k := WordLength(s);
    var w := WordOut(n, s, max);
    front := if k >= max - n then [Newline] else [];
    sep := SeparatorsRead(w.line, s, k, max);
    hide WordLength, BlankOut, BreakOut, Ends, IsBlank;
    var b := BlankOut(w.line, s[k..], max);
    Associative(w.out, b.out, BreakOut(b.line, s[k + b.read..]).out);
  }

  lemma SeparatorsRead(n: nat, s: seq<byte>, k: nat, max: int) returns (sep: seq<byte>)
    requires k <= |s| && (k < |s| ==> Ends(s[k]))
    ensures var b := BlankOut(n, s[k..], max);
      && k + b.read <= |s|
      && var l := BreakOut(b.line, s[k + b.read..]);
         && sep == b.out + l.out && |sep| == b.read + l.read && (k < |s| ==> sep != [])
         && (forall i | k <= i < k + |sep| :: i < |s| && Ends(s[i])) && forall i | 0 <= i < |sep| :: Ends(sep[i])
  {
    var b := BlankOut(n, s[k..], max);
    BlankFacts(n, s[k..], max);
    BreakFacts(b.line, s[k + b.read..]);
    hide BlankOut, BreakOut;
    sep := b.out + BreakOut(b.line, s[k + b.read..]).out;
  }

  lemma Associative(a: seq<byte>, b: seq<byte>, c: seq<byte>)
    ensures a + b + c == a + (b + c)
  {
  }

  /** The words put out are those read, and if something is left, white space precedes it. */
  lemma RoundWords(n: nat, s: seq<byte>, max: int)
    requires s != []
    ensures var r := OneRound(n, s, max);
      && Words(r.out) == Words(s[..r.read])
      && (r.read < |s| ==> r.out != [] && Ends(r.out[|r.out| - 1]) && Ends(s[r.read - 1]))
  {
    hide OneRound, Words, WordLength;
    var r, k := OneRound(n, s, max), WordLength(s);
    var front, sep := RoundShape(n, s, max);
    OneWord(front, s[..k], sep);
    assert s[..r.read] == [] + s[..k] + s[k..r.read];
    OneWord([], s[..k], s[k..r.read]);
  }

  lemma BlankFacts(n: nat, t: seq<byte>, max: int)
    ensures var b := BlankOut(n, t, max);
      && |b.out| == b.read <= |t| && b.read <= 1
      && (b.read == 1 ==> Ends(t[0]) && Ends(b.out[0]))
      && (b.read == 0 && t != [] ==> !IsBlank(t[0]))
  {
  }

  lemma BreakFacts(n: nat, t: seq<byte>)
    ensures var l := BreakOut(n, t);
      && |l.out| == l.read <= |t| && l.read <= 1
      && (l.read == 1 ==> Ends(t[0]) && Ends(l.out[0]))
      && (l.read == 0 && t != [] ==> t[0] != Newline)
  {
  }

  lemma {:induction false} OnlySpace(s: seq<byte>)
    requires forall i | 0 <= i < |s| :: Ends(s[i])
    ensures Words(s) == []
  {
    if s != [] {
      OnlySpace(s[1..]);
    }
  }

  lemma OneWord(front: seq<byte>, w: seq<byte>, back: seq<byte>)
    requires forall i | 0 <= i < |front| :: Ends(front[i])
    requires forall i | 0 <= i < |w| :: !Ends(w[i])
    requires forall i | 0 <= i < |back| :: Ends(back[i])
    ensures Words(front + w + back) == if w == [] then [] else [w]
  {
    hide Ends;
    OnlySpace(front);
    OnlySpace(back);
    assert front + w + back == front + (w + back);
    SpaceFirst(front, w + back);
    if w != [] {
      WordFirst(w, back);
      assert (w + back)[..|w|] == w && (w + back)[|w|..] == back;
    } else {
      assert w + back == back;
    }
  }

  lemma {:induction false} SpaceFirst(a: seq<byte>, b: seq<byte>)
    requires forall i | 0 <= i < |a| :: Ends(a[i])
    ensures Words(a + b) == Words(b)
  {
    if a == [] {
      assert a + b == b;
    } else {
      assert (a + b)[1..] == a[1..] + b;
      SpaceFirst(a[1..], b);
    }
  }

  lemma {:induction false} WordFirst(w: seq<byte>, rest: seq<byte>)
    requires (forall i | 0 <= i < |w| :: !Ends(w[i])) && (rest != [] ==> Ends(rest[0]))
    ensures WordLength(w + rest) == |w|
  {
    if w == [] {
      assert w + rest == rest;
    } else {
      assert (w + rest)[1..] == w[1..] + rest;
      WordFirst(w[1..], rest);
    }
  }

  /** Where white space stands between them, the words of two texts are those of the one and those of
      the other. */
  lemma {:induction false} WordsConcat(a: seq<byte>, b: seq<byte>)
    requires a != [] && b != [] ==> Ends(a[|a| - 1])
    ensures Words(a + b) == Words(a) + Words(b)
    decreases |a|
  {
    hide Words, WordLength, Ends, IsBlank;
    if a == [] {
      assert a + b == b && Words(a) + Words(b) == Words(b) by {
        NoWords(a);
      }
    } else if b == [] {
      assert a + b == a;
      NoWords(b);
    } else if Ends(a[0]) {
      SpaceOff(a);
      SpaceOff(a + b);
      assert (a + b)[1..] == a[1..] + b;
      WordsConcat(a[1..], b);
    } else {
      var k := WordLength(a);
      var w, rest := a[..k], a[k..];
      assert a == w + rest && a + b == w + (rest + b);
      WordOff(w, rest);
      WordOff(w, rest + b);
      WordsConcat(rest, b);
    }
  }

  lemma NoWords(s: seq<byte>)
    requires s == []
    ensures Words(s) == []
  {
  }

  lemma SpaceOff(s: seq<byte>)
    requires s != [] && Ends(s[0])
    ensures Words(s) == Words(s[1..])
  {
  }

  lemma WordOff(w: seq<byte>, rest: seq<byte>)
    requires w != [] && (forall i | 0 <= i < |w| :: !Ends(w[i])) && (rest != [] ==> Ends(rest[0]))
    ensures Words(w + rest) == [w] + Words(rest)
  {
    WordFirst(w, rest);
    assert (w + rest)[..|w|] == w && (w + rest)[|w|..] == rest;
  }

  lemma SameWords(a: seq<byte>, b: seq<byte>, c: seq<byte>, d: seq<byte>)
    requires (a != [] && b != [] ==> Ends(a[|a| - 1])) && (c != [] && d != [] ==> Ends(c[|c| - 1]))
    requires Words(a) == Words(c) && Words(b) == Words(d)
    ensures Words(a + b) == Words(c + d)
  {
    WordsConcat(a, b);
    WordsConcat(c, d);
  }

  lemma NothingWrapped(n: nat, s: seq<byte>, max: int)
    ensures s == [] ==> Wrapped(n, s, max) == []
  {
  }

  /** Wrapping keeps the words: none is lost, split, or run together with another. */
  lemma {:induction false} WrappingKeepsWords(n: nat, s: seq<byte>, max: int)
    ensures Words(Wrapped(n, s, max)) == Words(s)
    decreases |s|
  {
    hide Words;
    if s != [] {
      hide OneRound, Words, Ends;
      var r := OneRound(n, s, max);
      var rest := s[r.read..];
      RoundWords(n, s, max);
      WrappingKeepsWords(r.line, rest, max);
      NothingWrapped(r.line, rest, max);
      SameWords(s[..r.read], rest, r.out, Wrapped(r.line, rest, max));
      assert s == s[..r.read] + rest;
    }
  }

  ghost predicate WordsWithin(s: seq<byte>, m: int) {
    forall w | w in Words(s) :: |w| <= m
  }

  lemma RoundLines(n: nat, s: seq<byte>, max: int, m: int)
    requires s != [] && n <= m && max <= m && WordLength(s) <= m
    ensures var r := OneRound(n, s, max);
      LinesWithin(n, r.out, m) && r.line == LineAfter(n, r.out) && r.line <= m
  {
    hide LineAfter, WordLength;
    var w := WordOut(n, s, max);
    var b := BlankOut(w.line, s[w.read..], max);
    var l := BreakOut(b.line, s[w.read + b.read..]);
    WordLines(n, s, max, m);
    SepLines(w.line, b.out, m);
    SepLines(b.line, l.out, m);
    LinesWithinConcat(n, w.out, b.out, m);
    LineAfterConcat(n, w.out, b.out);
    LinesWithinConcat(n, w.out + b.out, l.out, m);
    LineAfterConcat(n, w.out + b.out, l.out);
  }

  lemma WordLines(n: nat, s: seq<byte>, max: int, m: int)
    requires n <= m && max <= m && WordLength(s) <= m
    ensures var w := WordOut(n, s, max);
      LinesWithin(n, w.out, m) && w.line == LineAfter(n, w.out) && w.line <= m
  {
    var k := WordLength(s);
    var n' := if k >= max - n then 0 else n;
    var front := if k >= max - n then [Newline] else [];
    LineOfWord(n', s[..k]);
    LineOfOne(n, Newline);
    assert LineAfter(n, front) == n' && LinesWithin(n, front, m);
    LinesWithinConcat(n, front, s[..k], m);
    LineAfterConcat(n, front, s[..k]);
  }

  lemma SepLines(n: nat, out: seq<byte>, m: int)
    requires out == [] || out == [Newline] || (out == [Space] && n < m)
    requires n <= m
    ensures LinesWithin(n, out, m)
    ensures LineAfter(n, out) == if out == [] then n else if out[0] == Newline then 0 else n + 1
  {
    if out != [] {
      LineOfOne(n, out[0]);
    }
  }

  /** No line gets longer than the maximum, or than the longest word if that is longer. */
  lemma {:induction false} WrappedLines(n: nat, s: seq<byte>, max: int, m: int)
    requires n <= m && max <= m && WordsWithin(s, m)
    ensures LinesWithin(n, Wrapped(n, s, max), m)
    decreases |s|
  {
    if s != [] {
      hide OneRound, Words;
      var r := OneRound(n, s, max);
      FirstWord(n, s, max, m);
      RoundLines(n, s, max, m);
      WrappedLines(r.line, s[r.read..], max, m);
      LinesWithinConcat(n, r.out, Wrapped(r.line, s[r.read..], max), m);
    }
  }

  lemma FirstWord(n: nat, s: seq<byte>, max: int, m: int)
    requires s != [] && WordsWithin(s, m) && m >= 0
    ensures WordLength(s) <= m && WordsWithin(s[OneRound(n, s, max).read..], m)
  {
    hide OneRound, Words;
    var r := OneRound(n, s, max);
    RoundWords(n, s, max);
    WordsConcat(s[..r.read], s[r.read..]);
    assert s == s[..r.read] + s[r.read..];
    FirstInWords(s);
  }

  lemma FirstInWords(s: seq<byte>)
    requires s != []
    ensures WordLength(s) > 0 ==> s[..WordLength(s)] in Words(s)
  {
    if !Ends(s[0]) {
      assert Words(s)[0] == s[..WordLength(s)];
    }
  }

  /** Text that fits is left as it is, but for tabs. */
  ghost function Untabbed(s: seq<byte>): (r: seq<byte>)
    ensures |r| == |s| && forall i | 0 <= i < |s| :: r[i] == if IsBlank(s[i]) then Space else s[i]
  {
    seq(|s|, i requires 0 <= i < |s| => if IsBlank(s[i]) then Space else s[i])
  }

  lemma {:induction false} FittingStays(n: nat, s: seq<byte>, max: int)
    requires n + |s| < max && forall i | 0 <= i < |s| :: s[i] != Newline
    ensures Wrapped(n, s, max) == Untabbed(s)
    decreases |s|
  {
    hide OneRound;
    if s != [] {
      RoundFits(n, s, max);
      var r := OneRound(n, s, max);
      FittingStays(r.line, s[r.read..], max);
      UntabbedConcat(s, r.read);
    }
  }

  lemma UntabbedConcat(s: seq<byte>, k: nat)
    requires k <= |s|
    ensures Untabbed(s[..k]) + Untabbed(s[k..]) == Untabbed(s)
  {
  }

  lemma RoundFits(n: nat, s: seq<byte>, max: int)
    requires s != [] && n + |s| < max && forall i | 0 <= i < |s| :: s[i] != Newline
    ensures var r := OneRound(n, s, max);
      r.out == Untabbed(s[..r.read]) && r.line == n + r.read
  {
    var k := WordLength(s);
    assert s[..k] == Untabbed(s[..k]);
    var r := OneRound(n, s, max);
    if r.read == k {
      assert r.out == s[..k];
    } else {
      assert r.read == k + 1 && r.out == s[..k] + [Space];
    }
  }

  // ---------- the printer ----------

  class Printer {
    var out: seq<byte>
    var lineLength: nat
    /** The line cutoff; there is no wrapping unless it is positive. */
    const maximumLength: int

    ghost predicate Valid()
      reads this
    {
      lineLength == LineAfter(0, out)
    }

    constructor (maximumLength: int)
      ensures Valid() && out == [] && this.maximumLength == maximumLength
    {
      this.maximumLength := maximumLength;
      out, lineLength := [], 0;
    }

    predicate IsWrapping() {
      maximumLength > 0
    }

    function Remaining(): int
      reads this
    {
      maximumLength - lineLength
    }

    method NewLine()
      requires Valid()
      modifies this
      ensures Valid() && out == old(out) + [Newline] && lineLength == 0
    {
      out, lineLength := out + [Newline], 0;
    }

    /** pp_character: a full line is broken first, but not within a UTF-8 sequence, and white space
        at the break is dropped. A newline character that is put out counts as one more character of
        the line, so that the length is wrong afterwards. */
    method Character(c: byte)
      requires Valid()
      modifies this
      ensures var breaks := maximumLength > 0 && !(0x80 <= c < 0xC0) && old(Remaining()) <= 0;
        var dropped := breaks && (c == 32 || 9 <= c <= 13);
        && out == old(out) + (if breaks then [Newline] else []) + (if dropped then [] else [c])
        && lineLength == (if breaks then 0 else old(lineLength)) + (if dropped then 0 else 1)
        && (Valid() <==> c != Newline || breaks)
    {
      LineAfterConcat(0, out + [Newline], [c]);
      LineAfterConcat(0, out, [c]);
      LineOfOne(lineLength, c);
      LineOfOne(0, c);
      if IsWrapping() && !IsContinuation(c) && Remaining() <= 0 {
        NewLine();
        if IsSpace(c) {
          return;
        }
      }
      out, lineLength := out + [c], lineLength + 1;
    }

    /** pp_append_text: leading spaces are dropped at the beginning of a line.  Newlines count as part of
        the line, so that the length is right afterwards only without any. */
    method AppendText(s: seq<byte>)
      requires Valid()
      modifies this
      ensures lineLength == old(lineLength) + (|out| - |old(out)|)
      ensures out == old(out) + if old(lineLength) == 0 && maximumLength > 0 then Trimmed(s) else s
      ensures Valid() <==> forall i | 0 <= i < |s| :: s[i] != Newline
    {
      hide LineAfter;
      var k := 0;
      if lineLength == 0 && IsWrapping() {
        while k != |s| && s[k] == Space
          invariant k <= |s| && Trimmed(s) == Trimmed(s[k..]) && forall i | 0 <= i < k :: s[i] == Space
        {
          assert s[k..][1..] == s[k + 1..];
          k := k + 1;
        }
      }
      LineAfterConcat(0, out, s[k..]);
      LineOfText(lineLength, s[k..]);
      assert k == 0 ==> s[k..] == s;
      assert forall i | k <= i < |s| :: s[i] == s[k..][i - k];
      out, lineLength := out + s[k..], lineLength + |s[k..]|;
    }

    /** pp_wrap_text. */
    method WrapText(s: seq<byte>)
      requires Valid() && IsWrapping()
      modifies this
      ensures Valid() && out == old(out) + Wrapped(old(lineLength), s, maximumLength)
    {
      hide OneRound, Wrapped, LineAfter;
      ghost var all := old(out) + Wrapped(lineLength, s, maximumLength);
      var start := 0;
      assert s[0..] == s;
      while start != |s|
        invariant start <= |s| && Valid()
        invariant all == out + Wrapped(lineLength, s[start..], maximumLength)
        decreases |s| - start
      {
        WrappedStep(out, lineLength, s, start, maximumLength);
        start := WrapOne(s, start);
      }
      WrappedEnd(lineLength, s[start..], maximumLength);
    }

    /** One round of its loop. */
    method WrapOne(s: seq<byte>, start: nat) returns (next: nat)
      requires Valid() && IsWrapping() && start < |s|
      modifies this
      ensures Valid()
      ensures var r := OneRound(old(lineLength), s[start..], maximumLength);
        next == start + r.read && out == old(out) + r.out && lineLength == r.line
    {
      hide BlankOut, BreakOut, LineAfter, WordLength;
      ghost var n, t := lineLength, s[start..];
      ghost var w := WordOut(n, t, maximumLength);
      ghost var b := BlankOut(w.line, t[w.read..], maximumLength);
      next := WrapWord(s, start);
      assert t[w.read..] == s[next..];
      next := WrapBlank(s, next);
      assert t[w.read + b.read..] == s[next..];
      next := WrapBreak(s, next);
      assert w.out + b.out + BreakOut(b.line, t[w.read + b.read..]).out == OneRound(n, t, maximumLength).out;
    }

    method WrapWord(s: seq<byte>, start: nat) returns (p: nat)
      requires Valid() && IsWrapping() && start < |s|
      modifies this
      ensures Valid() && p <= |s|
      ensures var w := WordOut(old(lineLength), s[start..], maximumLength);
        p == start + w.read && out == old(out) + w.out && lineLength == w.line
    {
      hide LineAfter, WordLength;
      p := start;
      while p != |s| && !IsBlank(s[p]) && s[p] != Newline
        invariant start <= p <= |s| && forall i | start <= i < p :: !Ends(s[i])
      {
        p := p + 1;
      }
      assert s[start..] == s[start..p] + s[p..];
      WordFirst(s[start..p], s[p..]);
      assert s[start..][..p - start] == s[start..p] == Trimmed(s[start..p]);
      if p - start >= Remaining() {
        NewLine();
      }
      AppendText(s[start..p]);
    }

    method WrapBlank(s: seq<byte>, p: nat) returns (next: nat)
      requires Valid() && IsWrapping() && p <= |s|
      modifies this
      ensures Valid() && next <= |s|
      ensures var b := BlankOut(old(lineLength), s[p..], maximumLength);
        next == p + b.read && out == old(out) + b.out && lineLength == b.line
    {
      next := p;
      LineOfOne(lineLength, Space);
      LineOfOne(lineLength, Newline);
      if p != |s| && IsBlank(s[p]) {
        Character(Space);
        next := p + 1;
      }
    }

    method WrapBreak(s: seq<byte>, p: nat) returns (next: nat)
      requires Valid() && p <= |s|
      modifies this
      ensures Valid() && next <= |s|
      ensures var l := BreakOut(old(lineLength), s[p..]);
        next == p + l.read && out == old(out) + l.out && lineLength == l.line
    {
      next := p;
      if p != |s| && s[p] == Newline {
        NewLine();
        next := p + 1;
      }
    }
  }
}
