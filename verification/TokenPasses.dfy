/** The passes over formatted text, on sequences: replacing custom tokens, merging text, adding URLs. */
module TokenPasses {
  import opened Common

  /** What a token stands for.  A custom token may have an expansion into other tokens. */
  datatype Piece =
    | Text(text: string)
    | BeginColor(name: string) | EndColor
    | BeginQuote | EndQuote
    | BeginUrl(url: string) | EndUrl
    | EventId(id: nat)
    | Custom(id: nat, expansion: Option<seq<Piece>>)

  /** The urls an urlifier has for quoted texts. */
  type Urlifier = string -> Option<string>

  // ---------- merging ----------

  ghost function Merge(ps: seq<Piece>): seq<Piece>
    decreases |ps|
  {
    if ps == [] then []
    else if ps[0].Text? && |ps| > 1 && ps[1].Text? then Merge([Text(ps[0].text + ps[1].text)] + ps[2..])
    else [ps[0]] + Merge(ps[1..])
  }

  /** Formatted text, character by character, with the other tokens in between. */
  datatype Item = Character(c: char) | Mark(piece: Piece)

  ghost function Chars(s: string): (r: seq<Item>)
    ensures |r| == |s| && forall i | 0 <= i < |s| :: r[i] == Character(s[i])
  {
    seq(|s|, i requires 0 <= i < |s| => Character(s[i]))
  }

  ghost function ItemsOf(p: Piece): seq<Item> {
    if p.Text? then Chars(p.text) else [Mark(p)]
  }

  ghost function Stream(ps: seq<Piece>): seq<Item> {
    if ps == [] then [] else ItemsOf(ps[0]) + Stream(ps[1..])
  }

  ghost predicate NoAdjacentText(ps: seq<Piece>) {
    forall i | 0 <= i && i + 1 < |ps| :: !BothText(ps, i)
  }

  ghost predicate BothText(ps: seq<Piece>, i: nat)
    requires i + 1 < |ps|
  {
    ps[i].Text? && ps[i + 1].Text?
  }

  lemma MergeHead(ps: seq<Piece>)
    requires ps != []
    ensures Merge(ps) != [] && (Merge(ps)[0].Text? <==> ps[0].Text?)
    decreases |ps|
  {
    if ps[0].Text? && |ps| > 1 && ps[1].Text? {
      MergeHead([Text(ps[0].text + ps[1].text)] + ps[2..]);
    }
  }

  /** No two text tokens stand next to each other afterwards. */
  lemma {:induction false} MergeSeparates(ps: seq<Piece>)
    ensures NoAdjacentText(Merge(ps))
    decreases |ps|
  {
    if ps != [] {
      if ps[0].Text? && |ps| > 1 && ps[1].Text? {
        MergeSeparates([Text(ps[0].text + ps[1].text)] + ps[2..]);
      } else {
        MergeSeparates(ps[1..]);
        var m, tail := Merge(ps), Merge(ps[1..]);
        assert m == [ps[0]] + tail;
        if |ps| > 1 {
          MergeHead(ps[1..]);
        }
        forall i | 0 <= i && i + 1 < |m| ensures !BothText(m, i) {
          if i > 0 {
            assert !BothText(tail, i - 1);
          }
        }
      }
    }
  }

  lemma CharsConcat(a: string, b: string)
    ensures Chars(a + b) == Chars(a) + Chars(b)
  {
  }

  /** The text, and its order with the other tokens, is unchanged. */
  lemma {:induction false} MergeKeepsStream(ps: seq<Piece>)
    ensures Stream(Merge(ps)) == Stream(ps)
    decreases |ps|
  {
    if ps != [] {
      if ps[0].Text? && |ps| > 1 && ps[1].Text? {
        var q := [Text(ps[0].text + ps[1].text)] + ps[2..];
        MergeKeepsStream(q);
        CharsConcat(ps[0].text, ps[1].text);
        assert q[1..] == ps[2..] && ps[1..][1..] == ps[2..];
      } else {
        MergeKeepsStream(ps[1..]);
        assert Merge(ps)[1..] == Merge(ps[1..]);
      }
    }
  }

  /** A list without empty texts and without adjacent texts is determined by its stream. */
  ghost predicate Tidy(ps: seq<Piece>) {
    NoAdjacentText(ps) && NoEmptyText(ps)
  }

  lemma TidyTail(ps: seq<Piece>)
    requires Tidy(ps) && ps != []
    ensures Tidy(ps[1..])
  {
    forall i | 0 <= i && i + 1 < |ps[1..]| ensures !BothText(ps[1..], i) {
      assert !BothText(ps, i + 1);
    }
  }

  lemma StreamStart(ps: seq<Piece>)
    requires Tidy(ps)
    ensures Stream(ps) == [] <==> ps == []
    ensures ps != [] ==> (Stream(ps)[0].Character? <==> ps[0].Text?)
  {
  }

  /** How many characters a stream begins with. */
  ghost function Lead(s: seq<Item>): (n: nat)
    ensures n <= |s| && (forall i | 0 <= i < n :: s[i].Character?) && (n < |s| ==> s[n].Mark?)
  {
    if s == [] || s[0].Mark? then 0 else 1 + Lead(s[1..])
  }

  lemma LeadIs(s: seq<Item>, n: nat)
    requires n <= |s| && (forall i | 0 <= i < n :: s[i].Character?) && (n < |s| ==> s[n].Mark?)
    ensures Lead(s) == n
  {
    if Lead(s) < n {
      assert s[Lead(s)].Mark?;
    }
  }

  lemma LeadText(ps: seq<Piece>)
    requires Tidy(ps) && ps != [] && ps[0].Text?
    ensures Lead(Stream(ps)) == |ps[0].text|
    ensures Stream(ps)[..|ps[0].text|] == Chars(ps[0].text) && Stream(ps)[|ps[0].text|..] == Stream(ps[1..])
  {
    TidyTail(ps);
    StreamStart(ps[1..]);
    assert |ps| > 1 ==> !BothText(ps, 0);
    LeadIs(Stream(ps), |ps[0].text|);
  }

  lemma {:induction false} StreamDetermines(a: seq<Piece>, b: seq<Piece>)
    requires Tidy(a) && Tidy(b) && Stream(a) == Stream(b)
    ensures a == b
  {
    StreamStart(a);
    StreamStart(b);
    if a != [] {
      TidyTail(a);
      TidyTail(b);
      if a[0].Text? {
        LeadText(a);
        LeadText(b);
        var s, t := a[0].text, b[0].text;
        forall i | 0 <= i < |s| ensures s[i] == t[i] {
          assert Chars(s)[i] == Chars(t)[i];
        }
        assert s == t;
      } else {
        assert Stream(a)[0] == Mark(a[0]) && Stream(b)[0] == Mark(b[0]);
        assert Stream(a)[1..] == Stream(a[1..]) && Stream(b)[1..] == Stream(b[1..]);
      }
      StreamDetermines(a[1..], b[1..]);
      assert a == [a[0]] + a[1..] && b == [b[0]] + b[1..];
    }
  }

  ghost predicate NoEmptyText(ps: seq<Piece>) {
    forall i | 0 <= i < |ps| && ps[i].Text? :: ps[i].text != ""
  }

  lemma {:induction false} MergeNoEmpty(ps: seq<Piece>)
    requires NoEmptyText(ps)
    ensures NoEmptyText(Merge(ps))
    decreases |ps|
  {
    if ps != [] {
      if ps[0].Text? && |ps| > 1 && ps[1].Text? {
        MergeNoEmpty([Text(ps[0].text + ps[1].text)] + ps[2..]);
      } else {
        MergeNoEmpty(ps[1..]);
      }
    }
  }

  /** Merging has only one possible outcome: a list without empty texts that says the same and has no
      texts next to each other. */
  lemma MergeUnique(ps: seq<Piece>, qs: seq<Piece>)
    requires NoEmptyText(ps)
    ensures qs == Merge(ps) <==> Tidy(qs) && Stream(qs) == Stream(ps)
  {
    MergeNoEmpty(ps);
    MergeSeparates(ps);
    MergeKeepsStream(ps);
    if Tidy(qs) && Stream(qs) == Stream(ps) {
      StreamDetermines(qs, Merge(ps));
    }
  }

  // ---------- urls ----------

  ghost predicate QuotedTriple(ps: seq<Piece>) {
    |ps| >= 3 && ps[0] == BeginQuote && ps[1].Text? && ps[2] == EndQuote
  }

  ghost function Urlify(ps: seq<Piece>, u: Urlifier): seq<Piece> {
    if ps == [] then []
    else if QuotedTriple(ps) then
      var url := u(ps[1].text);
      (if url.Some? then [ps[0], BeginUrl(url.value), ps[1], EndUrl, ps[2]] else ps[..3]) + Urlify(ps[3..], u)
    else [ps[0]] + Urlify(ps[1..], u)
  }

  /** The texts the urlifier is asked about, in order. */
  ghost function Queries(ps: seq<Piece>): seq<string> {
    if ps == [] then []
    else if QuotedTriple(ps) then [ps[1].text] + Queries(ps[3..])
    else Queries(ps[1..])
  }

  ghost predicate AgreeOn(qs: seq<string>, u: Urlifier, v: Urlifier) {
    forall i | 0 <= i < |qs| :: u(qs[i]) == v(qs[i])
  }

  lemma AgreeHead(t: string, qs: seq<string>, u: Urlifier, v: Urlifier)
    ensures AgreeOn([t] + qs, u, v) <==> u(t) == v(t) && AgreeOn(qs, u, v)
  {
    var all := [t] + qs;
    assert all[0] == t && forall i | 0 <= i < |qs| :: qs[i] == all[i + 1];
  }

  /** Urlifiers give the same result exactly if they agree on these texts. */
  lemma {:induction false} QueriesMatter(ps: seq<Piece>, u: Urlifier, v: Urlifier)
    ensures Urlify(ps, u) == Urlify(ps, v) <==> AgreeOn(Queries(ps), u, v)
  {
    if ps != [] {
      if QuotedTriple(ps) {
        QueriesMatter(ps[3..], u, v);
        FirstAnswer(ps, u, v);
        AgreeHead(ps[1].text, Queries(ps[3..]), u, v);
      } else {
        QueriesMatter(ps[1..], u, v);
        assert Urlify(ps, u)[1..] == Urlify(ps[1..], u) && Urlify(ps, v)[1..] == Urlify(ps[1..], v);
      }
    }
  }

  lemma FirstAnswer(ps: seq<Piece>, u: Urlifier, v: Urlifier)
    requires QuotedTriple(ps)
    ensures Urlify(ps, u) == Urlify(ps, v) <==> u(ps[1].text) == v(ps[1].text) && Urlify(ps[3..], u) == Urlify(ps[3..], v)
  {
    var a, b := Urlify(ps, u), Urlify(ps, v);
    var j, k := if u(ps[1].text).Some? then 5 else 3, if v(ps[1].text).Some? then 5 else 3;
    assert a[j..] == Urlify(ps[3..], u) && b[k..] == Urlify(ps[3..], v);
    assert a[1] == (if j == 5 then BeginUrl(u(ps[1].text).value) else ps[1]);
    assert b[1] == (if k == 5 then BeginUrl(v(ps[1].text).value) else ps[1]);
  }

  ghost predicate IsUrl(p: Piece) {
    p.BeginUrl? || p.EndUrl?
  }

  ghost function EraseUrls(ps: seq<Piece>): seq<Piece> {
    if ps == [] then []
    else (if IsUrl(ps[0]) then [] else [ps[0]]) + EraseUrls(ps[1..])
  }

  lemma {:induction false} EraseConcat(a: seq<Piece>, b: seq<Piece>)
    ensures EraseUrls(a + b) == EraseUrls(a) + EraseUrls(b)
  {
    if a == [] {
      assert a + b == b;
    } else {
      assert (a + b)[1..] == a[1..] + b;
      EraseConcat(a[1..], b);
    }
  }

  lemma EraseTriple(a: Piece, b: Piece, c: Piece, url: string)
    requires !IsUrl(a) && !IsUrl(b) && !IsUrl(c)
    ensures EraseUrls([a, b, c]) == [a, b, c] && EraseUrls([a, BeginUrl(url), b, EndUrl, c]) == [a, b, c]
  {
    assert [a, b, c] == [a] + ([b] + ([c] + []));
    EraseConcat([a], [b, c]);
    EraseConcat([b], [c]);
    var d, e := BeginUrl(url), EndUrl;
    assert [a, d, b, e, c] == [a] + ([d] + ([b] + ([e] + [c])));
    EraseConcat([a], [d] + ([b] + ([e] + [c])));
    EraseConcat([d], [b] + ([e] + [c]));
    EraseConcat([b], [e] + [c]);
    EraseConcat([e], [c]);
  }

  /** Without url tokens, the list is as it was without them. */
  lemma {:induction false} UrlifyOnlyAdds(ps: seq<Piece>, u: Urlifier)
    ensures EraseUrls(Urlify(ps, u)) == EraseUrls(ps)
  {
    if ps != [] {
      if QuotedTriple(ps) {
        UrlifyOnlyAdds(ps[3..], u);
        var url := u(ps[1].text);
        var front := if url.Some? then [ps[0], BeginUrl(url.value), ps[1], EndUrl, ps[2]] else ps[..3];
        assert ps[..3] == [ps[0], ps[1], ps[2]] && ps == ps[..3] + ps[3..];
        EraseTriple(ps[0], ps[1], ps[2], if url.Some? then url.value else "");
        EraseConcat(front, Urlify(ps[3..], u));
        EraseConcat(ps[..3], ps[3..]);
      } else {
        UrlifyOnlyAdds(ps[1..], u);
        assert Urlify(ps, u)[1..] == Urlify(ps[1..], u);
      }
    }
  }

  /** A url at position i stands between the beginning of a quotation and its text, is what the
      urlifier has for that text, and ends with it. */
  ghost predicate UrlAt(ps: seq<Piece>, u: Urlifier, i: nat)
    requires i < |ps|
  {
    ps[i].BeginUrl? ==>
      && 0 < i && i + 3 < |ps| && ps[i - 1] == BeginQuote && ps[i + 1].Text? && ps[i + 2] == EndUrl && ps[i + 3] == EndQuote
      && u(ps[i + 1].text) == Some(ps[i].url)
  }

  lemma UrlLater(a: seq<Piece>, b: seq<Piece>, u: Urlifier, i: nat)
    requires |a| <= i < |a| + |b| && UrlAt(b, u, i - |a|)
    ensures UrlAt(a + b, u, i)
  {
  }

  lemma {:induction false} UrlsEnclose(ps: seq<Piece>, u: Urlifier, i: nat)
    requires (forall j | 0 <= j < |ps| :: !IsUrl(ps[j])) && i < |Urlify(ps, u)|
    ensures UrlAt(Urlify(ps, u), u, i)
    decreases |ps|
  {
    hide UrlAt;
    var k := if QuotedTriple(ps) then 3 else 1;
    var rest := Urlify(ps[k..], u);
    var front := Urlify(ps, u)[..|Urlify(ps, u)| - |rest|];
    assert Urlify(ps, u) == front + rest;
    if i < |front| {
      UrlInFront(ps, u, i);
    } else {
      UrlsEnclose(ps[k..], u, i - |front|);
      UrlLater(front, rest, u, i);
    }
  }

  lemma UrlInFront(ps: seq<Piece>, u: Urlifier, i: nat)
    requires ps != [] && forall j | 0 <= j < |ps| :: !IsUrl(ps[j])
    requires i + |Urlify(ps[if QuotedTriple(ps) then 3 else 1..], u)| < |Urlify(ps, u)|
    ensures UrlAt(Urlify(ps, u), u, i)
  {
  }

  /** A list without url tokens is restored by taking them out again. */
  lemma UrlifyRestores(ps: seq<Piece>, u: Urlifier)
    requires forall i | 0 <= i < |ps| :: !IsUrl(ps[i])
    ensures EraseUrls(Urlify(ps, u)) == ps
  {
    UrlifyOnlyAdds(ps, u);
    NothingErased(ps);
  }

  lemma {:induction false} NothingErased(ps: seq<Piece>)
    requires forall i | 0 <= i < |ps| :: !IsUrl(ps[i])
    ensures EraseUrls(ps) == ps
  {
    if ps != [] {
      NothingErased(ps[1..]);
    }
  }

  /** How many text tokens a list begins with. */
  ghost function TextRun(ps: seq<Piece>): (n: nat)
    ensures n <= |ps| && (forall i | 0 <= i < n :: ps[i].Text?) && (n < |ps| ==> !ps[n].Text?)
  {
    if ps == [] || !ps[0].Text? then 0 else 1 + TextRun(ps[1..])
  }

  ghost function Joined(ps: seq<Piece>): string
    requires forall i | 0 <= i < |ps| :: ps[i].Text?
  {
    if ps == [] then "" else ps[0].text + Joined(ps[1..])
  }

  /** The quoted regions made of text tokens only, each as one string, however it is cut up. */
  ghost function QuotedTexts(ps: seq<Piece>): seq<string> {
    if ps == [] then []
    else
      var n := TextRun(ps[1..]);
      if ps[0] == BeginQuote && n > 0 && n + 1 < |ps| && ps[n + 1] == EndQuote then
        [Joined(ps[1..n + 1])] + QuotedTexts(ps[n + 2..])
      else QuotedTexts(ps[1..])
  }

  lemma TextRunCons(p: Piece, ps: seq<Piece>)
    ensures TextRun([p] + ps) == if p.Text? then 1 + TextRun(ps) else 0
  {
    assert ([p] + ps)[1..] == ps;
  }

  /** A run of texts is merged into one, and what follows it is merged by itself. */
  lemma {:induction false} MergeRun(ps: seq<Piece>, n: nat)
    requires n == TextRun(ps) > 0
    ensures Merge(ps) == [Text(Joined(ps[..n]))] + Merge(ps[n..])
    decreases |ps|
  {
    hide Joined, TextRun;
    if n > 1 {
      FirstTwoMerged(ps, n);
      var q := [Text(ps[0].text + ps[1].text)] + ps[2..];
      MergeRun(q, n - 1);
      assert q[n - 1..] == ps[n..];
    } else {
      RunOfOne(ps);
    }
  }

  lemma FirstTwoMerged(ps: seq<Piece>, n: nat)
    requires n == TextRun(ps) > 1
    ensures n <= |ps| && ps[0].Text? && ps[1].Text?
    ensures var q := [Text(ps[0].text + ps[1].text)] + ps[2..];
      TextRun(q) == n - 1 && Joined(q[..n - 1]) == Joined(ps[..n])
  {
    hide Joined, TextRun;
    TextRunMerged(ps);
    var s := ps[..n];
    JoinedMerged(s);
    assert s[0] == ps[0] && s[1] == ps[1] && s[2..] == ps[2..n];
    assert ([Text(ps[0].text + ps[1].text)] + ps[2..])[..n - 1] == [Text(ps[0].text + ps[1].text)] + ps[2..n];
  }

  lemma TextRunMerged(ps: seq<Piece>)
    requires |ps| > 1 && ps[0].Text? && ps[1].Text?
    ensures TextRun([Text(ps[0].text + ps[1].text)] + ps[2..]) == TextRun(ps) - 1
  {
    hide TextRun;
    assert ps == [ps[0]] + ps[1..] && ps[1..] == [ps[1]] + ps[2..];
    TextRunCons(ps[0], ps[1..]);
    TextRunCons(ps[1], ps[2..]);
    TextRunCons(Text(ps[0].text + ps[1].text), ps[2..]);
  }

  lemma JoinedMerged(s: seq<Piece>)
    requires |s| > 1 && forall p | p in s :: p.Text?
    ensures Joined(s) == Joined([Text(s[0].text + s[1].text)] + s[2..])
  {
    hide Joined;
    var r, q := s[1..], [Text(s[0].text + s[1].text)] + s[2..];
    assert r[1..] == s[2..] && q[1..] == s[2..];
    JoinedHead(s);
    JoinedHead(r);
    JoinedHead(q);
    Associative(s[0].text, s[1].text, Joined(s[2..]));
  }

  lemma Associative(a: string, b: string, c: string)
    ensures (a + b) + c == a + (b + c)
  {
  }

  lemma RunOfOne(ps: seq<Piece>)
    requires TextRun(ps) == 1
    ensures ps != [] && ps[0].Text? && !(|ps| > 1 && ps[1].Text?) && ps[0] == Text(Joined(ps[..1]))
  {
    assert ps == [ps[0]] + ps[1..];
    TextRunCons(ps[0], ps[1..]);
    JoinedHead(ps[..1]);
    assert ps[..1][1..] == [] && ps[0].text + "" == ps[0].text;
  }


  lemma JoinedHead(ps: seq<Piece>)
    requires ps != [] && forall i | 0 <= i < |ps| :: ps[i].Text?
    ensures Joined(ps) == ps[0].text + Joined(ps[1..])
  {
  }

  lemma {:induction false} QuotedTextsSkip(ps: seq<Piece>, n: nat)
    requires n <= TextRun(ps)
    ensures QuotedTexts(ps) == QuotedTexts(ps[n..])
    decreases n
  {
    if n > 0 {
      QuotedTextsSkip(ps[1..], n - 1);
      assert ps[1..][n - 1..] == ps[n..];
    } else {
      assert ps[0..] == ps;
    }
  }

  /** After merging, the urlifier is asked about every quoted region of text as a whole, in order,
      and about nothing else. */
  lemma {:induction false} QueriesAreQuotedTexts(ps: seq<Piece>)
    ensures Queries(Merge(ps)) == QuotedTexts(ps)
    decreases |ps|
  {
    if ps != [] {
      var n := TextRun(ps);
      if n > 0 {
        QueriesAreQuotedTexts(ps[n..]);
        MergeRun(ps, n);
        QuotedTextsSkip(ps, n);
        QueriesSkip(Text(Joined(ps[..n])), Merge(ps[n..]));
      } else {
        QueriesAfterMark(ps);
      }
    }
  }

  lemma QueriesSkip(p: Piece, m: seq<Piece>)
    requires p != BeginQuote
    ensures Queries([p] + m) == Queries(m)
  {
    assert ([p] + m)[1..] == m;
  }

  lemma QueriesAfterMark(ps: seq<Piece>)
    requires ps != [] && !ps[0].Text?
    ensures Queries(Merge(ps)) == QuotedTexts(ps)
    decreases |ps|, 0
  {
    hide TextRun, Joined;
    var tail, n := ps[1..], TextRun(ps[1..]);
    var m := Merge(ps);
    assert m == [ps[0]] + Merge(tail) && m[1..] == Merge(tail);
    QueriesAreQuotedTexts(tail);
    if n > 0 {
      MergeRun(tail, n);
      var rest := tail[n..];
      assert rest == ps[n + 1..];
      assert m[1] == Text(Joined(tail[..n])) && m[2..] == Merge(rest);
      assert tail[..n] == ps[1..n + 1];
      if rest != [] {
        MergeHead(rest);
        assert m[2] == rest[0] == ps[n + 1];
        if ps[0] == BeginQuote && rest[0] == EndQuote {
          assert rest[1..] == ps[n + 2..] && m[3..] == Merge(rest[1..]);
          QueriesAreQuotedTexts(rest[1..]);
        }
      }
    } else if tail != [] {
      MergeHead(tail);
    }
  }

  // ---------- custom tokens ----------

  ghost function Reverse(ps: seq<Piece>): seq<Piece> {
    if ps == [] then [] else Reverse(ps[1..]) + [ps[0]]
  }

  /** Every token of an expansion is put right after the custom token, so that they come out in
      reverse; then the custom token goes.  Without an expansion it stays. */
  ghost function ExpandOne(p: Piece): seq<Piece> {
    if p.Custom? && p.expansion.Some? then Reverse(p.expansion.value) else [p]
  }

  ghost function Expand(ps: seq<Piece>): seq<Piece> {
    if ps == [] then [] else ExpandOne(ps[0]) + Expand(ps[1..])
  }

  /** What keeping the order would give. */
  ghost function ExpandInOrder(ps: seq<Piece>): seq<Piece> {
    if ps == [] then []
    else (if ps[0].Custom? && ps[0].expansion.Some? then ps[0].expansion.value else [ps[0]]) + ExpandInOrder(ps[1..])
  }

  lemma {:induction false} ReverseAt(ps: seq<Piece>, k: nat)
    requires k < |ps|
    ensures |Reverse(ps)| == |ps| && Reverse(ps)[k] == ps[|ps| - 1 - k]
  {
    ReverseLength(ps[1..]);
    if k < |ps| - 1 {
      ReverseAt(ps[1..], k);
    }
  }

  lemma {:induction false} ReverseLength(ps: seq<Piece>)
    ensures |Reverse(ps)| == |ps|
  {
    if ps != [] {
      ReverseLength(ps[1..]);
    }
  }

  /** The expansion reads the same in both directions. */
  ghost predicate Symmetric(p: Piece) {
    p.Custom? && p.expansion.Some? ==>
      var e := p.expansion.value; forall k | 0 <= k < |e| :: e[k] == e[|e| - 1 - k]
  }

  lemma ReverseFixes(e: seq<Piece>)
    ensures Reverse(e) == e <==> forall k | 0 <= k < |e| :: e[k] == e[|e| - 1 - k]
  {
    ReverseLength(e);
    forall k | 0 <= k < |e| ensures Reverse(e)[k] == e[|e| - 1 - k] {
      ReverseAt(e, k);
    }
    if Reverse(e) == e {
      forall k | 0 <= k < |e| ensures e[k] == e[|e| - 1 - k] {
        assert Reverse(e)[k] == e[k];
      }
    }
  }

  lemma {:induction false} ExpandLength(ps: seq<Piece>)
    ensures |Expand(ps)| == |ExpandInOrder(ps)|
  {
    if ps != [] {
      ExpandLength(ps[1..]);
      if ps[0].Custom? && ps[0].expansion.Some? {
        ReverseLength(ps[0].expansion.value);
      }
    }
  }

  /** The pass keeps the order of the expansions exactly if each reads the same in both directions;
      expansions of one token do. */
  lemma {:induction false} ExpandKeepsOrder(ps: seq<Piece>)
    ensures Expand(ps) == ExpandInOrder(ps) <==> forall i | 0 <= i < |ps| :: Symmetric(ps[i])
  {
    if ps != [] {
      var p, tail := ps[0], ps[1..];
      ExpandKeepsOrder(tail);
      ExpandLength(tail);
      var a, b := ExpandOne(p), if p.Custom? && p.expansion.Some? then p.expansion.value else [p];
      if p.Custom? && p.expansion.Some? {
        ReverseFixes(b);
        ReverseLength(b);
      }
      assert a == b <==> Symmetric(p);
      assert Expand(ps)[..|a|] == a && ExpandInOrder(ps)[..|a|] == b;
      assert Expand(ps)[|a|..] == Expand(tail) && ExpandInOrder(ps)[|a|..] == ExpandInOrder(tail);
      assert (forall i | 0 <= i < |ps| :: Symmetric(ps[i])) <==>
        Symmetric(p) && forall i | 0 <= i < |tail| :: Symmetric(tail[i]) by {
        if Symmetric(p) && forall i | 0 <= i < |tail| :: Symmetric(tail[i]) {
          forall i | 0 <= i < |ps| ensures Symmetric(ps[i]) {
            assert i > 0 ==> ps[i] == tail[i - 1];
          }
        }
        if forall i | 0 <= i < |ps| :: Symmetric(ps[i]) {
          forall i | 0 <= i < |tail| ensures Symmetric(tail[i]) {
            assert tail[i] == ps[i + 1];
          }
        }
      }
    }
  }
}
