/** The passes of pp_token_list over a linked list, proved to do what the passes on sequences do. */
module TokenListPasses {
  import opened Common
  import opened TokenPasses
  import opened TokenLists

  lemma TokenAt(l: TokenList, i: nat)
    requires l.Valid() && i < |l.tokens|
    ensures |l.content| == |l.tokens| && NoDup(l.tokens)
    ensures l.tokens[i].next == if i + 1 < |l.tokens| then l.tokens[i + 1] else null
    ensures l.tokens[i].piece == l.content[i]
  {
    assert LinkAt(l.tokens, i);
  }

  // ---------- merging ----------

  lemma {:induction false} JoinedSnoc(ps: seq<Piece>, p: Piece)
    requires p.Text? && forall k | 0 <= k < |ps| :: ps[k].Text?
    ensures Joined(ps + [p]) == Joined(ps) + p.text
  {
    if ps == [] {
      assert ([] + [p])[1..] == [];
    } else {
      assert (ps + [p])[1..] == ps[1..] + [p];
      JoinedSnoc(ps[1..], p);
    }
  }

  lemma TextRunIs(ps: seq<Piece>, n: nat)
    requires n <= |ps| && (forall k | 0 <= k < n :: ps[k].Text?) && (n < |ps| ==> !ps[n].Text?)
    ensures TextRun(ps) == n
  {
    assert TextRun(ps) < |ps| ==> !ps[TextRun(ps)].Text?;
  }

  /** The first n of ps are texts, together s. */
  ghost predicate Run(ps: seq<Piece>, n: nat, s: string) {
    0 < n <= |ps| && (forall k | 0 <= k < n :: ps[k].Text?) && Joined(ps[..n]) == s
  }

  lemma RunOne(ps: seq<Piece>)
    requires ps != [] && ps[0].Text?
    ensures Run(ps, 1, ps[0].text)
  {
    JoinedSnoc([], ps[0]);
    assert ps[..1] == [] + [ps[0]];
  }

  lemma RunMore(ps: seq<Piece>, n: nat, s: string)
    requires Run(ps, n, s) && n < |ps| && ps[n].Text?
    ensures Run(ps, n + 1, s + ps[n].text)
  {
    JoinedSnoc(ps[..n], ps[n]);
    assert ps[..n + 1] == ps[..n] + [ps[n]];
  }

  lemma RunEnd(ps: seq<Piece>, n: nat, s: string)
    requires Run(ps, n, s) && (n < |ps| ==> !ps[n].Text?)
    ensures n == TextRun(ps) && s == Joined(ps[..n])
  {
    TextRunIs(ps, n);
  }

  /** The loop that finds the end of a run of texts, and the loops that join them. */
  method JoinRun(l: TokenList, start: Token, ghost i: nat) returns (endOfRun: Token, joined: string, ghost n: nat)
    requires l.Valid() && i < |l.tokens| == |l.content| && l.tokens[i] == start && start.piece.Text?
    ensures 0 < n == TextRun(l.content[i..]) && i + n <= |l.tokens| && endOfRun == l.tokens[i + n - 1]
    ensures forall k | 0 <= k < n :: l.content[i..][k].Text?
    ensures joined == Joined(l.content[i..][..n])
  {
    hide TokenList.Valid, LinkAt, NoDup, Run, Joined, TextRun;
    ghost var ps := l.content[i..];
    endOfRun, joined, n := start, start.piece.text, 1;
    TokenAt(l, i);
    RunOne(ps);
    while endOfRun.next != null && endOfRun.next.piece.Text?
      invariant i + n <= |l.tokens| && n > 0 && endOfRun == l.tokens[i + n - 1]
      invariant endOfRun.next == if i + n < |l.tokens| then l.tokens[i + n] else null
      invariant Run(ps, n, joined)
      decreases |l.tokens| - n
    {
      endOfRun := endOfRun.next;
      TokenAt(l, i + n);
      RunMore(ps, n, joined);
      joined := joined + endOfRun.piece.text;
      n := n + 1;
    }
    if i + n < |l.tokens| {
      TokenAt(l, i + n);
    }
    RunEnd(ps, n, joined);
    TextsOf(ps, n, joined);
  }

  lemma TextsOf(ps: seq<Piece>, n: nat, s: string)
    requires Run(ps, n, s)
    ensures n <= |ps| && forall k | 0 <= k < n :: ps[k].Text?
  {
  }

  /** A sequence without the m elements after the one at index i. */
  ghost function Skipping<T>(s: seq<T>, i: nat, m: nat): seq<T>
    requires i + m < |s|
  {
    s[..i + 1] + s[i + 1 + m..]
  }

  lemma SkipOne<T>(s: seq<T>, i: nat, m: nat)
    requires i + m < |s|
    ensures var r := Skipping(s, i, m);
      && |r| == |s| - m && r[i] == s[i] && (forall k | 0 <= k < |r| :: r[k] in s)
      && (i + 1 < |r| ==> r[i + 1] == s[i + 1 + m] && r[..i + 1] + r[i + 2..] == Skipping(s, i, m + 1))
  {
  }

  lemma SkipNone<T>(s: seq<T>, i: nat)
    requires i < |s|
    ensures Skipping(s, i, 0) == s
  {
  }

  lemma Stops(s: seq<Token>, i: nat, m: nat, n: nat)
    requires NoDup(s) && m <= n && i + n < |s|
    ensures m < n ==> i + n + 1 < |s| ==> s[i + m + 1] != s[i + n + 1]
  {
  }

  /** Removes the token after the one at index i. */
  method RemoveNext(l: TokenList, start: Token, ghost i: nat, ghost all: seq<Token>)
    requires l.Valid() && i + 1 < |l.tokens| == |l.content| && l.tokens[i] == start
    requires Within(l.tokens, all)
    modifies l, all`prev, all`next
    ensures l.Valid() && l.tokens == old(l.tokens)[..i + 1] + old(l.tokens)[i + 2..]
    ensures l.content == old(l.content)[..i + 1] + old(l.content)[i + 2..]
  {
    TokenAt(l, i);
    l.RemoveToken(start.next, i + 1);
  }

  /** Removes the n tokens after the one at index i; the one after those is `next`. */
  method RemoveFollowing(l: TokenList, start: Token, next: Token?, ghost i: nat, ghost n: nat)
    requires l.Valid() && i + n < |l.tokens| == |l.content| && l.tokens[i] == start && NoDup(l.tokens)
    requires next == if i + n + 1 < |l.tokens| then l.tokens[i + n + 1] else null
    modifies l, l.tokens`prev, l.tokens`next
    ensures l.Valid() && l.tokens == Skipping(old(l.tokens), i, n) && l.content == Skipping(old(l.content), i, n)
    ensures start.next == next
  {
    hide TokenList.Valid, LinkAt, Skipping, NoDup;
    ghost var was, ps := l.tokens, l.content;
    ghost var m := 0;
    SkipNone(was, i);
    SkipNone(ps, i);
    TokenAt(l, i);
    while start.next != next
      invariant m <= n && l.Valid() && l.tokens == Skipping(was, i, m) && l.content == Skipping(ps, i, m)
      invariant start.next == if i + m + 1 < |was| then was[i + m + 1] else null
      decreases n - m
    {
      SkipOne(was, i, m);
      SkipOne(ps, i, m);
      RemoveNext(l, start, i, was);
      m := m + 1;
      SkipOne(was, i, m);
      TokenAt(l, i);
    }
    Stops(was, i, m, n);
  }

  /** Changes what the token at index i stands for. */
  method SetPiece(l: TokenList, tok: Token, p: Piece, ghost i: nat)
    requires l.Valid() && i < |l.tokens| == |l.content| && l.tokens[i] == tok
    modifies l`content, tok`piece
    ensures l.Valid() && l.content == old(l.content)[i := p]
  {
    tok.piece := p;
    l.content := l.content[i := p];
    forall k | 0 <= k < |l.tokens| ensures LinkAt(l.tokens, k) {
      assert old(LinkAt(l.tokens, k));
    }
  }

  lemma MergedContent(ps: seq<Piece>, p: Piece, i: nat, n: nat)
    requires n > 0 && i + n <= |ps|
    ensures Skipping(ps[i := p], i, n - 1) == ps[..i] + [p] + ps[i + n..]
  {
  }

  /** Merges the run of texts that starts at index i. */
  method MergeRunAt(l: TokenList, start: Token, ghost i: nat) returns (next: Token?, ghost n: nat)
    requires l.Valid() && i < |l.tokens| == |l.content| && l.tokens[i] == start && start.piece.Text?
    modifies l, l.tokens
    ensures l.Valid() && n == TextRun(old(l.content)[i..]) > 0 && i + n <= |old(l.content)|
    ensures Within(l.tokens, old(l.tokens))
    ensures |l.tokens| == |old(l.tokens)| - n + 1
    ensures forall k | 0 <= k < n :: old(l.content)[i..][k].Text?
    ensures l.content == old(l.content)[..i] + [Text(Joined(old(l.content)[i..][..n]))] + old(l.content)[i + n..]
    ensures next == if i + 1 < |l.tokens| then l.tokens[i + 1] else null
  {
    hide TokenList.Valid, LinkAt, Skipping, NoDup, Joined, TextRun;
    ghost var was, ps := l.tokens, l.content;
    var endOfRun, joined;
    endOfRun, joined, n := JoinRun(l, start, i);
    TokenAt(l, i);
    TokenAt(l, i + n - 1);
    next := endOfRun.next;
    MergedContent(ps, Text(joined), i, n);
    if endOfRun != start {
      SetPiece(l, start, Text(joined), i);
      RemoveFollowing(l, start, next, i, n - 1);
      SkipOne(was, i, n - 1);
      TokenAt(l, i);
    } else {
      AloneInRun(was, ps, i, n, joined);
    }
  }

  /** A run of one text stays as it is. */
  lemma AloneInRun(was: seq<Token>, ps: seq<Piece>, i: nat, n: nat, joined: string)
    requires NoDup(was) && |was| == |ps| && n > 0 && i + n <= |was| && was[i + n - 1] == was[i]
    requires (forall k | 0 <= k < n :: ps[i..][k].Text?) && joined == Joined(ps[i..][..n])
    ensures n == 1 && ps[..i] + [Text(joined)] + ps[i + n..] == ps
  {
    assert n == 1;
    JoinedHead(ps[i..][..1]);
    assert ps[i..][..1][1..] == [];
    assert ps[i..][0].Text? && Text(joined) == ps[i];
    assert ps == ps[..i] + [ps[i]] + ps[i + 1..];
  }

  /** How far merging has come: the tokens before index i are done. */
  ghost predicate MergedTo(ps: seq<Piece>, now: seq<Piece>, i: nat) {
    i <= |now| && Merge(ps) == now[..i] + Merge(now[i..])
  }

  lemma MergeStepRun(ps: seq<Piece>, now: seq<Piece>, i: nat, n: nat, now': seq<Piece>)
    requires MergedTo(ps, now, i) && i < |now| && n == TextRun(now[i..]) > 0 && i + n <= |now|
    requires now' == now[..i] + [Text(Joined(now[i..][..n]))] + now[i + n..]
    ensures MergedTo(ps, now', i + 1)
  {
    MergeRun(now[i..], n);
    assert now[i..][n..] == now[i + n..] == now'[i + 1..];
    assert now'[..i + 1] == now[..i] + [Text(Joined(now[i..][..n]))];
  }

  lemma MergeStepOther(ps: seq<Piece>, now: seq<Piece>, i: nat)
    requires MergedTo(ps, now, i) && i < |now| && !now[i].Text?
    ensures MergedTo(ps, now, i + 1)
  {
    assert now[i..][1..] == now[i + 1..] && now[..i + 1] == now[..i] + [now[i]];
  }

  /** pp_token_list::merge_consecutive_text_tokens. */
  method MergeConsecutiveTextTokens(l: TokenList)
    requires l.Valid()
    modifies l, l.tokens
    ensures l.Valid() && l.content == Merge(old(l.content))
    ensures Within(l.tokens, old(l.tokens))
  {
    hide TokenList.Valid, LinkAt, NoDup, Merge, TextRun, Joined;
    ghost var ps, all := l.content, l.tokens;
    ghost var i: nat := 0;
    Heads(l);
    var startOfRun := l.first;
    assert ps[0..] == ps && ps[..0] + Merge(ps) == Merge(ps);
    while startOfRun != null
      invariant l.Valid() && i <= |l.tokens| == |l.content|
      invariant startOfRun == if i < |l.tokens| then l.tokens[i] else null
      invariant MergedTo(ps, l.content, i) && Within(l.tokens, all)
      decreases |l.tokens| - i
    {
      TokenAt(l, i);
      ghost var now := l.content;
      if !startOfRun.piece.Text? {
        MergeStepOther(ps, now, i);
        startOfRun := startOfRun.next;
      } else {
        ghost var n;
        startOfRun, n := MergeRunAt(l, startOfRun, i);
        MergeStepRun(ps, now, i, n, l.content);
        Lengths(l);
      }
      i := i + 1;
    }
    MergedAll(ps, l.content, i);
  }

  lemma Heads(l: TokenList)
    requires l.Valid()
    ensures |l.content| == |l.tokens| && l.first == if |l.tokens| > 0 then l.tokens[0] else null
  {
  }

  lemma Lengths(l: TokenList)
    requires l.Valid()
    ensures |l.content| == |l.tokens|
  {
  }

  lemma MergedAll(ps: seq<Piece>, now: seq<Piece>, i: nat)
    requires MergedTo(ps, now, i) && i == |now|
    ensures now == Merge(ps)
  {
    assert now[..i] == now && now[i..] == [];
  }

  // ---------- urls ----------

  /** The tokens before index i are done, and the urlifier has been asked about the texts asked. */
  ghost predicate UrlifiedTo(ps: seq<Piece>, u: Urlifier, now: seq<Piece>, i: nat, asked: seq<string>) {
    i <= |now| && Urlify(ps, u) == now[..i] + Urlify(now[i..], u) && Queries(ps) == asked + Queries(now[i..])
  }

  lemma UrlifyStepOther(ps: seq<Piece>, u: Urlifier, now: seq<Piece>, i: nat, asked: seq<string>)
    requires UrlifiedTo(ps, u, now, i, asked) && i < |now| && !QuotedTriple(now[i..])
    ensures UrlifiedTo(ps, u, now, i + 1, asked)
  {
    assert now[i..][1..] == now[i + 1..] && now[..i + 1] == now[..i] + [now[i]];
  }

  lemma UrlifyStepPlain(ps: seq<Piece>, u: Urlifier, now: seq<Piece>, i: nat, asked: seq<string>)
    requires UrlifiedTo(ps, u, now, i, asked) && QuotedTriple(now[i..]) && u(now[i + 1].text).None?
    ensures UrlifiedTo(ps, u, now, i + 3, asked + [now[i + 1].text])
  {
    assert now[i..][3..] == now[i + 3..] && now[..i + 3] == now[..i] + now[i..][..3];
    assert asked + ([now[i + 1].text] + Queries(now[i + 3..])) == asked + [now[i + 1].text] + Queries(now[i + 3..]);
  }

  lemma UrlifyStepUrl(ps: seq<Piece>, u: Urlifier, now: seq<Piece>, i: nat, now': seq<Piece>, asked: seq<string>)
    requires UrlifiedTo(ps, u, now, i, asked) && QuotedTriple(now[i..]) && u(now[i + 1].text).Some?
    requires var url := u(now[i + 1].text).value;
      now' == now[..i] + [now[i], BeginUrl(url), now[i + 1], EndUrl, now[i + 2]] + now[i + 3..]
    ensures UrlifiedTo(ps, u, now', i + 5, asked + [now[i + 1].text])
  {
    var five := [now[i], BeginUrl(u(now[i + 1].text).value), now[i + 1], EndUrl, now[i + 2]];
    assert now[i..][3..] == now[i + 3..] == now'[i + 5..];
    assert now'[..i + 5] == now[..i] + five;
    assert asked + ([now[i + 1].text] + Queries(now[i + 3..])) == asked + [now[i + 1].text] + Queries(now[i + 3..]);
  }

  /** The url tokens around the text at index i + 1. */
  method WrapInUrl(l: TokenList, beginQuote: Token, text: Token, url: string, ghost i: nat)
    requires l.Valid() && i + 2 < |l.tokens| == |l.content| && l.tokens[i] == beginQuote && l.tokens[i + 1] == text
    modifies l, l.tokens`prev, l.tokens`next
    ensures l.Valid() && |l.tokens| == |old(l.tokens)| + 2 && l.tokens[i + 4..] == old(l.tokens)[i + 2..]
    ensures l.content == old(l.content)[..i]
      + [old(l.content)[i], BeginUrl(url), old(l.content)[i + 1], EndUrl, old(l.content)[i + 2]] + old(l.content)[i + 3..]
    ensures forall k | 0 <= k < |l.tokens| :: l.tokens[k] in old(l.tokens) || fresh(l.tokens[k])
  {
    hide TokenList.Valid, LinkAt, NoDup;
    ghost var ts, ps := l.tokens, l.content;
    var beginUrl := new Token(BeginUrl(url));
    l.InsertAfter(beginUrl, beginQuote, i);
    ghost var ts1, ps1 := l.tokens, l.content;
    assert ts1[i + 2] == text;
    Lengths(l);
    var endUrl := new Token(EndUrl);
    l.InsertAfter(endUrl, text, i + 2);
    Lengths(l);
    TwoInserted(ts, beginUrl, endUrl, i);
    TwoInserted(ps, BeginUrl(url), EndUrl, i);
    forall k | 0 <= k < |l.tokens| ensures l.tokens[k] in ts || fresh(l.tokens[k]) {
      assert l.tokens[k] in l.tokens;
    }
  }

  lemma TwoInserted<T>(s: seq<T>, a: T, b: T, i: nat)
    requires i + 2 < |s|
    ensures var s1 := s[..i + 1] + [a] + s[i + 1..];
      var s2 := s1[..i + 3] + [b] + s1[i + 3..];
      && s2 == s[..i] + [s[i], a, s[i + 1], b, s[i + 2]] + s[i + 3..] && s2[i + 4..] == s[i + 2..]
      && forall x | x in s2 :: x in s || x == a || x == b
  {
  }

  /** Whether the tokens from index i on are a quoted text. */
  method IsQuotedText(l: TokenList, iter: Token, ghost i: nat) returns (b: bool)
    requires l.Valid() && i < |l.tokens| == |l.content| && l.tokens[i] == iter
    ensures b <==> QuotedTriple(l.content[i..])
    ensures b ==> i + 2 < |l.tokens| && iter.next == l.tokens[i + 1] && l.tokens[i + 1].next == l.tokens[i + 2]
  {
    TokenAt(l, i);
    if i + 1 < |l.tokens| {
      TokenAt(l, i + 1);
    }
    if i + 2 < |l.tokens| {
      TokenAt(l, i + 2);
    }
    b := iter.piece == BeginQuote && iter.next != null && iter.next.piece.Text?
         && iter.next.next != null && iter.next.next.piece == EndQuote;
  }

  /** One round of the loop of apply_urlifier. */
  method UrlifyOne(l: TokenList, iter: Token, u: Urlifier, ghost i: nat, ghost ps: seq<Piece>, ghost asked: seq<string>)
    returns (next: Token?, ghost i': nat, ghost asked': seq<string>)
    requires l.Valid() && i < |l.tokens| == |l.content| && l.tokens[i] == iter && UrlifiedTo(ps, u, l.content, i, asked)
    modifies l, l.tokens`prev, l.tokens`next
    ensures l.Valid() && i' <= |l.tokens| == |l.content| && UrlifiedTo(ps, u, l.content, i', asked')
    ensures next == if i' < |l.tokens| then l.tokens[i'] else null
    ensures |l.tokens| - i' < |old(l.tokens)| - i
    ensures forall k | 0 <= k < |l.tokens| :: l.tokens[k] in old(l.tokens) || fresh(l.tokens[k])
  {
    hide TokenList.Valid, LinkAt, NoDup, Urlify, Queries, UrlifiedTo;
    ghost var now := l.content;
    asked' := asked;
    TokenAt(l, i);
    var quoted := IsQuotedText(l, iter, i);
    if quoted {
      var text := iter.next;
      var endQuote := text.next;
      TokenAt(l, i + 1);
      var url := u(text.piece.text);
      asked' := asked + [text.piece.text];
      if url.Some? {
        WrapInUrl(l, iter, text, url.value, i);
        UrlifyStepUrl(ps, u, now, i, l.content, asked);
        i' := i + 5;
        assert l.tokens[i + 4] == l.tokens[i + 4..][0] == endQuote;
        TokenAt(l, i + 4);
      } else {
        UrlifyStepPlain(ps, u, now, i, asked);
        i' := i + 3;
        TokenAt(l, i + 2);
      }
      next := endQuote.next;
    } else {
      UrlifyStepOther(ps, u, now, i, asked);
      i' := i + 1;
      next := iter.next;
    }
  }

  /** pp_token_list::apply_urlifier; asked are the texts that the urlifier has been asked about. */
  method ApplyUrlifier(l: TokenList, u: Urlifier) returns (ghost asked: seq<string>)
    requires l.Valid()
    modifies l, l.tokens`prev, l.tokens`next
    ensures l.Valid() && l.content == Urlify(old(l.content), u) && asked == Queries(old(l.content))
    ensures forall k | 0 <= k < |l.tokens| :: l.tokens[k] in old(l.tokens) || fresh(l.tokens[k])
  {
    hide TokenList.Valid, LinkAt, NoDup, Urlify, Queries;
    asked := [];
    ghost var ps, all := l.content, l.tokens;
    ghost var i: nat := 0;
    Heads(l);
    var iter := l.first;
    assert ps[0..] == ps && ps[..0] + Urlify(ps, u) == Urlify(ps, u) && asked + Queries(ps) == Queries(ps);
    while iter != null
      invariant l.Valid() && i <= |l.tokens| == |l.content|
      invariant iter == if i < |l.tokens| then l.tokens[i] else null
      invariant UrlifiedTo(ps, u, l.content, i, asked)
      invariant forall k | 0 <= k < |l.tokens| :: l.tokens[k] in all || fresh(l.tokens[k])
      decreases |l.tokens| - i
    {
      iter, i, asked := UrlifyOne(l, iter, u, i, ps, asked);
    }
    UrlifiedAll(ps, u, l.content, i, asked);
  }

  lemma UrlifiedAll(ps: seq<Piece>, u: Urlifier, now: seq<Piece>, i: nat, asked: seq<string>)
    requires UrlifiedTo(ps, u, now, i, asked) && i == |now|
    ensures now == Urlify(ps, u) && asked == Queries(ps)
  {
    assert now[..i] == now && now[i..] == [];
  }

  // ---------- custom tokens ----------

  /** No expansion contains a custom token. */
  ghost predicate Standard(ps: seq<Piece>) {
    forall i | 0 <= i < |ps| && ps[i].Custom? && ps[i].expansion.Some? ::
      forall k | 0 <= k < |ps[i].expansion.value| :: !ps[i].expansion.value[k].Custom?
  }

  lemma {:induction false} ReverseSnoc(e: seq<Piece>, p: Piece)
    ensures Reverse(e + [p]) == [p] + Reverse(e)
  {
    if e == [] {
      assert ([] + [p])[1..] == [];
    } else {
      assert (e + [p])[1..] == e[1..] + [p];
      ReverseSnoc(e[1..], p);
    }
  }

  /** The list once the first k tokens of the expansion e stand after the token at index i. */
  ghost predicate InsertedTo(now: seq<Piece>, e: seq<Piece>, i: nat, k: nat, now': seq<Piece>) {
    k <= |e| && i < |now| && now' == now[..i + 1] + Reverse(e[..k]) + now[i + 1..]
  }

  lemma InsertedMore(now: seq<Piece>, e: seq<Piece>, i: nat, k: nat, now': seq<Piece>)
    requires InsertedTo(now, e, i, k, now') && k < |e|
    ensures i < |now'| && InsertedTo(now, e, i, k + 1, now'[..i + 1] + [e[k]] + now'[i + 1..])
  {
    assert e[..k + 1] == e[..k] + [e[k]];
    ReverseSnoc(e[..k], e[k]);
    assert now'[..i + 1] == now[..i + 1] && now'[i + 1..] == Reverse(e[..k]) + now[i + 1..];
  }

  lemma InsertedAll(now: seq<Piece>, e: seq<Piece>, i: nat, now': seq<Piece>)
    requires InsertedTo(now, e, i, |e|, now')
    ensures i < |now'| && now'[..i] + now'[i + 1..] == now[..i] + Reverse(e) + now[i + 1..]
  {
    assert e[..|e|] == e;
    Between(now, Reverse(e), i);
  }

  lemma Between(now: seq<Piece>, r: seq<Piece>, i: nat)
    requires i < |now|
    ensures var now' := now[..i + 1] + r + now[i + 1..];
      i < |now'| && now'[..i] + now'[i + 1..] == now[..i] + r + now[i + 1..]
  {
    var now' := now[..i + 1] + r + now[i + 1..];
    assert now'[..i] == now[..i] && now'[i + 1..] == r + now[i + 1..];
  }

  /** Every token of the expansion goes right after the custom token. */
  method InsertExpansion(l: TokenList, iter: Token, e: seq<Piece>, ghost i: nat)
    requires l.Valid() && i < |l.tokens| == |l.content| && l.tokens[i] == iter
    requires forall k | 0 <= k < |e| :: !e[k].Custom?
    modifies l, l.tokens`prev, l.tokens`next
    ensures l.Valid() && InsertedTo(old(l.content), e, i, |e|, l.content) && |l.tokens| == |old(l.tokens)| + |e|
    ensures i < |l.tokens| && l.tokens[i] == iter && l.tokens[|l.tokens| - (|old(l.tokens)| - i - 1)..] == old(l.tokens)[i + 1..]
    ensures forall k | 0 <= k < |l.tokens| :: l.tokens[k] in old(l.tokens) || fresh(l.tokens[k])
  {
    hide TokenList.Valid, LinkAt, NoDup, InsertedTo;
    ghost var was, now := l.tokens, l.content;
    var j := 0;
    NothingInserted(now, e, i);
    while j < |e|
      invariant j <= |e| && l.Valid() && |l.tokens| == |was| + j == |l.content| && l.tokens[i] == iter
      invariant l.tokens[i + 1 + j..] == was[i + 1..]
      invariant InsertedTo(now, e, i, j, l.content)
      invariant forall k | 0 <= k < |l.tokens| :: l.tokens[k] in was || fresh(l.tokens[k])
    {
      ghost var ts := l.tokens;
      InsertedMore(now, e, i, j, l.content);
      var tok := new Token(e[j]);
      l.InsertAfter(tok, iter, i);
      Lengths(l);
      ShiftedOne(ts, tok, i, j);
      j := j + 1;
    }
  }

  lemma NothingInserted(now: seq<Piece>, e: seq<Piece>, i: nat)
    requires i < |now|
    ensures InsertedTo(now, e, i, 0, now)
  {
    assert e[..0] == [] && now == now[..i + 1] + [] + now[i + 1..];
  }

  lemma ShiftedOne(ts: seq<Token>, tok: Token, i: nat, j: nat)
    requires i + 1 + j <= |ts|
    ensures var r := ts[..i + 1] + [tok] + ts[i + 1..]; r[i] == ts[i] && r[i + 1 + (j + 1)..] == ts[i + 1 + j..]
  {
  }

  /** A custom token with an expansion is replaced by it, in reverse. */
  method ReplaceOne(l: TokenList, iter: Token, e: seq<Piece>, ghost i: nat)
    requires l.Valid() && i < |l.tokens| == |l.content| && l.tokens[i] == iter
    requires forall k | 0 <= k < |e| :: !e[k].Custom?
    modifies l, l.tokens`prev, l.tokens`next
    ensures l.Valid() && l.content == old(l.content)[..i] + Reverse(e) + old(l.content)[i + 1..]
    ensures |l.tokens| == |old(l.tokens)| + |e| - 1 && l.tokens[i + |e|..] == old(l.tokens)[i + 1..]
    ensures forall k | 0 <= k < |l.tokens| :: l.tokens[k] in old(l.tokens) || fresh(l.tokens[k])
  {
    hide TokenList.Valid, LinkAt, NoDup, InsertedTo;
    ghost var now := l.content;
    InsertExpansion(l, iter, e, i);
    InsertedAll(now, e, i, l.content);
    ghost var ts := l.tokens;
    l.RemoveToken(iter, i);
    assert l.tokens[i + |e|..] == ts[i + |e| + 1..];
  }

  ghost predicate ExpandedTo(ps: seq<Piece>, now: seq<Piece>, i: nat) {
    i <= |now| && Expand(ps) == now[..i] + Expand(now[i..])
  }

  lemma ExpandStepOther(ps: seq<Piece>, now: seq<Piece>, i: nat)
    requires ExpandedTo(ps, now, i) && i < |now| && !(now[i].Custom? && now[i].expansion.Some?)
    ensures ExpandedTo(ps, now, i + 1)
  {
    assert now[i..][1..] == now[i + 1..] && now[..i + 1] == now[..i] + [now[i]];
  }

  lemma ExpandStepCustom(ps: seq<Piece>, now: seq<Piece>, i: nat, now': seq<Piece>)
    requires ExpandedTo(ps, now, i) && i < |now| && now[i].Custom? && now[i].expansion.Some?
    requires now' == now[..i] + Reverse(now[i].expansion.value) + now[i + 1..]
    ensures ExpandedTo(ps, now', i + |now[i].expansion.value|)
  {
    var e := now[i].expansion.value;
    ReverseLength(e);
    assert now[i..][1..] == now[i + 1..] == now'[i + |e|..] && now'[..i + |e|] == now[..i] + Reverse(e);
  }

  lemma ExpandedAll(ps: seq<Piece>, now: seq<Piece>, i: nat)
    requires ExpandedTo(ps, now, i) && i == |now|
    ensures now == Expand(ps)
  {
    assert now[..i] == now && now[i..] == [];
  }

  /** The rest of the list, from index i on, has only standard expansions. */
  ghost predicate StandardFrom(now: seq<Piece>, i: nat) {
    i <= |now| && Standard(now[i..])
  }

  lemma StandardAt(now: seq<Piece>, i: nat)
    requires StandardFrom(now, i) && i < |now|
    ensures StandardFrom(now, i + 1)
    ensures now[i].Custom? && now[i].expansion.Some? ==>
      forall k | 0 <= k < |now[i].expansion.value| :: !now[i].expansion.value[k].Custom?
  {
    assert now[i..][0] == now[i] && now[i + 1..] == now[i..][1..];
  }

  /** pp_token_list::replace_custom_tokens. */
  method ReplaceCustomTokens(l: TokenList)
    requires l.Valid() && Standard(l.content)
    modifies l, l.tokens`prev, l.tokens`next
    ensures l.Valid() && l.content == Expand(old(l.content))
    ensures forall k | 0 <= k < |l.tokens| :: l.tokens[k] in old(l.tokens) || fresh(l.tokens[k])
  {
    hide TokenList.Valid, LinkAt, NoDup, Expand, Standard;
    ghost var ps, all := l.content, l.tokens;
    ghost var i: nat := 0;
    Heads(l);
    var iter := l.first;
    assert ps[0..] == ps && ps[..0] + Expand(ps) == Expand(ps);
    while iter != null
      invariant l.Valid() && i <= |l.tokens| == |l.content|
      invariant iter == if i < |l.tokens| then l.tokens[i] else null
      invariant ExpandedTo(ps, l.content, i) && StandardFrom(l.content, i)
      invariant forall k | 0 <= k < |l.tokens| :: l.tokens[k] in all || fresh(l.tokens[k])
      decreases |l.tokens| - i
    {
      ghost var ts, now := l.tokens, l.content;
      TokenAt(l, i);
      StandardAt(now, i);
      var next := iter.next;
      if iter.piece.Custom? && iter.piece.expansion.Some? {
        ghost var n := |iter.piece.expansion.value|;
        ExpandStepCustom(ps, now, i, now[..i] + Reverse(iter.piece.expansion.value) + now[i + 1..]);
        ReplaceOne(l, iter, iter.piece.expansion.value, i);
        Lengths(l);
        SameRest(now, l.content, i, n);
        i := i + n;
        assert i < |l.tokens| ==> l.tokens[i] == l.tokens[i..][0] == ts[|ts| - (|l.tokens| - i)..][0];
      } else {
        ExpandStepOther(ps, now, i);
        i := i + 1;
      }
      iter := next;
    }
    ExpandedAll(ps, l.content, i);
  }

  lemma SameRest(now: seq<Piece>, now': seq<Piece>, i: nat, n: nat)
    requires StandardFrom(now, i + 1) && i + n <= |now'| && now[i].Custom? && now[i].expansion.Some?
    requires n == |now[i].expansion.value| && now' == now[..i] + Reverse(now[i].expansion.value) + now[i + 1..]
    ensures StandardFrom(now', i + n)
  {
    ReverseLength(now[i].expansion.value);
    assert now'[i + n..] == now[i + 1..];
  }
}
