/** The doubly linked list of tokens. */
module TokenLists {
  import opened Common
  import opened TokenPasses

  class Token {
    var piece: Piece
    var prev: Token?
    var next: Token?

    constructor (piece: Piece)
      ensures this.piece == piece && prev == null && next == null
    {
      this.piece, prev, next := piece, null, null;
    }
  }

  /** The links of member i of the list. */
  ghost predicate LinkAt(s: seq<Token>, i: nat)
    requires i < |s|
    reads {s[i]}`prev, {s[i]}`next
  {
    && s[i].prev == (if i > 0 then s[i - 1] else null)
    && s[i].next == (if i + 1 < |s| then s[i + 1] else null)
  }

  lemma Cut(t: seq<Token>, i: nat, k: nat)
    requires NoDup(t) && i < |t| && k < |t| - 1
    ensures var s := t[..i] + t[i + 1..];
      && s[k] == (if k < i then t[k] else t[k + 1]) && s[k] != t[i]
      && (k > 0 ==> s[k - 1] == if k - 1 < i then t[k - 1] else t[k])
      && (k + 1 < |s| ==> s[k + 1] == if k + 1 < i then t[k + 1] else t[k + 2])
  {
  }

  lemma CutDistinct(t: seq<Token>, i: nat)
    requires NoDup(t) && i < |t|
    ensures NoDup(t[..i] + t[i + 1..])
    ensures i > 0 ==> t[i - 1] != t[i] && (i + 1 < |t| ==> t[i - 1] != t[i + 1])
    ensures i + 1 < |t| ==> t[i + 1] != t[i]
    ensures forall k | 0 <= k < |t| && k != i :: t[k] != t[i]
    ensures forall k | 0 < i && 0 <= k < |t| && k != i - 1 :: t[k] != t[i - 1]
    ensures forall k | 0 <= k < |t| && k != i + 1 < |t| :: t[k] != t[i + 1]
  {
  }

  lemma JoinDistinct(t: seq<Token>, i: nat, n: Token)
    requires NoDup(t) && i < |t| && n !in t
    ensures NoDup(t[..i + 1] + [n] + t[i + 1..])
    ensures forall k | 0 <= k < |t| :: t[k] != n
  {
    var s := t[..i + 1] + [n] + t[i + 1..];
    forall a, b | 0 <= a < b < |s| ensures s[a] != s[b] {
      Join(t, i, n, a);
      Join(t, i, n, b);
    }
  }

  lemma Join(t: seq<Token>, i: nat, n: Token, k: nat)
    requires i < |t| && k <= |t|
    ensures var s := t[..i + 1] + [n] + t[i + 1..];
      && s[k] == (if k <= i then t[k] else if k == i + 1 then n else t[k - 1])
      && (k > 0 ==> s[k - 1] == if k - 1 <= i then t[k - 1] else if k == i + 2 then n else t[k - 2])
      && (k < |t| ==> s[k + 1] == if k + 1 <= i then t[k + 1] else if k == i then n else t[k])
  {
  }

  lemma JoinedContent(was: seq<Token>, content: seq<Piece>, i: nat, n: Token)
    requires i < |was| == |content| && forall k | 0 <= k < |was| :: was[k].piece == content[k]
    ensures var s, c := was[..i + 1] + [n] + was[i + 1..], content[..i + 1] + [n.piece] + content[i + 1..];
      && |s| == |c| > 1 && (forall k | 0 <= k < |s| :: s[k].piece == c[k])
      && s[0] == was[0] && s[|s| - 1] == if i + 1 == |was| then n else was[|was| - 1]
  {
  }

  /** After the pointers around n have been set, the list with n in it is linked. */
  twostate lemma JoinedLinks(was: seq<Token>, new i: nat, new n: Token)
    requires i < |was| && forall k | 0 <= k < |was| :: old(LinkAt(was, k))
    requires was[i].next == n && n.prev == was[i] && n.next == old(was[i].next)
    requires i + 1 < |was| ==> was[i + 1].prev == n
    requires forall k | 0 <= k < |was| && k != i :: was[k].next == old(was[k].next)
    requires forall k | 0 <= k < |was| && k != i + 1 :: was[k].prev == old(was[k].prev)
    ensures var s := was[..i + 1] + [n] + was[i + 1..];
      forall k | 0 <= k < |s| :: LinkAt(s, k)
  {
    var s := was[..i + 1] + [n] + was[i + 1..];
    forall k | 0 <= k < |s| ensures LinkAt(s, k) {
      Join(was, i, n, k);
      assert old(LinkAt(was, i));
      if k <= i {
        assert old(LinkAt(was, k));
      } else if k > i + 1 {
        assert old(LinkAt(was, k - 1));
      }
    }
  }

  /** A token that is on no list. */
  ghost predicate Free(t: Token)
    reads t
  {
    t.prev == null && t.next == null
  }

  class TokenList {
    var first: Token?
    var end: Token?
    /** The tokens in order, and what they stand for. */
    ghost var tokens: seq<Token>
    ghost var content: seq<Piece>

    ghost predicate Valid()
      reads this, tokens
    {
      && NoDup(tokens) && |content| == |tokens|
      && (forall i | 0 <= i < |tokens| :: tokens[i].piece == content[i])
      && (forall i | 0 <= i < |tokens| :: LinkAt(tokens, i))
      && first == (if tokens == [] then null else tokens[0])
      && end == (if tokens == [] then null else tokens[|tokens| - 1])
    }

    constructor ()
      ensures Valid() && tokens == [] && content == []
    {
      first, end, tokens, content := null, null, [], [];
    }

    method PushBack(tok: Token)
      requires Valid() && Free(tok) && tok !in tokens
      modifies this, tok`prev, (if end == null then {} else {end})`next
      ensures Valid() && tokens == old(tokens) + [tok] && content == old(content) + [tok.piece]
      ensures tok.piece == old(tok.piece)
    {
      ghost var was := tokens;
      if first == null {
        first := tok;
        end := tok;
      } else {
        assert LinkAt(was, |was| - 1);
        end.next := tok;
        tok.prev := end;
        end := tok;
      }
      tokens, content := tokens + [tok], content + [tok.piece];
      forall i | 0 <= i < |tokens| ensures LinkAt(tokens, i) {
        if i < |was| {
          assert old(LinkAt(was, i));
        }
      }
    }

    method PopFront() returns (r: Token?)
      requires Valid()
      modifies this, tokens`prev, tokens`next
      ensures Valid()
      ensures old(tokens) == [] ==> r == null && tokens == []
      ensures old(tokens) != [] ==>
        && r == old(tokens)[0] && Free(r) && r.piece == old(content)[0] && r !in tokens
        && tokens == old(tokens)[1..] && content == old(content)[1..]
    {
      r := first;
      if r == null {
        return;
      }
      ghost var was := tokens;
      assert LinkAt(was, 0);
      assert |was| > 1 ==> LinkAt(was, 1);
      first := r.next;
      if r.next != null {
        first.prev := null;
      } else {
        end := null;
      }
      r.next := null;
      tokens, content := tokens[1..], content[1..];
      forall i | 0 <= i < |tokens| ensures LinkAt(tokens, i) {
        assert old(LinkAt(was, i + 1));
      }
    }

    /** The pointers around a token that is removed. */
    method CutToken(tok: Token)
      requires tok.prev != tok && tok.next != tok && (tok.prev != null ==> tok.prev != tok.next)
      modifies this`first, this`end, tok`prev, tok`next
      modifies (if tok.prev == null then {} else {tok.prev})`next, (if tok.next == null then {} else {tok.next})`prev
      ensures Free(tok)
      ensures old(tok.prev) != null ==> old(tok.prev).next == old(tok.next)
      ensures old(tok.next) != null ==> old(tok.next).prev == old(tok.prev)
      ensures first == if old(tok.prev) == null then old(tok.next) else old(first)
      ensures end == if old(tok.next) == null then old(tok.prev) else old(end)
    {
      if tok.prev != null {
        tok.prev.next := tok.next;
      } else {
        first := tok.next;
      }
      if tok.next != null {
        tok.next.prev := tok.prev;
      } else {
        end := tok.prev;
      }
      tok.prev := null;
      tok.next := null;
    }

    method RemoveToken(tok: Token, ghost i: nat)
      requires Valid() && i < |tokens| && tokens[i] == tok
      modifies this, tokens`prev, tokens`next
      ensures Valid() && tokens == old(tokens)[..i] + old(tokens)[i + 1..] && Free(tok)
      ensures content == old(content)[..i] + old(content)[i + 1..]
    {
      hide NoDup, Free;
      ghost var was := tokens;
      CutDistinct(was, i);
      assert LinkAt(was, i);
      CutToken(tok);
      tokens, content := tokens[..i] + tokens[i + 1..], content[..i] + content[i + 1..];
      forall k | 0 <= k < |tokens| ensures LinkAt(tokens, k) {
        Cut(was, i, k);
        assert old(LinkAt(was, if k < i then k else k + 1));
      }
    }

    /** The pointers around a token that is inserted. */
    method LinkAfter(newTok: Token, rel: Token)
      requires newTok != rel && rel.next != newTok
      modifies this`end, rel`next, newTok`prev, newTok`next, (if rel.next == null then {} else {rel.next})`prev
      ensures rel.next == newTok && newTok.prev == rel && newTok.next == old(rel.next)
      ensures old(rel.next) != null ==> old(rel.next).prev == newTok
      ensures end == if old(rel.next) == null then newTok else old(end)
    {
      if rel.next != null {
        rel.next.prev := newTok;
      } else {
        end := newTok;
      }
      newTok.prev := rel;
      newTok.next := rel.next;
      rel.next := newTok;
    }

    method InsertAfter(newTok: Token, rel: Token, ghost i: nat)
      requires Valid() && i < |tokens| && tokens[i] == rel && Free(newTok) && newTok !in tokens
      modifies this, newTok`prev, newTok`next, tokens`prev, tokens`next
      ensures Valid() && tokens == old(tokens)[..i + 1] + [newTok] + old(tokens)[i + 1..]
      ensures content == old(content)[..i + 1] + [newTok.piece] + old(content)[i + 1..]
    {
      ghost var was := tokens;
      CutDistinct(was, i);
      JoinDistinct(was, i, newTok);
      assert rel.next == if i + 1 < |was| then was[i + 1] else null by {
        assert LinkAt(was, i);
      }
      hide NoDup, LinkAt;
      LinkAfter(newTok, rel);
      JoinedLinks(was, i, newTok);
      JoinedContent(was, content, i, newTok);
      tokens := tokens[..i + 1] + [newTok] + tokens[i + 1..];
      content := content[..i + 1] + [newTok.piece] + content[i + 1..];
    }

    /** Moves the first token of the other list to the end of this one. */
    method MoveFirst(other: TokenList) returns (more: bool)
      requires Valid() && other.Valid() && this != other && Apart(tokens, other.tokens)
      modifies this, other, tokens`next, other.tokens`prev, other.tokens`next
      ensures Valid() && other.Valid() && more == (old(other.tokens) != [])
      ensures Apart(tokens, other.tokens)
      ensures if more then
          && tokens == old(tokens) + [old(other.tokens)[0]] && other.tokens == old(other.tokens)[1..]
          && content == old(content) + [old(other.content)[0]] && other.content == old(other.content)[1..]
        else tokens == old(tokens) && content == old(content) && other.tokens == []
    {
      hide LinkAt, Free, NoDup;
      ghost var mine, theirs := tokens, other.tokens;
      var tok := other.PopFront();
      forall i | 0 <= i < |mine| ensures LinkAt(mine, i) {
        assert old(LinkAt(mine, i)) && mine[i] in mine;
      }
      more := tok != null;
      if more {
        assert tok in theirs;
        assert forall i | 0 <= i < |other.tokens| :: other.tokens[i] in theirs && other.tokens[i] !in mine;
        PushBack(tok);
        forall i | 0 <= i < |other.tokens| ensures LinkAt(other.tokens, i) {
          assert other.tokens[i] != tok;
        }
      }
    }

    /** All tokens of another list, in order; that list is left empty. */
    method PushBackList(other: TokenList)
      requires Valid() && other.Valid() && this != other && Apart(tokens, other.tokens)
      modifies this, other, tokens`next, other.tokens`prev, other.tokens`next
      ensures Valid() && other.Valid() && other.tokens == []
      ensures tokens == old(tokens) + old(other.tokens) && content == old(content) + old(other.content)
    {
      hide NoDup, LinkAt;
      ghost var mine, theirs, ps, qs := tokens, other.tokens, content, other.content;
      ghost var k := 0;
      var more := true;
      while more
        invariant Valid() && other.Valid() && Apart(tokens, other.tokens) && k <= |theirs| == |qs|
        invariant tokens == mine + theirs[..k] && other.tokens == theirs[k..]
        invariant content == ps + qs[..k] && other.content == qs[k..]
        invariant !more ==> k == |theirs|
        decreases |theirs| - k, more
      {
        more := MoveFirst(other);
        if more {
          OneMoved(mine, theirs, k);
          OneMoved(ps, qs, k);
          k := k + 1;
        }
      }
      assert theirs[..k] == theirs && qs[..k] == qs;
    }
  }

  lemma OneMoved<T>(s: seq<T>, t: seq<T>, k: nat)
    requires k < |t|
    ensures t[k..][0] == t[k] && t[k..][1..] == t[k + 1..]
    ensures s + t[..k] + [t[k]] == s + t[..k + 1]
  {
    assert t[..k + 1] == t[..k] + [t[k]];
  }

  /** All of the tokens are among those of another sequence. */
  ghost predicate Within(s: seq<Token>, all: seq<Token>) {
    forall k | 0 <= k < |s| :: s[k] in all
  }

  ghost predicate Apart(a: seq<Token>, b: seq<Token>) {
    forall t | t in a :: t !in b
  }
}
