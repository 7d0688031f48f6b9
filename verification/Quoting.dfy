/** Printing arbitrary bytes: quoted strings, and identifiers for a locale without UTF-8. */
module Quoting {
  import opened Utf8

  predicate Printable(b: byte) {
    0x20 <= b < 0x7F
  }

  function HexDigit(d: nat): byte
    requires d < 16
  {
    if d < 10 then 0x30 + d else 0x61 + (d - 10)
  }

  /** The text "\xHH" of a byte. */
  function HexEscape(b: byte): (r: seq<byte>)
    ensures |r| == 4 && forall i | 0 <= i < 4 :: Printable(r[i])
  {
    [0x5C, 0x78, HexDigit(b / 16), HexDigit(b % 16)]
  }

  /** The text "\OOO" of a byte. */
  function OctalEscape(b: byte): (r: seq<byte>)
    ensures |r| == 4 && forall i | 0 <= i < 4 :: Printable(r[i])
  {
    [0x5C, 0x30 + b / 64, 0x30 + b / 8 % 8, 0x30 + b % 8]
  }

  // ---------- quoted strings ----------

  /** How a stretch of input comes out. */
  datatype Token = Plain(b: byte) | Extended(c: nat) | Escaped(b: byte)

  ghost predicate TokenOK(t: Token) {
    match t
    case Plain(b) => Printable(b)
    case Extended(c) => 0x80 <= c && Scalar(c)
    case Escaped(b) => !Printable(b)
  }

  ghost function Bytes(c: nat): (r: seq<byte>)
    requires c < Limit
    ensures r == Encode(c) && |r| >= 1
  {
    EncodeIsBytes(c);
    Encode(c)
  }

  ghost function Input(t: Token): (r: seq<byte>)
    requires TokenOK(t)
    ensures r != []
  {
    match t
    case Plain(b) => [b]
    case Extended(c) => Bytes(c)
    case Escaped(b) => [b]
  }

  ghost function Output(t: Token): (r: seq<byte>)
    requires TokenOK(t)
    ensures r != []
  {
    match t
    case Plain(b) => [b]
    case Extended(c) => Bytes(c)
    case Escaped(b) => HexEscape(b)
  }

  /** The first token of the input: printable ASCII as it is, then a whole accepted UTF-8 sequence,
      and otherwise one escaped byte. */
  ghost function FirstToken(s: seq<byte>): (t: Token)
    requires s != []
    ensures TokenOK(t) && Input(t) <= s
  {
    if Printable(s[0]) then Plain(s[0])
    else if s[0] >= 0x80 && !NoStart(s) then
      StartFacts(s, Decode(s));
      Extended(Decode(s))
    else Escaped(s[0])
  }

  ghost function Tokens(s: seq<byte>): (ts: seq<Token>)
    ensures AllOK(ts)
    decreases |s|
  {
    if s == [] then [] else
      var t := FirstToken(s);
      [t] + Tokens(s[|Input(t)|..])
  }

  ghost predicate AllOK(ts: seq<Token>) {
    forall t | t in ts :: TokenOK(t)
  }

  ghost function Inputs(ts: seq<Token>): seq<byte>
    requires AllOK(ts)
  {
    if ts == [] then [] else Input(ts[0]) + Inputs(ts[1..])
  }

  ghost function Outputs(ts: seq<Token>): seq<byte>
    requires AllOK(ts)
  {
    if ts == [] then [] else Output(ts[0]) + Outputs(ts[1..])
  }

  ghost function Quote(s: seq<byte>): seq<byte> {
    Outputs(Tokens(s))
  }

  lemma TokensStep(s: seq<byte>)
    requires s != []
    ensures Tokens(s) != [] && Tokens(s)[0] == FirstToken(s)
    ensures Tokens(s)[1..] == Tokens(s[|Input(FirstToken(s))|..])
  {
  }

  /** Every byte of the input belongs to exactly one token. */
  lemma {:induction false} InputsAreAll(s: seq<byte>)
    ensures Inputs(Tokens(s)) == s
    decreases |s|
  {
    if s != [] {
      hide FirstToken, Tokens, Input;
      var t := FirstToken(s);
      TokensStep(s);
      InputsAreAll(s[|Input(t)|..]);
      assert s == Input(t) + s[|Input(t)|..];
    }
  }

  /** A token is read the same way whatever follows it. */
  lemma TokenStays(t: Token, rest: seq<byte>)
    requires TokenOK(t) && !t.Escaped?
    ensures FirstToken(Input(t) + rest) == t && Output(t) == Input(t)
  {
    var s := Input(t) + rest;
    if t.Extended? {
      DecodeEncode(t.c, rest);
      StartFacts(s, t.c);
    }
  }

  ghost predicate Safe(ts: seq<Token>) {
    forall t | t in ts :: TokenOK(t) && !t.Escaped?
  }

  lemma {:induction false} SafeOutputs(ts: seq<Token>)
    requires Safe(ts)
    ensures AllOK(ts) && Outputs(ts) == Inputs(ts)
  {
    if ts != [] {
      SafeOutputs(ts[1..]);
      TokenStays(ts[0], []);
    }
  }

  lemma HeadToken(t: Token, more: seq<byte>)
    requires TokenOK(t) && !t.Escaped?
    ensures Tokens(Input(t) + more) == [t] + Tokens(more)
  {
    hide FirstToken, Tokens, Input;
    var s := Input(t) + more;
    TokenStays(t, more);
    TokensStep(s);
    assert s[|Input(t)|..] == more;
  }

  /** Text that consists of printable ASCII and accepted sequences is read as such. */
  lemma {:induction false} SafeTokens(ts: seq<Token>, rest: seq<byte>)
    requires Safe(ts)
    ensures AllOK(ts) && Tokens(Inputs(ts) + rest) == ts + Tokens(rest)
  {
    hide FirstToken, Tokens, Input;
    if ts == [] {
      assert Inputs(ts) + rest == rest;
    } else {
      var t, more := ts[0], Inputs(ts[1..]) + rest;
      SafeTokens(ts[1..], rest);
      HeadToken(t, more);
      assert Inputs(ts) + rest == Input(t) + more;
      assert ts + Tokens(rest) == [t] + (ts[1..] + Tokens(rest));
    }
  }

  /** The output of a token, as tokens. */
  ghost function Requoted(t: Token): (ts: seq<Token>)
    requires TokenOK(t)
    ensures Safe(ts)
  {
    match t
    case Escaped(b) => [Plain(0x5C), Plain(0x78), Plain(HexDigit(b / 16)), Plain(HexDigit(b % 16))]
    case _ => [t]
  }

  lemma RequotedInput(t: Token)
    requires TokenOK(t)
    ensures Inputs(Requoted(t)) == Output(t)
  {
    match t
    case Escaped(b) =>
      var ts := Requoted(t);
      assert ts[1..][1..][1..] == [ts[3]] && ts[1..][1..][1..][1..] == [];
      assert Inputs(ts[1..][1..][1..]) == [HexDigit(b % 16)];
      assert Inputs(ts[1..][1..]) == [HexDigit(b / 16), HexDigit(b % 16)];
      assert Inputs(ts[1..]) == [0x78, HexDigit(b / 16), HexDigit(b % 16)];
    case _ =>
      assert Requoted(t)[1..] == [];
  }

  /** What is printed is printable ASCII and whole accepted UTF-8 sequences. */
  lemma {:induction false} QuoteIsSafe(ts: seq<Token>) returns (us: seq<Token>)
    requires AllOK(ts)
    ensures Safe(us) && Inputs(us) == Outputs(ts)
  {
    us := [];
    if ts != [] {
      var rest := QuoteIsSafe(ts[1..]);
      us := Requoted(ts[0]) + rest;
      RequotedInput(ts[0]);
      InputsConcat(Requoted(ts[0]), rest);
    }
  }

  lemma {:induction false} InputsConcat(a: seq<Token>, b: seq<Token>)
    requires AllOK(a) && AllOK(b)
    ensures AllOK(a + b) && Inputs(a + b) == Inputs(a) + Inputs(b)
  {
    if a == [] {
      assert a + b == b;
    } else {
      assert (a + b)[1..] == a[1..] + b;
      InputsConcat(a[1..], b);
    }
  }

  /** Quoting what has been quoted changes nothing. */
  lemma QuoteIdempotent(s: seq<byte>)
    ensures Quote(Quote(s)) == Quote(s)
  {
    var us := QuoteIsSafe(Tokens(s));
    SafeTokens(us, []);
    SafeOutputs(us);
    assert Inputs(us) + [] == Inputs(us) && us + [] == us;
  }

  // ---------- reading it back ----------

  function HexValue(b: byte): nat {
    if 0x30 <= b <= 0x39 then b - 0x30 else if 0x61 <= b <= 0x66 then b - 0x61 + 10 else 0
  }

  /** The text with every "\xHH" replaced by the byte that it stands for. */
  ghost function Unquoted(t: seq<byte>): seq<byte> {
    if t == [] then []
    else if t[0] == 0x5C && |t| >= 4 then [(16 * HexValue(t[2]) + HexValue(t[3])) % 256] + Unquoted(t[4..])
    else [t[0]] + Unquoted(t[1..])
  }

  lemma HexEscapeNames(b: byte)
    ensures var r := HexEscape(b); r[0] == 0x5C && r[1] == 0x78 && 16 * HexValue(r[2]) + HexValue(r[3]) == b
  {
  }

  lemma {:induction false} UnquotedText(a: seq<byte>, b: seq<byte>)
    requires 0x5C !in a
    ensures Unquoted(a + b) == a + Unquoted(b)
  {
    if a == [] {
      assert a + b == b;
    } else {
      assert (a + b)[1..] == a[1..] + b && (a + b)[0] == a[0];
      UnquotedText(a[1..], b);
    }
  }

  lemma UnquotedOutput(t: Token, b: seq<byte>)
    requires TokenOK(t) && 0x5C !in Input(t)
    ensures Unquoted(Output(t) + b) == Input(t) + Unquoted(b)
  {
    match t
    case Escaped(c) =>
      HexEscapeNames(c);
      var r := HexEscape(c) + b;
      assert r[4..] == b;
    case _ =>
      UnquotedText(Input(t), b);
  }

  lemma {:induction false} UnquotedOutputs(ts: seq<Token>)
    requires AllOK(ts) && 0x5C !in Inputs(ts)
    ensures Unquoted(Outputs(ts)) == Inputs(ts)
  {
    if ts != [] {
      UnquotedOutputs(ts[1..]);
      UnquotedOutput(ts[0], Outputs(ts[1..]));
    }
  }

  /** From the quoted text the original can be read back, if it has no backslash. */
  lemma QuoteReadsBack(s: seq<byte>)
    requires 0x5C !in s
    ensures Unquoted(Quote(s)) == s
  {
    InputsAreAll(s);
    UnquotedOutputs(Tokens(s));
  }

  /** Exactly the texts of printable ASCII and accepted sequences come out as they are. */
  lemma QuoteUnchanged(s: seq<byte>)
    ensures Quote(s) == s <==> Safe(Tokens(s))
    ensures (forall i | 0 <= i < |s| :: 0x20 <= s[i] <= 0x7E) ==> Quote(s) == s
    ensures Quote(s) == s ==> forall i | 0 <= i < |s| :: s[i] >= 0x20 && s[i] != 0x7F
  {
    InputsAreAll(s);
    if Safe(Tokens(s)) {
      SafeOutputs(Tokens(s));
    }
    if Quote(s) == s {
      var us := QuoteIsSafe(Tokens(s));
      SafeTokens(us, []);
      assert Inputs(us) + [] == s && us + [] == us && Tokens([]) == [];
      SafeBytes(us);
    }
    if forall i | 0 <= i < |s| :: 0x20 <= s[i] <= 0x7E {
      PlainTokens(s);
    }
  }

  ghost predicate NoControls(s: seq<byte>) {
    forall i | 0 <= i < |s| :: s[i] >= 0x20 && s[i] != 0x7F
  }

  lemma SafeInput(t: Token)
    requires TokenOK(t) && !t.Escaped?
    ensures NoControls(Input(t))
  {
    if t.Extended? {
      var s: seq<byte> := Input(t);
      assert s[..|Encode(t.c)|] == Encode(t.c);
      StartFacts(s, t.c);
    }
  }

  lemma {:induction false} SafeBytes(ts: seq<Token>)
    requires Safe(ts)
    ensures AllOK(ts) && NoControls(Inputs(ts))
  {
    if ts != [] {
      SafeBytes(ts[1..]);
      SafeInput(ts[0]);
    }
  }

  lemma {:induction false} PlainTokens(s: seq<byte>)
    requires forall i | 0 <= i < |s| :: 0x20 <= s[i] <= 0x7E
    ensures Safe(Tokens(s)) && Quote(s) == s
    decreases |s|
  {
    if s != [] {
      PlainTokens(s[1..]);
      assert FirstToken(s) == Plain(s[0]);
    }
  }

  lemma QuoteStep(s: seq<byte>)
    requires s != []
    ensures var t := FirstToken(s); Quote(s) == Output(t) + Quote(s[|Input(t)|..])
  {
    hide FirstToken, Tokens, Input, Output;
    TokensStep(s);
  }

  /** The loop has printed `out`, and str[last..ps] is to be printed as it is. */
  ghost predicate Underway(out: seq<byte>, str: seq<byte>, last: nat, ps: nat)
    requires last <= ps <= |str|
  {
    out + str[last..ps] + Quote(str[ps..]) == Quote(str)
  }

  lemma MovePiece(out: seq<byte>, str: seq<byte>, last: nat, ps: nat, n: nat, q: seq<byte>)
    requires last <= ps <= ps + n <= |str|
    ensures out + str[last..ps] + (str[ps..][..n] + q) == out + str[last..ps + n] + q
    ensures str[ps..][n..] == str[ps + n..]
  {
    assert str[last..ps + n] == str[last..ps] + str[ps..][..n];
  }

  lemma Keep(out: seq<byte>, str: seq<byte>, last: nat, ps: nat, t: Token)
    requires last <= ps < |str| && Underway(out, str, last, ps)
    requires t == FirstToken(str[ps..]) && !t.Escaped?
    ensures ps + |Input(t)| <= |str| && Underway(out, str, last, ps + |Input(t)|)
  {
    hide FirstToken, Quote, Input, Output;
    var n := |Input(t)|;
    QuoteStep(str[ps..]);
    TokenStays(t, []);
    MovePiece(out, str, last, ps, n, Quote(str[ps + n..]));
  }

  lemma Escape(out: seq<byte>, str: seq<byte>, last: nat, ps: nat)
    requires last <= ps < |str| && Underway(out, str, last, ps)
    requires FirstToken(str[ps..]) == Escaped(str[ps])
    ensures Underway(out + str[last..ps] + HexEscape(str[ps]), str, ps + 1, ps + 1)
  {
    var rest := str[ps..];
    QuoteStep(rest);
    hide FirstToken, Quote;
    assert rest[1..] == str[ps + 1..] && str[ps + 1..ps + 1] == [];
    var shown := out + str[last..ps];
    assert shown + (HexEscape(str[ps]) + Quote(rest[1..])) == (shown + HexEscape(str[ps])) + [] + Quote(rest[1..]);
  }

  /** pp_quoted_string with wrapping off. */
  method QuotedString(str: seq<byte>) returns (out: seq<byte>)
    ensures out == Quote(str)
  {
    hide Quote, Tokens, Decode;
    out := [];
    var last, ps := 0, 0;
    assert str[0..] == str;
    while ps < |str|
      invariant last <= ps <= |str| && Underway(out, str, last, ps)
    {
      if Printable(str[ps]) {
        Keep(out, str, last, ps, Plain(str[ps]));
        ps := ps + 1;
        continue;
      }
      if str[ps] >= 0x80 {
        var len, value := DecodeChar(str[ps..]);
        if len > 0 {
          OneReading(str[ps..], value);
          Keep(out, str, last, ps, Extended(value));
          ps := ps + len;
          continue;
        }
      }
      Escape(out, str, last, ps);
      out := out + str[last..ps] + HexEscape(str[ps]);
      last := ps + 1;
      ps := ps + 1;
    }
    NothingToQuote();
    assert str[ps..] == [];
    out := out + str[last..ps];
  }

  lemma NothingToQuote()
    ensures Quote([]) == []
  {
  }

  lemma OneReading(s: seq<byte>, c: nat)
    requires Scalar(c) && StartsWith(s, c) && s[0] >= 0x80
    ensures FirstToken(s) == Extended(c) && Input(FirstToken(s)) == s[..|Encode(c)|]
  {
    StartFacts(s, c);
    StartUnique(s, c, Decode(s));
  }
}
