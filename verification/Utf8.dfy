/** UTF-8, up to six bytes as in section 2 of RFC 2279, without the surrogates (section 3 of
    RFC 3629).  Masks and shifts of the code are written as remainders and quotients. */
module Utf8 {

  type byte = b: nat | b < 256

  /** Code points that six bytes can hold. */
  const Limit := 0x8000_0000

  ghost predicate Surrogate(c: nat) {
    0xD800 <= c <= 0xDFFF
  }

  /** The values with an encoding that the decoder accepts. */
  ghost predicate Scalar(c: nat) {
    c < Limit && !Surrogate(c)
  }

  // ---------- the encoding ----------

  /** The number of bytes for a code point. */
  ghost function Length(c: nat): (n: nat)
    ensures 1 <= n <= 6
  {
    if c < 0x80 then 1 else if c < 0x800 then 2 else if c < 0x1_0000 then 3
    else if c < 0x20_0000 then 4 else if c < 0x400_0000 then 5 else 6
  }

  /** The fixed leading bits of the first of n bytes. */
  ghost function Prefix(n: nat): nat {
    if n == 2 then 0xC0 else if n == 3 then 0xE0 else if n == 4 then 0xF0
    else if n == 5 then 0xF8 else if n == 6 then 0xFC else 0
  }

  /** How many values the free bits of the first of n bytes have. */
  ghost function Room(n: nat): nat {
    if n == 2 then 32 else if n == 3 then 16 else if n == 4 then 8 else if n == 5 then 4 else if n == 6 then 2 else 128
  }

  /** What is left of c after k groups of six bits. */
  ghost function High(c: nat, k: nat): nat {
    if k == 0 then c else High(c / 64, k - 1)
  }

  /** The last k groups of six bits of c, as continuation bytes. */
  ghost function Tail(c: nat, k: nat): (s: seq<byte>)
    ensures |s| == k && forall i | 0 <= i < k :: 0x80 <= s[i] < 0xC0
  {
    if k == 0 then [] else Tail(c / 64, k - 1) + [0x80 + c % 64]
  }

  ghost function Form(c: nat, n: nat): seq<nat>
    requires 2 <= n <= 6
  {
    [Prefix(n) + High(c, n - 1)] + Tail(c, n - 1)
  }

  /** The bytes of a code point. */
  ghost function Encode(c: nat): seq<nat> {
    if c < 0x80 then [c] else Form(c, Length(c))
  }

  lemma HighMeans(c: nat, k: nat)
    requires k <= 5
    ensures k == 0 ==> High(c, k) == c
    ensures k == 1 ==> High(c, k) == c / 64
    ensures k == 2 ==> High(c, k) == c / 64 / 64
    ensures k == 3 ==> High(c, k) == c / 64 / 64 / 64
    ensures k == 4 ==> High(c, k) == c / 64 / 64 / 64 / 64
    ensures k == 5 ==> High(c, k) == c / 64 / 64 / 64 / 64 / 64
  {
    if k > 0 {
      HighMeans(c / 64, k - 1);
    }
  }

  /** n bytes are enough for c, with the first byte in range, exactly if c has at most that length. */
  lemma RoomMeans(c: nat, n: nat)
    requires 2 <= n <= 6 && c < Limit
    ensures High(c, n - 1) < Room(n) <==> Length(c) <= n
  {
    HighMeans(c, n - 1);
  }

  lemma RoomBound(c: nat, n: nat)
    requires 2 <= n <= 6 && High(c, n - 1) < Room(n)
    ensures c < Limit
  {
    HighMeans(c, n - 1);
  }

  lemma EncodeIsBytes(c: nat)
    requires c < Limit
    ensures |Encode(c)| == Length(c) && forall i | 0 <= i < |Encode(c)| :: Encode(c)[i] < 256
  {
    if c >= 0x80 {
      RoomMeans(c, Length(c));
      var e := Encode(c);
      forall i | 0 <= i < |e| ensures e[i] < 256 {
        if i > 0 {
          assert e[i] == Tail(c, Length(c) - 1)[i - 1];
        }
      }
    }
  }

  /** The bytes, length by length. */
  lemma EncodeForms(c: nat)
    requires c < 0x20_0000
    ensures Encode(c) ==
      if c < 0x80 then [c]
      else if c < 0x800 then [0xC0 + c / 0x40, 0x80 + c % 0x40]
      else if c < 0x1_0000 then [0xE0 + c / 0x1000, 0x80 + c / 0x40 % 0x40, 0x80 + c % 0x40]
      else [0xF0 + c / 0x4_0000, 0x80 + c / 0x1000 % 0x40, 0x80 + c / 0x40 % 0x40, 0x80 + c % 0x40]
  {
    if c >= 0x80 {
      hide Tail, High;
      var n := Length(c);
      GroupsAre(c);
      TailAt(c, n - 1, 0);
      if n > 2 {
        TailAt(c, n - 1, 1);
      }
      if n > 3 {
        TailAt(c, n - 1, 2);
      }
      var t := Tail(c, n - 1);
      assert if n == 2 then t == [t[0]] else if n == 3 then t == [t[0], t[1]] else t == [t[0], t[1], t[2]];
    }
  }

  lemma EncodeLongForms(c: nat)
    requires 0x20_0000 <= c < Limit
    ensures Encode(c) ==
      if c < 0x400_0000 then
        [0xF8 + c / 0x100_0000, 0x80 + c / 0x4_0000 % 0x40, 0x80 + c / 0x1000 % 0x40, 0x80 + c / 0x40 % 0x40, 0x80 + c % 0x40]
      else
        [0xFC + c / 0x4000_0000, 0x80 + c / 0x100_0000 % 0x40, 0x80 + c / 0x4_0000 % 0x40, 0x80 + c / 0x1000 % 0x40,
         0x80 + c / 0x40 % 0x40, 0x80 + c % 0x40]
  {
    hide Tail, High;
    var n := Length(c);
    GroupsAre(c);
    forall j: nat | j < n - 1 ensures Tail(c, n - 1)[n - 2 - j] == 0x80 + High(c, j) % 64 {
      TailAt(c, n - 1, j);
    }
    assert Encode(c)[n - 1] == Tail(c, n - 1)[n - 2 - 0] && Encode(c)[n - 2] == Tail(c, n - 1)[n - 2 - 1];
    assert Encode(c)[n - 3] == Tail(c, n - 1)[n - 2 - 2] && Encode(c)[n - 4] == Tail(c, n - 1)[n - 2 - 3];
    assert n == 6 ==> Encode(c)[1] == Tail(c, n - 1)[n - 2 - 4];
  }

  lemma {:induction false} TailAt(c: nat, k: nat, j: nat)
    requires j < k
    ensures Tail(c, k)[k - 1 - j] == 0x80 + High(c, j) % 64
  {
    if j > 0 {
      TailAt(c / 64, k - 1, j - 1);
    }
  }

  lemma GroupsAre(c: nat)
    ensures High(c, 0) == c && High(c, 1) == c / 0x40 && High(c, 2) == c / 0x1000
    ensures High(c, 3) == c / 0x4_0000 && High(c, 4) == c / 0x100_0000 && High(c, 5) == c / 0x4000_0000
  {
    hide High;
    HighMeans(c, 0);
    HighStep(c, 0);
    HighStep(c, 1);
    HighStep(c, 2);
    HighStep(c, 3);
    HighStep(c, 4);
    assert c / 0x40 / 64 == c / 0x1000;
    assert c / 0x1000 / 64 == c / 0x4_0000;
    assert c / 0x4_0000 / 64 == c / 0x100_0000;
    assert c / 0x100_0000 / 64 == c / 0x4000_0000;
  }

  // ---------- leading ones ----------

  /** The number of leading one bits of a byte. */
  ghost function Ones(b: nat): nat
    requires b < 256
  {
    if b < 128 then 0 else 1 + Ones(b * 2 - 256)
  }

  lemma {:induction false} OnesMeans(b: nat)
    requires b < 256
    ensures Ones(b) == if b < 0x80 then 0 else if b < 0xC0 then 1 else if b < 0xE0 then 2 else if b < 0xF0 then 3
      else if b < 0xF8 then 4 else if b < 0xFC then 5 else if b < 0xFE then 6 else if b < 0xFF then 7 else 8
  {
    if b >= 128 {
      OnesMeans(b * 2 - 256);
    }
  }

  /** The leading ones of the first byte tell the number of bytes. */
  lemma OnesOfForm(b: nat, n: nat)
    requires b < 256 && 2 <= n <= 6
    ensures Ones(b) == n <==> Prefix(n) <= b < Prefix(n) + Room(n)
    ensures Ones(b) == n ==> b == Prefix(n) + b % Room(n)
  {
    OnesMeans(b);
  }

  // ---------- a sequence has at most one reading ----------

  lemma {:induction false} TailInjective(c: nat, d: nat, k: nat)
    requires High(c, k) == High(d, k) && Tail(c, k) == Tail(d, k)
    ensures c == d
  {
    if k > 0 {
      var s, t := Tail(c, k), Tail(d, k);
      assert s[k - 1] == 0x80 + c % 64 && t[k - 1] == 0x80 + d % 64;
      assert s[..k - 1] == Tail(c / 64, k - 1) && t[..k - 1] == Tail(d / 64, k - 1);
      TailInjective(c / 64, d / 64, k - 1);
    }
  }

  lemma FormInjective(c: nat, d: nat, n: nat)
    requires 2 <= n <= 6 && Form(c, n) == Form(d, n)
    ensures c == d
  {
    assert Form(c, n)[0] == Form(d, n)[0];
    assert Form(c, n)[1..] == Tail(c, n - 1) && Form(d, n)[1..] == Tail(d, n - 1);
    TailInjective(c, d, n - 1);
  }

  /** The bytes of c stand at the beginning of s. */
  ghost predicate StartsWith(s: seq<byte>, c: nat) {
    c < Limit && |Encode(c)| <= |s| && s[..|Encode(c)|] == Encode(c)
  }

  lemma StartFacts(s: seq<byte>, c: nat)
    requires StartsWith(s, c)
    ensures |Encode(c)| == Length(c) >= 1 && s != []
    ensures if c < 0x80 then s[0] == c else
      && Ones(s[0]) == Length(c) && s[0] >= 0x80
      && forall i | 1 <= i < Length(c) :: 0x80 <= s[i] < 0xC0
  {
    EncodeIsBytes(c);
    var n := Length(c);
    assert s[0] == s[..n][0] == Encode(c)[0];
    if c >= 0x80 {
      RoomMeans(c, n);
      OnesOfForm(s[0], n);
      forall i | 1 <= i < n ensures 0x80 <= s[i] < 0xC0 {
        assert s[i] == s[..n][i] == Encode(c)[i] == Tail(c, n - 1)[i - 1];
      }
    }
  }

  /** No two code points can stand at the beginning of the same bytes. */
  lemma StartUnique(s: seq<byte>, c: nat, d: nat)
    requires StartsWith(s, c) && StartsWith(s, d)
    ensures c == d
  {
    StartFacts(s, c);
    StartFacts(s, d);
    if c >= 0x80 {
      FormInjective(c, d, Length(c));
    }
  }

  // ---------- the encoder ----------

  /** limits[n - 1] tests the bits that the first of n bytes has no room for. */
  function LimitBits(n: nat): nat {
    if n == 2 then 32 else if n == 3 then 16 else if n == 4 then 8 else if n == 5 then 4 else 2
  }

  function MaskBits(n: nat): nat {
    if n == 2 then 0xC0 else if n == 3 then 0xE0 else if n == 4 then 0xF0 else if n == 5 then 0xF8 else 0xFC
  }

  lemma HighStep(c: nat, k: nat)
    ensures High(c, k + 1) == High(c, k) / 64
  {
    if k > 0 {
      HighStep(c / 64, k - 1);
    }
  }

  lemma {:induction false} TailStep(c: nat, k: nat)
    ensures Tail(c, k + 1) == [0x80 + High(c, k) % 64] + Tail(c, k)
  {
    if k > 0 {
      TailStep(c / 64, k - 1);
    }
  }

  lemma FirstGroup(c: nat)
    requires c >= 0x80
    ensures Tail(c, 1) == [0x80 + c % 64] && High(c, 1) == c / 64 && Length(c) >= 2
  {
    TailStep(c, 0);
    HighStep(c, 0);
  }

  /** pp_unicode_character, but for the append: the bytes are built up from the last one. */
  method EncodeChar(c: nat) returns (buf: seq<nat>)
    requires c < Limit
    ensures buf == Encode(c)
  {
    var nbytes := 1;
    if c < 0x80 {
      return [c];
    }
    hide Length, High, Tail, Encode, LimitBits, MaskBits;
    buf := [0x80 + c % 64];
    var rest := c / 64;
    nbytes := 2;
    FirstGroup(c);
    while rest >= 0x3F || rest % 256 >= LimitBits(nbytes)
      invariant 2 <= nbytes <= Length(c)
      invariant rest == High(c, nbytes - 1) && buf == Tail(c, nbytes - 1)
      decreases Length(c) - nbytes
    {
      TooHigh(c, nbytes);
      TailStep(c, nbytes - 1);
      HighStep(c, nbytes - 1);
      buf := [0x80 + rest % 64] + buf;
      rest := rest / 64;
      nbytes := nbytes + 1;
    }
    LowEnough(c, nbytes);
    buf := [rest + MaskBits(nbytes)] + buf;
  }

  lemma LowEnough(c: nat, n: nat)
    requires 0x80 <= c < Limit && 2 <= n <= Length(c)
    requires High(c, n - 1) < 0x3F && High(c, n - 1) % 256 < LimitBits(n)
    ensures Encode(c) == [High(c, n - 1) + MaskBits(n)] + Tail(c, n - 1)
  {
    RoomMeans(c, n);
  }

  lemma TooHigh(c: nat, n: nat)
    requires c < Limit && 2 <= n <= Length(c)
    requires High(c, n - 1) >= 0x3F || High(c, n - 1) % 256 >= LimitBits(n)
    ensures n < Length(c)
  {
    RoomMeans(c, n);
  }

  // ---------- the decoder ----------

  /** The loop that counts the leading ones of the first byte. */
  method CountOnes(b: byte) returns (n: nat)
    ensures n == Ones(b)
  {
    n := 0;
    var t: nat := b;
    while t / 128 % 2 == 1
      invariant n + Ones(t % 256) == Ones(b)
      decreases t % 256
    {
      assert (t * 2) % 256 == (t % 256) * 2 - 256;
      t := t * 2;
      n := n + 1;
    }
  }

  function Bound(n: nat): nat {
    if n == 2 then 0x7F else if n == 3 then 0x7FF else if n == 4 then 0xFFFF
    else if n == 5 then 0x1F_FFFF else 0x3FF_FFFF
  }

  function FirstBits(n: nat): nat
    ensures FirstBits(n) > 0
  {
    if n == 2 then 32 else if n == 3 then 16 else if n == 4 then 8 else if n == 5 then 4 else 2
  }

  /** The part of s from the first byte on that has been read as ch. */
  ghost predicate ReadSoFar(s: seq<byte>, n: nat, i: nat, ch: nat)
    requires 1 <= i <= n <= |s|
  {
    High(ch, i - 1) == s[0] % FirstBits(n) && Tail(ch, i - 1) == s[1..i]
  }

  lemma ReadOne(s: seq<byte>, n: nat, i: nat, ch: nat)
    requires 1 <= i < n <= |s| && ReadSoFar(s, n, i, ch) && 0x80 <= s[i] < 0xC0
    ensures ReadSoFar(s, n, i + 1, ch * 64 + s[i] % 64)
  {
    var d := ch * 64 + s[i] % 64;
    assert d / 64 == ch && d % 64 == s[i] % 64;
    assert s[1..i + 1] == s[1..i] + [s[i]];
  }

  /** All n bytes read: they are the n-byte form of ch. */
  lemma ReadAll(s: seq<byte>, n: nat, ch: nat)
    requires 2 <= n <= 6 && n <= |s| && Ones(s[0]) == n && ReadSoFar(s, n, n, ch)
    ensures ch < Limit && s[..n] == Form(ch, n) && Length(ch) <= n
    ensures Length(ch) == n <==> ch > Bound(n)
  {
    OnesOfForm(s[0], n);
    RoomBound(ch, n);
    RoomMeans(ch, n);
    assert s[..n] == [s[0]] + s[1..n];
  }

  /** If some code point stands at the beginning, it is the one that is read. */
  lemma ReadIsStart(s: seq<byte>, n: nat, ch: nat, c: nat)
    requires 2 <= n <= 6 && n <= |s| && Ones(s[0]) == n && s[..n] == Form(ch, n) && s[0] >= 0x80
    requires StartsWith(s, c)
    ensures c == ch && Length(c) == n
  {
    StartFacts(s, c);
    FormInjective(c, ch, n);
  }

  /** Nothing that the decoder should accept stands at the beginning. */
  ghost predicate NoStart(s: seq<byte>) {
    forall c | Scalar(c) :: !StartsWith(s, c)
  }

  lemma BadLength(s: seq<byte>, n: nat)
    requires s != [] && s[0] >= 0x80 && n == Ones(s[0]) && (n > |s| || n < 2 || n > 6)
    ensures NoStart(s)
  {
    forall c | Scalar(c) ensures !StartsWith(s, c) {
      if StartsWith(s, c) {
        StartFacts(s, c);
      }
    }
  }

  lemma BadByte(s: seq<byte>, n: nat, i: nat)
    requires s != [] && s[0] >= 0x80 && n == Ones(s[0]) && 1 <= i < n <= |s| && !(0x80 <= s[i] < 0xC0)
    ensures NoStart(s)
  {
    forall c | Scalar(c) ensures !StartsWith(s, c) {
      if StartsWith(s, c) {
        StartFacts(s, c);
      }
    }
  }

  lemma BadValue(s: seq<byte>, n: nat, ch: nat)
    requires 2 <= n <= 6 && n <= |s| && Ones(s[0]) == n && s[..n] == Form(ch, n) && s[0] >= 0x80
    requires Length(ch) != n || Surrogate(ch)
    ensures NoStart(s)
  {
    forall c | Scalar(c) ensures !StartsWith(s, c) {
      if StartsWith(s, c) {
        ReadIsStart(s, n, ch, c);
      }
    }
  }

  /** decode_utf8_char: accepts exactly the encodings of non-surrogate code points, in their shortest
      form; an encoding is read back with its code point and its length. */
  method DecodeChar(s: seq<byte>) returns (len: nat, value: nat)
    requires s != []
    ensures len > 0 ==> Scalar(value) && StartsWith(s, value) && len == |Encode(value)|
    ensures len == 0 ==> NoStart(s)
  {
    if s[0] < 0x80 {
      return 1, s[0];
    }
    var n := CountOnes(s[0]);
    if n > |s| || n < 2 || n > 6 {
      BadLength(s, n);
      return 0, 0;
    }
    var ch: nat := s[0] % FirstBits(n);
    var i := 1;
    while i < n
      invariant 1 <= i <= n && ReadSoFar(s, n, i, ch)
    {
      var u := s[i];
      if !(0x80 <= u < 0xC0) {
        BadByte(s, n, i);
        return 0, 0;
      }
      ReadOne(s, n, i, ch);
      ch := ch * 64 + u % 64;
      i := i + 1;
    }
    ReadAll(s, n, ch);
    if (ch <= 0x7F && n > 1) || (ch <= 0x7FF && n > 2) || (ch <= 0xFFFF && n > 3)
       || (ch <= 0x1F_FFFF && n > 4) || (ch <= 0x3FF_FFFF && n > 5) || (0xD800 <= ch <= 0xDFFF)
    {
      BadValue(s, n, ch);
      return 0, 0;
    }
    EncodeIsBytes(ch);
    return n, ch;
  }

  /** What the decoder finds, as a function: by the two properties above there is only one answer. */
  ghost function Decode(s: seq<byte>): (r: nat)
    requires !NoStart(s)
    ensures Scalar(r) && StartsWith(s, r)
  {
    var c :| Scalar(c) && StartsWith(s, c);
    c
  }

  /** Decoding the encoding of any code point, whatever follows it, gives it back, unless it is a
      surrogate: then there is nothing to decode. */
  lemma DecodeEncode(c: nat, rest: seq<byte>)
    requires c < Limit
    ensures forall i | 0 <= i < |Encode(c)| :: Encode(c)[i] < 256
    ensures var s: seq<byte> := Encode(c) + rest;
      if 0xD800 <= c <= 0xDFFF then NoStart(s) else !NoStart(s) && Decode(s) == c
  {
    EncodeIsBytes(c);
    var s: seq<byte> := Encode(c) + rest;
    assert s[..|Encode(c)|] == Encode(c);
    assert StartsWith(s, c);
    forall d | Scalar(d) && StartsWith(s, d) ensures d == c {
      StartUnique(s, c, d);
    }
  }
}
