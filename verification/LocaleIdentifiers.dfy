/** identifier_to_locale without character set conversion: an identifier that is not valid printable
    UTF-8 is shown with octal escapes, and otherwise, where the locale is not UTF-8, with universal
    character names. */
module LocaleIdentifiers {
  import opened Utf8
  import opened Quoting

  /** Not a control character. */
  predicate Shown(c: nat) {
    !(c <= 0x1F || 0x7F <= c <= 0x9F)
  }

  /** Code points read one after the other. */
  ghost predicate Text(cs: seq<nat>) {
    forall i | 0 <= i < |cs| :: Scalar(cs[i]) && Shown(cs[i])
  }

  ghost predicate Ascii(cs: seq<nat>) {
    forall i | 0 <= i < |cs| :: cs[i] < 0x80
  }

  ghost function Spell(cs: seq<nat>): seq<byte>
    requires Text(cs)
  {
    if cs == [] then [] else Spell(cs[..|cs| - 1]) + Bytes(cs[|cs| - 1])
  }

  /** The identifier is valid UTF-8 without control characters. */
  ghost predicate ValidPrintable(s: seq<byte>) {
    exists cs :: Text(cs) && Spell(cs) == s
  }

  function HexDigitAt(c: nat, k: nat): byte {
    if k == 0 then HexDigit(c % 16) else HexDigitAt(c / 16, k - 1)
  }

  /** The text "\UHHHHHHHH" of a code point. */
  function Ucn(c: nat): (r: seq<byte>)
    ensures |r| == 10
  {
    [0x5C, 0x55, HexDigitAt(c, 7), HexDigitAt(c, 6), HexDigitAt(c, 5), HexDigitAt(c, 4),
     HexDigitAt(c, 3), HexDigitAt(c, 2), HexDigitAt(c, 1), HexDigitAt(c, 0)]
  }

  lemma {:induction false} DigitPrintable(c: nat, k: nat)
    ensures Printable(HexDigitAt(c, k))
  {
    if k > 0 {
      DigitPrintable(c / 16, k - 1);
    }
  }

  lemma UcnPrintable(c: nat)
    ensures forall i | 0 <= i < 10 :: Printable(Ucn(c)[i])
  {
    DigitPrintable(c, 0);
    DigitPrintable(c, 1);
    DigitPrintable(c, 2);
    DigitPrintable(c, 3);
    DigitPrintable(c, 4);
    DigitPrintable(c, 5);
    DigitPrintable(c, 6);
    DigitPrintable(c, 7);
  }

  /** The value that k + 1 digits stand for. */
  ghost function DigitsValue(s: seq<byte>): nat {
    if s == [] then 0
    else
      var d := s[|s| - 1];
      DigitsValue(s[..|s| - 1]) * 16 + if d < 0x3A && d >= 0x30 then d - 0x30 else if d >= 0x61 then d - 0x61 + 10 else 0
  }

  ghost function Digits(c: nat, k: nat): (s: seq<byte>)
    ensures |s| == k
  {
    if k == 0 then [] else Digits(c / 16, k - 1) + [HexDigit(c % 16)]
  }

  lemma {:induction false} DigitsOf(c: nat, k: nat, i: nat)
    requires i < k
    ensures Digits(c, k)[i] == HexDigitAt(c, k - 1 - i)
  {
    if i < k - 1 {
      DigitsOf(c / 16, k - 1, i);
      DigitUp(c, k - 2 - i);
    }
  }

  lemma DigitUp(c: nat, k: nat)
    ensures HexDigitAt(c, k + 1) == HexDigitAt(c / 16, k)
  {
  }

  ghost function Pow16(k: nat): nat {
    if k == 0 then 1 else 16 * Pow16(k - 1)
  }

  lemma {:induction false} DigitsRead(c: nat, k: nat)
    requires c < Pow16(k)
    ensures DigitsValue(Digits(c, k)) == c
  {
    if k > 0 {
      assert c / 16 < Pow16(k - 1);
      DigitsRead(c / 16, k - 1);
      assert Digits(c, k)[..k - 1] == Digits(c / 16, k - 1);
    }
  }

  /** The eight digits of a universal character name stand for the code point. */
  lemma UcnNames(c: nat)
    requires c < Limit
    ensures DigitsValue(Ucn(c)[2..]) == c
  {
    assert Pow16(8) == 16 * (16 * (16 * (16 * Pow16(4)))) && Pow16(4) == 16 * (16 * (16 * (16 * Pow16(0))));
    DigitsRead(c, 8);
    forall i | 0 <= i < 8 ensures Digits(c, 8)[i] == Ucn(c)[2..][i] {
      DigitsOf(c, 8, i);
    }
    assert Digits(c, 8) == Ucn(c)[2..];
  }

  // ---------- what is shown ----------

  ghost function Octal(s: seq<byte>): seq<byte> {
    if s == [] then []
    else Octal(s[..|s| - 1]) + if Printable(s[|s| - 1]) then [s[|s| - 1]] else OctalEscape(s[|s| - 1])
  }

  ghost function Named(cs: seq<nat>): seq<byte>
    requires Text(cs)
  {
    if cs == [] then []
    else
      var c := cs[|cs| - 1];
      Named(cs[..|cs| - 1]) + if c < 0x80 then Bytes(c) else Ucn(c)
  }

  ghost predicate AllPrintable(s: seq<byte>) {
    forall i | 0 <= i < |s| :: Printable(s[i])
  }

  /** With octal escapes, only printable ASCII is left, and at most four bytes for each. */
  lemma {:induction false} OctalShown(s: seq<byte>)
    ensures AllPrintable(Octal(s)) && |Octal(s)| <= 4 * |s|
  {
    if s != [] {
      OctalShown(s[..|s| - 1]);
    }
  }

  /** With universal character names likewise, and at most ten bytes for each. */
  lemma {:induction false} NamedShown(cs: seq<nat>)
    requires Text(cs)
    ensures AllPrintable(Named(cs)) && |Named(cs)| <= 10 * |Spell(cs)|
  {
    if cs != [] {
      var c := cs[|cs| - 1];
      NamedShown(cs[..|cs| - 1]);
      UcnPrintable(c);
    }
  }

  // ---------- reading it back ----------

  /** The three octal digits stand for the byte. */
  lemma OctalNames(b: byte)
    ensures var r := OctalEscape(b);
      && r[0] == 0x5C && (forall i | 1 <= i < 4 :: 0x30 <= r[i] < 0x38)
      && 64 * (r[1] - 0x30) + 8 * (r[2] - 0x30) + (r[3] - 0x30) == b
  {
  }

  lemma {:induction false} OctalConcat(a: seq<byte>, b: seq<byte>)
    ensures Octal(a + b) == Octal(a) + Octal(b)
  {
    if b == [] {
      assert a + b == a;
    } else {
      assert (a + b)[..|a + b| - 1] == a + b[..|b| - 1];
      OctalConcat(a, b[..|b| - 1]);
    }
  }

  function OctalDigit(b: byte): nat {
    if 0x30 <= b < 0x38 then b - 0x30 else 0
  }

  /** The text with every "\OOO" replaced by the byte that it stands for. */
  ghost function OctalRead(t: seq<byte>): seq<byte> {
    if t == [] then []
    else if t[0] == 0x5C && |t| >= 4 then
      [(64 * OctalDigit(t[1]) + 8 * OctalDigit(t[2]) + OctalDigit(t[3])) % 256] + OctalRead(t[4..])
    else [t[0]] + OctalRead(t[1..])
  }

  lemma OctalReadOne(b: byte, rest: seq<byte>)
    requires b != 0x5C
    ensures OctalRead((if Printable(b) then [b] else OctalEscape(b)) + rest) == [b] + OctalRead(rest)
  {
    if Printable(b) {
      assert ([b] + rest)[1..] == rest;
    } else {
      OctalNames(b);
      assert (OctalEscape(b) + rest)[4..] == rest;
    }
  }

  /** From the octal form the identifier can be read back, if it has no backslash. */
  lemma {:induction false} OctalReadsBack(s: seq<byte>)
    requires 0x5C !in s
    ensures OctalRead(Octal(s)) == s
  {
    if s != [] {
      var b, rest := s[0], s[1..];
      OctalReadsBack(rest);
      OctalConcat([b], rest);
      assert s == [b] + rest && [b][..0] == [];
      var first := if Printable(b) then [b] else OctalEscape(b);
      assert Octal([b]) == Octal([b][..0]) + first;
      assert Octal(s) == first + Octal(rest);
      OctalReadOne(b, Octal(rest));
    }
  }

  /** With a backslash it cannot: an identifier may say what the escape of another one says. */
  lemma OctalAmbiguous()
    ensures Octal([0xE9]) == Octal([0x5C, 0x33, 0x35, 0x31])
  {
    var s: seq<byte> := [0x5C, 0x33, 0x35, 0x31];
    assert s[..3] == [0x5C, 0x33, 0x35] && s[..3][..2] == [0x5C, 0x33] && s[..3][..2][..1] == [0x5C];
    assert s[..3][..2][..1][..0] == [] && [0xE9][..0] == [];
    assert Octal(s[..3][..2][..1]) == [0x5C] && Octal(s[..3][..2]) == [0x5C, 0x33] && Octal(s[..3]) == [0x5C, 0x33, 0x35];
  }

  lemma {:induction false} NamedConcat(a: seq<nat>, b: seq<nat>)
    requires Text(a) && Text(b)
    ensures Text(a + b) && Named(a + b) == Named(a) + Named(b)
  {
    if b == [] {
      assert a + b == a;
    } else {
      assert (a + b)[..|a + b| - 1] == a + b[..|b| - 1];
      NamedConcat(a, b[..|b| - 1]);
    }
  }

  /** The characters of a text in which "\UHHHHHHHH" stands for one. */
  ghost function NamesRead(t: seq<byte>): seq<nat> {
    if t == [] then []
    else if t[0] == 0x5C && |t| >= 10 then [DigitsValue(t[2..10])] + NamesRead(t[10..])
    else [t[0]] + NamesRead(t[1..])
  }

  /** From the form with universal character names the characters can be read back, if none is a
      backslash. */
  lemma {:induction false} NamedReadsBack(cs: seq<nat>)
    requires Text(cs) && 0x5C !in cs
    ensures NamesRead(Named(cs)) == cs
  {
    if cs != [] {
      var c, rest := cs[0], cs[1..];
      NamedReadsBack(rest);
      NamedConcat([c], rest);
      assert cs == [c] + rest && [c][..0] == [];
      var first := if c < 0x80 then [c] else Ucn(c);
      assert Named([c]) == Named([c][..0]) + first;
      assert Named(cs) == first + Named(rest) && (first + Named(rest))[|first|..] == Named(rest);
      if c >= 0x80 {
        UcnNames(c);
        assert (first + Named(rest))[2..10] == Ucn(c)[2..];
      }
    }
  }

  // ---------- reading an identifier ----------

  /** The code points cs have been read, up to position i. */
  ghost predicate ReadTo(s: seq<byte>, i: nat, cs: seq<nat>)
    requires i <= |s|
  {
    Text(cs) && Spell(cs) == s[..i]
  }

  lemma ReadMore(s: seq<byte>, i: nat, cs: seq<nat>, c: nat)
    requires i < |s| && ReadTo(s, i, cs) && Scalar(c) && Shown(c) && StartsWith(s[i..], c)
    ensures i + |Encode(c)| <= |s| && ReadTo(s, i + |Encode(c)|, cs + [c])
  {
    var ds, n := cs + [c], |Encode(c)|;
    assert ds[..|ds| - 1] == cs;
    assert s[..i + n] == s[..i] + s[i..][..n];
  }

  lemma {:induction false} SpellConcat(a: seq<nat>, b: seq<nat>)
    requires Text(a) && Text(b)
    ensures Text(a + b) && Spell(a + b) == Spell(a) + Spell(b)
  {
    if b == [] {
      assert a + b == a;
    } else {
      assert (a + b)[..|a + b| - 1] == a + b[..|b| - 1];
      SpellConcat(a, b[..|b| - 1]);
    }
  }

  /** A text that goes on after position i goes on with the code point that stands there. */
  lemma {:induction false} OnlyReading(s: seq<byte>, i: nat, cs: seq<nat>, ds: seq<nat>)
    requires i < |s| && ReadTo(s, i, cs) && Text(ds) && Spell(ds) == s
    ensures |cs| < |ds| && ds[..|cs|] == cs && StartsWith(s[i..], ds[|cs|])
    decreases |cs|
  {
    if cs == [] {
      FirstOf(ds);
      assert s[i..] == s;
    } else {
      var rest, c := cs[..|cs| - 1], cs[|cs| - 1];
      var j := |Spell(rest)|;
      assert s[..j] == s[..i][..j] == Spell(rest);
      OnlyReading(s, j, rest, ds);
      var d := ds[|cs| - 1];
      assert s[j..i] == Bytes(c);
      assert s[j..][..|Encode(c)|] == s[j..i];
      StartUnique(s[j..], c, d);
      assert ds[..|cs|] == rest + [c] == cs;
      SpellConcat(cs, ds[|cs|..]);
      assert ds == cs + ds[|cs|..];
      assert s[i..] == Spell(ds[|cs|..]);
      FirstOf(ds[|cs|..]);
    }
  }

  lemma {:induction false} FirstOf(ds: seq<nat>)
    requires Text(ds) && Spell(ds) != []
    ensures ds != [] && StartsWith(Spell(ds), ds[0])
  {
    if |ds| == 1 {
      assert ds[..0] == [];
      assert Spell(ds) == Bytes(ds[0]);
    } else {
      SpellConcat(ds[..1], ds[1..]);
      assert ds == ds[..1] + ds[1..];
      assert ds[..1][..0] == [];
      assert Spell(ds[..1]) == Bytes(ds[0]);
    }
  }

  /** Where the next code point is missing or is a control character, there is no valid reading. */
  lemma NotPrintable(s: seq<byte>, i: nat, cs: seq<nat>)
    requires i < |s| && ReadTo(s, i, cs)
    requires forall c | Scalar(c) && Shown(c) :: !StartsWith(s[i..], c)
    ensures !ValidPrintable(s)
  {
    forall ds | Text(ds) ensures Spell(ds) != s {
      if Spell(ds) == s {
        OnlyReading(s, i, cs, ds);
      }
    }
  }

  /** The first loop of identifier_to_locale. */
  method Inspect(s: seq<byte>) returns (valid: bool, allAscii: bool, ghost cs: seq<nat>)
    ensures valid <==> ValidPrintable(s)
    ensures valid ==> Text(cs) && Spell(cs) == s && (allAscii <==> Ascii(cs))
  {
    var i := 0;
    valid, allAscii, cs := true, true, [];
    while i < |s|
      invariant i <= |s| && ReadTo(s, i, cs) && valid
      invariant allAscii <==> Ascii(cs)
    {
      var len, c := DecodeChar(s[i..]);
      if len == 0 || c <= 0x1F || 0x7F <= c <= 0x9F {
        if len > 0 {
          forall d | Scalar(d) && Shown(d) ensures !StartsWith(s[i..], d) {
            if StartsWith(s[i..], d) {
              StartUnique(s[i..], c, d);
            }
          }
        }
        NotPrintable(s, i, cs);
        valid := false;
        return;
      }
      ReadMore(s, i, cs, c);
      if len > 1 {
        allAscii := false;
      }
      LengthIsOne(c);
      cs := cs + [c];
      i := i + len;
    }
    assert s[..i] == s;
  }

  lemma LengthIsOne(c: nat)
    requires c < Limit
    ensures |Encode(c)| == 1 <==> c < 0x80
  {
    EncodeIsBytes(c);
  }

  lemma BytesStart(c: nat)
    requires Scalar(c)
    ensures StartsWith(Bytes(c), c)
  {
    assert Bytes(c)[..|Encode(c)|] == Encode(c);
  }

  lemma OneShown(c: nat)
    requires Scalar(c) && Shown(c)
    ensures ValidPrintable(Bytes(c))
  {
    hide Bytes;
    assert [c][..0] == [] && Spell([c]) == Spell([c][..0]) + Bytes(c);
    assert Text([c]) && Spell([c]) == Bytes(c);
  }

  lemma OneControl(c: nat)
    requires Scalar(c) && !Shown(c)
    ensures !ValidPrintable(Bytes(c))
  {
    BytesStart(c);
    hide Bytes, StartsWith, Scalar;
    var s := Bytes(c);
    assert s[0..] == s && s[..0] == [];
    forall d | Scalar(d) && Shown(d) ensures !StartsWith(s[0..], d) {
      if StartsWith(s, d) {
        StartUnique(s, c, d);
      }
    }
    NotPrintable(s, 0, []);
  }

  /** A single character is valid unless it is a control character. */
  lemma OneCharacter(c: nat)
    requires Scalar(c)
    ensures ValidPrintable(Bytes(c)) <==> !(c <= 0x1F || 0x7F <= c <= 0x9F)
  {
    hide Bytes, ValidPrintable, Scalar;
    if Shown(c) {
      OneShown(c);
    } else {
      OneControl(c);
    }
  }

  /** The octal branch, with room for 4n + 1 bytes. */
  method ToOctal(s: seq<byte>) returns (ret: seq<byte>)
    ensures ret == Octal(s) && |ret| <= 4 * |s|
  {
    ret := [];
    var i := 0;
    while i < |s|
      invariant i <= |s| && ret == Octal(s[..i]) && |ret| <= 4 * i
    {
      assert s[..i + 1][..i] == s[..i];
      if 0x1F < s[i] < 0x7F {
        ret := ret + [s[i]];
      } else {
        ret := ret + OctalEscape(s[i]);
      }
      i := i + 1;
    }
    assert s[..i] == s;
  }

  lemma DoneAll(s: seq<byte>, done: seq<nat>, cs: seq<nat>)
    requires Text(cs) && Spell(cs) == s && ReadTo(s, |s|, done) && |done| <= |cs| && cs[..|done|] == done
    ensures done == cs
  {
    assert cs == done + cs[|done|..] && s[..|s|] == s;
    SpellConcat(done, cs[|done|..]);
    assert Spell(cs[|done|..]) == [];
    assert cs[|done|..] == [];
  }

  lemma NameOne(s: seq<byte>, i: nat, done: seq<nat>, cs: seq<nat>, c: nat)
    requires i < |s| && ReadTo(s, i, done) && Text(cs) && Spell(cs) == s
    requires |done| <= |cs| && cs[..|done|] == done && Scalar(c) && StartsWith(s[i..], c)
    ensures |done| < |cs| && cs[..|done| + 1] == done + [c]
    ensures i + |Encode(c)| <= |s| && ReadTo(s, i + |Encode(c)|, done + [c])
    ensures Named(done + [c]) == Named(done) + (if c < 0x80 then [s[i]] else Ucn(c))
    ensures c < 0x80 <==> |Encode(c)| == 1
  {
    hide Spell;
    OnlyReading(s, i, done, cs);
    StartUnique(s[i..], c, cs[|done|]);
    LengthIsOne(c);
    StartFacts(s[i..], c);
    ReadMore(s, i, done, c);
    var done' := done + [c];
    assert done'[..|done'| - 1] == done;
  }

  /** The last branch, with room for 10n + 1 bytes: non-ASCII characters are named. */
  method ToUcns(s: seq<byte>, ghost cs: seq<nat>) returns (ret: seq<byte>)
    requires Text(cs) && Spell(cs) == s
    ensures ret == Named(cs) && |ret| <= 10 * |s|
  {
    hide Named, Spell;
    ret := [];
    var i := 0;
    ghost var done: seq<nat> := [];
    NothingNamed();
    while i < |s|
      invariant i <= |s| && ReadTo(s, i, done) && |done| <= |cs| && cs[..|done|] == done
      invariant ret == Named(done) && |ret| <= 10 * i
    {
      NotEnd(s, i, done, cs);
      var len, c := DecodeChar(s[i..]);
      NameOne(s, i, done, cs, c);
      if len == 1 {
        ret := ret + [s[i]];
      } else {
        ret := ret + Ucn(c);
      }
      done := done + [c];
      i := i + len;
    }
    DoneAll(s, done, cs);
  }

  lemma NothingNamed()
    ensures Named([]) == [] && Spell([]) == []
  {
  }

  lemma NotEnd(s: seq<byte>, i: nat, done: seq<nat>, cs: seq<nat>)
    requires i < |s| && ReadTo(s, i, done) && Text(cs) && Spell(cs) == s
    ensures !NoStart(s[i..])
  {
    OnlyReading(s, i, done, cs);
  }

  /** identifier_to_locale where no conversion by iconv is available. */
  method IdentifierToLocale(ident: seq<byte>, localeUtf8: bool) returns (r: seq<byte>)
    ensures !ValidPrintable(ident) ==> r == Octal(ident)
    ensures ValidPrintable(ident) ==>
      exists cs :: Text(cs) && Spell(cs) == ident && r == (if localeUtf8 || Ascii(cs) then ident else Named(cs))
    ensures !localeUtf8 || !ValidPrintable(ident) ==> AllPrintable(r) && |r| <= 10 * |ident|
  {
    var valid, allAscii;
    ghost var cs;
    valid, allAscii, cs := Inspect(ident);
    if !valid {
      OctalShown(ident);
      r := ToOctal(ident);
      return;
    }
    NamedShown(cs);
    if allAscii || localeUtf8 {
      r := ident;
      AsciiNamed(cs);
      return;
    }
    r := ToUcns(ident, cs);
  }

  lemma {:induction false} AsciiNamed(cs: seq<nat>)
    requires Text(cs)
    ensures Ascii(cs) ==> Named(cs) == Spell(cs)
  {
    if cs != [] {
      AsciiNamed(cs[..|cs| - 1]);
    }
  }
}
