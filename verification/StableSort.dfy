/** The order in which constructors and destructors are put: by priority, descending, and otherwise
    as they were. */
module StableSort {

  const DefaultInitPriority := 65535

  predicate IsDigit(c: char) {
    '0' <= c <= '9'
  }

  predicate IsSpace(c: char) {
    c == ' ' || '\t' <= c <= '\r'
  }

  /** The number that decimal digits at the front of s spell, continuing from v. */
  function Digits(s: string, v: nat): nat {
    if s == "" || !IsDigit(s[0]) then v else Digits(s[1..], 10 * v + (s[0] as nat - '0' as nat))
  }

  function SkipSpaces(s: string): string {
    if s != "" && IsSpace(s[0]) then SkipSpaces(s[1..]) else s
  }

  /** atoi, for numbers that an int can hold. */
  function Atoi(s: string): int {
    var t := SkipSpaces(s);
    if t == "" then 0
    else if t[0] == '-' then (var n: int := Digits(t[1..], 0); -n)
    else if t[0] == '+' then Digits(t[1..], 0)
    else Digits(t, 0)
  }

  function Underscores(name: string): (n: nat)
    ensures n <= |name| && (forall i | 0 <= i < n :: name[i] == '_') && (n < |name| ==> name[n] != '_')
  {
    if name == "" || name[0] != '_' then 0 else 1 + Underscores(name[1..])
  }

  /** What stands after the marker of a constructor or destructor, which is ten characters long. */
  function AfterMarker(name: string): string {
    var n := Underscores(name) + 10;
    if n <= |name| then name[n..] else ""
  }

  function Priority(name: string): int {
    var pri := Atoi(AfterMarker(name));
    if pri != 0 then pri else DefaultInitPriority
  }

  lemma {:induction false} SomeUnderscores(us: string, rest: string)
    requires (forall i | 0 <= i < |us| :: us[i] == '_') && (rest == "" || rest[0] != '_')
    ensures Underscores(us + rest) == |us|
  {
    if us == "" {
      assert us + rest == rest;
    } else {
      assert (us + rest)[1..] == us[1..] + rest;
      SomeUnderscores(us[1..], rest);
    }
  }

  /** The number that digits alone spell. */
  function Value(ds: string): nat {
    if ds == "" then 0 else 10 * Value(ds[..|ds| - 1]) + if ds[|ds| - 1] >= '0' then ds[|ds| - 1] as nat - '0' as nat else 0
  }

  lemma {:induction false} DigitsValue(done: string, ds: string, rest: string)
    requires (forall i | 0 <= i < |ds| :: IsDigit(ds[i])) && (rest == "" || !IsDigit(rest[0]))
    ensures Digits(ds + rest, Value(done)) == Value(done + ds)
    decreases |ds|
  {
    if ds == "" {
      assert ds + rest == rest && done + ds == done;
    } else {
      var d := ds[..1];
      assert (ds + rest)[1..] == ds[1..] + rest && done + ds == (done + d) + ds[1..];
      assert (done + d)[..|done|] == done;
      DigitsValue(done + d, ds[1..], rest);
    }
  }

  /** A priority that is written after the marker is read back; 0 stands for the default. */
  lemma PriorityRead(us: string, marker: string, ds: string, rest: string)
    requires (forall i | 0 <= i < |us| :: us[i] == '_') && |marker| == 10 && marker[0] != '_'
    requires ds != "" && (forall i | 0 <= i < |ds| :: IsDigit(ds[i])) && (rest == "" || !IsDigit(rest[0]))
    ensures Priority(us + marker + (ds + rest)) == if Value(ds) != 0 then Value(ds) else DefaultInitPriority
  {
    hide Priority, Value;
    assert NumberText("", "", ds, rest);
    PriorityOf(us, marker, "", "", ds, rest);
    assert "" + ("" + (ds + rest)) == ds + rest;
  }

  lemma MarkerSkipped(us: string, marker: string, rest: string)
    requires (forall i | 0 <= i < |us| :: us[i] == '_') && |marker| == 10 && marker[0] != '_'
    ensures AfterMarker(us + marker + rest) == rest
  {
    assert us + marker + rest == us + (marker + rest);
    SomeUnderscores(us, marker + rest);
  }

  lemma {:induction false} SpacesSkipped(sp: string, t: string)
    requires (forall i | 0 <= i < |sp| :: IsSpace(sp[i])) && (t == "" || !IsSpace(t[0]))
    ensures SkipSpaces(sp + t) == t
  {
    if sp == "" {
      assert sp + t == t;
    } else {
      assert (sp + t)[1..] == sp[1..] + t;
      SpacesSkipped(sp[1..], t);
    }
  }

  /** White space, a sign or none, digits or none, and something else. */
  predicate NumberText(sp: string, sg: string, ds: string, rest: string) {
    && (forall i | 0 <= i < |sp| :: sp[i] == ' ' || '\t' <= sp[i] <= '\r') && (sg == "" || sg == "-" || sg == "+")
    && (forall i | 0 <= i < |ds| :: '0' <= ds[i] <= '9') && (rest == "" || !('0' <= rest[0] <= '9'))
    && (sg == "" && ds == "" && rest != "" ==> rest[0] != ' ' && !('\t' <= rest[0] <= '\r') && rest[0] != '-' && rest[0] != '+')
  }

  function Signed(sg: string, v: nat): int {
    if sg == "-" then -(v as int) else v
  }

  lemma AtoiRead(sp: string, sg: string, ds: string, rest: string)
    requires NumberText(sp, sg, ds, rest)
    ensures Atoi(sp + (sg + (ds + rest))) == Signed(sg, Value(ds))
  {
    TextStart(sp, sg, ds, rest);
    SpacesSkipped(sp, sg + (ds + rest));
    DigitsValue("", ds, rest);
    assert "" + ds == ds;
    hide NumberText, SkipSpaces, Digits, Value;
    var t := sg + (ds + rest);
    if sg != "" {
      assert t[0] == sg[0] && t[1..] == ds + rest;
    } else {
      assert t == ds + rest;
      if t == "" {
        assert ds == "";
        NoValue();
      }
    }
  }

  lemma NoValue()
    ensures Value("") == 0
  {
  }

  lemma TextStart(sp: string, sg: string, ds: string, rest: string)
    requires NumberText(sp, sg, ds, rest)
    ensures var t := sg + (ds + rest);
      && (t == "" || !IsSpace(t[0])) && (sg == "" && t != "" ==> t[0] != '-' && t[0] != '+')
    ensures (forall i | 0 <= i < |sp| :: IsSpace(sp[i])) && (forall i | 0 <= i < |ds| :: IsDigit(ds[i]))
    ensures (rest == "" || !IsDigit(rest[0])) && (sg == "" || sg == "-" || sg == "+")
  {
    var t := sg + (ds + rest);
    assert t == "" || t[0] == (if sg != "" then sg[0] else if ds != "" then ds[0] else rest[0]);
  }

  lemma {:induction false} LeadingSpaces(s: string) returns (sp: string, t: string)
    ensures s == sp + t && (forall i | 0 <= i < |sp| :: IsSpace(sp[i])) && (t == "" || !IsSpace(t[0]))
  {
    if s == "" || !IsSpace(s[0]) {
      sp, t := "", s;
    } else {
      var more;
      more, t := LeadingSpaces(s[1..]);
      sp := s[..1] + more;
    }
  }

  lemma {:induction false} LeadingDigits(s: string) returns (ds: string, rest: string)
    ensures s == ds + rest && (forall i | 0 <= i < |ds| :: IsDigit(ds[i])) && (rest == "" || !IsDigit(rest[0]))
  {
    if s == "" || !IsDigit(s[0]) {
      ds, rest := "", s;
    } else {
      var more;
      more, rest := LeadingDigits(s[1..]);
      ds := s[..1] + more;
    }
  }

  /** Every text is of that form, so that these are all the numbers there are. */
  lemma NumberParts(s: string) returns (sp: string, sg: string, ds: string, rest: string)
    ensures s == sp + (sg + (ds + rest)) && NumberText(sp, sg, ds, rest)
  {
    var t;
    sp, t := LeadingSpaces(s);
    sg := if t != "" && (t[0] == '-' || t[0] == '+') then t[..1] else "";
    ds, rest := LeadingDigits(t[|sg|..]);
    assert t == sg + t[|sg|..] && (sg == "" || sg == [t[0]]);
    assert sg == "" && ds == "" ==> rest == t;
  }

  /** The priority of any name whose marker is followed by something: the number that stands there,
      and the default if that is 0 or if there is none. */
  lemma PriorityOf(us: string, marker: string, sp: string, sg: string, ds: string, rest: string)
    requires (forall i | 0 <= i < |us| :: us[i] == '_') && |marker| == 10 && marker[0] != '_'
    requires NumberText(sp, sg, ds, rest)
    ensures Priority(us + marker + (sp + (sg + (ds + rest))))
      == if Value(ds) != 0 then Signed(sg, Value(ds)) else DefaultInitPriority
  {
    hide AfterMarker, Atoi;
    MarkerSkipped(us, marker, sp + (sg + (ds + rest)));
    AtoiRead(sp, sg, ds, rest);
  }

  lemma TooShort(us: string, marker: string)
    requires (forall i | 0 <= i < |us| :: us[i] == '_') && |marker| < 10 && (marker == "" || marker[0] != '_')
    ensures Priority(us + marker) == DefaultInitPriority
  {
    SomeUnderscores(us, marker);
  }

  /** Without a number after the marker, or without anything there, a name has the default priority. */
  lemma NoPriority(us: string, marker: string, sp: string, rest: string)
    requires (forall i | 0 <= i < |us| :: us[i] == '_') && |marker| <= 10 && (marker == "" || marker[0] != '_')
    requires forall i | 0 <= i < |sp| :: IsSpace(sp[i])
    requires |marker| < 10 ==> sp + rest == ""
    requires rest != "" ==> !IsDigit(rest[0]) && !IsSpace(rest[0]) && rest[0] != '-' && rest[0] != '+'
    ensures Priority(us + marker + (sp + rest)) == 65535
  {
    hide Atoi, AfterMarker, Underscores;
    if |marker| == 10 {
      PriorityOf(us, marker, sp, "", "", rest);
      NoValue();
      assert sp + ("" + ("" + rest)) == sp + rest;
    } else {
      assert us + marker + (sp + rest) == us + marker;
      TooShort(us, marker);
    }
  }

  /** A number in decimal. */
  function Decimal(n: nat): (s: string)
    ensures s != "" && forall i | 0 <= i < |s| :: IsDigit(s[i])
  {
    (if n < 10 then "" else Decimal(n / 10)) + [('0' as nat + n % 10) as char]
  }

  lemma {:induction false} ValueOfDecimal(n: nat)
    ensures Value(Decimal(n)) == n
  {
    var s := Decimal(n);
    if n < 10 {
      assert s[..|s| - 1] == "";
    } else {
      assert s[..|s| - 1] == Decimal(n / 10);
      ValueOfDecimal(n / 10);
    }
  }

  /** The loop over the underscores, and what follows. */
  method ExtractInitPriority(name: string) returns (pri: int)
    ensures pri == Priority(name)
  {
    var pos := 0;
    while pos < |name| && name[pos] == '_'
      invariant pos <= |name| && Underscores(name) == pos + Underscores(name[pos..])
    {
      pos := pos + 1;
      assert name[pos - 1..][1..] == name[pos..];
    }
    pos := pos + 10;
    pri := Atoi(if pos <= |name| then name[pos..] else "");
    if pri == 0 {
      pri := DefaultInitPriority;
    }
  }

  // ---------- sorting ----------

  ghost function Insert(x: string, s: seq<string>): seq<string> {
    if s == [] || Priority(x) > Priority(s[0]) then [x] + s else [s[0]] + Insert(x, s[1..])
  }

  ghost function SortInto(done: seq<string>, rest: seq<string>): seq<string>
    decreases |rest|
  {
    if rest == [] then done else SortInto(Insert(rest[0], done), rest[1..])
  }

  ghost function Sorted(s: seq<string>): seq<string> {
    SortInto([], s)
  }

  ghost predicate Descending(s: seq<string>) {
    forall i, j | 0 <= i < j < |s| :: Priority(s[i]) >= Priority(s[j])
  }

  /** The names of one priority, in order. */
  ghost function WithPriority(s: seq<string>, p: int): seq<string> {
    if s == [] then []
    else (if Priority(s[0]) == p then [s[0]] else []) + WithPriority(s[1..], p)
  }

  /** Where the insertion loop stops is where the name belongs. */
  lemma {:induction false} InsertAt(x: string, s: seq<string>, j: nat)
    requires j <= |s| && (forall i | 0 <= i < j :: Priority(x) <= Priority(s[i]))
    requires j < |s| ==> Priority(x) > Priority(s[j])
    ensures Insert(x, s) == s[..j] + [x] + s[j..]
  {
    if j > 0 {
      InsertAt(x, s[1..], j - 1);
      Shifted(s, x, j);
    }
  }

  lemma Shifted(s: seq<string>, x: string, j: nat)
    requires 0 < j <= |s|
    ensures [s[0]] + (s[1..][..j - 1] + [x] + s[1..][j - 1..]) == s[..j] + [x] + s[j..]
  {
    assert s[..j] == [s[0]] + s[1..][..j - 1] && s[j..] == s[1..][j - 1..];
  }

  lemma WithCons(x: string, s: seq<string>, p: int)
    ensures WithPriority([x] + s, p) == (if Priority(x) == p then [x] else []) + WithPriority(s, p)
  {
    assert ([x] + s)[1..] == s;
  }

  lemma {:induction false} InsertMembers(x: string, s: seq<string>)
    ensures multiset(Insert(x, s)) == multiset(s) + multiset{x}
  {
    if !(s == [] || Priority(x) > Priority(s[0])) {
      InsertMembers(x, s[1..]);
      assert s == [s[0]] + s[1..];
    }
  }

  lemma {:induction false} InsertDescending(x: string, s: seq<string>)
    requires Descending(s)
    ensures Descending(Insert(x, s))
  {
    if !(s == [] || Priority(x) > Priority(s[0])) {
      var u := Insert(x, s[1..]);
      InsertDescending(x, s[1..]);
      forall j | 0 <= j < |u| ensures Priority(s[0]) >= Priority(u[j]) {
        InsertedFrom(x, s[1..], j);
      }
    }
  }

  lemma InsertedFrom(x: string, s: seq<string>, j: nat)
    requires j < |Insert(x, s)|
    ensures Insert(x, s)[j] == x || Insert(x, s)[j] in s
  {
    InsertMembers(x, s);
    assert Insert(x, s)[j] in multiset(Insert(x, s));
  }

  lemma {:induction false} InsertWith(x: string, s: seq<string>, p: int)
    requires Descending(s)
    ensures WithPriority(Insert(x, s), p) == WithPriority(s, p) + if Priority(x) == p then [x] else []
  {
    if s == [] || Priority(x) > Priority(s[0]) {
      WithCons(x, s, p);
      if Priority(x) == p {
        NoneWith(s, p);
      }
    } else {
      InsertWith(x, s[1..], p);
      WithCons(s[0], Insert(x, s[1..]), p);
    }
  }

  lemma {:induction false} NoneWith(s: seq<string>, p: int)
    requires forall y | y in s :: Priority(y) != p
    ensures WithPriority(s, p) == []
  {
    if s != [] {
      assert s[0] in s;
      NoneWith(s[1..], p);
    }
  }

  lemma {:induction false} SortIntoKeeps(done: seq<string>, rest: seq<string>)
    requires Descending(done)
    ensures Descending(SortInto(done, rest)) && multiset(SortInto(done, rest)) == multiset(done) + multiset(rest)
    decreases |rest|
  {
    if rest != [] {
      InsertDescending(rest[0], done);
      InsertMembers(rest[0], done);
      SortIntoKeeps(Insert(rest[0], done), rest[1..]);
      assert rest == [rest[0]] + rest[1..];
    }
  }

  lemma {:induction false} SortIntoWith(done: seq<string>, rest: seq<string>, p: int)
    requires Descending(done)
    ensures WithPriority(SortInto(done, rest), p) == WithPriority(done, p) + WithPriority(rest, p)
    decreases |rest|
  {
    if rest != [] {
      InsertDescending(rest[0], done);
      InsertWith(rest[0], done, p);
      SortIntoWith(Insert(rest[0], done), rest[1..], p);
      hide Descending, WithPriority, Insert;
      WithHead(rest, p);
      Associative(WithPriority(done, p), if Priority(rest[0]) == p then [rest[0]] else [], WithPriority(rest[1..], p));
    }
  }

  lemma WithHead(s: seq<string>, p: int)
    requires s != []
    ensures WithPriority(s, p) == (if Priority(s[0]) == p then [s[0]] else []) + WithPriority(s[1..], p)
  {
  }

  lemma Associative(a: seq<string>, b: seq<string>, c: seq<string>)
    ensures (a + b) + c == a + (b + c)
  {
  }

  /** The result is a permutation in descending order, and names of equal priority keep their order. */
  lemma SortIsStable(s: seq<string>)
    ensures Descending(Sorted(s)) && multiset(Sorted(s)) == multiset(s)
    ensures forall p :: WithPriority(Sorted(s), p) == WithPriority(s, p)
  {
    SortIntoKeeps([], s);
    forall p ensures WithPriority(Sorted(s), p) == WithPriority(s, p) {
      SortIntoWith([], s, p);
    }
  }

  /** Descending sequences with the same names of every priority. */
  ghost predicate SameByPriority(a: seq<string>, b: seq<string>) {
    Descending(a) && Descending(b) && forall p :: WithPriority(a, p) == WithPriority(b, p)
  }

  /** There is only one such order. */
  lemma {:induction false} StableIsUnique(a: seq<string>, b: seq<string>)
    requires SameByPriority(a, b)
    ensures a == b
    decreases |a|
  {
    if a == [] {
      NothingElse(a, b);
    } else if b == [] {
      NothingElse(b, a);
    } else {
      FirstIsHighest(a, b);
      FirstIsHighest(b, a);
      var p := Priority(a[0]);
      assert WithPriority(a, p)[0] == a[0] && WithPriority(b, p)[0] == b[0];
      forall q ensures WithPriority(a[1..], q) == WithPriority(b[1..], q) {
        RestWith(a, b, q);
      }
      StableIsUnique(a[1..], b[1..]);
    }
  }

  lemma RestWith(a: seq<string>, b: seq<string>, q: int)
    requires a != [] && b != [] && a[0] == b[0] && WithPriority(a, q) == WithPriority(b, q)
    ensures WithPriority(a[1..], q) == WithPriority(b[1..], q)
  {
    assert WithPriority(a, q)[if Priority(a[0]) == q then 1 else 0..] == WithPriority(a[1..], q);
    assert WithPriority(b, q)[if Priority(b[0]) == q then 1 else 0..] == WithPriority(b[1..], q);
  }

  lemma NothingElse(a: seq<string>, b: seq<string>)
    requires SameByPriority(a, b) && a == []
    ensures b == []
  {
    var p := if b == [] then 0 else Priority(b[0]);
    assert WithPriority(a, p) == WithPriority(b, p);
  }

  lemma FirstIsHighest(a: seq<string>, b: seq<string>)
    requires a != [] && b != [] && SameByPriority(a, b)
    ensures Priority(a[0]) <= Priority(b[0])
  {
    var p := Priority(a[0]);
    assert WithPriority(a, p) == WithPriority(b, p);
    if p > Priority(b[0]) {
      NoneWith(b, p);
    }
  }

  // ---------- constructors and destructors in pairs ----------

  /** x and y stand at one place of c and d. */
  ghost predicate PairIn(x: string, y: string, c: seq<string>, d: seq<string>) {
    exists i :: 0 <= i < |c| && i < |d| && c[i] == x && d[i] == y
  }

  /** Place by place, a and b hold pairs of c and d. */
  ghost predicate Paired(a: seq<string>, b: seq<string>, c: seq<string>, d: seq<string>) {
    |a| == |b| && forall k | 0 <= k < |a| :: PairIn(a[k], b[k], c, d) && Priority(a[k]) == Priority(b[k])
  }

  lemma {:induction false} InsertPairs(x: string, y: string, a: seq<string>, b: seq<string>, c: seq<string>, d: seq<string>)
    requires Paired(a, b, c, d) && PairIn(x, y, c, d) && Priority(x) == Priority(y)
    ensures Paired(Insert(x, a), Insert(y, b), c, d)
  {
    hide Priority;
    if a != [] && Priority(x) <= Priority(a[0]) {
      InsertPairs(x, y, a[1..], b[1..], c, d);
    }
  }

  lemma {:induction false} SortIntoPairs(a: seq<string>, b: seq<string>, i: nat, c: seq<string>, d: seq<string>)
    requires |c| == |d| && i <= |c| && (forall k | 0 <= k < |c| :: Priority(c[k]) == Priority(d[k]))
    requires Paired(a, b, c, d)
    ensures Paired(SortInto(a, c[i..]), SortInto(b, d[i..]), c, d)
    decreases |c| - i
  {
    if i < |c| {
      InsertPairs(c[i], d[i], a, b, c, d);
      assert c[i..][1..] == c[i + 1..] && d[i..][1..] == d[i + 1..];
      SortIntoPairs(Insert(c[i], a), Insert(d[i], b), i + 1, c, d);
    }
  }

  /** Lists that pair up place by place, with equal priorities, still do when they are sorted. */
  lemma SortPairs(c: seq<string>, d: seq<string>)
    requires |c| == |d| && forall k | 0 <= k < |c| :: Priority(c[k]) == Priority(d[k])
    ensures Paired(Sorted(c), Sorted(d), c, d)
  {
    SortIntoPairs([], [], 0, c, d);
    assert c[0..] == c && d[0..] == d;
  }
}
