/**
 Minecraft versions (apps/api/app/core/mc_versions.py): reading a version, comparing
 two, and the entries that say which versions a build is for.
 */
module McVersions {
  import opened Text
  import opened Wrappers

  type Version = seq<nat>

  // ----- reading a version -----

  predicate IsDigit(c: char) {
    '0' <= c <= '9'
  }

  /** How many digits a text starts with. */
  function Digits(s: string): (n: nat)
    ensures n <= |s|
  {
    if s != "" && IsDigit(s[0]) then 1 + Digits(s[1..]) else 0
  }

  function ToNat(s: string): nat {
    if s == "" then 0
    else
      var c := s[|s| - 1];
      10 * ToNat(s[..|s| - 1]) + if IsDigit(c) then c as int - '0' as int else 0
  }

  /** `str.split(".")`. */
  function Split(s: string): (ps: seq<string>)
    ensures ps != []
  {
    if s == "" then [""]
    else
      var ps, c := Split(s[..|s| - 1]), s[|s| - 1];
      if c == '.' then ps + [""] else ps[..|ps| - 1] + [ps[|ps| - 1] + [c]]
  }

  /** A piece without a dot, after one, is a part of its own. */
  lemma SplitMore(s: string, t: string)
    requires forall i :: 0 <= i < |t| ==> t[i] != '.'
    ensures Split(s + "." + t) == Split(s) + [t]
  {
    assert (s + ".")[..|s|] == s;
    SplitLonger(s + ".", t);
    var ps := Split(s) + [""];
    assert ps[..|ps| - 1] == Split(s) && "" + t == t;
  }

  lemma SplitAlone(t: string)
    requires forall i :: 0 <= i < |t| ==> t[i] != '.'
    ensures Split(t) == [t]
  {
    SplitLonger("", t);
    assert Split("") == [""] && "" + t == t;
  }

  function KeyOf(parts: seq<string>): Version {
    if parts == [] || Digits(parts[0]) == 0 then []
    else [ToNat(parts[0][..Digits(parts[0])])] + if Digits(parts[0]) == |parts[0]| then KeyOf(parts[1..]) else []
  }

  function Key(v: string): Version {
    KeyOf(Split(Strip(v)))
  }

  /** What the parts from `i` on add to a key read so far. */
  lemma ReadOnePart(out: Version, parts: seq<string>, i: nat)
    requires i < |parts|
    ensures var n := Digits(parts[i]);
            out + KeyOf(parts[i..]) == if n == 0 then out
                                       else out + [ToNat(parts[i][..n])]
                                            + if n == |parts[i]| then KeyOf(parts[i + 1..]) else []
  {
    var rest := parts[i..];
    assert rest[1..] == parts[i + 1..] && rest[0] == parts[i];
    assert out + [] == out;
  }

  method ReadParts(parts: seq<string>) returns (out: Version)
    ensures out == KeyOf(parts)
  {
    ghost var key := KeyOf(parts);
    out := [];
    assert parts[0..] == parts && [] + key == key;
    for i := 0 to |parts|
      invariant out + KeyOf(parts[i..]) == key
    {
      ReadOnePart(out, parts, i);
      var n := Digits(parts[i]);
      if n == 0 {
        break;
      }
      out := out + [ToNat(parts[i][..n])];
      if n != |parts[i]| {
        assert out + [] == out;
        break;
      }
    }
    assert out == key;
  }

  method ComputeKey(v: string) returns (out: Version)
    ensures out == Key(v)
  {
    out := ReadParts(Split(Strip(v)));
  }

  // ----- printing it -----

  function Digit(d: nat): char
    requires d < 10
  {
    '0' + d as char
  }

  function Decimal(n: nat): string {
    if n < 10 then [Digit(n)] else Decimal(n / 10) + [Digit(n % 10)]
  }

  function Dotted(v: Version): string {
    if v == [] then ""
    else if |v| == 1 then Decimal(v[0])
    else Dotted(v[..|v| - 1]) + "." + Decimal(v[|v| - 1])
  }

  predicate AllDigits(s: string) {
    forall i :: 0 <= i < |s| ==> IsDigit(s[i])
  }

  lemma {:induction false} DecimalIs(n: nat)
    ensures Decimal(n) != "" && AllDigits(Decimal(n)) && ToNat(Decimal(n)) == n
  {
    if n < 10 {
      assert Decimal(n)[..0] == "";
    } else {
      DecimalIs(n / 10);
      assert Decimal(n)[..|Decimal(n)| - 1] == Decimal(n / 10);
    }
  }

  lemma {:induction false} DigitsOfDigits(s: string)
    requires AllDigits(s)
    ensures Digits(s) == |s|
  {
    if s != "" {
      DigitsOfDigits(s[1..]);
    }
  }

  lemma {:induction false} SplitLonger(s: string, t: string)
    requires forall i :: 0 <= i < |t| ==> t[i] != '.'
    ensures Split(s + t) == Split(s)[..|Split(s)| - 1] + [Split(s)[|Split(s)| - 1] + t]
    decreases |t|
  {
    if t == "" {
      assert s + t == s;
      assert Split(s)[|Split(s)| - 1] + t == Split(s)[|Split(s)| - 1];
    } else {
      var front, c := t[..|t| - 1], t[|t| - 1];
      assert (s + t)[..|s + t| - 1] == s + front;
      SplitLonger(s, front);
      assert Split(s)[|Split(s)| - 1] + front + [c] == Split(s)[|Split(s)| - 1] + t;
    }
  }

  function Decimals(v: Version): seq<string> {
    seq(|v|, i requires 0 <= i < |v| => Decimal(v[i]))
  }

  lemma DecimalsMore(v: Version)
    requires v != []
    ensures Decimals(v) == Decimals(v[..|v| - 1]) + [Decimal(v[|v| - 1])]
  {
  }

  lemma {:induction false} SplitDotted(v: Version)
    requires v != []
    ensures Split(Dotted(v)) == Decimals(v)
  {
    var front, last := v[..|v| - 1], Decimal(v[|v| - 1]);
    DecimalIs(v[|v| - 1]);
    if |v| == 1 {
      SplitAlone(last);
    } else {
      SplitDotted(front);
      SplitMore(Dotted(front), last);
      DecimalsMore(v);
    }
  }

  lemma {:induction false} KeyOfDecimals(v: Version)
    ensures KeyOf(Decimals(v)) == v
  {
    if v != [] {
      DecimalIs(v[0]);
      DigitsOfDigits(Decimal(v[0]));
      assert Decimal(v[0])[..|Decimal(v[0])|] == Decimal(v[0]);
      assert Decimals(v)[1..] == Decimals(v[1..]);
      KeyOfDecimals(v[1..]);
    }
  }

  /** A printed version has no white space and no comma, bracket or sign in it. */
  predicate Bare(s: string) {
    forall i :: 0 <= i < |s| ==> IsDigit(s[i]) || s[i] == '.'
  }

  lemma {:induction false} DottedIsBare(v: Version)
    ensures Bare(Dotted(v)) && (v != [] ==> Dotted(v) != "" && IsDigit(Dotted(v)[|Dotted(v)| - 1]))
  {
    if v != [] {
      DecimalIs(v[|v| - 1]);
      DottedIsBare(v[..|v| - 1]);
    }
  }

  lemma BareStrips(s: string)
    requires forall i :: 0 <= i < |s| ==> !IsSpace(s[i])
    ensures Strip(s) == s
  {
  }

  /** Reading undoes printing, for every version. */
  lemma KeyOfDotted(v: Version)
    ensures Key(Dotted(v)) == v
  {
    DottedIsBare(v);
    BareStrips(Dotted(v));
    if v != [] {
      SplitDotted(v);
      KeyOfDecimals(v);
    } else {
      assert Split("") == [""];
    }
  }

  lemma {:induction false} SplitPrefix(s: string, t: string)
    ensures var n := |Split(s)| - 1;
            && n < |Split(s + t)| && Split(s + t)[..n] == Split(s)[..n] && Split(s)[n] <= Split(s + t)[n]
    decreases |t|
  {
    if t == "" {
      assert s + t == s;
    } else {
      assert (s + t)[..|s + t| - 1] == s + t[..|t| - 1];
      SplitPrefix(s, t[..|t| - 1]);
    }
  }

  lemma {:induction false} DigitsStop(s: string, t: string)
    requires AllDigits(s) && s < t && !IsDigit(t[|s|])
    ensures Digits(t) == |s|
  {
    if s != "" {
      assert t[0] == s[0];
      DigitsStop(s[1..], t[1..]);
    }
  }

  lemma {:induction false} KeyOfCut(v: Version, parts: seq<string>)
    requires v != [] && |v| <= |parts| && parts[..|v| - 1] == Decimals(v)[..|v| - 1]
    requires Decimal(v[|v| - 1]) < parts[|v| - 1] && !IsDigit(parts[|v| - 1][|Decimal(v[|v| - 1])|])
    ensures KeyOf(parts) == v
  {
    DecimalIs(v[0]);
    if |v| == 1 {
      DigitsStop(Decimal(v[0]), parts[0]);
      assert parts[0][..|Decimal(v[0])|] == Decimal(v[0]);
      assert v == [v[0]] + [];
    } else {
      assert parts[0] == parts[..|v| - 1][0] == Decimal(v[0]);
      DigitsOfDigits(parts[0]);
      assert Decimals(v)[1..] == Decimals(v[1..]);
      assert parts[1..][..|v| - 2] == parts[..|v| - 1][1..];
      assert parts[0][..|parts[0]|] == parts[0];
      assert v == [v[0]] + v[1..];
      KeyOfCut(v[1..], parts[1..]);
    }
  }

  /** What follows the numbers without a dot between ends the version, with whatever comes after it. */
  lemma KeyStopsAt(v: Version, c: char, rest: string)
    requires v != [] && !IsDigit(c) && c != '.' && Strip(Dotted(v) + [c] + rest) == Dotted(v) + [c] + rest
    ensures Key(Dotted(v) + [c] + rest) == v
  {
    var n, s := |v| - 1, Dotted(v) + [c];
    SplitDotted(v);
    SplitLonger(Dotted(v), [c]);
    SplitPrefix(s, rest);
    var last, part := Decimal(v[n]), Split(s + rest)[n];
    assert Split(s)[n] == last + [c] <= part;
    assert part[|last|] == (last + [c])[|last|];
    KeyOfCut(v, Split(s + rest));
  }

  // ----- comparing -----

  function Padded(a: Version, n: nat): Version {
    if |a| >= n then a else a + seq(n - |a|, _ => 0)
  }

  /** Python's order on tuples of one length. */
  function Lex(a: Version, b: Version): int
    requires |a| == |b|
  {
    if a == [] then 0
    else if a[0] != b[0] then if a[0] < b[0] then -1 else 1
    else Lex(a[1..], b[1..])
  }

  function Cmp(a: Version, b: Version): int {
    var n := if |a| >= |b| then |a| else |b|;
    Lex(Padded(a, n), Padded(b, n))
  }

  /** A component, 0 past the end. */
  function At(a: Version, i: nat): nat {
    if i < |a| then a[i] else 0
  }

  ghost predicate SameUpTo(a: Version, b: Version, k: nat) {
    forall i: nat :: i < k ==> At(a, i) == At(b, i)
  }

  /** At `k` the two versions differ for the first time, and `a` is smaller. */
  ghost predicate SmallerAt(a: Version, b: Version, k: nat) {
    SameUpTo(a, b, k) && At(a, k) < At(b, k)
  }

  lemma {:induction false} LexIs(a: Version, b: Version) returns (k: nat)
    requires |a| == |b|
    ensures Lex(a, b) < 0 ==> SmallerAt(a, b, k) && k < |a|
    ensures Lex(a, b) > 0 ==> SmallerAt(b, a, k) && k < |a|
    ensures Lex(a, b) == 0 ==> a == b
  {
    k := 0;
    if a != [] && a[0] == b[0] {
      var x := LexIs(a[1..], b[1..]);
      k := x + 1;
      forall i: nat | i < k && Lex(a, b) != 0
        ensures At(a, i) == At(b, i)
      {
        if i > 0 {
          assert At(a, i) == At(a[1..], i - 1) && At(b, i) == At(b[1..], i - 1);
        }
      }
      assert At(a, k) == At(a[1..], x) && At(b, k) == At(b[1..], x);
      assert a == [a[0]] + a[1..] && b == [b[0]] + b[1..];
    }
  }

  /** What the comparison means: the first component that differs decides, missing ones being 0. */
  lemma CmpIs(a: Version, b: Version)
    ensures Cmp(a, b) < 0 <==> exists k: nat :: SmallerAt(a, b, k)
    ensures Cmp(a, b) > 0 <==> exists k: nat :: SmallerAt(b, a, k)
    ensures Cmp(a, b) == 0 <==> forall i: nat :: At(a, i) == At(b, i)
  {
    var n := if |a| >= |b| then |a| else |b|;
    var pa, pb := Padded(a, n), Padded(b, n);
    assert forall i: nat :: At(pa, i) == At(a, i) && At(pb, i) == At(b, i);
    var k := LexIs(pa, pb);
    if Lex(pa, pb) < 0 {
      assert SmallerAt(a, b, k);
    } else if Lex(pa, pb) > 0 {
      assert SmallerAt(b, a, k);
    }
    forall j: nat, k: nat | SmallerAt(a, b, j)
      ensures !SmallerAt(b, a, k)
    {
      NotBoth(a, b, j, k);
    }
  }

  lemma NotBoth(a: Version, b: Version, j: nat, k: nat)
    requires SmallerAt(a, b, j)
    ensures !SmallerAt(b, a, k)
  {
    assert k < j ==> At(a, k) == At(b, k);
  }

  lemma SmallerTrans(a: Version, b: Version, c: Version, j: nat, k: nat)
    requires SmallerAt(a, b, j) && SmallerAt(b, c, k)
    ensures SmallerAt(a, c, if j < k then j else k)
  {
    var m := if j < k then j else k;
    forall i: nat | i < m
      ensures At(a, i) == At(c, i)
    {
      assert At(a, i) == At(b, i);
    }
    assert At(a, m) <= At(b, m) <= At(c, m);
  }

  lemma SmallerSame(a: Version, b: Version, a': Version, b': Version, k: nat)
    requires SmallerAt(a, b, k)
    requires (forall i: nat :: At(a', i) == At(a, i)) && (forall i: nat :: At(b', i) == At(b, i))
    ensures SmallerAt(a', b', k)
  {
    assert At(a', k) == At(a, k) && At(b', k) == At(b, k);
    forall i: nat | i < k
      ensures At(a', i) == At(b', i)
    {
      assert At(a', i) == At(a, i) && At(a, i) == At(b, i);
    }
  }

  /** The comparison is a total preorder, and 0 exactly between versions equal up to trailing zeros. */
  lemma CmpIsTotalPreorder(a: Version, b: Version, c: Version)
    ensures (Cmp(a, b) < 0 <==> Cmp(b, a) > 0) && (Cmp(a, b) == 0 <==> Cmp(b, a) == 0)
    ensures Cmp(a, b) <= 0 && Cmp(b, c) <= 0 ==> Cmp(a, c) <= 0 && (Cmp(a, b) < 0 || Cmp(b, c) < 0 ==> Cmp(a, c) < 0)
    ensures Cmp(a, b) == 0 <==> Trimmed(a) == Trimmed(b)
  {
    CmpIs(a, b);
    CmpIs(b, a);
    CmpIs(b, c);
    CmpIs(a, c);
    if Cmp(a, b) < 0 {
      var j: nat :| SmallerAt(a, b, j);
      if Cmp(b, c) < 0 {
        var k: nat :| SmallerAt(b, c, k);
        SmallerTrans(a, b, c, j, k);
      } else if Cmp(b, c) == 0 {
        SmallerSame(a, b, a, c, j);
      }
    } else if Cmp(a, b) == 0 && Cmp(b, c) < 0 {
      var k: nat :| SmallerAt(b, c, k);
      SmallerSame(b, c, a, c, k);
    }
    TrimmedSame(a, b);
  }

  /** A version without its trailing zeros. */
  function Trimmed(a: Version): Version {
    if a != [] && a[|a| - 1] == 0 then Trimmed(a[..|a| - 1]) else a
  }

  lemma {:induction false} TrimmedIs(a: Version)
    ensures |Trimmed(a)| <= |a| && forall i: nat :: At(Trimmed(a), i) == At(a, i)
    ensures Trimmed(a) != [] ==> Trimmed(a)[|Trimmed(a)| - 1] != 0
  {
    if a != [] && a[|a| - 1] == 0 {
      TrimmedIs(a[..|a| - 1]);
      assert forall i: nat :: At(a[..|a| - 1], i) == At(a, i);
    }
  }

  lemma NoLonger(x: Version, y: Version)
    requires (forall i: nat :: At(x, i) == At(y, i)) && (y != [] ==> y[|y| - 1] != 0)
    ensures |y| <= |x|
  {
    if y != [] {
      assert At(x, |y| - 1) == At(y, |y| - 1);
    }
  }

  lemma TrimmedSame(a: Version, b: Version)
    ensures Trimmed(a) == Trimmed(b) <==> forall i: nat :: At(a, i) == At(b, i)
  {
    var x, y := Trimmed(a), Trimmed(b);
    TrimmedIs(a);
    TrimmedIs(b);
    if forall i: nat :: At(a, i) == At(b, i) {
      assert forall i: nat :: At(x, i) == At(a, i) == At(b, i) == At(y, i);
      NoLonger(x, y);
      NoLonger(y, x);
      forall i | 0 <= i < |x|
        ensures x[i] == y[i]
      {
        assert At(x, i) == At(y, i);
      }
    }
  }

  lemma SomeDotted()
    ensures Dotted([1, 4]) == "1.4" && Dotted([1, 4, 1]) == "1.4.1"
    ensures Dotted([1, 0]) == "1.0" && Dotted([1, 0, 1]) == "1.0.1"
    ensures Dotted([1, 21]) == "1.21" && Dotted([1, 21, 0]) == "1.21.0" && Dotted([1, 21, 4]) == "1.21.4"
  {
    DottedMore([1], 4);
    DottedMore([1, 4], 1);
    DottedMore([1], 0);
    DottedMore([1, 0], 1);
    DottedMore([1], 21);
    DottedMore([1, 21], 0);
    DottedMore([1, 21], 4);
    assert Decimal(21) == Decimal(2) + [Digit(1)];
  }

  lemma DottedMore(v: Version, n: nat)
    requires v != []
    ensures Dotted(v + [n]) == Dotted(v) + "." + Decimal(n)
  {
    assert (v + [n])[..|v|] == v;
  }

  // ----- entries -----

  datatype Sign = Ge | Le | Gt | Lt | Eq

  /** What an entry says, before its versions are read. */
  datatype Entry =
    | Nothing
    | Wildcard(prefix: string)
    | Range(loIn: bool, lo: string, hi: string, hiIn: bool)
    | Compare(sign: Sign, than: string)
    | Exactly(v: string)

  /** Where `c` first stands, or the length. */
  function Find(s: string, c: char): (i: nat)
    ensures i <= |s| && (i < |s| ==> s[i] == c) && forall j :: 0 <= j < i ==> s[j] != c
  {
    if s == "" || s[0] == c then 0 else 1 + Find(s[1..], c)
  }

  predicate NoSpace(s: string) {
    forall i :: 0 <= i < |s| ==> !IsSpace(s[i])
  }

  /** The first form of the two patterns: brackets around two bounds, either of which may be empty. */
  function AsRange(s: string): Option<Entry> {
    if |s| < 3 || !(s[0] == '[' || s[0] == '(') || !(s[|s| - 1] == ']' || s[|s| - 1] == ')') then None
    else
      var inner := s[1..|s| - 1];
      var c := Find(inner, ',');
      if c == |inner| then None
      else
        var lo, hi := Strip(inner[..c]), Strip(inner[c + 1..]);
        if NoSpace(lo) && NoSpace(hi) && Find(hi, ']') == |hi| && Find(hi, ')') == |hi|
        then Some(Range(s[0] == '[', lo, hi, s[|s| - 1] == ']')) else None
  }

  /** The second: a sign, then one word. */
  function AsSign(s: string, text: string, sign: Sign): Option<Entry> {
    if |s| <= |text| || s[..|text|] != text then None
    else
      var word := StripLeft(s[|text|..]);
      if word != "" && NoSpace(word) then Some(Compare(sign, word)) else None
  }

  function First(a: Option<Entry>, b: Option<Entry>): Option<Entry> {
    if a.Some? then a else b
  }

  function AsCompare(s: string): Option<Entry> {
    First(AsSign(s, ">=", Ge),
        First(AsSign(s, "<=", Le), First(AsSign(s, ">", Gt), First(AsSign(s, "<", Lt), AsSign(s, "=", Eq)))))
  }

  function Parse(entry: string): Entry {
    var s := Strip(entry);
    if s == "" then Nothing
    else if |s| >= 2 && s[|s| - 2] == '.' && (s[|s| - 1] == 'x' || s[|s| - 1] == '*') then Wildcard(s[..|s| - 2])
    else match First(AsRange(s), AsCompare(s))
      case Some(e) => e
      case None => Exactly(s)
  }

  /** Whether version `v` is one the entry says. */
  predicate Says(e: Entry, v: Version) {
    v != [] &&
    match e
    case Nothing => false
    case Wildcard(prefix) =>
      var p := Key(prefix);
      p != [] && |p| <= |v| && v[..|p|] == p
    case Range(loIn, lo, hi, hiIn) =>
      && (lo == "" || Cmp(v, Key(lo)) > 0 || (loIn && Cmp(v, Key(lo)) == 0))
      && (hi == "" || Cmp(v, Key(hi)) < 0 || (hiIn && Cmp(v, Key(hi)) == 0))
    case Compare(sign, than) =>
      var c := Cmp(v, Key(than));
      (match sign
       case Ge => c >= 0
       case Le => c <= 0
       case Gt => c > 0
       case Lt => c < 0
       case Eq => c == 0)
    case Exactly(w) => Cmp(v, Key(w)) == 0 && Key(w) != []
  }

  predicate EntryMatches(entry: string, mc: string) {
    Says(Parse(entry), Key(mc))
  }

  /** A build with no entries, or a server of unknown version, matches. */
  predicate Matches(mc: Option<string>, entries: seq<string>) {
    entries == [] || mc.None? || Strip(mc.value) == "" || exists e :: e in entries && EntryMatches(e, mc.value)
  }

  /** With nothing to compare every build matches; otherwise one entry that takes the version is enough, and needed. */
  lemma {:induction false} MatchesIff(mc: Option<string>, entries: seq<string>)
    ensures entries == [] || mc == None || (mc.Some? && AllSpace(mc.value)) ==> Matches(mc, entries)
    ensures entries != [] && mc.Some? && !AllSpace(mc.value) ==>
              (Matches(mc, entries) <==> exists i :: 0 <= i < |entries| && EntryMatches(entries[i], mc.value))
  {
    if mc.Some? {
      StripEmptyIff(mc.value);
    }
  }

  // ----- what entries mean -----

  /** The next version after all that start with `p`. */
  function Bumped(p: Version): Version
    requires p != []
  {
    p[|p| - 1 := p[|p| - 1] + 1]
  }

  /**
   A wildcard takes the half-open interval from its prefix up to the prefix with its
   last component one higher, but only versions written at least as long: `1.21.0.x`
   does not take `1.21`, though the two compare equal as far as they go.
   */
  lemma WildcardIsInterval(prefix: string, v: Version)
    requires Key(prefix) != []
    ensures Says(Wildcard(prefix), v)
            <==> |Key(prefix)| <= |v| && Cmp(Key(prefix), v) <= 0 && Cmp(v, Bumped(Key(prefix))) < 0
  {
    var p := Key(prefix);
    if |p| <= |v| {
      if v[..|p|] == p {
        StartsIsBetween(p, v);
      } else {
        OtherIsOutside(p, v);
      }
    }
  }

  lemma StartsIsBetween(p: Version, v: Version)
    requires p != [] && p <= v
    ensures Cmp(p, v) <= 0 && Cmp(v, Bumped(p)) < 0
  {
    CmpIs(p, v);
    CmpIs(v, Bumped(p));
    assert forall i: nat :: i < |p| ==> At(v, i) == p[i] == At(p, i);
    assert SmallerAt(v, Bumped(p), |p| - 1);
    forall k: nat
      ensures !SmallerAt(v, p, k)
    {
      assert k >= |p| ==> At(p, k) == 0;
    }
  }

  lemma OtherIsOutside(p: Version, v: Version)
    requires p != [] && |p| <= |v| && v[..|p|] != p
    ensures !(Cmp(p, v) <= 0 && Cmp(v, Bumped(p)) < 0)
  {
    var q, n := Bumped(p), |p| - 1;
    var d := FirstDifference(v[..|p|], p);
    assert v[d] == v[..|p|][d];
    assert forall i: nat :: i < d ==> At(v, i) == v[..|p|][i] == p[i];
    CmpIs(p, v);
    CmpIs(v, q);
    if v[d] < p[d] {
      assert SmallerAt(v, p, d);
    } else if d < n {
      assert SmallerAt(q, v, d);
      NotBothWays(q, v, d);
    } else {
      NotSmaller(v, q, n);
    }
  }

  lemma {:induction false} FirstDifference(a: Version, b: Version) returns (d: nat)
    requires |a| == |b| && a != b
    ensures d < |a| && a[d] != b[d] && forall i :: 0 <= i < d ==> a[i] == b[i]
  {
    if a[0] != b[0] {
      d := 0;
    } else {
      assert a == [a[0]] + a[1..] && b == [b[0]] + b[1..];
      var x := FirstDifference(a[1..], b[1..]);
      d := x + 1;
      forall i | 0 <= i < d
        ensures a[i] == b[i]
      {
        if i > 0 {
          assert a[i] == a[1..][i - 1] && b[i] == b[1..][i - 1];
        }
      }
    }
  }

  lemma NotBothWays(a: Version, b: Version, d: nat)
    requires SmallerAt(a, b, d)
    ensures forall k: nat :: !SmallerAt(b, a, k)
  {
    forall k: nat
      ensures !SmallerAt(b, a, k)
    {
      NotBoth(a, b, d, k);
    }
  }

  /** Equal up to `n` and at least as large there, with nothing further in `b`. */
  lemma NotSmaller(a: Version, b: Version, n: nat)
    requires |b| == n + 1 && SameUpTo(a, b, n) && At(a, n) >= At(b, n)
    ensures forall k: nat :: !SmallerAt(a, b, k)
  {
    forall k: nat
      ensures !SmallerAt(a, b, k)
    {
      assert k > n ==> At(b, k) == 0;
      assert k < n ==> At(a, k) == At(b, k);
    }
  }

  /** Ranges and comparisons take every version between two they take, and all ways to write it. */
  lemma RangesAreConvex(e: Entry, u: Version, v: Version, w: Version)
    requires e.Range? || e.Compare? || e.Exactly?
    requires v != [] && Says(e, u) && Says(e, w) && Cmp(u, v) <= 0 && Cmp(v, w) <= 0
    ensures Says(e, v)
  {
    match e
    case Range(_, lo, hi, _) =>
      Between(u, v, w, Key(lo));
      Between(u, v, w, Key(hi));
    case Compare(_, than) => Between(u, v, w, Key(than));
    case Exactly(x) => Between(u, v, w, Key(x));
  }

  lemma Between(u: Version, v: Version, w: Version, x: Version)
    requires Cmp(u, v) <= 0 && Cmp(v, w) <= 0
    ensures Cmp(u, x) > 0 ==> Cmp(v, x) > 0
    ensures Cmp(u, x) >= 0 ==> Cmp(v, x) >= 0
    ensures Cmp(w, x) < 0 ==> Cmp(v, x) < 0
    ensures Cmp(w, x) <= 0 ==> Cmp(v, x) <= 0
  {
    CmpIsTotalPreorder(x, u, v);
    CmpIsTotalPreorder(v, w, x);
    CmpIsTotalPreorder(u, x, v);
    CmpIsTotalPreorder(v, x, w);
    CmpIsTotalPreorder(w, x, v);
  }

  // ----- entries as they are written -----

  lemma BareIsPlain(s: string)
    requires Bare(s)
    ensures NoSpace(s) && Strip(s) == s && Find(s, ']') == |s| && Find(s, ')') == |s|
  {
    BareStrips(s);
  }

  lemma {:induction false} FindAfter(s: string, t: string, c: char)
    requires forall i :: 0 <= i < |s| ==> s[i] != c
    ensures Find(s + [c] + t, c) == |s|
  {
    if s != "" {
      assert (s + [c] + t)[1..] == s[1..] + [c] + t;
      FindAfter(s[1..], t, c);
    }
  }

  /** How a text without white space and without a wildcard's end is read. */
  lemma ParseWord(s: string)
    requires s != "" && NoSpace(s) && s[|s| - 1] != 'x' && s[|s| - 1] != '*'
    ensures Parse(s) == if AsRange(s).Some? then AsRange(s).value
                        else if AsCompare(s).Some? then AsCompare(s).value
                        else Exactly(s)
  {
    BareStrips(s);
  }

  function Enclosed(left: char, inner: string, right: char): (s: string)
    ensures |s| == |inner| + 2 && s[0] == left && s[|s| - 1] == right && s[1..|s| - 1] == inner
  {
    [left] + inner + [right]
  }

  lemma EnclosedNoSpace(left: char, inner: string, right: char)
    requires NoSpace(inner) && !IsSpace(left) && !IsSpace(right)
    ensures NoSpace(Enclosed(left, inner, right))
  {
  }

  function RangeText(loIn: bool, lo: string, hi: string, hiIn: bool): string {
    Enclosed(if loIn then '[' else '(', lo + "," + hi, if hiIn then ']' else ')')
  }

  lemma AsRangeReads(s: string, lo: string, hi: string)
    requires Bare(lo) && Bare(hi) && |s| >= 3 && s[1..|s| - 1] == lo + "," + hi
    requires (s[0] == '[' || s[0] == '(') && (s[|s| - 1] == ']' || s[|s| - 1] == ')')
    ensures AsRange(s) == Some(Range(s[0] == '[', lo, hi, s[|s| - 1] == ']'))
  {
    var inner := s[1..|s| - 1];
    BareIsPlain(lo);
    BareIsPlain(hi);
    FindAfter(lo, hi, ',');
    assert inner[..|lo|] == lo && inner[|lo| + 1..] == hi;
  }

  lemma ParseRange(loIn: bool, lo: string, hi: string, hiIn: bool)
    requires Bare(lo) && Bare(hi)
    ensures Parse(RangeText(loIn, lo, hi, hiIn)) == Range(loIn, lo, hi, hiIn)
  {
    var s := RangeText(loIn, lo, hi, hiIn);
    assert NoSpace(lo + "," + hi);
    EnclosedNoSpace(s[0], lo + "," + hi, s[|s| - 1]);
    ParseWord(s);
    AsRangeReads(s, lo, hi);
  }

  lemma ReadAs(entry: string, e: Entry, mc: Version)
    requires Parse(entry) == e
    ensures EntryMatches(entry, Dotted(mc)) <==> Says(e, mc)
  {
    KeyOfDotted(mc);
  }

  /** A range written with its brackets says what they say, an empty end being no bound. */
  lemma RangeReads(loIn: bool, lo: Version, hi: Version, hiIn: bool, mc: Version)
    requires mc != []
    ensures EntryMatches(RangeText(loIn, Dotted(lo), Dotted(hi), hiIn), Dotted(mc)) <==>
              && (lo == [] || Cmp(mc, lo) > 0 || (loIn && Cmp(mc, lo) == 0))
              && (hi == [] || Cmp(mc, hi) < 0 || (hiIn && Cmp(mc, hi) == 0))
  {
    DottedIsBare(lo);
    DottedIsBare(hi);
    ParseRange(loIn, Dotted(lo), Dotted(hi), hiIn);
    ReadAs(RangeText(loIn, Dotted(lo), Dotted(hi), hiIn), Range(loIn, Dotted(lo), Dotted(hi), hiIn), mc);
    KeyOfDotted(lo);
    KeyOfDotted(hi);
    EmptyDotted(lo);
    EmptyDotted(hi);
  }

  lemma EmptyDotted(v: Version)
    ensures Dotted(v) == "" <==> v == []
  {
    DottedIsBare(v);
  }

  function SignText(sign: Sign): string {
    match sign
    case Ge => ">="
    case Le => "<="
    case Gt => ">"
    case Lt => "<"
    case Eq => "="
  }

  lemma SignFits(sign: Sign, d: string, t: string, other: Sign)
    requires Bare(d) && d != "" && t == SignText(other)
    ensures AsSign(SignText(sign) + d, t, other)
            == if sign == other then Some(Compare(sign, d)) else AsSign(SignText(sign) + d, t, other)
    ensures sign != other && !(sign.Ge? && other.Gt?) && !(sign.Le? && other.Lt?) ==>
            AsSign(SignText(sign) + d, t, other) == None
  {
    var s, u := SignText(sign) + d, SignText(sign);
    assert s[..|u|] == u && s[|u|..] == d;
    assert |s| > |t| ==> s[..|t|][0] == s[0] == u[0];
    assert |s| > |t| == 2 ==> s[..|t|][1] == s[1] == if |u| == 2 then u[1] else d[0];
  }

  lemma NoRange(s: string)
    requires s != "" && s[0] != '[' && s[0] != '('
    ensures AsRange(s) == None
  {
  }

  lemma ParseSign(sign: Sign, d: string)
    requires Bare(d) && d != ""
    requires |d| >= 1 && IsDigit(d[|d| - 1])
    ensures Parse(SignText(sign) + d) == Compare(sign, d)
  {
    var s := SignText(sign) + d;
    assert NoSpace(s) && s[|s| - 1] == d[|d| - 1];
    assert s[0] == SignText(sign)[0];
    ParseWord(s);
    NoRange(s);
    SignFits(sign, d, ">=", Ge);
    SignFits(sign, d, "<=", Le);
    SignFits(sign, d, ">", Gt);
    SignFits(sign, d, "<", Lt);
    SignFits(sign, d, "=", Eq);
  }

  /** A sign before a version compares with it. */
  lemma SignReads(sign: Sign, than: Version, mc: Version)
    requires mc != [] && than != []
    ensures EntryMatches(SignText(sign) + Dotted(than), Dotted(mc)) <==>
              match sign
              case Ge => Cmp(mc, than) >= 0
              case Le => Cmp(mc, than) <= 0
              case Gt => Cmp(mc, than) > 0
              case Lt => Cmp(mc, than) < 0
              case Eq => Cmp(mc, than) == 0
  {
    DottedIsBare(than);
    ParseSign(sign, Dotted(than));
    ReadAs(SignText(sign) + Dotted(than), Compare(sign, Dotted(than)), mc);
    KeyOfDotted(than);
  }

  lemma NoSignInBare(d: string, t: string, sign: Sign)
    requires Bare(d) && d != "" && t != "" && !IsDigit(t[0]) && t[0] != '.'
    ensures AsSign(d, t, sign) == None
  {
    assert |d| > |t| ==> d[..|t|][0] == d[0];
  }

  lemma ExactSays(w: Version, mc: Version)
    requires mc != [] && w != []
    ensures Says(Exactly(Dotted(w)), mc) <==> Cmp(mc, w) == 0
  {
    KeyOfDotted(w);
  }

  lemma ParseExact(d: string)
    requires Bare(d) && d != ""
    ensures Parse(d) == Exactly(d)
  {
    ParseWord(d);
    NoRange(d);
    NoSignInBare(d, ">=", Ge);
    NoSignInBare(d, "<=", Le);
    NoSignInBare(d, ">", Gt);
    NoSignInBare(d, "<", Lt);
    NoSignInBare(d, "=", Eq);
  }

  /** A version alone takes itself, however many zeros end it. */
  lemma ExactReads(w: Version, mc: Version)
    requires mc != [] && w != []
    ensures EntryMatches(Dotted(w), Dotted(mc)) <==> Cmp(mc, w) == 0
  {
    DottedIsBare(w);
    ParseExact(Dotted(w));
    ReadAs(Dotted(w), Exactly(Dotted(w)), mc);
    ExactSays(w, mc);
  }

  lemma ParseWildcard(d: string, star: bool)
    requires Bare(d)
    ensures Parse(d + (if star then ".*" else ".x")) == Wildcard(d)
  {
    var s := d + if star then ".*" else ".x";
    BareStrips(s);
    assert s[..|s| - 2] == d;
  }

  /** A prefix with `.x` takes the versions that start with it. */
  lemma WildcardReads(p: Version, star: bool, mc: Version)
    requires mc != [] && p != []
    ensures EntryMatches(Dotted(p) + (if star then ".*" else ".x"), Dotted(mc)) <==> p <= mc
  {
    DottedIsBare(p);
    ParseWildcard(Dotted(p), star);
    ReadAs(Dotted(p) + (if star then ".*" else ".x"), Wildcard(Dotted(p)), mc);
    KeyOfDotted(p);
  }

  /** `1.21.0.x` does not take `1.21`, which compares equal to `1.21.0`. */
  lemma LongWildcardMissesShort()
    ensures !EntryMatches("1.21.0.x", "1.21") && Cmp(Key("1.21"), Key("1.21.0")) == 0
  {
    SomeDotted();
    WildcardReads([1, 21, 0], false, [1, 21]);
    assert Dotted([1, 21, 0]) + ".x" == "1.21.0.x";
    KeyOfDotted([1, 21]);
    KeyOfDotted([1, 21, 0]);
    CmpIs([1, 21], [1, 21, 0]);
  }
}
