/**
 Builds of the project's plugins (apps/api/app/core/releases.py and
 integration_state.py): how their versions are ordered, which build a server is
 offered, and which build is the recommended one for its Minecraft versions.
 */
module Releases {
  import M = McVersions
  import I = McIntervals
  import S = StableSort
  import opened Text
  import opened Wrappers

  // ----- the version key -----

  /** The tuples of a key: (0, n), (1, s), (1,), (0, s) and (-1,). */
  datatype Part = Num(n: nat) | Word(w: string) | Final | Pre(p: string) | NoVersion

  /** Everything before the first `-`, and everything after it. */
  function Partition(v: string): (string, string) {
    var i := M.Find(v, '-');
    if i == |v| then (v, "") else (v[..i], v[i + 1..])
  }

  function PartOf(p: string): Part
    requires p != ""
  {
    if M.Digits(p) == |p| then Num(M.ToNat(p)) else Word(p)
  }

  function Parts(ps: seq<string>): seq<Part> {
    if ps == [] then []
    else (if ps[0] == "" then [] else [PartOf(ps[0])]) + Parts(ps[1..])
  }

  function VersionKey(v: string): seq<Part> {
    var (main, pre) := Partition(v);
    if Strip(main) == "" then [NoVersion]
    else Parts(M.Split(main)) + [if pre == "" then Final else Pre(pre)]
  }

  // ----- comparing keys -----

  /** The outcome of a Python comparison; int against str is an error. */
  datatype Order = Less | Equal | Greater | Mixed

  function Flip(o: Order): Order {
    match o
    case Less => Greater
    case Greater => Less
    case _ => o
  }

  function CompareNat(a: nat, b: nat): Order {
    if a < b then Less else if a > b then Greater else Equal
  }

  function CompareText(a: string, b: string): Order {
    if a == "" || b == "" then CompareNat(|a|, |b|)
    else if a[0] != b[0] then CompareNat(a[0] as nat, b[0] as nat)
    else CompareText(a[1..], b[1..])
  }

  /** The number a tuple starts with. */
  function Rank(p: Part): int {
    match p
    case NoVersion => -1
    case Num(_) => 0
    case Pre(_) => 0
    case Word(_) => 1
    case Final => 1
  }

  function ComparePart(a: Part, b: Part): Order {
    if Rank(a) != Rank(b) then if Rank(a) < Rank(b) then Less else Greater
    else match (a, b)
      case (Num(m), Num(n)) => CompareNat(m, n)
      case (Pre(s), Pre(t)) => CompareText(s, t)
      case (Word(s), Word(t)) => CompareText(s, t)
      case (Final, Word(_)) => Less
      case (Word(_), Final) => Greater
      case (Num(_), Pre(_)) => Mixed
      case (Pre(_), Num(_)) => Mixed
      case _ => Equal
  }

  /** Tuples compare at their first difference, a shorter one before the longer it starts. */
  function Compare(a: seq<Part>, b: seq<Part>): Order {
    if a == [] || b == [] then CompareNat(|a|, |b|)
    else if a[0] != b[0] then ComparePart(a[0], b[0])
    else Compare(a[1..], b[1..])
  }

  lemma {:induction false} CompareTextFlip(a: string, b: string)
    ensures CompareText(b, a) == Flip(CompareText(a, b))
    ensures CompareText(a, b) == Equal <==> a == b
    ensures CompareText(a, b) != Mixed
  {
    if a != "" && b != "" {
      CompareTextFlip(a[1..], b[1..]);
      assert a == [a[0]] + a[1..] && b == [b[0]] + b[1..];
    }
  }

  lemma {:induction false} CompareTextTrans(a: string, b: string, c: string)
    requires CompareText(a, b) != Greater && CompareText(b, c) != Greater
    ensures CompareText(a, c) != Greater
    ensures CompareText(a, b) == Less || CompareText(b, c) == Less ==> CompareText(a, c) == Less
  {
    CompareTextFlip(a, b);
    CompareTextFlip(b, c);
    if a != "" && b != "" && c != "" && a[0] == b[0] && b[0] == c[0] {
      CompareTextTrans(a[1..], b[1..], c[1..]);
    }
  }

  predicate AtMost(o: Order) {
    o == Less || o == Equal
  }

  lemma PartsOrder(a: Part, b: Part, c: Part)
    ensures ComparePart(b, a) == Flip(ComparePart(a, b))
    ensures ComparePart(a, b) == Equal <==> a == b
    ensures AtMost(ComparePart(a, b)) && AtMost(ComparePart(b, c)) ==> AtMost(ComparePart(a, c))
  {
    if TextIn(a).Some? && TextIn(b).Some? {
      CompareTextFlip(TextIn(a).value, TextIn(b).value);
      if TextIn(c).Some? && AtMost(ComparePart(a, b)) && AtMost(ComparePart(b, c)) {
        if a.Pre? == b.Pre? == c.Pre? {
          CompareTextFlip(TextIn(b).value, TextIn(c).value);
          CompareTextTrans(TextIn(a).value, TextIn(b).value, TextIn(c).value);
        }
      }
    }
  }

  function TextIn(p: Part): Option<string> {
    match p
    case Word(w) => Some(w)
    case Pre(q) => Some(q)
    case _ => None
  }

  lemma {:induction false} KeysFlip(a: seq<Part>, b: seq<Part>)
    ensures Compare(b, a) == Flip(Compare(a, b))
    ensures Compare(a, b) == Equal <==> a == b
  {
    if a != [] && b != [] {
      PartsOrder(a[0], b[0], b[0]);
      KeysFlip(a[1..], b[1..]);
      assert a == [a[0]] + a[1..] && b == [b[0]] + b[1..];
    }
  }

  /** With `KeysFlip`: on any versions whose comparison does not fail, the order of keys is total and transitive. */
  lemma {:induction false} KeysTrans(a: seq<Part>, b: seq<Part>, c: seq<Part>)
    requires AtMost(Compare(a, b)) && AtMost(Compare(b, c))
    ensures AtMost(Compare(a, c))
  {
    if a != [] && b != [] && c != [] {
      if a[0] == b[0] == c[0] {
        KeysTrans(a[1..], b[1..], c[1..]);
      } else {
        PartsOrder(a[0], b[0], c[0]);
        PartsOrder(a[0], c[0], b[0]);
        PartsOrder(c[0], b[0], a[0]);
      }
    }
  }

  // ----- versions of the usual form -----

  /** A version X.Y.Z..., with an optional pre-release tag. */
  datatype Release = Release(numbers: M.Version, pre: Option<string>)

  predicate WellFormed(r: Release) {
    r.numbers != [] && (r.pre.Some? ==> r.pre.value != "")
  }

  function TextOf(r: Release): string {
    M.Dotted(r.numbers) + if r.pre.Some? then "-" + r.pre.value else ""
  }

  function Nums(v: M.Version): seq<Part> {
    seq(|v|, i requires 0 <= i < |v| => Num(v[i]))
  }

  function EndMark(r: Release): Part {
    if r.pre.Some? then Pre(r.pre.value) else Final
  }

  function KeyOf(r: Release): seq<Part> {
    Nums(r.numbers) + [EndMark(r)]
  }

  lemma {:induction false} PartsOfDecimals(v: M.Version)
    ensures Parts(M.Decimals(v)) == Nums(v)
  {
    if v != [] {
      M.DecimalIs(v[0]);
      M.DigitsOfDigits(M.Decimal(v[0]));
      assert M.Decimals(v)[1..] == M.Decimals(v[1..]);
      PartsOfDecimals(v[1..]);
    }
  }

  lemma FindNone(s: string, c: char)
    requires forall i :: 0 <= i < |s| ==> s[i] != c
    ensures M.Find(s, c) == |s|
  {
  }

  /** The key of such a version: its numbers, then the mark of its end. */
  lemma KeyOfText(r: Release)
    requires WellFormed(r)
    ensures VersionKey(TextOf(r)) == KeyOf(r)
  {
    var d := M.Dotted(r.numbers);
    M.DottedIsBare(r.numbers);
    M.BareStrips(d);
    FindNone(d, '-');
    if r.pre.Some? {
      M.FindAfter(d, r.pre.value, '-');
      assert TextOf(r) == d + ['-'] + r.pre.value;
      assert TextOf(r)[..|d|] == d && TextOf(r)[|d| + 1..] == r.pre.value;
    } else {
      assert TextOf(r) == d;
    }
    M.SplitDotted(r.numbers);
    PartsOfDecimals(r.numbers);
  }

  function CompareReleases(a: Release, b: Release): Order {
    Compare(KeyOf(a), KeyOf(b))
  }

  /** One release's numbers go on where the other's end. */
  predicate Prefix(a: Release, b: Release) {
    a.numbers < b.numbers
  }

  /** The order of two number lists of which neither begins the other. */
  function CompareNumbers(a: M.Version, b: M.Version): Order {
    if a == [] || b == [] then CompareNat(|a|, |b|)
    else if a[0] != b[0] then CompareNat(a[0], b[0])
    else CompareNumbers(a[1..], b[1..])
  }

  /**
   What the key order is: numbers decide; between equal numbers a pre-release comes
   before the release and two pre-releases compare as text; and where one list of
   numbers begins the other, the longer one comes first, or the comparison fails if the
   shorter is a pre-release.
   */
  lemma {:induction false} CompareReleasesIs(a: Release, b: Release)
    ensures CompareReleases(a, b) ==
              if a.numbers == b.numbers then ComparePart(EndMark(a), EndMark(b))
              else if Prefix(a, b) then if a.pre.Some? then Mixed else Greater
              else if Prefix(b, a) then if b.pre.Some? then Mixed else Less
              else CompareNumbers(a.numbers, b.numbers)
    decreases |a.numbers|
  {
    var x, y := KeyOf(a), KeyOf(b);
    CompareTextSelf(a, b);
    if a.numbers != [] && b.numbers != [] {
      if a.numbers[0] == b.numbers[0] {
        var a', b' := a.(numbers := a.numbers[1..]), b.(numbers := b.numbers[1..]);
        assert x[1..] == KeyOf(a') && y[1..] == KeyOf(b');
        CompareReleasesIs(a', b');
        assert a.numbers == [a.numbers[0]] + a'.numbers && b.numbers == [b.numbers[0]] + b'.numbers;
      }
    } else if a.numbers == [] && b.numbers == [] {
      assert x[1..] == [] == y[1..];
      assert Compare(x, y) == if x[0] != y[0] then ComparePart(x[0], y[0]) else Compare(x[1..], y[1..]);
    }
  }

  lemma CompareTextSelf(a: Release, b: Release)
    ensures EndMark(a) == EndMark(b) ==> ComparePart(EndMark(a), EndMark(b)) == Equal
  {
    if a.pre.Some? && b.pre.Some? {
      CompareTextFlip(a.pre.value, b.pre.value);
    }
  }

  /**
   The comparison fails exactly when a pre-release is compared with a version that has more
   numbers after all of its own.
   */
  lemma MixedIff(a: Release, b: Release)
    ensures CompareReleases(a, b) == Mixed <==> (Prefix(a, b) && a.pre.Some?) || (Prefix(b, a) && b.pre.Some?)
  {
    CompareReleasesIs(a, b);
    NumbersNeverMixed(a.numbers, b.numbers);
    if a.pre.Some? && b.pre.Some? {
      CompareTextFlip(a.pre.value, b.pre.value);
    }
  }

  lemma {:induction false} NumbersNeverMixed(a: M.Version, b: M.Version)
    ensures CompareNumbers(a, b) != Mixed && CompareNumbers(b, a) == Flip(CompareNumbers(a, b))
    ensures |a| == |b| && CompareNumbers(a, b) == Equal ==> a == b
  {
    if a != [] && b != [] && a[0] == b[0] {
      NumbersNeverMixed(a[1..], b[1..]);
      assert a == [a[0]] + a[1..] && b == [b[0]] + b[1..];
    }
  }

  /** An order of releases says what the order of versions says. */
  predicate Agree(o: Order, c: int) {
    (o == Less <==> c < 0) && (o == Greater <==> c > 0) && (o == Equal <==> c == 0)
  }

  lemma CmpOfTails(a: M.Version, b: M.Version)
    requires a != [] && b != []
    ensures a[0] == b[0] ==> M.Cmp(a, b) == M.Cmp(a[1..], b[1..])
    ensures a[0] < b[0] ==> M.Cmp(a, b) < 0
    ensures a[0] > b[0] ==> M.Cmp(a, b) > 0
  {
    var n := if |a| >= |b| then |a| else |b|;
    assert M.Padded(a, n)[1..] == M.Padded(a[1..], n - 1) && M.Padded(b, n)[1..] == M.Padded(b[1..], n - 1);
  }

  lemma {:induction false} NumbersAgree(a: M.Version, b: M.Version)
    requires !(a < b) && !(b < a)
    ensures Agree(CompareNumbers(a, b), M.Cmp(a, b))
  {
    if a == [] || b == [] {
      assert a == [] == b;
      M.CmpIs(a, b);
    } else {
      CmpOfTails(a, b);
      if a[0] == b[0] {
        assert a == [a[0]] + a[1..] && b == [b[0]] + b[1..];
        NumbersAgree(a[1..], b[1..]);
      }
    }
  }

  /**
   Exactly when the order of two releases is that of their numbers as versions, unless
   they have the same numbers and one is a pre-release: when neither list of numbers
   begins the other.
   */
  lemma OrderIsOfVersionsIff(a: Release, b: Release)
    requires a.numbers != b.numbers || (a.pre.None? && b.pre.None?)
    ensures Agree(CompareReleases(a, b), M.Cmp(a.numbers, b.numbers)) <==> !Prefix(a, b) && !Prefix(b, a)
  {
    CompareReleasesIs(a, b);
    if Prefix(a, b) {
      if a.pre.None? {
        ShorterSortsLast(a, b);
      }
    } else if Prefix(b, a) {
      if b.pre.None? {
        ShorterSortsLast(b, a);
        M.CmpIsTotalPreorder(a.numbers, b.numbers, b.numbers);
      }
    } else {
      NumbersAgree(a.numbers, b.numbers);
      M.CmpIs(a.numbers, b.numbers);
    }
  }

  lemma TextsCompare(a: Release, b: Release)
    requires WellFormed(a) && WellFormed(b)
    ensures CompareVersions(TextOf(a), TextOf(b)) == CompareReleases(a, b)
  {
    KeyOfText(a);
    KeyOfText(b);
  }

  lemma PrefixText(v: M.Version, n: nat, pre: Option<string>)
    requires v != [] && (pre.Some? ==> pre.value != "")
    ensures var a, b := Release(v, pre), Release(v + [n], None);
            CompareVersions(TextOf(a), TextOf(b)) == if pre.Some? then Mixed else Greater
  {
    var a, b := Release(v, pre), Release(v + [n], None);
    TextsCompare(a, b);
    assert Prefix(a, b);
    if pre.None? {
      ShorterSortsLast(a, b);
    } else {
      MixedIff(a, b);
    }
  }

  /** `1.4` sorts after `1.4.1`, which is the newer version. */
  lemma ShorterIsNotNewer()
    ensures CompareVersions("1.4", "1.4.1") == Greater && M.Cmp([1, 4], [1, 4, 1]) < 0
  {
    M.SomeDotted();
    PrefixText([1, 4], 1, None);
    assert TextOf(Release([1, 4], None)) == "1.4";
    assert TextOf(Release([1, 4] + [1], None)) == "1.4.1" by {
      assert [1, 4] + [1] == [1, 4, 1];
    }
    M.CmpIs([1, 4], [1, 4, 1]);
    assert M.SmallerAt([1, 4], [1, 4, 1], 2);
  }

  lemma BetaText()
    ensures TextOf(Release([1, 0], Some("beta"))) == "1.0-beta"
  {
    M.SomeDotted();
    assert "-" + "beta" == "-beta" && "1.0" + "-beta" == "1.0-beta";
  }

  /** `1.0-beta` cannot be compared with `1.0.1`. */
  lemma BetaDoesNotCompare()
    ensures CompareVersions("1.0-beta", "1.0.1") == Mixed
  {
    M.SomeDotted();
    PrefixText([1, 0], 1, Some("beta"));
    BetaText();
    assert TextOf(Release([1, 0] + [1], None)) == "1.0.1" by {
      assert [1, 0] + [1] == [1, 0, 1];
    }
  }

  /** A shorter release sorts after the longer ones that begin with it, though it is no greater as a version. */
  lemma ShorterSortsLast(a: Release, b: Release)
    requires Prefix(a, b) && a.pre.None?
    ensures CompareReleases(a, b) == Greater && M.Cmp(a.numbers, b.numbers) <= 0
  {
    CompareReleasesIs(a, b);
    M.CmpIs(a.numbers, b.numbers);
    forall k: nat
      ensures !M.SmallerAt(b.numbers, a.numbers, k)
    {
      if k < |a.numbers| {
        assert a.numbers[k] == b.numbers[k];
      }
    }
  }

  /**
   Versions with one number of numbers, such as X.Y.Z: the keys never mix types and
   are totally preordered. As items 2 and 3 of section 11 of Semantic Versioning 2.0.0
   require, the numbers decide from left to right, and a pre-release comes before its
   release.
   */
  lemma SameLengthOrder(a: Release, b: Release, c: Release)
    requires |a.numbers| == |b.numbers| == |c.numbers|
    ensures CompareReleases(a, b) != Mixed && CompareReleases(b, a) == Flip(CompareReleases(a, b))
    ensures CompareReleases(a, b) == Equal <==> a == b
    ensures CompareReleases(a, b) != Greater && CompareReleases(b, c) != Greater ==> CompareReleases(a, c) != Greater
    ensures a.numbers != b.numbers ==> CompareReleases(a, b) == CompareNumbers(a.numbers, b.numbers)
    ensures a.numbers == b.numbers && a.pre.Some? && b.pre.None? ==> CompareReleases(a, b) == Less
  {
    MixedIff(a, b);
    MixedIff(b, c);
    CompareReleasesIs(a, b);
    KeysFlip(KeyOf(a), KeyOf(b));
    if KeyOf(a) == KeyOf(b) {
      SameKey(a, b);
    }
    if AtMost(CompareReleases(a, b)) && AtMost(CompareReleases(b, c)) {
      KeysTrans(KeyOf(a), KeyOf(b), KeyOf(c));
    }
  }

  lemma SameKey(a: Release, b: Release)
    requires |a.numbers| == |b.numbers| && KeyOf(a) == KeyOf(b)
    ensures a == b
  {
    var n := |a.numbers|;
    assert KeyOf(a)[n] == EndMark(a) && KeyOf(b)[n] == EndMark(b);
    forall i | 0 <= i < n
      ensures a.numbers[i] == b.numbers[i]
    {
      assert KeyOf(a)[i] == Num(a.numbers[i]) && KeyOf(b)[i] == Num(b.numbers[i]);
    }
  }

  // ----- the build to offer -----

  datatype Build = Build(
    plugin: string,
    version: string,
    filename: string,
    platforms: seq<string>,
    mcVersions: seq<string>,
    stable: bool,
    recommended: bool,
    yanked: bool)

  datatype Server = Server(core: string, loader: string, mc: Option<string>)

  /** For a mod of the players' pack the loader decides, not the core; both are in lower case here. */
  predicate Suits(b: Build, s: Server, clientSide: bool) {
    var core := if clientSide then s.loader else s.core;
    (core == "" || b.platforms == [] || core in b.platforms) && M.Matches(s.mc, b.mcVersions)
  }

  predicate Usable(b: Build, s: Server, beta: bool, clientSide: bool) {
    !b.yanked && Suits(b, s, clientSide) && (beta || b.stable)
  }

  function CompareVersions(a: string, b: string): Order {
    Compare(VersionKey(a), VersionKey(b))
  }

  predicate AtLeast(a: Build, b: Build) {
    AtMost(CompareVersions(b.version, a.version))
  }

  /** No two of the builds have versions whose comparison fails. */
  predicate Comparable(bs: seq<Build>) {
    forall a, b :: a in bs && b in bs ==> CompareVersions(a.version, b.version) != Mixed
  }

  lemma AtLeastIsTotal(bs: seq<Build>)
    requires Comparable(bs)
    ensures S.TotalOn(AtLeast, iset b | b in bs)
  {
    forall a, b, c | a in bs && b in bs && c in bs
      ensures AtLeast(a, b) || AtLeast(b, a)
      ensures AtLeast(a, b) && AtLeast(b, c) ==> AtLeast(a, c)
    {
      KeysFlip(VersionKey(a.version), VersionKey(b.version));
      if AtLeast(a, b) && AtLeast(b, c) {
        KeysTrans(VersionKey(c.version), VersionKey(b.version), VersionKey(a.version));
      }
    }
  }

  /** Builds of versions X.Y.Z, with or without a pre-release, are comparable; so are those of any one length. */
  lemma OneLengthComparable(bs: seq<Build>, n: nat)
    requires forall b :: b in bs ==> exists r :: WellFormed(r) && |r.numbers| == n && b.version == TextOf(r)
    ensures Comparable(bs)
  {
    forall a, b | a in bs && b in bs
      ensures CompareVersions(a.version, b.version) != Mixed
    {
      var r :| WellFormed(r) && |r.numbers| == n && a.version == TextOf(r);
      var q :| WellFormed(q) && |q.numbers| == n && b.version == TextOf(q);
      KeyOfText(r);
      KeyOfText(q);
      SameLengthOrder(r, q, q);
    }
  }

  /** The builds a server can use, and of these the recommended ones, in the order given. */
  function UsableOf(bs: seq<Build>, s: Server, beta: bool, clientSide: bool): seq<Build> {
    S.Select(bs, b => Usable(b, s, beta, clientSide))
  }

  function RecommendedOf(bs: seq<Build>): seq<Build> {
    S.Select(bs, (b: Build) => b.recommended)
  }

  /** The build to offer: the best of the recommended ones a server can use, else the best of those it can use. */
  function Latest(bs: seq<Build>, s: Server, beta: bool, clientSide: bool): Option<Build> {
    var usable := UsableOf(bs, s, beta, clientSide);
    if RecommendedOf(usable) != [] then S.Best(RecommendedOf(usable), AtLeast) else S.Best(usable, AtLeast)
  }

  /** What comes of choosing a build: the sort raises an error, or a build, if there is one, is chosen. */
  datatype Choice = SortFailed | Chosen(build: Option<Build>)

  /** Python's sort, newest first. If two versions do not compare, it may raise an error, or leave some order. */
  method SortNewestFirst(usable: seq<Build>) returns (sorted: Option<seq<Build>>)
    ensures Comparable(usable) ==> sorted == Some(S.Sorted(usable, AtLeast))
    ensures sorted.Some? ==> multiset(sorted.value) == multiset(usable)
  {
    if Comparable(usable) {
      AtLeastIsTotal(usable);
      S.SortedKeeps(usable, AtLeast);
      return Some(S.Sorted(usable, AtLeast));
    }
    var raises: bool := *;
    sorted := if raises then None else Some(usable);
  }

  /**
   Which builds a server can use: those not withdrawn, stable unless betas are asked for,
   for its version, and for its core (its loader, if `clientSide`) where both are told.
   */
  lemma UsableOfIs(bs: seq<Build>, s: Server, beta: bool, clientSide: bool, b: Build)
    ensures b in UsableOf(bs, s, beta, clientSide)
            <==> && b in bs && !b.yanked && (b.stable || beta) && M.Matches(s.mc, b.mcVersions)
                 && (b.platforms == [] || (var core := if clientSide then s.loader else s.core;
                                           core in b.platforms || core == ""))
  {
    S.SelectIs(bs, b => Usable(b, s, beta, clientSide));
  }

  /**
   Sorts the builds a server can use and takes the first recommended one, else the
   first. Where no two usable versions fail to compare, that is the best one; where two
   do and the sort still ends, it is one of the usable ones, recommended if any is.
   */
  method LatestFor(bs: seq<Build>, s: Server, beta: bool, clientSide: bool) returns (choice: Choice)
    ensures Comparable(UsableOf(bs, s, beta, clientSide)) ==> choice == Chosen(Latest(bs, s, beta, clientSide))
    ensures choice.Chosen? ==> (choice.build.None? <==> UsableOf(bs, s, beta, clientSide) == [])
    ensures choice.Chosen? && choice.build.Some? ==>
              var usable := UsableOf(bs, s, beta, clientSide);
              && choice.build.value in usable && choice.build.value in bs
              && !choice.build.value.yanked && (choice.build.value.stable || beta)
              && M.Matches(s.mc, choice.build.value.mcVersions)
              && (choice.build.value.recommended <== exists x :: x in usable && x.recommended)
  {
    var usable := UsableOf(bs, s, beta, clientSide);
    var sorted := SortNewestFirst(usable);
    if sorted.None? {
      return SortFailed;
    }
    var first := S.FirstWith(sorted.value, (b: Build) => b.recommended);
    S.FirstOfIs(sorted.value, (b: Build) => b.recommended);
    SameEmptiness(sorted.value, usable);
    if Comparable(usable) {
      AtLeastIsTotal(usable);
      S.FirstOrBest(usable, (b: Build) => b.recommended, AtLeast, iset b | b in usable);
    }
    choice := Chosen(first);
    if first.Some? {
      UsableOfIs(bs, s, beta, clientSide, first.value);
    }
  }

  lemma SameEmptiness(xs: seq<Build>, ys: seq<Build>)
    requires multiset(xs) == multiset(ys)
    ensures |xs| == |ys| && forall x :: x in xs <==> x in ys
  {
    assert |multiset(xs)| == |xs| && |multiset(ys)| == |ys|;
    forall x ensures x in xs <==> x in ys {
      assert x in xs <==> x in multiset(xs);
      assert x in ys <==> x in multiset(ys);
    }
  }

  /** `b` is the first of the newest builds the server can use, or of the recommended ones among them. */
  ghost predicate Offered(b: Build, bs: seq<Build>, s: Server, beta: bool, clientSide: bool) {
    && b in bs && Usable(b, s, beta, clientSide)
    && forall x :: x in bs && Usable(x, s, beta, clientSide) ==>
         && (x.recommended ==> b.recommended)
         && (x.recommended == b.recommended ==> CompareVersions(b.version, x.version) in {Greater, Equal})
  }

  /** The best of some comparable builds is one of them, and at least as new as each. */
  lemma BestIsNewest(from: seq<Build>, usable: seq<Build>)
    requires Comparable(usable) && forall x :: x in from ==> x in usable
    ensures S.Best(from, AtLeast).None? <==> from == []
    ensures S.Best(from, AtLeast).Some? ==>
              var best := S.Best(from, AtLeast).value;
              best in from && forall x :: x in from ==> CompareVersions(best.version, x.version) in {Greater, Equal}
  {
    var among := iset b | b in usable;
    AtLeastIsTotal(usable);
    assert S.AllIn(from, among);
    var k := S.BestIsFirstLargest(from, AtLeast, among);
    forall x | x in from
      ensures CompareVersions(from[k].version, x.version) in {Greater, Equal}
    {
      var j :| 0 <= j < |from| && from[j] == x;
      assert AtLeast(from[k], x);
      KeysFlip(VersionKey(from[k].version), VersionKey(x.version));
    }
  }

  /**
   What that comes to: none only if the server can use none, otherwise a newest recommended
   build, or a newest one if none is recommended.
   */
  lemma LatestIsOffered(bs: seq<Build>, s: Server, beta: bool, clientSide: bool)
    requires Comparable(UsableOf(bs, s, beta, clientSide))
    ensures var latest := Latest(bs, s, beta, clientSide);
            && (latest.None? <==> forall x :: x in bs ==> !Usable(x, s, beta, clientSide))
            && (latest.Some? ==> Offered(latest.value, bs, s, beta, clientSide))
  {
    var usable := UsableOf(bs, s, beta, clientSide);
    var recommended := RecommendedOf(usable);
    assert forall x :: x in usable <==> x in bs && Usable(x, s, beta, clientSide) by {
      S.SelectIs(bs, b => Usable(b, s, beta, clientSide));
    }
    assert forall x :: x in recommended <==> x in usable && x.recommended by {
      S.SelectIs(usable, (b: Build) => b.recommended);
    }
    BestIsNewest(usable, usable);
    BestIsNewest(recommended, usable);
    if usable != [] {
      assert usable[0] in usable;
    }
    if recommended != [] {
      assert recommended[0] in recommended;
    }
  }

  // ----- the recommended build -----

  function SetOf(vs: seq<string>): set<string> {
    set v | v in vs
  }

  predicate Overlap(a: Build, b: Build) {
    SetOf(a.mcVersions) * SetOf(b.mcVersions) != {}
  }

  lemma OverlapIff(a: Build, b: Build)
    ensures Overlap(a, b) <==> exists v :: v in a.mcVersions && v in b.mcVersions
  {
    if v :| v in a.mcVersions && v in b.mcVersions {
      assert v in SetOf(a.mcVersions) * SetOf(b.mcVersions);
    }
    if Overlap(a, b) {
      var v :| v in SetOf(a.mcVersions) * SetOf(b.mcVersions);
    }
  }

  /** No two recommended builds of a plugin are for one Minecraft version entry. */
  ghost predicate OneRecommended(rows: seq<Build>) {
    forall i, j :: 0 <= i < j < |rows| && rows[i].plugin == rows[j].plugin && rows[i].recommended && rows[j].recommended
                   ==> !Overlap(rows[i], rows[j])
  }

  /** Row `i` becomes recommended; those of its plugin that list one of its entries step down. */
  function Recommended(rows: seq<Build>, i: nat): seq<Build>
    requires i < |rows|
  {
    seq(|rows|, j requires 0 <= j < |rows| =>
      if j == i then rows[j].(recommended := true, yanked := false)
      else if rows[j].plugin == rows[i].plugin && rows[j].recommended && Overlap(rows[j], rows[i])
      then rows[j].(recommended := false)
      else rows[j])
  }

  /** Where the row of a build is, or the length. */
  function RowOf(rows: seq<Build>, b: Build): (i: nat)
    ensures i <= |rows| && (i < |rows| ==> SameRow(rows[i], b)) && forall j :: 0 <= j < i ==> !SameRow(rows[j], b)
  {
    if rows == [] || SameRow(rows[0], b) then 0 else 1 + RowOf(rows[1..], b)
  }

  predicate SameRow(a: Build, b: Build) {
    a.plugin == b.plugin && a.version == b.version && a.filename == b.filename
  }

  /** The rows once the build is stored, its row keeping whether it was recommended or withdrawn. */
  function Stored(rows: seq<Build>, b: Build): seq<Build> {
    var i := RowOf(rows, b);
    if i == |rows| then rows + [b.(recommended := false, yanked := false)]
    else rows[i := b.(recommended := rows[i].recommended, yanked := rows[i].yanked)]
  }

  class Catalog {
    var rows: seq<Build>

    constructor ()
      ensures rows == []
    {
      rows := [];
    }

    method Recommend(i: nat)
      requires i < |rows|
      modifies this
      ensures rows == Recommended(old(rows), i)
      ensures |rows| == |old(rows)| && rows[i] == old(rows)[i].(recommended := true, yanked := false)
      ensures forall j :: 0 <= j < |rows| && j != i ==>
                rows[j].(recommended := old(rows)[j].recommended) == old(rows)[j]
      ensures forall j :: 0 <= j < |rows| && j != i ==>
                (rows[j].recommended
                 <==> && old(rows)[j].recommended
                      && (old(rows)[j].plugin == old(rows)[i].plugin ==>
                            forall v :: v in old(rows)[j].mcVersions ==> v !in old(rows)[i].mcVersions))
    {
      var row := rows[i];
      for j := 0 to |rows|
        invariant |rows| == |old(rows)|
        invariant forall k :: 0 <= k < j && k != i ==> rows[k] == Recommended(old(rows), i)[k]
        invariant forall k :: j <= k < |rows| || k == i ==> rows[k] == old(rows)[k]
      {
        var other := rows[j];
        if other.plugin == row.plugin && other.recommended && j != i
            && SetOf(other.mcVersions) * SetOf(row.mcVersions) != {} {
          rows := rows[j := other.(recommended := false)];
        }
      }
      rows := rows[i := row.(recommended := true, yanked := false)];
      forall j | 0 <= j < |rows|
        ensures Overlap(old(rows)[j], row) <==> exists v :: v in old(rows)[j].mcVersions && v in row.mcVersions
      {
        OverlapIff(old(rows)[j], row);
      }
    }

    /** Stores a build; `recommended` asks for it to be the one offered first. */
    method Record(b: Build, recommended: bool) returns (i: nat)
      modifies this
      ensures i == RowOf(old(rows), b) && i < |rows|
      ensures rows == if recommended then Recommended(Stored(old(rows), b), i) else Stored(old(rows), b)
    {
      i := RowOf(rows, b);
      if i == |rows| {
        rows := rows + [b.(recommended := false, yanked := false)];
      } else {
        rows := rows[i := b.(recommended := rows[i].recommended, yanked := rows[i].yanked)];
      }
      if recommended {
        Recommend(i);
      }
    }
  }

  /** No two of the builds other than row `i` are recommended for one entry. */
  ghost predicate OthersOnce(rows: seq<Build>, i: nat) {
    forall j, k ::
      0 <= j < k < |rows| && j != i && k != i && rows[j].plugin == rows[k].plugin && rows[j].recommended
          && rows[k].recommended
      ==> !Overlap(rows[j], rows[k])
  }

  /** Recommending a build leaves one recommended build of a plugin per entry, if the others were so. */
  lemma RecommendedKeepsOne(rows: seq<Build>, i: nat)
    requires i < |rows| && OthersOnce(rows, i)
    ensures OneRecommended(Recommended(rows, i)) && Recommended(rows, i)[i].recommended
  {
    var rows' := Recommended(rows, i);
    forall j, k | 0 <= j < k < |rows'| && rows'[j].plugin == rows'[k].plugin && rows'[j].recommended
        && rows'[k].recommended
      ensures !Overlap(rows'[j], rows'[k])
    {
      assert SetOf(rows[j].mcVersions) * SetOf(rows[k].mcVersions)
          == SetOf(rows[k].mcVersions) * SetOf(rows[j].mcVersions);
    }
  }

  /** The build, as stored, clashes with another recommended build of its plugin. */
  ghost predicate Clashes(rows: seq<Build>, b: Build) {
    exists j :: 0 <= j < |rows| && j != RowOf(rows, b) && rows[j].plugin == b.plugin && rows[j].recommended
        && Overlap(rows[j], b)
  }

  lemma OverlapBothWays(a: Build, b: Build)
    ensures Overlap(a, b) == Overlap(b, a)
  {
    assert SetOf(a.mcVersions) * SetOf(b.mcVersions) == SetOf(b.mcVersions) * SetOf(a.mcVersions);
  }

  /** Which row is that of the build: the first of its plugin, version and file name. */
  lemma RowOfIff(rows: seq<Build>, b: Build, i: nat)
    requires i <= |rows|
    ensures i == RowOf(rows, b)
            <==> && (i < |rows| ==>
                       rows[i].plugin == b.plugin && rows[i].version == b.version && rows[i].filename == b.filename)
                 && forall j :: 0 <= j < i ==>
                      rows[j].plugin != b.plugin || rows[j].version != b.version || rows[j].filename != b.filename
  {
    assert RowOf(rows, b) < i ==> SameRow(rows[RowOf(rows, b)], b);
  }

  /** Each row but that of the build stays; that one becomes the build, its marks kept, or none if it is new. */
  lemma StoredRows(rows: seq<Build>, b: Build)
    ensures var i := RowOf(rows, b);
            && i < |Stored(rows, b)| && (i == |rows| ==> |Stored(rows, b)| == |rows| + 1)
                  && (i < |rows| ==> |Stored(rows, b)| == |rows|)
            && (forall j :: 0 <= j < |rows| && j != i ==> Stored(rows, b)[j] == rows[j])
            && Stored(rows, b)[i].plugin == b.plugin && Stored(rows, b)[i].mcVersions == b.mcVersions
            && (Stored(rows, b)[i].recommended <==> i < |rows| && rows[i].recommended)
            && (Stored(rows, b)[i].yanked <==> i < |rows| && rows[i].yanked)
            && Stored(rows, b)[i].(recommended := b.recommended, yanked := b.yanked) == b
  {
  }

  lemma ClashStays(rows: seq<Build>, b: Build)
    requires RowOf(rows, b) < |rows| && rows[RowOf(rows, b)].recommended && Clashes(rows, b)
    ensures !OneRecommended(Stored(rows, b))
  {
    var i, stored := RowOf(rows, b), Stored(rows, b);
    StoredRows(rows, b);
    var j :| 0 <= j < |rows| && j != i && rows[j].plugin == b.plugin && rows[j].recommended && Overlap(rows[j], b);
    assert stored[j] == rows[j] && Overlap(stored[j], stored[i]);
    OverlapBothWays(stored[j], stored[i]);
    var lo, hi := if i < j then i else j, if i < j then j else i;
    assert lo < hi && stored[lo].plugin == stored[hi].plugin && stored[lo].recommended && stored[hi].recommended;
    assert Overlap(stored[lo], stored[hi]);
  }

  lemma NoClashNoHarm(rows: seq<Build>, b: Build)
    requires OneRecommended(rows)
    requires RowOf(rows, b) == |rows| || !rows[RowOf(rows, b)].recommended || !Clashes(rows, b)
    ensures OneRecommended(Stored(rows, b))
  {
    var i, stored := RowOf(rows, b), Stored(rows, b);
    StoredRows(rows, b);
    forall j, k | 0 <= j < k < |stored| && stored[j].plugin == stored[k].plugin && stored[j].recommended
        && stored[k].recommended
      ensures !Overlap(stored[j], stored[k])
    {
      OverlapBothWays(stored[j], stored[k]);
      if j != i && k != i {
        assert stored[j] == rows[j] && stored[k] == rows[k];
      } else {
        var other := if j == i then k else j;
        assert stored[other] == rows[other];
      }
    }
  }

  /**
   Recording keeps one recommended build per entry exactly when the build is
   recommended in the same call, or its row was not recommended, or its new entries
   are of no other recommended build: a recommended row given new entries keeps its
   mark unchecked.
   */
  lemma RecordKeepsOneIff(rows: seq<Build>, b: Build, recommended: bool)
    requires OneRecommended(rows)
    ensures var i := RowOf(rows, b);
            var stored := Stored(rows, b);
            OneRecommended(if recommended then Recommended(stored, i) else stored)
            <==> recommended || i == |rows| || !rows[i].recommended || !Clashes(rows, b)
  {
    var i := RowOf(rows, b);
    if recommended {
      StoredRows(rows, b);
      RecommendedKeepsOne(Stored(rows, b), i);
    } else if i < |rows| && rows[i].recommended && Clashes(rows, b) {
      ClashStays(rows, b);
    } else {
      NoClashNoHarm(rows, b);
    }
  }

  // ----- recommended builds that a server of one version can use -----

  /** Some Minecraft version is taken by the entries of both. */
  ghost predicate Shares(a: Build, b: Build) {
    I.CommonVersion(a.mcVersions, b.mcVersions)
  }

  /** The same, computed from the entries. */
  predicate Meet(a: Build, b: Build) {
    I.ListsMeet(a.mcVersions, b.mcVersions)
  }

  lemma MeetIsShares(rows: seq<Build>, b: Build)
    ensures forall j :: 0 <= j < |rows| ==> (Meet(rows[j], b) <==> Shares(rows[j], b))
  {
    forall j | 0 <= j < |rows|
      ensures Meet(rows[j], b) <==> Shares(rows[j], b)
    {
      I.ListsMeetIff(rows[j].mcVersions, b.mcVersions);
    }
  }

  /** The builds are not both recommended for some version. */
  ghost predicate NotBoth(a: Build, b: Build) {
    a.plugin == b.plugin && a.recommended && b.recommended ==> !Shares(a, b)
  }

  ghost predicate OnePerVersion(rows: seq<Build>) {
    forall i, j :: 0 <= i < j < |rows| ==> NotBoth(rows[i], rows[j])
  }

  /** The other recommended builds of the plugin whose entries meet those of `b` list one of them. */
  predicate SharersOverlap(rows: seq<Build>, i: nat, b: Build) {
    forall j :: 0 <= j < |rows| && j != i && rows[j].plugin == b.plugin && rows[j].recommended && Meet(rows[j], b)
                ==> Overlap(rows[j], b)
  }

  predicate NoSharers(rows: seq<Build>, i: nat, b: Build) {
    forall j :: 0 <= j < |rows| && j != i && rows[j].plugin == b.plugin && rows[j].recommended ==> !Meet(rows[j], b)
  }

  lemma SharesBothWays(a: Build, b: Build)
    ensures Shares(a, b) == Shares(b, a)
  {
  }

  /** A row apart from all others, among rows that are apart from each other. */
  lemma OneRowIff(rows: seq<Build>, i: nat)
    requires i < |rows|
    requires forall j, k :: 0 <= j < k < |rows| && j != i && k != i ==> NotBoth(rows[j], rows[k])
    ensures OnePerVersion(rows) <==> !rows[i].recommended || NoSharers(rows, i, rows[i])
  {
    MeetIsShares(rows, rows[i]);
    forall j | 0 <= j < |rows| && j != i
      ensures NotBoth(rows[j], rows[i]) == NotBoth(rows[i], rows[j])
    {
      SharesBothWays(rows[j], rows[i]);
    }
    if OnePerVersion(rows) {
      forall j | 0 <= j < |rows| && j != i
        ensures NotBoth(rows[j], rows[i])
      {
        assert j < i || i < j;
      }
    } else {
      var j, k :| 0 <= j < k < |rows| && !NotBoth(rows[j], rows[k]);
      assert j == i || k == i;
    }
  }

  /**
   Recommending a build leaves one recommended build of a plugin per Minecraft version
   exactly when every other recommended build whose entries meet its own also lists one
   of them: entries are compared as texts. That can be computed from the entries.
   */
  lemma RecommendedPerVersionIff(rows: seq<Build>, i: nat)
    requires i < |rows|
    requires forall j, k :: 0 <= j < k < |rows| && j != i && k != i ==> NotBoth(rows[j], rows[k])
    ensures OnePerVersion(Recommended(rows, i)) <==> SharersOverlap(rows, i, rows[i])
  {
    var rows' := Recommended(rows, i);
    forall j, k | 0 <= j < k < |rows'| && j != i && k != i
      ensures NotBoth(rows'[j], rows'[k])
    {
      assert NotBoth(rows[j], rows[k]);
    }
    OneRowIff(rows', i);
    forall j | 0 <= j < |rows| && j != i
      ensures Meet(rows'[j], rows'[i]) == Meet(rows[j], rows[i])
    {
    }
  }

  /** The same for recording a build, whose row may be recommended already. */
  lemma RecordPerVersionIff(rows: seq<Build>, b: Build, recommended: bool)
    requires OnePerVersion(rows)
    ensures var i := RowOf(rows, b);
            var stored := Stored(rows, b);
            OnePerVersion(if recommended then Recommended(stored, i) else stored)
            <==> if recommended then SharersOverlap(rows, i, b)
                 else i == |rows| || !rows[i].recommended || NoSharers(rows, i, b)
  {
    var i, stored := RowOf(rows, b), Stored(rows, b);
    StoredRows(rows, b);
    forall j, k | 0 <= j < k < |stored| && j != i && k != i
      ensures NotBoth(stored[j], stored[k])
    {
      assert stored[j] == rows[j] && stored[k] == rows[k];
    }
    forall j | 0 <= j < |rows| && j != i
      ensures Meet(stored[j], stored[i]) == Meet(rows[j], b) && Overlap(stored[j], stored[i]) == Overlap(rows[j], b)
    {
    }
    if recommended {
      RecommendedPerVersionIff(stored, i);
    } else {
      OneRowIff(stored, i);
    }
  }

  /** A wildcard and a version it takes, such as `1.21.x` and `1.21.4`, share the version but no entry. */
  lemma WildcardSharesVersion(a: Build, b: Build, p: M.Version, v: M.Version)
    requires p != [] && p <= v && a.mcVersions == [M.Dotted(p) + ".x"] && b.mcVersions == [M.Dotted(v)]
    ensures M.Matches(Some(M.Dotted(v)), a.mcVersions) && M.Matches(Some(M.Dotted(v)), b.mcVersions)
    ensures Shares(a, b) && !Overlap(a, b)
  {
    M.WildcardReads(p, false, v);
    M.ExactReads(v, v);
    M.CmpIs(v, v);
    assert M.Dotted(p) + ".x" in a.mcVersions && M.Dotted(v) in b.mcVersions;
    M.DottedIsBare(v);
    M.BareStrips(M.Dotted(v));
    M.KeyOfDotted(v);
    assert (M.Dotted(p) + ".x")[|M.Dotted(p)| + 1] == 'x';
  }

  /** So do two builds without entries. */
  lemma NoEntriesShare(a: Build, b: Build)
    requires a.mcVersions == [] == b.mcVersions
    ensures Shares(a, b) && !Overlap(a, b)
  {
    I.ListsMeetIff(a.mcVersions, b.mcVersions);
  }

  /**
   Recommending a build for `1.21.4` beside one for `1.21.x` leaves both, and a server of
   that version can use both.
   */
  lemma TwoForOneVersion(a: Build, b: Build)
    requires a.plugin == b.plugin && a.recommended
    requires a.mcVersions == [M.Dotted([1, 21]) + ".x"] && b.mcVersions == [M.Dotted([1, 21, 4])]
    ensures OneRecommended(Recommended([a, b], 1)) && !OnePerVersion(Recommended([a, b], 1))
  {
    WildcardSharesVersion(a, b, [1, 21], [1, 21, 4]);
    MeetIsShares([a, b], b);
    RecommendedPerVersionIff([a, b], 1);
    RecommendedKeepsOne([a, b], 1);
    assert [a, b][0] == a && [a, b][1] == b;
  }
}
