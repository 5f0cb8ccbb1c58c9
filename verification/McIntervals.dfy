/**
 When two entries of Minecraft versions (apps/api/app/core/mc_versions.py,
 `entry_matches`) take a version in common: every entry is an interval, and two
 intervals meet as their ends tell.
 */
module McIntervals {
  import opened McVersions
  import opened Text
  import opened Wrappers

  datatype Upper = Unbounded | UpTo(hi: Version, hiIn: bool)

  /** From `lo` on, up to `upper`. */
  datatype Interval = Interval(lo: Version, loIn: bool, upper: Upper)

  /** The versions an entry takes, but for the length a wildcard asks of them; None if it takes none. */
  function IntervalOf(e: Entry): Option<Interval> {
    match e
    case Nothing => None
    case Wildcard(prefix) =>
      if Key(prefix) == [] then None else Some(Interval(Key(prefix), true, UpTo(Bumped(Key(prefix)), false)))
    case Range(loIn, lo, hi, hiIn) =>
      Some(Interval(if lo == "" then [] else Key(lo), lo == "" || loIn,
                    if hi == "" then Unbounded else UpTo(Key(hi), hiIn)))
    case Compare(sign, than) =>
      (match sign
       case Ge => Some(Interval(Key(than), true, Unbounded))
       case Le => Some(Interval([], true, UpTo(Key(than), true)))
       case Gt => Some(Interval(Key(than), false, Unbounded))
       case Lt => Some(Interval([], true, UpTo(Key(than), false)))
       case Eq => Some(Interval(Key(than), true, UpTo(Key(than), true))))
    case Exactly(w) => if Key(w) == [] then None else Some(Interval(Key(w), true, UpTo(Key(w), true)))
  }

  /** The fewest components a version needs for an entry to take it. */
  function LengthFor(e: Entry): nat {
    if e.Wildcard? then |Key(e.prefix)| else 1
  }

  predicate Above(v: Version, i: Interval) {
    Cmp(i.lo, v) < 0 || (i.loIn && Cmp(i.lo, v) == 0)
  }

  predicate Below(v: Version, u: Upper) {
    u.Unbounded? || Cmp(v, u.hi) < 0 || (u.hiIn && Cmp(v, u.hi) == 0)
  }

  predicate In(v: Version, i: Interval) {
    Above(v, i) && Below(v, i.upper)
  }

  lemma NothingIsSmaller(v: Version)
    ensures Cmp([], v) <= 0
  {
    CmpIs([], v);
    assert forall k: nat :: !SmallerAt(v, [], k);
  }

  lemma CmpFlip(a: Version, b: Version)
    ensures (Cmp(a, b) < 0 <==> Cmp(b, a) > 0) && (Cmp(a, b) > 0 <==> Cmp(b, a) < 0)
    ensures Cmp(a, b) == 0 <==> Cmp(b, a) == 0
  {
    CmpIsTotalPreorder(a, b, b);
    CmpIsTotalPreorder(b, a, a);
  }

  lemma RangeIsIn(loIn: bool, lo: string, hi: string, hiIn: bool, v: Version)
    requires v != []
    ensures Says(Range(loIn, lo, hi, hiIn), v) <==> In(v, IntervalOf(Range(loIn, lo, hi, hiIn)).value)
  {
    NothingIsSmaller(v);
    CmpFlip(v, Key(lo));
  }

  lemma CompareIsIn(sign: Sign, than: string, v: Version)
    requires v != []
    ensures Says(Compare(sign, than), v) <==> In(v, IntervalOf(Compare(sign, than)).value)
  {
    NothingIsSmaller(v);
    CmpFlip(v, Key(than));
  }

  lemma WildcardIsIn(prefix: string, v: Version)
    requires v != [] && Key(prefix) != []
    ensures Says(Wildcard(prefix), v) <==> |v| >= |Key(prefix)| && In(v, IntervalOf(Wildcard(prefix)).value)
  {
    WildcardIsInterval(prefix, v);
  }

  /** An entry takes the versions of its interval that are long enough. */
  lemma SaysIsIn(e: Entry, v: Version)
    requires v != []
    ensures Says(e, v) <==> IntervalOf(e).Some? && |v| >= LengthFor(e) && In(v, IntervalOf(e).value)
  {
    match e
    case Nothing =>
    case Wildcard(prefix) =>
      if Key(prefix) != [] {
        WildcardIsIn(prefix, v);
      }
    case Range(loIn, lo, hi, hiIn) => RangeIsIn(loIn, lo, hi, hiIn, v);
    case Compare(sign, than) => CompareIsIn(sign, than, v);
    case Exactly(w) => CmpFlip(v, Key(w));
  }

  // ----- when intervals meet -----

  /** The lower end of an interval is below an upper end. */
  predicate Opens(i: Interval, u: Upper) {
    u.Unbounded? || Cmp(i.lo, u.hi) < 0 || (i.loIn && u.hiIn && Cmp(i.lo, u.hi) == 0)
  }

  /** Each lower end is below each upper end. */
  predicate Meet(i: Interval, j: Interval) {
    Opens(i, i.upper) && Opens(i, j.upper) && Opens(j, i.upper) && Opens(j, j.upper)
  }

  lemma CommonOpens(i: Interval, u: Upper, v: Version)
    requires Above(v, i) && Below(v, u)
    ensures Opens(i, u)
  {
    if u.UpTo? {
      CmpIsTotalPreorder(i.lo, v, u.hi);
    }
  }

  /** Zeros at the end change nothing. */
  lemma PaddedIsSame(a: Version, n: nat)
    ensures Cmp(a, Padded(a, n)) == 0 && |Padded(a, n)| >= n
  {
    CmpIs(a, Padded(a, n));
  }

  /** A version just above another one, and below all that are larger than that and no longer than `n`. */
  function JustAbove(a: Version, n: nat): Version {
    Padded(a, n) + [1]
  }

  lemma JustAboveIs(a: Version, n: nat, b: Version)
    requires |a| <= n
    ensures Cmp(a, JustAbove(a, n)) < 0 && |JustAbove(a, n)| == n + 1
    ensures |b| <= n && Cmp(a, b) < 0 ==> Cmp(JustAbove(a, n), b) < 0
  {
    var v := JustAbove(a, n);
    assert forall i: nat :: i < n ==> At(v, i) == At(a, i);
    CmpIs(a, v);
    assert SmallerAt(a, v, n);
    if |b| <= n && Cmp(a, b) < 0 {
      CmpIs(a, b);
      CmpIs(v, b);
      var k: nat :| SmallerAt(a, b, k);
      assert SmallerAt(v, b, k);
    }
  }

  function UpperLength(u: Upper): nat {
    if u.UpTo? then |u.hi| else 0
  }

  /** The higher of two lower ends: what is above it is above both. */
  predicate Higher(i: Interval, j: Interval) {
    Cmp(j.lo, i.lo) < 0 || (Cmp(j.lo, i.lo) == 0 && (i.loIn ==> j.loIn))
  }

  lemma OneIsHigher(i: Interval, j: Interval)
    ensures Higher(i, j) || Higher(j, i)
  {
    CmpFlip(i.lo, j.lo);
  }

  lemma AboveHigher(i: Interval, j: Interval, v: Version)
    requires Higher(i, j) && Above(v, i)
    ensures Above(v, j)
  {
    CmpIsTotalPreorder(j.lo, i.lo, v);
  }

  /** A version of at least `n` components at the lower end of an interval, or just above it. */
  function Lowest(i: Interval, n: nat): Version {
    if i.loIn then Padded(i.lo, n) else JustAbove(i.lo, n)
  }

  lemma LowestIs(i: Interval, n: nat, u: Upper)
    requires |i.lo| <= n && UpperLength(u) <= n && Opens(i, u)
    ensures Above(Lowest(i, n), i) && Below(Lowest(i, n), u) && |Lowest(i, n)| >= n
  {
    var v := Lowest(i, n);
    if i.loIn {
      PaddedIsSame(i.lo, n);
      if u.UpTo? {
        CmpFlip(i.lo, v);
        CmpIsTotalPreorder(v, i.lo, u.hi);
      }
    } else {
      JustAboveIs(i.lo, n, if u.UpTo? then u.hi else []);
    }
  }

  function Longest(i: Interval, j: Interval, n: nat): (m: nat)
    ensures m >= n && m >= |i.lo| && m >= |j.lo| && m >= UpperLength(i.upper) && m >= UpperLength(j.upper)
  {
    n + |i.lo| + |j.lo| + UpperLength(i.upper) + UpperLength(j.upper)
  }

  lemma MeetAtHigher(i: Interval, j: Interval, n: nat)
    requires Meet(i, j) && Higher(i, j)
    ensures exists v :: |v| >= n && In(v, i) && In(v, j)
  {
    var m := Longest(i, j, n);
    var v := Lowest(i, m);
    LowestIs(i, m, i.upper);
    LowestIs(i, m, j.upper);
    AboveHigher(i, j, v);
    assert In(v, i) && In(v, j);
  }

  /** Two intervals have a version in common, as long as one likes, exactly when their ends are in order. */
  lemma MeetIff(i: Interval, j: Interval, n: nat)
    ensures Meet(i, j) <==> exists v :: |v| >= n && In(v, i) && In(v, j)
  {
    if v :| |v| >= n && In(v, i) && In(v, j) {
      CommonOpens(i, i.upper, v);
      CommonOpens(i, j.upper, v);
      CommonOpens(j, i.upper, v);
      CommonOpens(j, j.upper, v);
    }
    if Meet(i, j) {
      OneIsHigher(i, j);
      if Higher(i, j) {
        MeetAtHigher(i, j, n);
      } else {
        MeetAtHigher(j, i, n);
      }
    }
  }

  // ----- entries and lists of entries -----

  predicate EntriesMeet(e: string, f: string) {
    var i, j := IntervalOf(Parse(e)), IntervalOf(Parse(f));
    i.Some? && j.Some? && Meet(i.value, j.value)
  }

  /** Two entries take a version in common exactly when their intervals meet. */
  lemma EntriesMeetIff(e: string, f: string)
    ensures EntriesMeet(e, f) <==> exists v :: v != [] && Says(Parse(e), v) && Says(Parse(f), v)
  {
    var d, g := Parse(e), Parse(f);
    var n := 1 + LengthFor(d) + LengthFor(g);
    if v :| v != [] && Says(d, v) && Says(g, v) {
      SaysIsIn(d, v);
      SaysIsIn(g, v);
      MeetIff(IntervalOf(d).value, IntervalOf(g).value, 0);
      assert |v| >= 0 && In(v, IntervalOf(d).value) && In(v, IntervalOf(g).value);
    }
    if EntriesMeet(e, f) {
      MeetIff(IntervalOf(d).value, IntervalOf(g).value, n);
      var v :| |v| >= n && In(v, IntervalOf(d).value) && In(v, IntervalOf(g).value);
      SaysIsIn(d, v);
      SaysIsIn(g, v);
      assert v != [];
    }
  }

  /** Computed from the texts: some version is taken by both lists, an empty list taking all. */
  predicate ListsMeet(es: seq<string>, fs: seq<string>) {
    if es == [] && fs == [] then true
    else if es == [] then exists f :: f in fs && EntriesMeet(f, f)
    else if fs == [] then exists e :: e in es && EntriesMeet(e, e)
    else exists e, f :: e in es && f in fs && EntriesMeet(e, f)
  }

  /** A version, written out, that both lists take. */
  ghost predicate CommonVersion(es: seq<string>, fs: seq<string>) {
    exists mc :: Strip(mc) != "" && Matches(Some(mc), es) && Matches(Some(mc), fs)
  }

  lemma WrittenMatches(v: Version, es: seq<string>)
    requires v != []
    ensures Strip(Dotted(v)) != ""
    ensures Matches(Some(Dotted(v)), es) <==> es == [] || exists e :: e in es && Says(Parse(e), v)
  {
    DottedIsBare(v);
    BareStrips(Dotted(v));
    KeyOfDotted(v);
    if e :| e in es && Says(Parse(e), v) {
      assert EntryMatches(e, Dotted(v));
    }
  }

  lemma MeetingIsCommon(es: seq<string>, fs: seq<string>, e: string, f: string)
    ensures EntriesMeet(e, f) && (es == [] || e in es) && (fs == [] || f in fs) ==> CommonVersion(es, fs)
  {
    if EntriesMeet(e, f) && (es == [] || e in es) && (fs == [] || f in fs) {
      EntriesMeetIff(e, f);
      var v :| v != [] && Says(Parse(e), v) && Says(Parse(f), v);
      WrittenMatches(v, es);
      WrittenMatches(v, fs);
      var mc := Dotted(v);
      assert Strip(mc) != "" && Matches(Some(mc), es) && Matches(Some(mc), fs);
    }
  }

  lemma CommonIsMeeting(es: seq<string>, fs: seq<string>)
    requires CommonVersion(es, fs)
    ensures ListsMeet(es, fs)
  {
    var mc :| Strip(mc) != "" && Matches(Some(mc), es) && Matches(Some(mc), fs);
    var v := Key(mc);
    if es != [] && fs != [] {
      var e :| e in es && EntryMatches(e, mc);
      var f :| f in fs && EntryMatches(f, mc);
      EntriesMeetIff(e, f);
    } else if es != [] {
      var e :| e in es && EntryMatches(e, mc);
      EntriesMeetIff(e, e);
    } else if fs != [] {
      var f :| f in fs && EntryMatches(f, mc);
      EntriesMeetIff(f, f);
    }
  }

  /** Two lists of entries take a Minecraft version in common exactly when the computation says so. */
  lemma ListsMeetIff(es: seq<string>, fs: seq<string>)
    ensures ListsMeet(es, fs) <==> CommonVersion(es, fs)
  {
    if ListsMeet(es, fs) {
      if es == [] && fs == [] {
        WrittenMatches([1], es);
        assert Matches(Some(Dotted([1])), fs);
      } else if es == [] {
        var f :| f in fs && EntriesMeet(f, f);
        MeetingIsCommon(es, fs, f, f);
      } else if fs == [] {
        var e :| e in es && EntriesMeet(e, e);
        MeetingIsCommon(es, fs, e, e);
      } else {
        var e, f :| e in es && f in fs && EntriesMeet(e, f);
        MeetingIsCommon(es, fs, e, f);
      }
    }
    if CommonVersion(es, fs) {
      CommonIsMeeting(es, fs);
    }
  }
}
