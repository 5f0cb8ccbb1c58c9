/**
 Which families of Telegram entities the conversion writes with markers that match:
 exactly the nested ones (apps/bot/services/tg_news.py:41-71).
 */
module TelegramBrackets {
  import opened Wrappers
  import opened TelegramMarkdown
  import opened TelegramRendering

  /** The markers of the spans `p` holds of, without text. */
  function Only(ts: seq<Token>, p: Span -> bool): seq<Token> {
    if ts == [] then []
    else
      match ts[0]
      case Text(_) => Only(ts[1..], p)
      case Open(s) => if p(s) then [ts[0]] + Only(ts[1..], p) else Only(ts[1..], p)
      case Close(s) => if p(s) then [ts[0]] + Only(ts[1..], p) else Only(ts[1..], p)
  }

  lemma {:induction false} OnlyJoin(a: seq<Token>, b: seq<Token>, p: Span -> bool)
    ensures Only(a + b, p) == Only(a, p) + Only(b, p)
  {
    if a == [] {
      assert a + b == b;
    } else {
      assert (a + b)[1..] == a[1..] + b && (a + b)[0] == a[0];
      OnlyJoin(a[1..], b, p);
    }
  }

  /** Markers that match still match when some spans are left out. */
  lemma {:induction false} OnlyMatches(ts: seq<Token>, stack: seq<Span>, p: Span -> bool)
    requires Brackets(ts, stack).Some?
    ensures Brackets(Only(ts, p), Pick(stack, p)) == Some(Pick(Brackets(ts, stack).value, p))
  {
    if ts != [] {
      match ts[0]
      case Text(_) => OnlyMatches(ts[1..], stack, p);
      case Open(s) =>
        OnlyMatches(ts[1..], stack + [s], p);
        PickMore(stack, s, p);
        if p(s) {
          assert Only(ts, p)[1..] == Only(ts[1..], p);
        } else {
          assert Pick(stack, p) + [] == Pick(stack, p);
        }
      case Close(s) =>
        var front := stack[..|stack| - 1];
        OnlyMatches(ts[1..], front, p);
        assert stack == front + [s];
        PickMore(front, s, p);
        if p(s) {
          assert Only(ts, p)[1..] == Only(ts[1..], p);
          assert (Pick(front, p) + [s])[..|Pick(front, p)|] == Pick(front, p);
        } else {
          assert Pick(front, p) + [] == Pick(front, p);
        }
    }
  }

  lemma OnlyOne(t: Token, p: Span -> bool)
    ensures Only([t], p) == if t.Text? || !p(t.span) then [] else [t]
  {
    assert [t][1..] == [];
  }

  lemma {:induction false} OnlyMarkers(ss: seq<Span>, p: Span -> bool)
    ensures Only(Opens(ss), p) == Opens(Pick(ss, p)) && Only(Closes(ss), p) == Closes(Pick(ss, p))
  {
    if ss != [] {
      var front, last := ss[..|ss| - 1], ss[|ss| - 1];
      OnlyMarkers(front, p);
      OnlyJoin(Opens(front), [Open(last)], p);
      OnlyJoin([Close(last)], Closes(front), p);
      OnlyOne(Open(last), p);
      OnlyOne(Close(last), p);
      var kept := Pick(front, p);
      if p(last) {
        assert (kept + [last])[..|kept|] == kept;
      } else {
        assert kept + [] == kept && Opens(kept) + [] == Opens(kept) && [] + Closes(kept) == Closes(kept);
      }
    }
  }

  lemma {:induction false} PickSwap(ss: seq<Span>, p: Span -> bool, q: Span -> bool)
    ensures Pick(Pick(ss, p), q) == Pick(Pick(ss, q), p)
  {
    if ss != [] {
      var front, last := ss[..|ss| - 1], ss[|ss| - 1];
      PickSwap(front, p, q);
      PickMore(Pick(front, p), last, q);
      PickMore(Pick(front, q), last, p);
      assert Pick(front, p) + [] == Pick(front, p) && Pick(front, q) + [] == Pick(front, q);
      var both := Pick(Pick(front, p), q);
      assert both + [] == both;
    }
  }

  /** The markers of a family standing at the positions before `i`. */
  function Marks(ss: seq<Span>, i: nat): seq<Token> {
    if i == 0 then [] else Marks(ss, i - 1) + MarksAt(ss, i - 1)
  }

  function MarksAt(ss: seq<Span>, i: nat): seq<Token> {
    Closes(Closing(ss, i)) + Opens(Opening(ss, i))
  }

  lemma OnlyMarksAt(ss: seq<Span>, p: Span -> bool, i: nat)
    ensures Only(MarksAt(ss, i), p) == MarksAt(Pick(ss, p), i)
  {
    OnlyJoin(Closes(Closing(ss, i)), Opens(Opening(ss, i)), p);
    OnlyMarkers(Closing(ss, i), p);
    OnlyMarkers(Opening(ss, i), p);
    PickSwap(ss, p, (s: Span) => s.start == i);
    PickSwap(ss, p, (s: Span) => s.end == i);
  }

  lemma {:induction false} OnlyBody(text: Units, ss: seq<Span>, p: Span -> bool, i: nat)
    requires i <= |text|
    ensures Only(Body(text, ss, 0, i), p) == Marks(Pick(ss, p), i)
  {
    if i > 0 {
      var x := Text(text[i - 1]);
      OnlyBody(text, ss, p, i - 1);
      OnlyMarksAt(ss, p, i - 1);
      OnlyJoin(MarksAt(ss, i - 1), [x], p);
      OnlyOne(x, p);
      assert Only(MarksAt(ss, i - 1), p) + [] == Only(MarksAt(ss, i - 1), p);
      OnlyJoin(Body(text, ss, 0, i - 1), Turn(text, ss, i - 1), p);
    }
  }

  lemma OnlySweep(text: Units, ss: seq<Span>, p: Span -> bool)
    ensures Only(Sweep(text, ss), p) == Marks(Pick(ss, p), |text| + 1)
  {
    var body, c, o := Body(text, ss, 0, |text|), Closes(Closing(ss, |text|)), Opens(Opening(ss, |text|));
    assert Sweep(text, ss) == body + MarksAt(ss, |text|);
    OnlyBody(text, ss, p, |text|);
    OnlyMarksAt(ss, p, |text|);
    OnlyJoin(body, MarksAt(ss, |text|), p);
  }

  /** Of two spans, `x` listed first, those open before position `i`, in the order opened. */
  function OpenBefore(x: Span, y: Span, i: int): seq<Span> {
    var ox, oy := x.start < i <= x.end, y.start < i <= y.end;
    if ox && oy then if x.start <= y.start then [x, y] else [y, x]
    else if ox then [x] else if oy then [y] else []
  }

  lemma MarkersOfOne(x: Span)
    ensures Closes([x]) == [Close(x)] && Opens([x]) == [Open(x)]
  {
    assert [x][..0] == [];
    assert Opens([x]) == Opens([]) + [Open(x)] && Closes([x]) == [Close(x)] + Closes([]);
  }

  lemma MarkersOfTwo(x: Span, y: Span)
    ensures Closes([x, y]) == [Close(y), Close(x)] && Opens([x, y]) == [Open(x), Open(y)]
  {
    assert [x, y][..1] == [x];
    MarkersOfOne(x);
    assert Opens([x, y]) == Opens([x]) + [Open(y)] && Closes([x, y]) == [Close(y)] + Closes([x]);
  }

  lemma MarksOfTwo(x: Span, y: Span, i: nat)
    ensures MarksAt([x, y], i) == ClosesOfTwo(x, y, i) + OpensOfTwo(x, y, i)
  {
    PickTwoBy(x, y, (s: Span) => s.end == i);
    PickTwoBy(x, y, (s: Span) => s.start == i);
    MarkersOfTwo(x, y);
    MarkersOfOne(x);
    MarkersOfOne(y);
  }

  lemma PickOneBy(x: Span, p: Span -> bool)
    ensures Pick([x], p) == if p(x) then [x] else []
  {
    assert [] + [x] == [x];
    PickMore([], x, p);
  }

  lemma PickTwoBy(x: Span, y: Span, p: Span -> bool)
    ensures Pick([x, y], p) == if p(x) && p(y) then [x, y] else if p(x) then [x] else if p(y) then [y] else []
  {
    assert [] + [y] == [y] && [x] + [y] == [x, y];
    PickOneBy(x, p);
    PickMore([x], y, p);
  }

  function ClosesOfTwo(x: Span, y: Span, i: int): seq<Token> {
    if x.end == i && y.end == i then [Close(y), Close(x)]
    else if x.end == i then [Close(x)] else if y.end == i then [Close(y)] else []
  }

  function OpensOfTwo(x: Span, y: Span, i: int): seq<Token> {
    if x.start == i && y.start == i then [Open(x), Open(y)]
    else if x.start == i then [Open(x)] else if y.start == i then [Open(y)] else []
  }

  /** Of the two, those open on both sides of position `i`. */
  function OpenAcross(x: Span, y: Span, i: int): seq<Span> {
    var ox, oy := x.start < i < x.end, y.start < i < y.end;
    if ox && oy then if x.start <= y.start then [x, y] else [y, x]
    else if ox then [x] else if oy then [y] else []
  }

  lemma BracketsTwo(a: seq<Token>, b: seq<Token>, stack: seq<Span>)
    requires Brackets(a + b, stack).Some?
    ensures Brackets(a, stack).Some? && Brackets(b, Brackets(a, stack).value) == Brackets(a + b, stack)
    decreases |a|
  {
    if a == [] {
      assert a + b == b;
    } else {
      assert (a + b)[1..] == a[1..] + b && (a + b)[0] == a[0];
      match a[0]
      case Text(_) => BracketsTwo(a[1..], b, stack);
      case Open(s) => BracketsTwo(a[1..], b, stack + [s]);
      case Close(s) => BracketsTwo(a[1..], b, stack[..|stack| - 1]);
    }
  }

  lemma ReadOne(t: Token, rest: seq<Token>, stack: seq<Span>)
    ensures t.Open? ==> Brackets([t] + rest, stack) == Brackets(rest, stack + [t.span])
    ensures t.Close? && stack != [] && stack[|stack| - 1] == t.span
            ==> Brackets([t] + rest, stack) == Brackets(rest, stack[..|stack| - 1])
    ensures t.Close? && (stack == [] || stack[|stack| - 1] != t.span) ==> Brackets([t] + rest, stack) == None
  {
    assert ([t] + rest)[1..] == rest && ([t] + rest)[0] == t;
  }

  /** `x` cannot close while `y`, opened after it, stays open; nor `y` while `x`, opened after it, is. */
  predicate Crosses(x: Span, y: Span, i: int) {
    || (x.end == i && x.start <= y.start < i < y.end)
    || (y.end == i && y.start < x.start < i <= x.end)
  }

  lemma ReadCloses(x: Span, y: Span, i: int)
    requires x != y && x.start < x.end && y.start < y.end
    ensures Brackets(ClosesOfTwo(x, y, i), OpenBefore(x, y, i))
            == if Crosses(x, y, i) then None else Some(OpenAcross(x, y, i))
  {
    var st := OpenBefore(x, y, i);
    assert [x, y][..1] == [x] && [y, x][..1] == [y] && [x][..0] == [] && [y][..0] == [];
    assert [Close(y)] + [Close(x)] == [Close(y), Close(x)] && [Close(x)] + [] == [Close(x)]
        && [Close(y)] + [] == [Close(y)];
    ReadOne(Close(x), [], st);
    ReadOne(Close(y), [], st);
    ReadOne(Close(y), [Close(x)], st);
    ReadOne(Close(x), [], [x]);
  }

  lemma ReadOpens(x: Span, y: Span, i: int)
    requires x.start < x.end && y.start < y.end
    ensures Brackets(OpensOfTwo(x, y, i), OpenAcross(x, y, i)) == Some(OpenBefore(x, y, i + 1))
  {
    var st := OpenAcross(x, y, i);
    assert [] + [x] == [x] && [] + [y] == [y] && [x] + [y] == [x, y] && [y] + [x] == [y, x];
    assert [Open(x)] + [Open(y)] == [Open(x), Open(y)] && [Open(x)] + [] == [Open(x)] && [Open(y)] + [] == [Open(y)];
    ReadOne(Open(x), [], st);
    ReadOne(Open(y), [], st);
    ReadOne(Open(x), [Open(y)], st);
    ReadOne(Open(y), [], st + [x]);
  }

  /** The markers of two spans at one position are read from what is open before it, unless the two cross there. */
  lemma ReadMarksOfTwo(x: Span, y: Span, i: nat)
    requires x != y && x.start < x.end && y.start < y.end
    requires Brackets(MarksAt([x, y], i), OpenBefore(x, y, i)).Some?
    ensures Brackets(MarksAt([x, y], i), OpenBefore(x, y, i)) == Some(OpenBefore(x, y, i + 1))
    ensures !Crosses(x, y, i)
  {
    MarksOfTwo(x, y, i);
    BracketsTwo(ClosesOfTwo(x, y, i), OpensOfTwo(x, y, i), OpenBefore(x, y, i));
    ReadCloses(x, y, i);
    ReadOpens(x, y, i);
  }

  lemma MarksStep(ss: seq<Span>, i: nat, n: nat)
    requires i < n && Brackets(Marks(ss, n), []).Some?
    ensures Brackets(Marks(ss, i), []).Some?
    ensures Brackets(Marks(ss, i + 1), []) == Brackets(MarksAt(ss, i), Brackets(Marks(ss, i), []).value)
    ensures Brackets(Marks(ss, i + 1), []).Some?
  {
    MarksRead(ss, i + 1, n);
    BracketsTwo(Marks(ss, i), MarksAt(ss, i), []);
  }

  /** What reading the markers of two spans before position `i` leaves open. */
  function ReadUpTo(x: Span, y: Span, i: nat): Option<seq<Span>> {
    Brackets(Marks([x, y], i), [])
  }

  lemma ReadNothing(x: Span, y: Span)
    requires 0 <= x.start && 0 <= y.start
    ensures ReadUpTo(x, y, 0) == Some(OpenBefore(x, y, 0))
  {
    assert Marks([x, y], 0) == [];
  }

  lemma {:induction false} ReadTwo(x: Span, y: Span, i: nat, n: nat)
    requires x != y && 0 <= x.start < x.end && 0 <= y.start < y.end
    requires i <= n && ReadUpTo(x, y, n).Some?
    ensures ReadUpTo(x, y, i) == Some(OpenBefore(x, y, i))
    decreases i
  {
    if i == 0 {
      ReadNothing(x, y);
    } else {
      ReadTwo(x, y, i - 1, n);
      ReadTwoStep(x, y, i - 1, i, n);
    }
  }

  lemma ReadTwoStep(x: Span, y: Span, i: nat, next: nat, n: nat)
    requires x != y && x.start < x.end && y.start < y.end
    requires i + 1 == next <= n && ReadUpTo(x, y, n).Some?
    requires ReadUpTo(x, y, i) == Some(OpenBefore(x, y, i))
    ensures ReadUpTo(x, y, next) == Some(OpenBefore(x, y, next))
    ensures !Crosses(x, y, i)
  {
    MarksStep([x, y], i, n);
    ReadMarksOfTwo(x, y, i);
  }

  lemma NeverCross(x: Span, y: Span, i: nat, n: nat)
    requires x != y && 0 <= x.start < x.end && 0 <= y.start < y.end
    requires i < n && ReadUpTo(x, y, n).Some?
    ensures !Crosses(x, y, i)
  {
    ReadTwo(x, y, i, n);
    ReadTwoStep(x, y, i, i + 1, n);
  }

  lemma {:induction false} MarksRead(ss: seq<Span>, i: nat, n: nat)
    requires i <= n && Brackets(Marks(ss, n), []).Some?
    ensures Brackets(Marks(ss, i), []).Some?
    decreases n
  {
    if i < n {
      BracketsTwo(Marks(ss, n - 1), MarksAt(ss, n - 1), []);
      MarksRead(ss, i, n - 1);
    }
  }

  /** Two spans whose markers match fit. */
  lemma TwoThatMatchFit(x: Span, y: Span, n: nat)
    requires x != y && 0 <= x.start < x.end < n && 0 <= y.start < y.end < n
    requires ReadUpTo(x, y, n).Some?
    ensures Fits(x, y)
  {
    NeverCross(x, y, x.end, n);
    NeverCross(x, y, y.end, n);
  }

  ghost predicate Distinct(ss: seq<Span>) {
    forall i, j :: 0 <= i < j < |ss| ==> ss[i] != ss[j]
  }

  function Without(ss: seq<Span>, i: nat): (rest: seq<Span>)
    requires i < |ss|
    ensures |rest| == |ss| - 1
    ensures forall k :: 0 <= k < |rest| ==> rest[k] == if k < i then ss[k] else ss[k + 1]
  {
    ss[..i] + ss[i + 1..]
  }

  lemma PickFirst(ss: seq<Span>, i: nat, p: Span -> bool)
    requires i < |ss| && p(ss[i]) && forall k :: 0 <= k < i ==> !p(ss[k])
    ensures Pick(ss, p) == [ss[i]] + Pick(Without(ss, i), p)
  {
    forall s | s in ss[..i]
      ensures !p(s)
    {
      var k :| 0 <= k < i && ss[k] == s;
    }
    PickAround(ss, i, p);
  }

  lemma PickSingle(ss: seq<Span>, i: nat, p: Span -> bool)
    requires i < |ss| && forall k :: 0 <= k < |ss| ==> (p(ss[k]) <==> k == i)
    ensures Pick(ss, p) == [ss[i]]
  {
    PickFirst(ss, i, p);
    PickNone(Without(ss, i), p);
  }

  lemma WithoutFirst(ss: seq<Span>, i: nat, j: nat, p: Span -> bool)
    requires i < j < |ss| && forall k :: 0 <= k < |ss| ==> (p(ss[k]) <==> k == i || k == j)
    ensures Without(ss, i)[j - 1] == ss[j]
    ensures Pick(Without(ss, i), p) == [ss[j]]
  {
    var rest := Without(ss, i);
    forall k | 0 <= k < |rest|
      ensures p(rest[k]) <==> k == j - 1
    {
      var at := if k < i then k else k + 1;
      assert rest[k] == ss[at] && at != i;
    }
    PickSingle(rest, j - 1, p);
  }

  lemma TwoInARow(x: Span, y: Span)
    ensures [x] + [y] == [x, y]
  {
  }

  lemma PickTwo(ss: seq<Span>, i: nat, j: nat, p: Span -> bool)
    requires i < j < |ss| && forall k :: 0 <= k < |ss| ==> (p(ss[k]) <==> k == i || k == j)
    ensures Pick(ss, p) == [ss[i], ss[j]]
  {
    assert Pick(ss, p) == [ss[i]] + Pick(Without(ss, i), p) by {
      PickFirst(ss, i, p);
    }
    assert Pick(Without(ss, i), p) == [ss[j]] by {
      WithoutFirst(ss, i, j, p);
    }
    TwoInARow(ss[i], ss[j]);
  }

  lemma EmptyClosesFirst(x: Span)
    requires 0 <= x.start == x.end
    ensures MarksAt([x], x.start) == [Close(x)] + [Open(x)]
  {
    PickOneBy(x, (s: Span) => s.end == x.start);
    PickOneBy(x, (s: Span) => s.start == x.start);
    MarkersOfOne(x);
  }

  /** A single empty span closes before it opens. */
  lemma EmptyNeverMatches(x: Span, n: nat)
    requires 0 <= x.start == x.end < n
    ensures Brackets(Marks([x], n), []).None?
  {
    if Brackets(Marks([x], n), []).Some? {
      MarksStep([x], x.start, n);
      NothingBefore(x, x.start);
      EmptyClosesFirst(x);
      ReadOne(Close(x), [Open(x)], []);
    }
  }

  lemma NoneAt(x: Span, i: nat)
    requires i < x.start == x.end
    ensures MarksAt([x], i) == []
  {
    PickOneBy(x, (s: Span) => s.end == i);
    PickOneBy(x, (s: Span) => s.start == i);
  }

  lemma {:induction false} NothingBefore(x: Span, i: nat)
    requires i <= x.start == x.end
    ensures Marks([x], i) == []
  {
    if i > 0 {
      NothingBefore(x, i - 1);
      NoneAt(x, i - 1);
    }
  }

  lemma MatchingIsProper(text: Units, ss: seq<Span>, k: nat)
    requires Distinct(ss) && k < |ss| && 0 <= ss[k].start <= ss[k].end <= |text|
    requires Brackets(Sweep(text, ss), []).Some?
    ensures ss[k].start < ss[k].end
  {
    var p := (s: Span) => s == ss[k];
    OnlyMatches(Sweep(text, ss), [], p);
    OnlySweep(text, ss, p);
    PickSingle(ss, k, p);
    if ss[k].start == ss[k].end {
      EmptyNeverMatches(ss[k], |text| + 1);
    }
  }

  lemma MatchingFits(text: Units, ss: seq<Span>, i: nat, j: nat)
    requires Distinct(ss) && Proper(ss, 0, |text|) && i < j < |ss|
    requires Brackets(Sweep(text, ss), []).Some?
    ensures Fits(ss[i], ss[j])
  {
    var p := (s: Span) => s == ss[i] || s == ss[j];
    OnlyMatches(Sweep(text, ss), [], p);
    OnlySweep(text, ss, p);
    PickTwo(ss, i, j, p);
    TwoThatMatchFit(ss[i], ss[j], |text| + 1);
  }

  lemma MatchingIsNested(text: Units, ss: seq<Span>)
    requires Distinct(ss) && forall k :: 0 <= k < |ss| ==> 0 <= ss[k].start <= ss[k].end <= |text|
    requires Brackets(Sweep(text, ss), []).Some?
    ensures Nested(ss, 0, |text|)
  {
    forall k | 0 <= k < |ss|
      ensures 0 <= ss[k].start < ss[k].end <= |text|
    {
      MatchingIsProper(text, ss, k);
    }
    forall i, j | 0 <= i < j < |ss|
      ensures Fits(ss[i], ss[j])
    {
      MatchingFits(text, ss, i, j);
    }
  }

  lemma {:induction false} SpansAreDistinct(es: seq<Entity>, n: nat)
    requires forall e :: e in es ==> e.length >= 0
    ensures Distinct(Spans(es, n))
    ensures forall k :: 0 <= k < |Spans(es, n)| ==> Spans(es, n)[k].id < |es|
    ensures forall k :: 0 <= k < |Spans(es, n)| ==> 0 <= Spans(es, n)[k].start <= Spans(es, n)[k].end <= n
  {
    if es != [] {
      var front, last := es[..|es| - 1], es[|es| - 1];
      SpansAreDistinct(front, n);
      assert Spans(es, n) == Spans(front, n) + Kept(last, n, |front|);
      if Rendered(last, n) {
        assert Kept(last, n, |front|) == [SpanOf(last, |front|)];
      }
    }
  }

  lemma SpansBracketedIffNested(text: Units, ss: seq<Span>)
    requires Distinct(ss) && forall k :: 0 <= k < |ss| ==> 0 <= ss[k].start <= ss[k].end <= |text|
    ensures Brackets(Sweep(text, ss), []) == Some([]) <==> Nested(ss, 0, |text|)
  {
    if Nested(ss, 0, |text|) {
      NestedIsBracketed(text, ss);
    } else if Brackets(Sweep(text, ss), []).Some? {
      MatchingIsNested(text, ss);
    }
  }

  // ----- some of the entities -----

  lemma {:induction false} PickAll(ss: seq<Span>, p: Span -> bool)
    requires forall s :: p(s)
    ensures Pick(ss, p) == ss
  {
    if ss != [] {
      PickAll(ss[..|ss| - 1], p);
    }
  }

  lemma {:induction false} PickDistinct(ss: seq<Span>, p: Span -> bool)
    requires Distinct(ss)
    ensures Distinct(Pick(ss, p))
  {
    if ss != [] {
      var front, last := ss[..|ss| - 1], ss[|ss| - 1];
      PickDistinct(front, p);
      PickMember(front, p);
      var kept := Pick(front, p);
      forall i | 0 <= i < |kept|
        ensures kept[i] != last
      {
        assert kept[i] in front;
      }
    }
  }

  lemma PickBounded(ss: seq<Span>, p: Span -> bool, n: nat)
    requires forall k :: 0 <= k < |ss| ==> 0 <= ss[k].start <= ss[k].end <= n
    ensures forall k :: 0 <= k < |Pick(ss, p)| ==> 0 <= Pick(ss, p)[k].start <= Pick(ss, p)[k].end <= n
  {
    PickMember(ss, p);
    forall k | 0 <= k < |Pick(ss, p)|
      ensures 0 <= Pick(ss, p)[k].start <= Pick(ss, p)[k].end <= n
    {
      assert Pick(ss, p)[k] in ss;
    }
  }

  /** Text does not matter to the reading of markers. */
  lemma {:induction false} TextIsSkipped(ts: seq<Token>, stack: seq<Span>, p: Span -> bool)
    requires forall s :: p(s)
    ensures Brackets(Only(ts, p), stack) == Brackets(ts, stack)
  {
    if ts != [] {
      var rest := Only(ts[1..], p);
      match ts[0]
      case Text(_) => TextIsSkipped(ts[1..], stack, p);
      case Open(s) =>
        assert ([ts[0]] + rest)[1..] == rest;
        TextIsSkipped(ts[1..], stack + [s], p);
      case Close(s) =>
        assert ([ts[0]] + rest)[1..] == rest;
        if stack != [] && stack[|stack| - 1] == s {
          TextIsSkipped(ts[1..], stack[..|stack| - 1], p);
        }
    }
  }

  /** The markers of some of the entities, whatever the others do, match exactly when these are nested. */
  lemma PartBracketedIffNested(text: Units, entities: seq<Entity>, p: Span -> bool)
    requires forall e :: e in entities ==> e.length >= 0
    ensures var ss := Spans(entities, |text|);
            Brackets(Only(Sweep(text, ss), p), []) == Some([]) <==> Nested(Pick(ss, p), 0, |text|)
  {
    var ss := Spans(entities, |text|);
    var part, all := Pick(ss, p), (s: Span) => true;
    SpansAreDistinct(entities, |text|);
    PickDistinct(ss, p);
    PickBounded(ss, p, |text|);
    SpansBracketedIffNested(text, part);
    OnlySweep(text, ss, p);
    OnlySweep(text, part, all);
    PickAll(part, all);
    TextIsSkipped(Sweep(text, part), [], all);
  }

  /** A blockquote writes nothing at its end. */
  predicate WritesEnd(s: Span) {
    s.close != []
  }

  /**
   Exactly when: the markers that are written in pairs match, each closing the one
   opened last and none left open, if and only if the entities that write an end form a
   nested family. Blockquotes write none, and may cross anything.
   */
  lemma BracketedIffNested(text: Units, entities: seq<Entity>)
    requires forall e :: e in entities ==> e.length >= 0
    ensures var ss := Spans(entities, |text|);
            Brackets(Only(Sweep(text, ss), WritesEnd), []) == Some([]) <==> Nested(Pick(ss, WritesEnd), 0, |text|)
  {
    PartBracketedIffNested(text, entities, WritesEnd);
  }

  // ----- inputs -----

  lemma SpansOfTwo(d: Entity, e: Entity, n: nat)
    requires Rendered(d, n) && Rendered(e, n)
    ensures Spans([d, e], n) == [SpanOf(d, 0), SpanOf(e, 1)]
  {
    assert [d, e][..1] == [d] && [d][..0] == [];
    assert Spans([d], n) == Spans([], n) + Kept(d, n, 0);
  }

  /** Two entities that write an end come out with markers that match exactly if they are not empty and fit. */
  lemma TwoBracketedIff(text: Units, d: Entity, e: Entity)
    requires Rendered(d, |text|) && Rendered(e, |text|) && d.length >= 0 && e.length >= 0
    requires WritesEnd(SpanOf(d, 0)) && WritesEnd(SpanOf(e, 1))
    ensures Brackets(Only(Sweep(text, Spans([d, e], |text|)), WritesEnd), []) == Some([])
            <==> d.length > 0 && e.length > 0 && Fits(SpanOf(d, 0), SpanOf(e, 1))
  {
    SpansOfTwo(d, e, |text|);
    PickTwoBy(SpanOf(d, 0), SpanOf(e, 1), WritesEnd);
    BracketedIffNested(text, [d, e]);
    NestedTwo(SpanOf(d, 0), SpanOf(e, 1), |text|);
  }

  lemma NestedTwo(x: Span, y: Span, n: nat)
    requires 0 <= x.start && x.end <= n && 0 <= y.start && y.end <= n
    ensures Nested([x, y], 0, n) <==> x.start < x.end && y.start < y.end && Fits(x, y)
  {
    var ss := [x, y];
    assert ss[0] == x && ss[1] == y;
  }

  lemma BoldAndItalic(offset: nat, length: nat, bold: bool, n: nat, id: nat)
    requires offset + length <= n
    ensures var e := Entity(offset, length, if bold then Bold else Italic);
            Rendered(e, n) && SpanOf(e, id).start == offset && SpanOf(e, id).end == offset + length
            && WritesEnd(SpanOf(e, id))
  {
    assert |Encode("**")| == 2 && |Encode("*")| == 1;
  }

  /** Bold over the first two units and italic over the second and third cross. */
  lemma CrossingDoesNotMatch(text: Units)
    requires |text| >= 3
    ensures Brackets(Only(Sweep(text, Spans([Entity(0, 2, Bold), Entity(1, 2, Italic)], |text|)), WritesEnd), [])
            != Some([])
  {
    BoldAndItalic(0, 2, true, |text|, 0);
    BoldAndItalic(1, 2, false, |text|, 1);
    TwoBracketedIff(text, Entity(0, 2, Bold), Entity(1, 2, Italic));
  }

  /** Bold inside italic and ending with it does not match if the bold is listed first. */
  lemma InnerFirstDoesNotMatch(text: Units)
    requires |text| >= 2
    ensures Brackets(Only(Sweep(text, Spans([Entity(1, 1, Bold), Entity(0, 2, Italic)], |text|)), WritesEnd), [])
            != Some([])
  {
    BoldAndItalic(1, 1, true, |text|, 0);
    BoldAndItalic(0, 2, false, |text|, 1);
    TwoBracketedIff(text, Entity(1, 1, Bold), Entity(0, 2, Italic));
  }

  // ----- where a blockquote ends does not show -----

  /** The same spans, but for the ends of those that write no end. */
  ghost predicate SameWritten(ss: seq<Span>, ts: seq<Span>) {
    |ss| == |ts| && forall k :: 0 <= k < |ss| ==>
      ss[k].start == ts[k].start && ss[k].open == ts[k].open && ss[k].close == ts[k].close
      && (WritesEnd(ss[k]) ==> ss[k].end == ts[k].end)
  }

  lemma WriteOpenLast(ts: seq<Token>, s: Span)
    ensures Write(ts + [Open(s)]) == Write(ts) + s.open
  {
    assert (ts + [Open(s)])[..|ts|] == ts;
  }

  function WrittenEnds(ss: seq<Span>, i: int): Units {
    Write(Closes(Closing(ss, i)))
  }

  function WrittenStarts(ss: seq<Span>, i: int): Units {
    Write(Opens(Opening(ss, i)))
  }

  function WrittenBody(text: Units, ss: seq<Span>, i: nat): Units
    requires i <= |text|
  {
    Write(Body(text, ss, 0, i))
  }

  lemma WrittenEndsMore(front: seq<Span>, s: Span, i: int)
    ensures WrittenEnds(front + [s], i) == (if s.end == i then s.close else []) + WrittenEnds(front, i)
  {
    PickMore(front, s, (x: Span) => x.end == i);
    var c := Closing(front, i);
    if s.end == i {
      assert (c + [s])[..|c|] == c;
      WriteCloseFirst(s, Closes(c));
    } else {
      assert c + [] == c;
    }
  }

  lemma WrittenStartsMore(front: seq<Span>, s: Span, i: int)
    ensures WrittenStarts(front + [s], i) == WrittenStarts(front, i) + if s.start == i then s.open else []
  {
    PickMore(front, s, (x: Span) => x.start == i);
    var o := Opening(front, i);
    if s.start == i {
      assert (o + [s])[..|o|] == o;
      WriteOpenLast(Opens(o), s);
    } else {
      assert o + [] == o;
    }
  }

  lemma {:induction false} MarkersSameWritten(ss: seq<Span>, ts: seq<Span>, i: int)
    requires SameWritten(ss, ts)
    ensures WrittenEnds(ss, i) == WrittenEnds(ts, i) && WrittenStarts(ss, i) == WrittenStarts(ts, i)
  {
    if ss == [] {
      assert ts == [];
    } else {
      var n := |ss| - 1;
      var s, t, front, front' := ss[n], ts[n], ss[..n], ts[..n];
      MarkersSameWritten(front, front', i);
      assert ss == front + [s] && ts == front' + [t];
      WrittenEndsMore(front, s, i);
      WrittenEndsMore(front', t, i);
      WrittenStartsMore(front, s, i);
      WrittenStartsMore(front', t, i);
    }
  }

  lemma WrittenTurn(text: Units, ss: seq<Span>, i: nat)
    requires i < |text|
    ensures WrittenBody(text, ss, i + 1)
            == WrittenBody(text, ss, i) + (WrittenEnds(ss, i) + WrittenStarts(ss, i) + [text[i]])
  {
    var c, o := Closes(Closing(ss, i)), Opens(Opening(ss, i));
    WriteJoin(Body(text, ss, 0, i), Turn(text, ss, i));
    WriteJoin(c, o);
    WriteUnit(c + o, text[i]);
  }

  lemma {:induction false} BodySameWritten(text: Units, ss: seq<Span>, ts: seq<Span>, b: nat)
    requires b <= |text| && SameWritten(ss, ts)
    ensures WrittenBody(text, ss, b) == WrittenBody(text, ts, b)
  {
    if b > 0 {
      BodySameWritten(text, ss, ts, b - 1);
      WrittenTurn(text, ss, b - 1);
      WrittenTurn(text, ts, b - 1);
      MarkersSameWritten(ss, ts, b - 1);
    }
  }

  lemma WrittenSweep(text: Units, ss: seq<Span>)
    ensures Write(Sweep(text, ss)) == WrittenBody(text, ss, |text|) + WrittenEnds(ss, |text|)
            + WrittenStarts(ss, |text|)
  {
    var b, c, o := Body(text, ss, 0, |text|), Closes(Closing(ss, |text|)), Opens(Opening(ss, |text|));
    WriteJoin(b, c);
    WriteJoin(b + c, o);
  }

  /** The output does not depend on where the entities end that write no end. */
  lemma SilentEndsDoNotShow(text: Units, ss: seq<Span>, ts: seq<Span>)
    requires SameWritten(ss, ts)
    ensures Write(Sweep(text, ss)) == Write(Sweep(text, ts))
  {
    WrittenSweep(text, ss);
    WrittenSweep(text, ts);
    BodySameWritten(text, ss, ts, |text|);
    MarkersSameWritten(ss, ts, |text|);
  }
}
