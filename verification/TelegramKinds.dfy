/**
 What each kind of Telegram entity writes (apps/bot/services/tg_news.py, `_markers`), in
 the text as it comes out, and which entities are rendered at all.
 */
module TelegramKinds {
  import opened Wrappers
  import opened TelegramMarkdown
  import opened TelegramRendering
  import opened TelegramBrackets

  /** The text with `open` before its part [a, b) and `close` after it; around an empty part the end comes first. */
  function Marked(text: Units, a: nat, b: nat, open: Units, close: Units): Units
    requires a <= b <= |text|
  {
    if a < b then text[..a] + open + text[a..b] + close + text[b..] else text[..a] + close + open + text[a..]
  }

  /** What is written before position `i` for a single span. */
  function MarkedUpTo(text: Units, s: Span, i: nat): Units
    requires 0 <= s.start <= s.end <= |text| && i <= |text|
  {
    if i <= s.start then text[..i]
    else if s.start == s.end then text[..s.start] + s.close + s.open + text[s.start..i]
    else if i <= s.end then text[..s.start] + s.open + text[s.start..i]
    else text[..s.start] + s.open + text[s.start..s.end] + s.close + text[s.end..i]
  }

  lemma MarkersOfSingle(s: Span, i: int)
    ensures WrittenEnds([s], i) == if s.end == i then s.close else []
    ensures WrittenStarts([s], i) == if s.start == i then s.open else []
  {
    assert [] + [s] == [s];
    WrittenEndsMore([], s, i);
    WrittenStartsMore([], s, i);
    assert WrittenEnds([], i) == [] && WrittenStarts([], i) == [];
  }

  /** The single span writes as much before the next unit. */
  lemma TurnOfSingle(text: Units, s: Span, i: nat)
    requires 0 <= s.start <= s.end <= |text| && i < |text|
    requires WrittenBody(text, [s], i) == MarkedUpTo(text, s, i)
    ensures WrittenBody(text, [s], i + 1) == MarkedUpTo(text, s, i + 1)
  {
    WrittenTurn(text, [s], i);
    MarkersOfSingle(s, i);
    OneUnitMore(text, s, i);
  }

  lemma NothingYet(text: Units, s: Span)
    requires 0 <= s.start <= s.end <= |text|
    ensures WrittenBody(text, [s], 0) == [] == MarkedUpTo(text, s, 0)
  {
  }

  lemma {:induction false} BodyOfSingle(text: Units, s: Span, i: nat)
    requires 0 <= s.start <= s.end <= |text| && i <= |text|
    ensures WrittenBody(text, [s], i) == MarkedUpTo(text, s, i)
  {
    if i == 0 {
      NothingYet(text, s);
    } else {
      BodyOfSingle(text, s, i - 1);
      TurnOfSingle(text, s, i - 1);
    }
  }

  lemma OneUnitMore(text: Units, s: Span, i: nat)
    requires 0 <= s.start <= s.end <= |text| && i < |text|
    ensures MarkedUpTo(text, s, i + 1)
            == MarkedUpTo(text, s, i)
               + ((if s.end == i then s.close else []) + (if s.start == i then s.open else []) + [text[i]])
  {
    assert text[..i + 1] == text[..i] + [text[i]];
    if s.start <= i {
      assert text[s.start..i + 1] == text[s.start..i] + [text[i]];
    }
    if s.end <= i {
      assert text[s.end..i + 1] == text[s.end..i] + [text[i]];
    }
  }

  lemma MarkedWhole(text: Units, s: Span)
    requires 0 <= s.start <= s.end <= |text|
    ensures MarkedUpTo(text, s, |text|)
            + (if s.end == |text| then s.close else []) + (if s.start == |text| then s.open else [])
            == Marked(text, s.start, s.end, s.open, s.close)
  {
    var n := |text|;
    assert text[..n] == text && text[n..] == [];
    assert text[s.start..n] == text[s.start..];
    assert text[s.end..n] == text[s.end..];
  }

  lemma SweepOfSingle(text: Units, s: Span)
    requires 0 <= s.start <= s.end <= |text|
    ensures Write(Sweep(text, [s])) == Marked(text, s.start, s.end, s.open, s.close)
  {
    WrittenSweep(text, [s]);
    BodyOfSingle(text, s, |text|);
    MarkersOfSingle(s, |text|);
    MarkedWhole(text, s);
  }

  lemma EncodeIs(s: string)
    requires Ascii(s)
    ensures |Encode(s)| == |s| && forall i :: 0 <= i < |s| ==> Encode(s)[i] as int == s[i] as int
  {
  }

  /** The entity is of a kind that is written, within the text. */
  predicate Fitting(e: Entity, n: nat) {
    0 <= e.offset <= e.offset + e.length <= n && !e.kind.Other? && !(e.kind.TextLink? && e.kind.url == [])
  }

  lemma RenderedIs(e: Entity, n: nat)
    requires e.length >= 0
    ensures Rendered(e, n) <==> Fitting(e, n)
  {
  }

  lemma SpanOfFitting(e: Entity, n: nat)
    requires Fitting(e, n)
    ensures Kept(e, n, 0) == [SpanOf(e, 0)]
    ensures SpanOf(e, 0).start == e.offset && SpanOf(e, 0).end == e.offset + e.length
    ensures SpanOf(e, 0).open == Markers(e.kind).value.0 && SpanOf(e, 0).close == Markers(e.kind).value.1
  {
  }

  /** What the conversion makes of a text with one entity. */
  function Converted(text: Units, e: Entity): Units {
    Write(Sweep(text, Spans([e], |text|)))
  }

  lemma OneEntity(text: Units, e: Entity)
    requires e.length >= 0
    ensures !Fitting(e, |text|) ==> Converted(text, e) == text
    ensures Fitting(e, |text|) ==>
              var (open, close) := Markers(e.kind).value;
              Converted(text, e) == Marked(text, e.offset, e.offset + e.length, open, close)
  {
    var n := |text|;
    assert [e][..0] == [];
    assert Spans([e], n) == Spans([], n) + Kept(e, n, 0) == Kept(e, n, 0);
    RenderedIs(e, n);
    if Fitting(e, n) {
      SpanOfFitting(e, n);
      SweepOfSingle(text, SpanOf(e, 0));
    } else {
      SweepPlain(text);
    }
  }

  /** What is written around text that is bold, italic, underlined or struck through. */
  lemma OneStyleWrites(text: Units, e: Entity)
    requires 0 <= e.offset <= e.offset + e.length <= |text|
    ensures var a, b := e.offset, e.offset + e.length;
            match e.kind
            case Bold => Converted(text, e) == Marked(text, a, b, Encode("**"), Encode("**"))
            case Italic => Converted(text, e) == Marked(text, a, b, Encode("*"), Encode("*"))
            case Underline => Converted(text, e) == Marked(text, a, b, Encode("<u>"), Encode("</u>"))
            case Strikethrough => Converted(text, e) == Marked(text, a, b, Encode("~~"), Encode("~~"))
            case _ => true
  {
    OneEntity(text, e);
  }

  /** What is written around code, quotes and links. A link without an address and an unknown kind write nothing. */
  lemma OneBlockWrites(text: Units, e: Entity)
    requires 0 <= e.offset <= e.offset + e.length <= |text|
    ensures var a, b := e.offset, e.offset + e.length;
            match e.kind
            case Code => Converted(text, e) == Marked(text, a, b, Encode("`"), Encode("`"))
            case Pre => Converted(text, e) == Marked(text, a, b, Encode("\n```\n"), Encode("\n```\n"))
            case Blockquote => Converted(text, e) == Marked(text, a, b, Encode("> "), [])
            case TextLink(url) =>
              Converted(text, e)
              == (if url == [] then text else Marked(text, a, b, Encode("["), Encode("](") + url + Encode(")")))
            case Other => Converted(text, e) == text
            case _ => true
  {
    OneEntity(text, e);
  }

  /** An entity that does not lie in the text writes nothing, whatever its kind. */
  lemma OutsideWritesNothing(text: Units, e: Entity)
    requires e.length >= 0 && !(0 <= e.offset && e.offset + e.length <= |text|)
    ensures Converted(text, e) == text
  {
    OneEntity(text, e);
  }

  /** Entity number `k` is among the swept ones. */
  predicate IsSwept(ss: seq<Span>, k: nat) {
    exists i :: 0 <= i < |ss| && ss[i].id == k
  }

  /** The spans stand in the order of their numbers, below `m`. */
  predicate InOrder(ss: seq<Span>, m: nat) {
    && (forall i :: 0 <= i < |ss| ==> ss[i].id < m)
    && (forall i, j :: 0 <= i < j < |ss| ==> ss[i].id < ss[j].id)
  }

  /** The span goes from where its entity starts to where it ends, with the markers of its kind. */
  predicate IsOf(s: Span, es: seq<Entity>) {
    && s.id < |es|
    && s.start == es[s.id].offset && s.end == es[s.id].offset + es[s.id].length
    && Markers(es[s.id].kind) == Some((s.open, s.close))
  }

  lemma SweptMore(ss: seq<Span>, more: seq<Span>, m: nat)
    requires InOrder(ss, m) && |more| <= 1 && (more != [] ==> more[0].id == m)
    ensures InOrder(ss + more, m + 1)
    ensures forall k: nat :: k < m ==> (IsSwept(ss + more, k) <==> IsSwept(ss, k))
    ensures IsSwept(ss + more, m) <==> more != []
  {
    forall k: nat | k < m && IsSwept(ss, k)
      ensures IsSwept(ss + more, k)
    {
      var i :| 0 <= i < |ss| && ss[i].id == k;
      assert (ss + more)[i].id == k;
    }
    if more != [] {
      assert (ss + more)[|ss|].id == m;
    }
  }

  lemma {:induction false} SpansAreOf(es: seq<Entity>, n: nat)
    ensures forall s :: s in Spans(es, n) ==> IsOf(s, es)
  {
    if es != [] {
      var front := es[..|es| - 1];
      SpansAreOf(front, n);
      forall s | s in Spans(es, n)
        ensures IsOf(s, es)
      {
        if s in Spans(front, n) {
          assert front[s.id] == es[s.id];
        } else {
          assert s in Kept(es[|es| - 1], n, |es| - 1);
        }
      }
    }
  }

  lemma {:induction false} SpansAreFitting(es: seq<Entity>, n: nat)
    requires forall e :: e in es ==> e.length >= 0
    ensures InOrder(Spans(es, n), |es|)
    ensures forall k: nat :: k < |es| ==> (Fitting(es[k], n) <==> IsSwept(Spans(es, n), k))
  {
    if es != [] {
      var front, last, m := es[..|es| - 1], es[|es| - 1], |es| - 1;
      SpansAreFitting(front, n);
      RenderedIs(last, n);
      SweptMore(Spans(front, n), Kept(last, n, m), m);
    }
  }

  /** Which entities are swept: each fitting one, once, from where it starts to where it ends, in the order listed. */
  lemma SpansAre(es: seq<Entity>, n: nat)
    requires forall e :: e in es ==> e.length >= 0
    ensures InOrder(Spans(es, n), |es|)
    ensures forall k: nat :: k < |es| ==> (Fitting(es[k], n) <==> IsSwept(Spans(es, n), k))
    ensures forall s :: s in Spans(es, n) ==> IsOf(s, es)
  {
    SpansAreFitting(es, n);
    SpansAreOf(es, n);
  }
}
