/**
 The conversion of Telegram entities against a recursive definition: the sweep over a
 nested family of entities writes the tree they form
 (apps/bot/services/tg_news.py:41-71).
 */
module TelegramRendering {
  import opened Wrappers
  import opened TelegramMarkdown

  // ----- the definition it has to meet -----

  predicate Inside(s: Span, t: Span) {
    t.start <= s.start && s.end <= t.end
  }

  predicate Apart(s: Span, t: Span) {
    s.end <= t.start || t.end <= s.start
  }

  predicate StrictlyInside(s: Span, t: Span) {
    t.start < s.start && s.end < t.end
  }

  /**
   Two spans that go together, `s` listed first: an inner one comes second unless it shares
   no end with the outer one.
   */
  predicate Fits(s: Span, t: Span) {
    Apart(s, t) || Inside(t, s) || StrictlyInside(s, t)
  }

  /** Spans of positive length within [lo, hi]. */
  ghost predicate Proper(ss: seq<Span>, lo: int, hi: int) {
    forall i :: 0 <= i < |ss| ==> lo <= ss[i].start < ss[i].end <= hi
  }

  /**
   A nested family: any two spans are apart or one is inside the other, the outer one listed
   first where they share an end.
   */
  ghost predicate Nested(ss: seq<Span>, lo: int, hi: int) {
    && Proper(ss, lo, hi)
    && (forall i, j :: 0 <= i < j < |ss| ==> Fits(ss[i], ss[j]))
  }

  function Length(s: Span): int {
    s.end - s.start
  }

  /** Where the longest span is, the first listed of the longest. */
  function Longest(ss: seq<Span>): (m: nat)
    requires ss != []
    ensures m < |ss|
    ensures forall i :: 0 <= i < |ss| ==> Length(ss[i]) <= Length(ss[m])
    ensures forall i :: 0 <= i < m ==> Length(ss[i]) < Length(ss[m])
  {
    if |ss| == 1 then 0
    else
      var m := Longest(ss[..|ss| - 1]);
      if Length(ss[|ss| - 1]) > Length(ss[m]) then |ss| - 1 else m
  }

  /** An outermost span. */
  function Top(ss: seq<Span>): Span
    requires ss != []
  {
    ss[Longest(ss)]
  }

  function Rest(ss: seq<Span>): (rest: seq<Span>)
    requires ss != []
    ensures |rest| == |ss| - 1
  {
    ss[..Longest(ss)] + ss[Longest(ss) + 1..]
  }

  function Before(ss: seq<Span>, t: Span): seq<Span> {
    Pick(ss, (s: Span) => s.end <= t.start)
  }

  function Within(ss: seq<Span>, t: Span): seq<Span> {
    Pick(ss, (s: Span) => Inside(s, t))
  }

  function After(ss: seq<Span>, t: Span): seq<Span> {
    Pick(ss, (s: Span) => s.start >= t.end)
  }

  /**
   The recursive rendering of text[lo..hi]: the longest entity is an outermost one, so
   render what is before it, what is inside it between its markers, and what is after
   it.
   */
  ghost function Render(text: Units, ss: seq<Span>, lo: nat, hi: nat): seq<Token>
    requires lo <= hi <= |text| && Nested(ss, lo, hi)
    decreases |ss|
  {
    if ss == [] then Plain(text[lo..hi])
    else
      var t, rest := Top(ss), Rest(ss);
      PartsAreNested(ss, lo, hi);
      Render(text, Before(rest, t), lo, t.start)
      + [Open(t)] + Render(text, Within(rest, t), t.start, t.end) + [Close(t)]
      + Render(text, After(rest, t), t.end, hi)
  }

  // ----- facts about Pick -----

  lemma {:induction false} PickMember(ss: seq<Span>, p: Span -> bool)
    ensures |Pick(ss, p)| <= |ss|
    ensures forall s :: s in Pick(ss, p) <==> s in ss && p(s)
  {
    if ss != [] {
      PickMember(ss[..|ss| - 1], p);
      assert ss == ss[..|ss| - 1] + [ss[|ss| - 1]];
    }
  }

  /** Picking keeps the order: any relation between earlier and later elements survives. */
  lemma {:induction false} PickOrdered(ss: seq<Span>, p: Span -> bool)
    requires forall i, j :: 0 <= i < j < |ss| ==> Fits(ss[i], ss[j])
    ensures forall i, j :: 0 <= i < j < |Pick(ss, p)| ==> Fits(Pick(ss, p)[i], Pick(ss, p)[j])
  {
    if ss != [] {
      var front, last := ss[..|ss| - 1], ss[|ss| - 1];
      PickOrdered(front, p);
      PickMember(front, p);
      forall i | 0 <= i < |Pick(front, p)|
        ensures Fits(Pick(front, p)[i], last)
      {
        assert Pick(front, p)[i] in front;
        var x :| 0 <= x < |front| && front[x] == Pick(front, p)[i];
        assert front[x] == ss[x];
      }
    }
  }

  lemma PickNested(ss: seq<Span>, p: Span -> bool, lo: int, hi: int, lo': int, hi': int)
    requires Nested(ss, lo, hi)
    requires forall s :: s in ss && p(s) ==> lo' <= s.start && s.end <= hi'
    ensures Nested(Pick(ss, p), lo', hi') && |Pick(ss, p)| <= |ss|
  {
    PickMember(ss, p);
    PickOrdered(ss, p);
    forall i | 0 <= i < |Pick(ss, p)|
      ensures lo' <= Pick(ss, p)[i].start < Pick(ss, p)[i].end <= hi'
    {
      assert Pick(ss, p)[i] in ss;
    }
  }

  /** Spans of positive length that are apart from `t` or inside it. */
  ghost predicate Around(ss: seq<Span>, t: Span) {
    forall s :: s in ss ==> s.start < s.end && (Apart(t, s) || Inside(s, t))
  }

  /** How the other spans lie to the longest one. */
  lemma TopIsOutermost(ss: seq<Span>, lo: int, hi: int, k: nat)
    requires Nested(ss, lo, hi) && k < |ss| && k != Longest(ss)
    ensures Apart(Top(ss), ss[k]) || Inside(ss[k], Top(ss))
    ensures k < Longest(ss) ==> Apart(ss[k], Top(ss)) || StrictlyInside(ss[k], Top(ss))
  {
    if k < Longest(ss) {
      assert Fits(ss[k], Top(ss)) && Length(ss[k]) < Length(Top(ss));
    } else {
      assert Fits(Top(ss), ss[k]) && Length(ss[k]) <= Length(Top(ss));
    }
  }

  lemma RestAt(ss: seq<Span>, i: nat)
    requires ss != [] && i < |Rest(ss)|
    ensures Rest(ss)[i] == if i < Longest(ss) then ss[i] else ss[i + 1]
  {
  }

  lemma RestNested(ss: seq<Span>, lo: int, hi: int)
    requires Nested(ss, lo, hi) && ss != []
    ensures Nested(Rest(ss), lo, hi)
  {
    forall i | 0 <= i < |Rest(ss)|
      ensures Rest(ss)[i] == if i < Longest(ss) then ss[i] else ss[i + 1]
    {
      RestAt(ss, i);
    }
  }

  lemma RestAround(ss: seq<Span>, lo: int, hi: int)
    requires Nested(ss, lo, hi) && ss != []
    ensures Around(Rest(ss), Top(ss)) && Top(ss).start < Top(ss).end
    ensures forall s :: s in Rest(ss) ==> lo <= s.start < s.end <= hi
    ensures forall s :: s in ss[..Longest(ss)] ==> s.start < s.end && (Apart(s, Top(ss)) || StrictlyInside(s, Top(ss)))
  {
    var m, rest := Longest(ss), Rest(ss);
    forall s | s in rest
      ensures lo <= s.start < s.end <= hi && (Apart(Top(ss), s) || Inside(s, Top(ss)))
    {
      var i :| 0 <= i < |rest| && rest[i] == s;
      RestAt(ss, i);
      TopIsOutermost(ss, lo, hi, if i < m then i else i + 1);
    }
    forall s | s in ss[..m]
      ensures s.start < s.end && (Apart(s, Top(ss)) || StrictlyInside(s, Top(ss)))
    {
      var i :| 0 <= i < m && ss[i] == s;
      TopIsOutermost(ss, lo, hi, i);
    }
  }

  lemma PartsAreNested(ss: seq<Span>, lo: int, hi: int)
    requires Nested(ss, lo, hi) && ss != []
    ensures var t, rest := Top(ss), Rest(ss);
            && Nested(Before(rest, t), lo, t.start) && |Before(rest, t)| < |ss|
            && Nested(Within(rest, t), t.start, t.end) && |Within(rest, t)| < |ss|
            && Nested(After(rest, t), t.end, hi) && |After(rest, t)| < |ss|
  {
    var t, rest := Top(ss), Rest(ss);
    RestNested(ss, lo, hi);
    RestAround(ss, lo, hi);
    PickNested(rest, (s: Span) => s.end <= t.start, lo, hi, lo, t.start);
    PickNested(rest, (s: Span) => Inside(s, t), lo, hi, t.start, t.end);
    PickNested(rest, (s: Span) => s.start >= t.end, lo, hi, t.end, hi);
  }

  /** If all that `q` picks is also picked by `p`, picking by `p` first loses nothing of it. */
  lemma {:induction false} PickOfPick(ss: seq<Span>, p: Span -> bool, q: Span -> bool)
    requires forall s :: s in ss && q(s) ==> p(s)
    ensures Pick(Pick(ss, p), q) == Pick(ss, q)
  {
    if ss != [] {
      var front, last := ss[..|ss| - 1], ss[|ss| - 1];
      assert ss == front + [last];
      PickOfPick(front, p, q);
      var pf := Pick(front, p);
      if p(last) {
        assert Pick(ss, p) == pf + [last] && (pf + [last])[..|pf|] == pf;
      } else {
        assert Pick(ss, p) == pf;
      }
    }
  }

  lemma {:induction false} PickNone(ss: seq<Span>, p: Span -> bool)
    requires forall s :: s in ss ==> !p(s)
    ensures Pick(ss, p) == []
  {
    if ss != [] {
      PickNone(ss[..|ss| - 1], p);
    }
  }

  lemma {:induction false} PickJoin(a: seq<Span>, b: seq<Span>, p: Span -> bool)
    ensures Pick(a + b, p) == Pick(a, p) + Pick(b, p)
  {
    if b == [] {
      assert a + b == a;
    } else {
      assert (a + b)[..|a + b| - 1] == a + b[..|b| - 1];
      PickJoin(a, b[..|b| - 1], p);
    }
  }

  lemma PickMore(ss: seq<Span>, s: Span, p: Span -> bool)
    ensures Pick(ss + [s], p) == Pick(ss, p) + if p(s) then [s] else []
  {
    assert (ss + [s])[..|ss|] == ss;
  }

  lemma PickParts(u: seq<Span>, t: Span, v: seq<Span>, p: Span -> bool)
    requires p(t) ==> forall s :: s in u ==> !p(s)
    ensures Pick((u + [t]) + v, p) == (if p(t) then [t] else []) + Pick(u + v, p)
  {
    PickJoin(u + [t], v, p);
    PickMore(u, t, p);
    PickJoin(u, v, p);
    if p(t) {
      PickNone(u, p);
    }
    PickedAround(Pick(u, p), t, Pick(v, p), p(t));
  }

  lemma PartsAt(ss: seq<Span>, m: nat)
    requires m < |ss|
    ensures (ss[..m] + [ss[m]]) + ss[m + 1..] == ss
  {
  }

  /** A span picked before any other that is picked stands first. */
  lemma PickAround(ss: seq<Span>, m: nat, p: Span -> bool)
    requires m < |ss| && (p(ss[m]) ==> forall s :: s in ss[..m] ==> !p(s))
    ensures Pick(ss, p) == (if p(ss[m]) then [ss[m]] else []) + Pick(ss[..m] + ss[m + 1..], p)
  {
    PartsAt(ss, m);
    PickParts(ss[..m], ss[m], ss[m + 1..], p);
  }

  lemma PickedAround(u: seq<Span>, t: Span, v: seq<Span>, picked: bool)
    requires picked ==> u == []
    ensures (u + if picked then [t] else []) + v == (if picked then [t] else []) + (u + v)
  {
  }

  lemma {:induction false} OpensFirst(s: Span, rest: seq<Span>)
    ensures Opens([s] + rest) == [Open(s)] + Opens(rest)
    ensures Closes([s] + rest) == Closes(rest) + [Close(s)]
  {
    var all := [s] + rest;
    if rest != [] {
      assert all[..|all| - 1] == [s] + rest[..|rest| - 1];
      OpensFirst(s, rest[..|rest| - 1]);
    } else {
      assert all[..0] == [];
      assert Opens(all) == Opens([]) + [Open(s)];
      assert Closes(all) == [Close(s)] + Closes([]);
    }
  }

  // ----- the sweep is the rendering -----

  lemma {:induction false} BodySplit(text: Units, ss: seq<Span>, a: nat, m: nat, b: nat)
    requires a <= m <= b <= |text|
    ensures Body(text, ss, a, b) == Body(text, ss, a, m) + Body(text, ss, m, b)
    decreases b
  {
    if m < b {
      BodySplit(text, ss, a, m, b - 1);
      var x, y, t := Body(text, ss, a, m), Body(text, ss, m, b - 1), Turn(text, ss, b - 1);
      assert (x + y) + t == x + (y + t);
    } else {
      assert Body(text, ss, m, m) == [];
    }
  }

  /** Two lists with the same markers at every position of a stretch have the same body there. */
  lemma {:induction false} BodySame(text: Units, ss: seq<Span>, ts: seq<Span>, a: nat, b: nat)
    requires a <= b <= |text|
    requires forall i :: a <= i < b ==> Closing(ss, i) == Closing(ts, i) && Opening(ss, i) == Opening(ts, i)
    ensures Body(text, ss, a, b) == Body(text, ts, a, b)
    decreases b
  {
    if a < b {
      BodySame(text, ss, ts, a, b - 1);
    }
  }

  /** The markers at a position are those of the longest span, if it starts or ends there, and those of the rest. */
  lemma OwnMarkers(ss: seq<Span>, lo: int, hi: int, i: int)
    requires Nested(ss, lo, hi) && ss != []
    ensures Opening(ss, i) == (if Top(ss).start == i then [Top(ss)] else []) + Opening(Rest(ss), i)
    ensures Closing(ss, i) == (if Top(ss).end == i then [Top(ss)] else []) + Closing(Rest(ss), i)
    ensures Around(Rest(ss), Top(ss)) && Top(ss).start < Top(ss).end
  {
    RestAround(ss, lo, hi);
    PickAround(ss, Longest(ss), (s: Span) => s.start == i);
    PickAround(ss, Longest(ss), (s: Span) => s.end == i);
  }

  lemma MarkersBefore(rest: seq<Span>, t: Span, i: int)
    requires Around(rest, t) && t.start < t.end
    ensures i <= t.start ==> Closing(rest, i) == Closing(Before(rest, t), i)
    ensures i < t.start ==> Opening(rest, i) == Opening(Before(rest, t), i)
  {
    if i <= t.start {
      PickOfPick(rest, (s: Span) => s.end <= t.start, (s: Span) => s.end == i);
    }
    if i < t.start {
      PickOfPick(rest, (s: Span) => s.end <= t.start, (s: Span) => s.start == i);
    }
  }

  lemma MarkersWithin(rest: seq<Span>, t: Span, i: int)
    requires Around(rest, t) && t.start < t.end
    ensures t.start <= i < t.end ==> Opening(rest, i) == Opening(Within(rest, t), i)
    ensures t.start < i <= t.end ==> Closing(rest, i) == Closing(Within(rest, t), i)
    ensures i == t.start ==> Closing(Within(rest, t), i) == []
  {
    if t.start <= i < t.end {
      PickOfPick(rest, (s: Span) => Inside(s, t), (s: Span) => s.start == i);
    }
    if t.start < i <= t.end {
      PickOfPick(rest, (s: Span) => Inside(s, t), (s: Span) => s.end == i);
    }
    if i == t.start {
      PickMember(rest, (s: Span) => Inside(s, t));
      PickNone(Within(rest, t), (s: Span) => s.end == i);
    }
  }

  lemma MarkersAfter(rest: seq<Span>, t: Span, i: int)
    requires Around(rest, t) && t.start < t.end
    ensures i >= t.end ==> Opening(rest, i) == Opening(After(rest, t), i)
    ensures i > t.end ==> Closing(rest, i) == Closing(After(rest, t), i)
    ensures i == t.end ==> Closing(After(rest, t), i) == []
  {
    if i >= t.end {
      PickOfPick(rest, (s: Span) => s.start >= t.end, (s: Span) => s.start == i);
    }
    if i > t.end {
      PickOfPick(rest, (s: Span) => s.start >= t.end, (s: Span) => s.end == i);
    }
    if i == t.end {
      PickMember(rest, (s: Span) => s.start >= t.end);
      PickNone(After(rest, t), (s: Span) => s.end == i);
    }
  }

  /** Which markers of a nested list stand at position i, seen from its longest span. */
  lemma MarkersAt(ss: seq<Span>, lo: int, hi: int, i: int)
    requires Nested(ss, lo, hi) && ss != []
    ensures var t, rest := Top(ss), Rest(ss);
            && (i <= t.start ==> Closing(ss, i) == Closing(Before(rest, t), i))
            && (i < t.start ==> Opening(ss, i) == Opening(Before(rest, t), i))
            && (i == t.start ==>
                  Opening(ss, i) == [t] + Opening(Within(rest, t), i) && Closing(Within(rest, t), i) == [])
            && (t.start < i < t.end ==>
                  Closing(ss, i) == Closing(Within(rest, t), i) && Opening(ss, i) == Opening(Within(rest, t), i))
            && (i == t.end ==> Closing(ss, i) == [t] + Closing(Within(rest, t), i) && Closing(After(rest, t), i) == [])
            && (i >= t.end ==> Opening(ss, i) == Opening(After(rest, t), i))
            && (i > t.end ==> Closing(ss, i) == Closing(After(rest, t), i))
  {
    var t, rest := Top(ss), Rest(ss);
    OwnMarkers(ss, lo, hi, i);
    MarkersBefore(rest, t, i);
    MarkersWithin(rest, t, i);
    MarkersAfter(rest, t, i);
    NoMore(Opening(rest, i));
    NoMore(Closing(rest, i));
  }

  lemma NoMore(ss: seq<Span>)
    ensures [] + ss == ss
  {
  }

  /** A stretch rendered by the sweep, up to the markers that close at its end, is its recursive rendering. */
  lemma {:induction false} StretchIsRender(text: Units, ss: seq<Span>, lo: nat, hi: nat)
    requires lo <= hi <= |text| && Nested(ss, lo, hi)
    ensures Body(text, ss, lo, hi) + Closes(Closing(ss, hi)) == Render(text, ss, lo, hi)
    decreases |ss|
  {
    if ss == [] {
      BodyPlain(text, lo, hi);
    } else {
      var t, rest := Top(ss), Rest(ss);
      PartsAreNested(ss, lo, hi);
      var a: nat, b: nat := t.start, t.end;
      var before, within, after := Before(rest, t), Within(rest, t), After(rest, t);
      StretchIsRender(text, before, lo, a);
      StretchIsRender(text, within, a, b);
      StretchIsRender(text, after, b, hi);
      BodySplit(text, ss, lo, a, hi);
      BodySplit(text, ss, a, b, hi);
      StretchBefore(text, ss, lo, hi);
      StretchWithin(text, ss, lo, hi);
      StretchAfter(text, ss, lo, hi);
      Regroup(Body(text, before, lo, a), Closes(Closing(before, a)), Open(t),
              Body(text, within, a, b), Closes(Closing(within, b)), Close(t),
              Body(text, after, b, hi), Closes(Closing(after, hi)),
              Body(text, ss, a, b), Body(text, ss, b, hi), Closes(Closing(ss, hi)));
    }
  }

  lemma Regroup(b1: seq<Token>, c1: seq<Token>, open: Token, b2: seq<Token>, c2: seq<Token>, close: Token,
                b3: seq<Token>, c3: seq<Token>, x2: seq<Token>, x3: seq<Token>, k: seq<Token>)
    requires x2 == c1 + [open] + b2
    requires x3 + k == c2 + [close] + b3 + c3
    ensures (b1 + (x2 + x3)) + k == (b1 + c1) + [open] + (b2 + c2) + [close] + (b3 + c3)
  {
    assert (b1 + (x2 + x3)) + k == b1 + x2 + (x3 + k);
  }

  lemma StretchBefore(text: Units, ss: seq<Span>, lo: nat, hi: nat)
    requires lo <= hi <= |text| && Nested(ss, lo, hi) && ss != []
    ensures var t, rest := Top(ss), Rest(ss); Body(text, ss, lo, t.start) == Body(text, Before(rest, t), lo, t.start)
  {
    var t, rest := Top(ss), Rest(ss);
    forall i | lo <= i < t.start
      ensures Closing(ss, i) == Closing(Before(rest, t), i) && Opening(ss, i) == Opening(Before(rest, t), i)
    {
      MarkersAt(ss, lo, hi, i);
    }
    BodySame(text, ss, Before(rest, t), lo, t.start);
  }

  lemma BodyOne(text: Units, ss: seq<Span>, a: nat)
    requires a < |text|
    ensures Body(text, ss, a, a + 1) == Turn(text, ss, a)
  {
    var turn := Turn(text, ss, a);
    assert Body(text, ss, a, a + 1) == [] + turn;
  }

  lemma BodyStart(text: Units, ss: seq<Span>, a: nat, b: nat)
    requires a < b <= |text|
    ensures Body(text, ss, a, b) == Turn(text, ss, a) + Body(text, ss, a + 1, b)
  {
    var one, tail := Body(text, ss, a, a + 1), Body(text, ss, a + 1, b);
    assert one == Turn(text, ss, a) by {
      BodyOne(text, ss, a);
    }
    assert Body(text, ss, a, b) == one + tail by {
      BodySplit(text, ss, a, a + 1, b);
    }
  }

  lemma TurnFrom(text: Units, ss: seq<Span>, ts: seq<Span>, a: nat, first: seq<Token>)
    requires a < |text| && Closing(ts, a) == [] && Opens(Opening(ss, a)) == first + Opens(Opening(ts, a))
    ensures Turn(text, ss, a) == Closes(Closing(ss, a)) + first + Turn(text, ts, a)
  {
    var c, o, x := Closes(Closing(ss, a)), Opens(Opening(ts, a)), [Text(text[a])];
    assert c + (first + o) + x == c + first + ([] + o + x);
  }

  lemma Regroup3(c: seq<Token>, turn: seq<Token>, tail: seq<Token>)
    ensures (c + turn) + tail == c + (turn + tail)
  {
  }

  /** Two lists that differ only in the markers at the first position of a stretch. */
  lemma BodyFrom(text: Units, ss: seq<Span>, ts: seq<Span>, a: nat, b: nat, first: seq<Token>)
    requires a < b <= |text|
    requires Closing(ts, a) == []
    requires Opens(Opening(ss, a)) == first + Opens(Opening(ts, a))
    requires forall i :: a < i < b ==> Closing(ss, i) == Closing(ts, i) && Opening(ss, i) == Opening(ts, i)
    ensures Body(text, ss, a, b) == Closes(Closing(ss, a)) + first + Body(text, ts, a, b)
  {
    BodySame(text, ss, ts, a + 1, b);
    BodyStart(text, ss, a, b);
    BodyStart(text, ts, a, b);
    TurnFrom(text, ss, ts, a, first);
    var x, turn, tail := Closes(Closing(ss, a)) + first, Turn(text, ts, a), Body(text, ts, a + 1, b);
    calc {
      Body(text, ss, a, b);
      (x + turn) + tail;
      { Regroup3(x, turn, tail); }
      x + (turn + tail);
      x + Body(text, ts, a, b);
    }
  }

  lemma StretchWithin(text: Units, ss: seq<Span>, lo: nat, hi: nat)
    requires lo <= hi <= |text| && Nested(ss, lo, hi) && ss != []
    ensures var t, rest := Top(ss), Rest(ss);
            Body(text, ss, t.start, t.end)
            == Closes(Closing(Before(rest, t), t.start)) + [Open(t)] + Body(text, Within(rest, t), t.start, t.end)
  {
    var t, rest := Top(ss), Rest(ss);
    var a: nat, b: nat := t.start, t.end;
    forall i | a < i < b
      ensures Closing(ss, i) == Closing(Within(rest, t), i) && Opening(ss, i) == Opening(Within(rest, t), i)
    {
      MarkersAt(ss, lo, hi, i);
    }
    MarkersAt(ss, lo, hi, a);
    OpensFirst(t, Opening(Within(rest, t), a));
    BodyFrom(text, ss, Within(rest, t), a, b, [Open(t)]);
  }

  lemma MarkersBeyond(ss: seq<Span>, lo: int, hi: int)
    requires Nested(ss, lo, hi) && ss != []
    ensures var t, rest := Top(ss), Rest(ss);
            && Closing(After(rest, t), t.end) == []
            && Opens(Opening(ss, t.end)) == [] + Opens(Opening(After(rest, t), t.end))
            && forall i :: i > t.end ==>
                 Closing(ss, i) == Closing(After(rest, t), i) && Opening(ss, i) == Opening(After(rest, t), i)
  {
    var t, rest := Top(ss), Rest(ss);
    MarkersAt(ss, lo, hi, t.end);
    forall i | i > t.end
      ensures Closing(ss, i) == Closing(After(rest, t), i) && Opening(ss, i) == Opening(After(rest, t), i)
    {
      MarkersAt(ss, lo, hi, i);
    }
  }

  lemma BodyAfter(text: Units, ss: seq<Span>, lo: nat, hi: nat)
    requires lo <= hi <= |text| && Nested(ss, lo, hi) && ss != [] && Top(ss).end < hi
    ensures var t, rest := Top(ss), Rest(ss);
            && Body(text, ss, t.end, hi) == Closes(Closing(ss, t.end)) + Body(text, After(rest, t), t.end, hi)
            && Closing(ss, hi) == Closing(After(rest, t), hi)
  {
    var t, rest := Top(ss), Rest(ss);
    MarkersBeyond(ss, lo, hi);
    BodyFrom(text, ss, After(rest, t), t.end, hi, []);
    assert Closes(Closing(ss, t.end)) + [] == Closes(Closing(ss, t.end));
  }

  lemma StretchAfter(text: Units, ss: seq<Span>, lo: nat, hi: nat)
    requires lo <= hi <= |text| && Nested(ss, lo, hi) && ss != []
    ensures var t, rest := Top(ss), Rest(ss);
            Body(text, ss, t.end, hi) + Closes(Closing(ss, hi))
            == Closes(Closing(Within(rest, t), t.end)) + [Close(t)]
               + Body(text, After(rest, t), t.end, hi) + Closes(Closing(After(rest, t), hi))
  {
    var t, rest := Top(ss), Rest(ss);
    var b: nat := t.end;
    assert Closes(Closing(ss, b)) == Closes(Closing(Within(rest, t), b)) + [Close(t)]
        && Closing(After(rest, t), b) == [] by {
      MarkersAt(ss, lo, hi, b);
      OpensFirst(t, Closing(Within(rest, t), b));
    }
    if b < hi {
      BodyAfter(text, ss, lo, hi);
    } else {
      assert Body(text, ss, b, hi) == [] == Body(text, After(rest, t), b, hi);
    }
  }

  /** The one-pass sweep over a nested family is the recursive rendering of the whole text. */
  lemma SweepIsRender(text: Units, ss: seq<Span>)
    requires Nested(ss, 0, |text|)
    ensures Sweep(text, ss) == Render(text, ss, 0, |text|)
  {
    StretchIsRender(text, ss, 0, |text|);
    PickNone(ss, (s: Span) => s.start == |text|);
  }

  // ----- what a rendering is -----

  /** Reads tokens keeping the markers still open; None when a closing marker does not match. */
  function Brackets(ts: seq<Token>, stack: seq<Span>): Option<seq<Span>> {
    if ts == [] then Some(stack)
    else
      match ts[0]
      case Text(_) => Brackets(ts[1..], stack)
      case Open(s) => Brackets(ts[1..], stack + [s])
      case Close(s) =>
        if stack != [] && stack[|stack| - 1] == s then Brackets(ts[1..], stack[..|stack| - 1]) else None
  }

  lemma {:induction false} BracketsJoin(a: seq<Token>, b: seq<Token>, stack: seq<Span>)
    requires Brackets(a, stack).Some?
    ensures Brackets(a + b, stack) == Brackets(b, Brackets(a, stack).value)
  {
    if a == [] {
      assert a + b == b;
    } else {
      assert (a + b)[1..] == a[1..] + b;
      match a[0]
      case Text(_) => BracketsJoin(a[1..], b, stack);
      case Open(s) => BracketsJoin(a[1..], b, stack + [s]);
      case Close(s) => BracketsJoin(a[1..], b, stack[..|stack| - 1]);
    }
  }

  lemma {:induction false} PlainReads(text: Units, stack: seq<Span>)
    ensures Brackets(Plain(text), stack) == Some(stack)
  {
    if text != [] {
      var front, last := text[..|text| - 1], [Text(text[|text| - 1])];
      PlainReads(front, stack);
      BracketsJoin(Plain(front), last, stack);
      assert last[1..] == [];
    }
  }

  /** Every marker of a rendering closes the one opened last. */
  lemma {:induction false} RenderMatches(text: Units, ss: seq<Span>, lo: nat, hi: nat, stack: seq<Span>)
    requires lo <= hi <= |text| && Nested(ss, lo, hi)
    ensures Brackets(Render(text, ss, lo, hi), stack) == Some(stack)
    decreases |ss|
  {
    if ss == [] {
      PlainReads(text[lo..hi], stack);
    } else {
      var t, rest := Top(ss), Rest(ss);
      PartsAreNested(ss, lo, hi);
      RenderMatches(text, Before(rest, t), lo, t.start, stack);
      RenderMatches(text, Within(rest, t), t.start, t.end, stack + [t]);
      RenderMatches(text, After(rest, t), t.end, hi, stack);
      PartsMatch(Render(text, Before(rest, t), lo, t.start), Render(text, Within(rest, t), t.start, t.end),
                 Render(text, After(rest, t), t.end, hi), t, stack);
    }
  }

  lemma PartsMatch(a: seq<Token>, b: seq<Token>, c: seq<Token>, t: Span, stack: seq<Span>)
    requires Brackets(a, stack) == Brackets(c, stack) == Some(stack)
    requires Brackets(b, stack + [t]) == Some(stack + [t])
    ensures Brackets(a + [Open(t)] + b + [Close(t)] + c, stack) == Some(stack)
  {
    var open, close := [Open(t)], [Close(t)];
    var ab, abb, abbc := a + open, a + open + b, a + open + b + close;
    assert Brackets(open, stack) == Some(stack + [t]) by {
      assert open[1..] == [];
    }
    assert Brackets(close, stack + [t]) == Some(stack) by {
      assert close[1..] == [] && (stack + [t])[..|stack|] == stack;
    }
    assert Brackets(ab, stack) == Some(stack + [t]) by { BracketsJoin(a, open, stack); }
    assert Brackets(abb, stack) == Some(stack + [t]) by { BracketsJoin(ab, b, stack); }
    assert Brackets(abbc, stack) == Some(stack) by { BracketsJoin(abb, close, stack); }
    BracketsJoin(abbc, c, stack);
  }

  // ----- when the output is well bracketed -----

  /** A nested family is written with every marker closing the one opened last, and all closed at the end. */
  lemma NestedIsBracketed(text: Units, ss: seq<Span>)
    requires Nested(ss, 0, |text|)
    ensures Brackets(Sweep(text, ss), []) == Some([])
  {
    SweepIsRender(text, ss);
    RenderMatches(text, ss, 0, |text|, []);
  }
}
