/**
 Telegram entities to Markdown (apps/bot/services/tg_news.py). The text is its
 sequence of UTF-16 code units; entity offsets and lengths count those units.
 */
module TelegramMarkdown {
  import opened Wrappers

  newtype Unit = x: int | 0 <= x < 0x1_0000

  type Units = seq<Unit>

  datatype Kind = Bold | Italic | Underline | Strikethrough | Code | Pre | Blockquote | TextLink(url: Units) | Other

  datatype Entity = Entity(offset: int, length: int, kind: Kind)

  predicate Ascii(s: string) {
    forall i :: 0 <= i < |s| ==> s[i] as int < 128
  }

  function Encode(s: string): Units
    requires Ascii(s)
  {
    seq(|s|, i requires 0 <= i < |s| => s[i] as int as Unit)
  }

  /** What opens and what closes an entity; None when its kind is not rendered. */
  function Markers(kind: Kind): Option<(Units, Units)> {
    match kind
    case Bold => Some((Encode("**"), Encode("**")))
    case Italic => Some((Encode("*"), Encode("*")))
    case Underline => Some((Encode("<u>"), Encode("</u>")))
    case Strikethrough => Some((Encode("~~"), Encode("~~")))
    case Code => Some((Encode("`"), Encode("`")))
    case Pre => Some((Encode("\n```\n"), Encode("\n```\n")))
    case Blockquote => Some((Encode("> "), []))
    case TextLink(url) => if url == [] then None else Some((Encode("["), Encode("](") + url + Encode(")")))
    case Other => None
  }

  /** An entity that is rendered: its place in the list, where it starts and ends, what opens and closes it. */
  datatype Span = Span(id: nat, start: int, end: int, open: Units, close: Units)

  predicate Rendered(e: Entity, n: nat) {
    Markers(e.kind).Some? && 0 <= e.offset && e.offset + e.length <= n
  }

  function SpanOf(e: Entity, id: nat): Span
    requires Markers(e.kind).Some?
  {
    var (pre, suf) := Markers(e.kind).value;
    Span(id, e.offset, e.offset + e.length, pre, suf)
  }

  /** What an entity adds to the rendered ones. */
  function Kept(e: Entity, n: nat, id: nat): seq<Span> {
    if Rendered(e, n) then [SpanOf(e, id)] else []
  }

  /** The entities the sweep keeps, in the order given. */
  function Spans(es: seq<Entity>, n: nat): seq<Span> {
    if es == [] then []
    else Spans(es[..|es| - 1], n) + Kept(es[|es| - 1], n, |es| - 1)
  }

  // ----- the sweep -----

  /** What the sweep emits, before it is written out as code units. */
  datatype Token = Text(unit: Unit) | Open(span: Span) | Close(span: Span)

  function Write(ts: seq<Token>): Units {
    if ts == [] then []
    else
      var last := ts[|ts| - 1];
      Write(ts[..|ts| - 1]) +
      match last
      case Text(u) => [u]
      case Open(s) => s.open
      case Close(s) => s.close
  }

  function Pick(ss: seq<Span>, p: Span -> bool): seq<Span> {
    if ss == [] then [] else Pick(ss[..|ss| - 1], p) + if p(ss[|ss| - 1]) then [ss[|ss| - 1]] else []
  }

  function Opening(ss: seq<Span>, i: int): seq<Span> {
    Pick(ss, (s: Span) => s.start == i)
  }

  function Closing(ss: seq<Span>, i: int): seq<Span> {
    Pick(ss, (s: Span) => s.end == i)
  }

  function Opens(ss: seq<Span>): seq<Token> {
    if ss == [] then [] else Opens(ss[..|ss| - 1]) + [Open(ss[|ss| - 1])]
  }

  /** The closing markers, last listed first. */
  function Closes(ss: seq<Span>): seq<Token> {
    if ss == [] then [] else [Close(ss[|ss| - 1])] + Closes(ss[..|ss| - 1])
  }

  /** The markers standing before a unit, and the unit. */
  function Turn(text: Units, ss: seq<Span>, i: nat): seq<Token>
    requires i < |text|
  {
    Closes(Closing(ss, i)) + Opens(Opening(ss, i)) + [Text(text[i])]
  }

  /** What the sweep emits for the units from `a` up to `b`, each after the markers standing before it. */
  function Body(text: Units, ss: seq<Span>, a: nat, b: nat): seq<Token>
    requires a <= b <= |text|
    decreases b
  {
    if a == b then [] else Body(text, ss, a, b - 1) + Turn(text, ss, b - 1)
  }

  function Sweep(text: Units, ss: seq<Span>): seq<Token> {
    Body(text, ss, 0, |text|) + Closes(Closing(ss, |text|)) + Opens(Opening(ss, |text|))
  }

  function Plain(text: Units): seq<Token> {
    if text == [] then [] else Plain(text[..|text| - 1]) + [Text(text[|text| - 1])]
  }

  lemma {:induction false} BodyPlain(text: Units, a: nat, b: nat)
    requires a <= b <= |text|
    ensures Body(text, [], a, b) == Plain(text[a..b])
    decreases b
  {
    if a < b {
      BodyPlain(text, a, b - 1);
      assert text[a..b][..b - a - 1] == text[a..b - 1];
    }
  }

  // ----- the code -----

  type MarkerList = seq<Units>

  function Join(ms: MarkerList): Units {
    if ms == [] then [] else Join(ms[..|ms| - 1]) + ms[|ms| - 1]
  }

  function Reversed(ms: MarkerList): MarkerList {
    if ms == [] then [] else [ms[|ms| - 1]] + Reversed(ms[..|ms| - 1])
  }

  function OpenMarks(ss: seq<Span>): MarkerList {
    seq(|ss|, i requires 0 <= i < |ss| => ss[i].open)
  }

  function CloseMarks(ss: seq<Span>): MarkerList {
    seq(|ss|, i requires 0 <= i < |ss| => ss[i].close)
  }

  /** `defaultdict(list)`: a missing position has no markers. */
  function Get(d: map<int, MarkerList>, i: int): MarkerList {
    if i in d then d[i] else []
  }

  lemma {:induction false} WriteJoin(a: seq<Token>, b: seq<Token>)
    ensures Write(a + b) == Write(a) + Write(b)
  {
    if b == [] {
      assert a + b == a;
    } else {
      assert (a + b)[..|a + b| - 1] == a + b[..|b| - 1];
      WriteJoin(a, b[..|b| - 1]);
    }
  }

  lemma {:induction false} WriteOpens(ss: seq<Span>)
    ensures Write(Opens(ss)) == Join(OpenMarks(ss))
  {
    if ss != [] {
      var front := ss[..|ss| - 1];
      WriteOpens(front);
      assert Opens(ss)[..|Opens(ss)| - 1] == Opens(front);
      assert OpenMarks(ss)[..|ss| - 1] == OpenMarks(front);
    }
  }

  lemma {:induction false} JoinFirst(m: Units, ms: MarkerList)
    ensures Join([m] + ms) == m + Join(ms)
  {
    var all := [m] + ms;
    if ms == [] {
      assert all[..0] == [];
      assert Join(all) == Join([]) + m;
    } else {
      assert all[..|all| - 1] == [m] + ms[..|ms| - 1];
      JoinFirst(m, ms[..|ms| - 1]);
    }
  }

  lemma WriteCloseFirst(s: Span, rest: seq<Token>)
    ensures Write([Close(s)] + rest) == s.close + Write(rest)
  {
    WriteJoin([Close(s)], rest);
    assert [Close(s)][..0] == [];
    assert Write([Close(s)]) == [] + s.close;
  }

  lemma ReversedMore(ss: seq<Span>)
    requires ss != []
    ensures Reversed(CloseMarks(ss)) == [ss[|ss| - 1].close] + Reversed(CloseMarks(ss[..|ss| - 1]))
  {
    assert CloseMarks(ss)[..|ss| - 1] == CloseMarks(ss[..|ss| - 1]);
  }

  lemma {:induction false} WriteCloses(ss: seq<Span>)
    ensures Write(Closes(ss)) == Join(Reversed(CloseMarks(ss)))
  {
    if ss != [] {
      var front, last := ss[..|ss| - 1], ss[|ss| - 1];
      WriteCloses(front);
      WriteCloseFirst(last, Closes(front));
      ReversedMore(ss);
      JoinFirst(last.close, Reversed(CloseMarks(front)));
    }
  }

  lemma {:induction false} WritePlain(text: Units)
    ensures Write(Plain(text)) == text
  {
    if text != [] {
      var front := Plain(text[..|text| - 1]);
      WritePlain(text[..|text| - 1]);
      assert Plain(text) == front + [Text(text[|text| - 1])];
      WriteUnit(front, text[|text| - 1]);
    }
  }

  method AppendAll(buffer: Units, ms: MarkerList) returns (out: Units)
    ensures out == buffer + Join(ms)
  {
    out := buffer;
    for k := 0 to |ms|
      invariant out == buffer + Join(ms[..k])
    {
      out := out + ms[k];
      assert ms[..k + 1][..k] == ms[..k];
    }
    assert ms[..|ms|] == ms;
  }

  ghost predicate OpensPlaced(d: map<int, MarkerList>, ss: seq<Span>) {
    forall i :: Get(d, i) == OpenMarks(Opening(ss, i))
  }

  ghost predicate ClosesPlaced(d: map<int, MarkerList>, ss: seq<Span>) {
    forall i :: Get(d, i) == CloseMarks(Closing(ss, i))
  }

  lemma PlaceOpen(d: map<int, MarkerList>, ss: seq<Span>, s: Span)
    requires OpensPlaced(d, ss)
    ensures OpensPlaced(d[s.start := Get(d, s.start) + [s.open]], ss + [s])
  {
    var d' := d[s.start := Get(d, s.start) + [s.open]];
    assert (ss + [s])[..|ss|] == ss;
    forall i ensures Get(d', i) == OpenMarks(Opening(ss + [s], i)) {
      assert Get(d, i) == OpenMarks(Opening(ss, i));
    }
  }

  lemma PlaceClose(d: map<int, MarkerList>, ss: seq<Span>, s: Span)
    requires ClosesPlaced(d, ss)
    ensures ClosesPlaced(d[s.end := Get(d, s.end) + [s.close]], ss + [s])
  {
    var d' := d[s.end := Get(d, s.end) + [s.close]];
    assert (ss + [s])[..|ss|] == ss;
    forall i ensures Get(d', i) == CloseMarks(Closing(ss + [s], i)) {
      assert Get(d, i) == CloseMarks(Closing(ss, i));
    }
  }

  lemma SpansStep(es: seq<Entity>, k: nat, n: nat)
    requires k < |es|
    ensures Spans(es[..k + 1], n) == Spans(es[..k], n) + Kept(es[k], n, k)
  {
    assert es[..k + 1][..k] == es[..k];
  }

  /** One entity of the loop: skipped if it is not rendered, otherwise its markers go to its two ends. */
  method PlaceOne(e: Entity, n: nat, opens: map<int, MarkerList>, closes: map<int, MarkerList>, ghost before: seq<Span>,
                  ghost id: nat)
      returns (opens': map<int, MarkerList>, closes': map<int, MarkerList>)
    requires OpensPlaced(opens, before) && ClosesPlaced(closes, before)
    ensures OpensPlaced(opens', before + Kept(e, n, id))
    ensures ClosesPlaced(closes', before + Kept(e, n, id))
  {
    assert before + [] == before;
    var markers := Markers(e.kind);
    if markers.None? {
      return opens, closes;
    }
    var (pre, suf) := markers.value;
    var start, end := e.offset, e.offset + e.length;
    if start < 0 || end > n {
      return opens, closes;
    }
    ghost var s := Span(id, start, end, pre, suf);
    assert Kept(e, n, id) == [s];
    PlaceOpen(opens, before, s);
    PlaceClose(closes, before, s);
    opens' := opens[start := Get(opens, start) + [pre]];
    closes' := closes[end := Get(closes, end) + [suf]];
  }

  /** The markers to open and to close at each position. */
  method PlaceMarkers(entities: seq<Entity>, n: nat) returns (opens: map<int, MarkerList>, closes: map<int, MarkerList>)
    ensures OpensPlaced(opens, Spans(entities, n))
    ensures ClosesPlaced(closes, Spans(entities, n))
  {
    opens, closes := map[], map[];
    ghost var spans := Spans(entities[..0], n);
    for k := 0 to |entities|
      invariant spans == Spans(entities[..k], n)
      invariant OpensPlaced(opens, spans) && ClosesPlaced(closes, spans)
    {
      SpansStep(entities, k, n);
      opens, closes := PlaceOne(entities[k], n, opens, closes, spans, k);
      spans := spans + Kept(entities[k], n, k);
    }
    assert entities[..|entities|] == entities;
  }

  /** What one turn of the main loop appends. */
  lemma WriteTurn(text: Units, ss: seq<Span>, i: nat)
    requires i <= |text|
    ensures Write(Body(text, ss, 0, i)) + Join(Reversed(CloseMarks(Closing(ss, i)))) + Join(OpenMarks(Opening(ss, i)))
            + (if i < |text| then [text[i]] else [])
            == Write(if i < |text| then Body(text, ss, 0, i + 1) else Sweep(text, ss))
  {
    var body, c, o := Body(text, ss, 0, i), Closes(Closing(ss, i)), Opens(Opening(ss, i));
    WriteCloses(Closing(ss, i));
    WriteOpens(Opening(ss, i));
    WriteJoin(body, c);
    WriteJoin(body + c, o);
    if i < |text| {
      WriteUnit(body + c + o, text[i]);
      Regroup4(body, c, o, [Text(text[i])]);
    }
  }

  lemma Regroup4(body: seq<Token>, c: seq<Token>, o: seq<Token>, x: seq<Token>)
    ensures body + (c + o + x) == (body + c + o) + x
  {
  }

  lemma WriteUnit(ts: seq<Token>, u: Unit)
    ensures Write(ts + [Text(u)]) == Write(ts) + [u]
  {
    assert (ts + [Text(u)])[..|ts|] == ts;
  }

  /** Text without a rendered entity is swept to itself. */
  lemma SweepPlain(text: Units)
    ensures Write(Sweep(text, [])) == text
  {
    BodyPlain(text, 0, |text|);
    WritePlain(text);
    assert text[0..|text|] == text;
    assert Plain(text) + [] + [] == Plain(text);
  }

  /**
   The conversion writes what the sweep emits; text without a rendered entity comes
   back as it is.
   */
  method EntitiesToMarkdown(text: Units, entities: seq<Entity>) returns (out: Units)
    ensures text == [] ==> out == []
    ensures text != [] ==> out == Write(Sweep(text, Spans(entities, |text|)))
    ensures Spans(entities, |text|) == [] ==> out == text
  {
    ghost var ss := Spans(entities, |text|);
    SweepPlain(text);
    if text == [] {
      return [];
    }
    if entities == [] {
      return text;
    }
    var n := |text|;
    var opens, closes := PlaceMarkers(entities, n);
    out := [];
    for i := 0 to n + 1
      invariant out == Write(if i <= n then Body(text, ss, 0, i) else Sweep(text, ss))
    {
      WriteTurn(text, ss, i);
      out := AppendAll(out, Reversed(Get(closes, i)));
      out := AppendAll(out, Get(opens, i));
      if i < n {
        out := out + [text[i]];
      }
    }
  }

  // ----- what stays of the text -----

  function Erase(ts: seq<Token>): Units {
    if ts == [] then [] else (if ts[0].Text? then [ts[0].unit] else []) + Erase(ts[1..])
  }

  lemma {:induction false} EraseJoin(a: seq<Token>, b: seq<Token>)
    ensures Erase(a + b) == Erase(a) + Erase(b)
  {
    if a == [] {
      assert a + b == b;
    } else {
      assert (a + b)[1..] == a[1..] + b && (a + b)[0] == a[0];
      EraseJoin(a[1..], b);
      var head := if a[0].Text? then [a[0].unit] else [];
      assert Erase(a + b) == head + Erase(a[1..] + b);
      assert head + (Erase(a[1..]) + Erase(b)) == (head + Erase(a[1..])) + Erase(b);
    }
  }

  lemma {:induction false} MarkersErase(ss: seq<Span>)
    ensures Erase(Opens(ss)) == [] && Erase(Closes(ss)) == []
  {
    if ss != [] {
      var front, last := ss[..|ss| - 1], ss[|ss| - 1];
      MarkersErase(front);
      EraseJoin(Opens(front), [Open(last)]);
      EraseJoin([Close(last)], Closes(front));
      assert Erase([Open(last)]) == Erase([Open(last)][1..]) == [];
      assert Erase([Close(last)]) == Erase([Close(last)][1..]) == [];
    }
  }

  lemma {:induction false} BodyErases(text: Units, ss: seq<Span>, b: nat)
    requires b <= |text|
    ensures Erase(Body(text, ss, 0, b)) == text[..b]
    decreases b
  {
    if b > 0 {
      var c, o, x := Closes(Closing(ss, b - 1)), Opens(Opening(ss, b - 1)), [Text(text[b - 1])];
      BodyErases(text, ss, b - 1);
      MarkersErase(Closing(ss, b - 1));
      MarkersErase(Opening(ss, b - 1));
      EraseJoin(c, o);
      EraseJoin(c + o, x);
      EraseJoin(Body(text, ss, 0, b - 1), c + o + x);
      assert x[1..] == [] && Erase(x) == [text[b - 1]];
    }
  }

  /** However the entities overlap, erasing the markers of the sweep leaves the text. */
  lemma SweepErases(text: Units, ss: seq<Span>)
    ensures Erase(Sweep(text, ss)) == text
  {
    var body, c, o := Body(text, ss, 0, |text|), Closes(Closing(ss, |text|)), Opens(Opening(ss, |text|));
    BodyErases(text, ss, |text|);
    MarkersErase(Closing(ss, |text|));
    MarkersErase(Opening(ss, |text|));
    EraseJoin(body, c);
    EraseJoin(body + c, o);
  }
}
