/**
 Reading a call out of a script (docs/scripts/parse_recipes.py): the text between a
 parenthesis and its match, and its arguments at the top level of brackets.
 */
module CallParser {
  import opened Text
  import opened Wrappers

  // ----- brackets -----

  /** How many round parentheses are left open. */
  function Parens(s: string): int {
    if s == "" then 0
    else
      var c := s[|s| - 1];
      Parens(s[..|s| - 1]) + if c == '(' then 1 else if c == ')' then -1 else 0
  }

  /** How many brackets of any kind are left open; the kinds are not told apart. */
  function Level(s: string): int {
    if s == "" then 0
    else
      var c := s[|s| - 1];
      Level(s[..|s| - 1]) + if c in "([{" then 1 else if c in ")]}" then -1 else 0
  }

  lemma {:induction false} ParensJoin(a: string, b: string)
    ensures Parens(a + b) == Parens(a) + Parens(b)
  {
    if b == "" {
      assert a + b == a;
    } else {
      assert (a + b)[..|a + b| - 1] == a + b[..|b| - 1];
      ParensJoin(a, b[..|b| - 1]);
    }
  }

  lemma {:induction false} LevelJoin(a: string, b: string)
    ensures Level(a + b) == Level(a) + Level(b)
  {
    if b == "" {
      assert a + b == a;
    } else {
      assert (a + b)[..|a + b| - 1] == a + b[..|b| - 1];
      LevelJoin(a, b[..|b| - 1]);
    }
  }

  /** Where one of the given characters stands in the text. */
  function Places(s: string, cs: set<char>): set<int> {
    set i | 0 <= i < |s| && s[i] in cs
  }

  lemma PlacesMore(s: string, cs: set<char>)
    requires s != ""
    ensures |Places(s, cs)| == |Places(s[..|s| - 1], cs)| + if s[|s| - 1] in cs then 1 else 0
  {
    var n := |s| - 1;
    assert Places(s, cs) == Places(s[..n], cs) + if s[n] in cs then {n} else {};
  }

  /** What is counted: opening brackets less closing ones, for blocks of the round kind only. */
  lemma {:induction false} CountsAre(s: string)
    ensures Parens(s) == |Places(s, {'('})| - |Places(s, {')'})|
    ensures Level(s) == |Places(s, {'(', '[', '{'})| - |Places(s, {')', ']', '}'})|
  {
    if s != "" {
      CountsAre(s[..|s| - 1]);
      PlacesMore(s, {'('});
      PlacesMore(s, {')'});
      PlacesMore(s, {'(', '[', '{'});
      PlacesMore(s, {')', ']', '}'});
    }
  }

  // ----- the block of a call -----

  /** At `i` the parentheses counted from `start` close for the first time. */
  ghost predicate Closes(text: string, start: nat, i: nat) {
    && start <= i < |text| && text[i] == ')' && Parens(text[start..i + 1]) == 0
    && forall j :: start <= j < i && text[j] == ')' ==> Parens(text[start..j + 1]) != 0
  }

  lemma ParensMore(text: string, start: nat, i: nat)
    requires start <= i < |text|
    ensures Parens(text[start..i + 1])
            == Parens(text[start..i]) + if text[i] == '(' then 1 else if text[i] == ')' then -1 else 0
  {
    var more := text[start..i + 1];
    assert more[..|more| - 1] == text[start..i];
  }

  method ExtractBlock(text: string, start: nat) returns (block: Option<string>, end: int)
    ensures block.Some? ==> 0 <= end && Closes(text, start, end) && start < end && block.value == text[start + 1..end]
    ensures block.None? ==> end == -1 && forall i: nat :: !Closes(text, start, i)
  {
    var depth := 0;
    var i := start;
    while i < |text|
      invariant start <= i && (i == start ==> depth == 0)
      invariant i <= |text| ==> depth == Parens(text[start..i])
      invariant forall j :: start <= j < i && j < |text| && text[j] == ')' ==> Parens(text[start..j + 1]) != 0
    {
      ParensMore(text, start, i);
      if text[i] == '(' {
        depth := depth + 1;
      } else if text[i] == ')' {
        depth := depth - 1;
        if depth == 0 {
          return Some(text[start + 1..i]), i;
        }
      }
      i := i + 1;
    }
    block, end := None, -1;
  }

  /** Parentheses never close more than they opened, and all are closed at the end. */
  ghost predicate Neat(body: string) {
    Parens(body) == 0 && forall k :: 0 <= k <= |body| ==> Parens(body[..k]) >= 0
  }

  function Call(before: string, body: string, after: string): string {
    before + "(" + body + ")" + after
  }

  lemma SliceAfter(before: string, rest: string, m: nat)
    requires m <= |rest|
    ensures (before + rest)[|before|..|before| + m] == rest[..m]
  {
  }

  /** The call from its parenthesis on. */
  function Tail(body: string, after: string): string {
    "(" + body + ")" + after
  }

  lemma CallIs(before: string, body: string, after: string)
    ensures Call(before, body, after) == before + Tail(body, after)
  {
  }

  lemma TailInside(body: string, after: string, k: nat)
    requires k <= |body|
    ensures Tail(body, after)[..1 + k] == "(" + body[..k]
    ensures Tail(body, after)[..|body| + 2] == "(" + body + ")"
  {
  }

  lemma InsideCall(before: string, body: string, after: string, k: nat)
    requires k <= |body|
    ensures Call(before, body, after)[|before|..|before| + 1 + k] == "(" + body[..k]
    ensures Parens(Call(before, body, after)[|before|..|before| + 1 + k]) == 1 + Parens(body[..k])
  {
    CallIs(before, body, after);
    SliceAfter(before, Tail(body, after), 1 + k);
    TailInside(body, after, k);
    ParensJoin("(", body[..k]);
    assert "("[..0] == "";
  }

  lemma WholeCall(before: string, body: string, after: string)
    ensures Call(before, body, after)[|before| + 1 + |body|] == ')'
    ensures Parens(Call(before, body, after)[|before|..|before| + 1 + |body| + 1]) == Parens(body)
  {
    CallIs(before, body, after);
    SliceAfter(before, Tail(body, after), |body| + 2);
    TailInside(body, after, 0);
    ParensJoin("(", body);
    ParensJoin("(" + body, ")");
    assert "("[..0] == "" == ")"[..0];
  }

  lemma NeatCallCloses(before: string, body: string, after: string)
    requires Neat(body)
    ensures Closes(Call(before, body, after), |before|, |before| + 1 + |body|)
  {
    var text, n := Call(before, body, after), |before|;
    WholeCall(before, body, after);
    forall j | n <= j < n + 1 + |body| && text[j] == ')'
      ensures Parens(text[n..j + 1]) != 0
    {
      if j > n {
        InsideCall(before, body, after, j - n);
      }
    }
  }

  /** The end of a neat body is where its call closes; the call of any other body does not close there. */
  lemma CallClosesIff(before: string, body: string, after: string)
    ensures Closes(Call(before, body, after), |before|, |before| + 1 + |body|) <==> Neat(body)
  {
    if Neat(body) {
      NeatCallCloses(before, body, after);
    }
    if Closes(Call(before, body, after), |before|, |before| + 1 + |body|) {
      WholeCall(before, body, after);
      forall k | 0 <= k <= |body|
        ensures Parens(body[..k]) >= 0
      {
        NeverBelow(before, body, after, k);
      }
    }
  }

  /** While the call has not closed, its body has not closed more than it opened. */
  lemma {:induction false} NeverBelow(before: string, body: string, after: string, k: nat)
    requires k <= |body| && Closes(Call(before, body, after), |before|, |before| + 1 + |body|)
    ensures Parens(body[..k]) >= 0
  {
    if k > 0 {
      NeverBelow(before, body, after, k - 1);
      assert body[..k][..k - 1] == body[..k - 1];
      InsideCall(before, body, after, k);
      assert Call(before, body, after)[|before| + k] == body[k - 1];
    }
  }

  /** Extracting from a call gives its body back exactly when the body is neat, whatever stands around the call. */
  method ExtractFromCall(before: string, body: string, after: string) returns (block: Option<string>, end: int)
    ensures block == Some(body) && end == |before| + 1 + |body| <==> Neat(body)
  {
    block, end := ExtractBlock(Call(before, body, after), |before|);
    CallClosesIff(before, body, after);
    assert Call(before, body, after)[|before| + 1..|before| + 1 + |body|] == body;
  }

  // ----- splitting at the top level -----

  /** The text between the commas that stand at level 0, nothing trimmed, an empty end kept. */
  function Pieces(s: string): (ps: seq<string>)
    ensures ps != []
  {
    if s == "" then [""]
    else
      var front, c := s[..|s| - 1], s[|s| - 1];
      var ps := Pieces(front);
      if c == ',' && Level(front) == 0 then ps + [""] else Front(ps) + [Last(ps) + [c]]
  }

  function Last(ps: seq<string>): string
    requires ps != []
  {
    ps[|ps| - 1]
  }

  function Front(ps: seq<string>): seq<string>
    requires ps != []
  {
    ps[..|ps| - 1]
  }

  lemma PiecesStep(s: string, c: char)
    ensures Pieces(s + [c])
            == if c == ',' && Level(s) == 0 then Pieces(s) + [""] else Front(Pieces(s)) + [Last(Pieces(s)) + [c]]
  {
    assert (s + [c])[..|s|] == s;
  }

  function Stripped(ps: seq<string>): seq<string> {
    seq(|ps|, i requires 0 <= i < |ps| => Strip(ps[i]))
  }

  /** The arguments: the pieces trimmed, without an empty last one. */
  function Args(s: string): seq<string> {
    var ps := Pieces(s);
    Stripped(if Last(ps) == "" then Front(ps) else ps)
  }

  lemma StrippedMore(ps: seq<string>, p: string)
    ensures Stripped(ps + [p]) == Stripped(ps) + [Strip(p)]
  {
  }

  method SplitTopLevelArgs(s: string) returns (args: seq<string>)
    ensures args == Args(s)
  {
    args := [];
    var depth := 0;
    var current := "";
    ghost var pieces: seq<string> := [];
    for i := 0 to |s|
      invariant depth == Level(s[..i])
      invariant Pieces(s[..i]) == pieces + [current]
      invariant args == Stripped(pieces)
    {
      var ch := s[i];
      assert s[..i + 1] == s[..i] + [ch] && s[..i + 1][..i] == s[..i];
      PiecesStep(s[..i], ch);
      if ch in "([{" {
        depth := depth + 1;
        current := current + [ch];
      } else if ch in ")]}" {
        depth := depth - 1;
        current := current + [ch];
      } else if ch == ',' && depth == 0 {
        args := args + [Strip(current)];
        StrippedMore(pieces, current);
        pieces := pieces + [current];
        current := "";
      } else {
        current := current + [ch];
      }
    }
    assert s[..|s|] == s;
    assert Front(pieces + [current]) == pieces;
    StrippedMore(pieces, current);
    if current != "" {
      args := args + [Strip(current)];
    }
  }

  // ----- printing and reading back -----

  /** The pieces with commas between them. */
  function Joined(ps: seq<string>): string
    requires ps != []
  {
    if |ps| == 1 then ps[0] else Joined(Front(ps)) + "," + Last(ps)
  }

  lemma JoinedMore(ps: seq<string>, p: string)
    requires ps != []
    ensures Joined(ps + [p]) == Joined(ps) + "," + p
  {
    assert Front(ps + [p]) == ps;
  }

  lemma JoinedLonger(ps: seq<string>, t: string)
    requires ps != []
    ensures Joined(Front(ps) + [Last(ps) + t]) == Joined(ps) + t
  {
    var longer := Front(ps) + [Last(ps) + t];
    assert Front(longer) == Front(ps);
    if |ps| > 1 {
      assert Joined(longer) == Joined(Front(ps)) + "," + (Last(ps) + t);
    }
  }

  /** No comma of the piece is at level 0. */
  ghost predicate NoTopComma(p: string) {
    forall k :: 0 <= k < |p| && p[k] == ',' ==> Level(p[..k]) != 0
  }

  /** Pieces that can be told apart again: no top-level comma in any, and the brackets closed in all but the last. */
  ghost predicate Separable(ps: seq<string>) {
    && (forall i :: 0 <= i < |ps| ==> NoTopComma(ps[i]))
    && (forall i :: 0 <= i < |ps| - 1 ==> Level(ps[i]) == 0)
  }

  /** For every text: the pieces joined are the text. */
  lemma {:induction false} PiecesJoin(s: string)
    ensures Joined(Pieces(s)) == s
  {
    if s != "" {
      var front, c := s[..|s| - 1], s[|s| - 1];
      PiecesJoin(front);
      JoinedMore(Pieces(front), "");
      JoinedLonger(Pieces(front), [c]);
      assert s == front + [c];
    }
  }

  lemma LevelMore(s: string, c: char)
    ensures Level(s + [c]) == Level(s) + if c in "([{" then 1 else if c in ")]}" then -1 else 0
  {
    assert (s + [c])[..|s|] == s;
  }

  lemma {:induction false} PiecesLevel(s: string)
    ensures Level(s) == Level(Last(Pieces(s)))
  {
    if s != "" {
      var front, c := s[..|s| - 1], s[|s| - 1];
      PiecesLevel(front);
      LevelMore(Last(Pieces(front)), c);
    }
  }

  lemma NoTopCommaMore(p: string, c: char)
    requires NoTopComma(p) && (c == ',' ==> Level(p) != 0)
    ensures NoTopComma(p + [c])
  {
    forall k | 0 <= k < |p + [c]| && (p + [c])[k] == ','
      ensures Level((p + [c])[..k]) != 0
    {
      assert (p + [c])[..k] == if k < |p| then p[..k] else p;
    }
  }

  /** For every text: its pieces are separable. */
  lemma {:induction false} PiecesSeparable(s: string)
    ensures Separable(Pieces(s))
  {
    if s != "" {
      var front, c := s[..|s| - 1], s[|s| - 1];
      PiecesSeparable(front);
      PiecesLevel(front);
      if !(c == ',' && Level(front) == 0) {
        NoTopCommaMore(Last(Pieces(front)), c);
      }
    }
  }

  /** Adding to the last piece what has no top-level comma adds it to the last piece found. */
  lemma {:induction false} PiecesOfMore(s: string, t: string)
    requires forall k :: 0 <= k < |t| && t[k] == ',' ==> Level(s + t[..k]) != 0
    ensures Pieces(s + t) == Front(Pieces(s)) + [Last(Pieces(s)) + t]
    decreases |t|
  {
    if t == "" {
      assert s + t == s;
      assert Last(Pieces(s)) + t == Last(Pieces(s));
    } else {
      var front, c := t[..|t| - 1], t[|t| - 1];
      assert s + t == (s + front) + [c] && front + [c] == t;
      forall k | 0 <= k < |front| && front[k] == ','
        ensures Level(s + front[..k]) != 0
      {
        assert front[..k] == t[..k];
      }
      PiecesOfMore(s, front);
      PiecesStep(s + front, c);
      assert t[..|t| - 1] == front;
      assert Last(Pieces(s)) + front + [c] == Last(Pieces(s)) + t;
    }
  }

  lemma {:induction false} JoinedLevel(ps: seq<string>)
    requires ps != [] && forall i :: 0 <= i < |ps| ==> Level(ps[i]) == 0
    ensures Level(Joined(ps)) == 0
  {
    if |ps| > 1 {
      JoinedLevel(Front(ps));
      LevelMore(Joined(Front(ps)), ',');
      LevelJoin(Joined(Front(ps)) + ",", Last(ps));
    }
  }

  /** A piece without top-level comma after a comma at level 0 is found as the next piece. */
  lemma OnePieceMore(s: string, p: string)
    requires Level(s) == 0 && NoTopComma(p)
    ensures Pieces(s + "," + p) == Pieces(s) + [p]
  {
    PiecesStep(s, ',');
    LevelMore(s, ',');
    forall k | 0 <= k < |p| && p[k] == ','
      ensures Level((s + ",") + p[..k]) != 0
    {
      LevelJoin(s + ",", p[..k]);
    }
    PiecesOfMore(s + ",", p);
    assert Front(Pieces(s) + [""]) == Pieces(s) && "" + p == p;
  }

  lemma PiecesAlone(p: string)
    requires NoTopComma(p)
    ensures Pieces(p) == [p]
  {
    forall k | 0 <= k < |p| && p[k] == ','
      ensures Level("" + p[..k]) != 0
    {
      assert "" + p[..k] == p[..k];
    }
    PiecesOfMore("", p);
    assert "" + p == p && Pieces("") == [""];
  }

  lemma {:induction false} SeparableReadsBack(ps: seq<string>)
    requires ps != [] && Separable(ps)
    ensures Pieces(Joined(ps)) == ps
  {
    if |ps| == 1 {
      PiecesAlone(ps[0]);
      assert ps == [ps[0]];
    } else {
      SeparableReadsBack(Front(ps));
      JoinedLevel(Front(ps));
      OnePieceMore(Joined(Front(ps)), Last(ps));
    }
  }

  /** Joined pieces are found again exactly when they are separable. */
  lemma ReadsBackIff(ps: seq<string>)
    requires ps != []
    ensures Pieces(Joined(ps)) == ps <==> Separable(ps)
  {
    PiecesSeparable(Joined(ps));
    if Separable(ps) {
      SeparableReadsBack(ps);
    }
  }

  lemma {:induction false} JoinedNeat(ps: seq<string>)
    requires ps != [] && forall i :: 0 <= i < |ps| ==> Neat(ps[i])
    ensures Neat(Joined(ps))
  {
    if |ps| > 1 {
      var front, last := Joined(Front(ps)), Last(ps);
      JoinedNeat(Front(ps));
      ParensJoin(front, ",");
      ParensJoin(front + ",", last);
      assert ","[..0] == "";
      forall k | 0 <= k <= |front + "," + last|
        ensures Parens((front + "," + last)[..k]) >= 0
      {
        if k <= |front| {
          assert (front + "," + last)[..k] == front[..k];
        } else {
          var m := k - |front| - 1;
          assert (front + "," + last)[..k] == front + "," + last[..m];
          ParensJoin(front + ",", last[..m]);
        }
      }
    }
  }

  /** Arguments with white space around each. */
  function Padded(left: seq<string>, args: seq<string>, right: seq<string>): seq<string>
    requires |left| == |args| == |right|
  {
    seq(|args|, i requires 0 <= i < |args| => left[i] + args[i] + right[i])
  }

  lemma {:induction false} SpacesAreLevel(s: string)
    requires AllSpace(s)
    ensures Level(s) == 0 && Parens(s) == 0
  {
    if s != "" {
      SpacesAreLevel(s[..|s| - 1]);
    }
  }

  lemma PaddedSeparable(left: string, arg: string, right: string)
    requires AllSpace(left) && AllSpace(right) && NoTopComma(arg) && Level(arg) == 0
    ensures NoTopComma(left + arg + right) && Level(left + arg + right) == 0
  {
    var s := left + arg + right;
    SpacesAreLevel(left);
    SpacesAreLevel(right);
    LevelJoin(left, arg);
    LevelJoin(left + arg, right);
    forall k | 0 <= k < |s| && s[k] == ','
      ensures Level(s[..k]) != 0
    {
      var m := k - |left|;
      assert 0 <= m < |arg| && arg[m] == ',' && s[..k] == left + arg[..m];
      LevelJoin(left, arg[..m]);
    }
  }

  lemma PaddedNeat(left: string, arg: string, right: string)
    requires AllSpace(left) && AllSpace(right) && Neat(arg)
    ensures Neat(left + arg + right)
  {
    var s := left + arg + right;
    SpacesAreLevel(left);
    SpacesAreLevel(right);
    ParensJoin(left, arg);
    ParensJoin(left + arg, right);
    forall k | 0 <= k <= |s|
      ensures Parens(s[..k]) >= 0
    {
      if k <= |left| {
        assert s[..k] == left[..k];
        SpacesAreLevel(left[..k]);
      } else if k <= |left| + |arg| {
        assert s[..k] == left + arg[..k - |left|];
        ParensJoin(left, arg[..k - |left|]);
      } else {
        var m := k - |left| - |arg|;
        assert s[..k] == left + arg + right[..m];
        SpacesAreLevel(right[..m]);
        ParensJoin(left + arg, right[..m]);
      }
    }
  }

  /** An argument that survives printing: trimmed, its brackets closed, no comma outside them. */
  ghost predicate Plain(arg: string) {
    Strip(arg) == arg && NoTopComma(arg) && Level(arg) == 0 && Neat(arg)
  }

  lemma PaddedArgs(left: seq<string>, args: seq<string>, right: seq<string>)
    requires |left| == |args| == |right| > 0
    requires forall i :: 0 <= i < |args| ==> AllSpace(left[i]) && AllSpace(right[i]) && Plain(args[i])
    ensures Separable(Padded(left, args, right)) && Neat(Joined(Padded(left, args, right)))
    ensures Stripped(Padded(left, args, right)) == args
    ensures Stripped(Front(Padded(left, args, right))) == Front(args)
  {
    var ps := Padded(left, args, right);
    forall i | 0 <= i < |ps|
      ensures NoTopComma(ps[i]) && Level(ps[i]) == 0 && Neat(ps[i]) && Strip(ps[i]) == args[i]
    {
      PaddedSeparable(left[i], args[i], right[i]);
      PaddedNeat(left[i], args[i], right[i]);
      StripPadded(left[i], args[i], right[i]);
    }
    JoinedNeat(ps);
  }

  /**
   A printed call read back: plain arguments come back in order, however they are
   spaced and whatever surrounds the call, exactly when something is printed for the
   last one. An empty last argument with no space around it is dropped.
   */
  method PrintThenParse(before: string, left: seq<string>, args: seq<string>, right: seq<string>, after: string)
      returns (read: seq<string>)
    requires |left| == |args| == |right| > 0
    requires forall i :: 0 <= i < |args| ==> AllSpace(left[i]) && AllSpace(right[i]) && Plain(args[i])
    ensures read == args <==> Last(left) + Last(args) + Last(right) != ""
    ensures read == args || read == Front(args)
  {
    var ps := Padded(left, args, right);
    PaddedArgs(left, args, right);
    SeparableReadsBack(ps);
    var block, end := ExtractFromCall(before, Joined(ps), after);
    read := SplitTopLevelArgs(block.value);
  }
}
