/** White space and trimming, as Python's `str.strip()` does it, on ASCII text. */
module Text {
  predicate IsSpace(c: char) {
    c == ' ' || 9 <= c as int <= 13 || 28 <= c as int <= 31
  }

  /** Space, tab, line feed, vertical tab, form feed, carriage return, and the four ASCII separators. */
  lemma SpacesAre(c: char)
    ensures IsSpace(c) <==> c in {' ', '\t', '\n', '\U{B}', '\U{C}', '\r', '\U{1C}', '\U{1D}', '\U{1E}', '\U{1F}'}
  {
  }

  function StripLeft(s: string): string {
    if s != "" && IsSpace(s[0]) then StripLeft(s[1..]) else s
  }

  function StripRight(s: string): string {
    if s != "" && IsSpace(s[|s| - 1]) then StripRight(s[..|s| - 1]) else s
  }

  function Strip(s: string): string {
    StripRight(StripLeft(s))
  }

  predicate AllSpace(s: string) {
    forall i :: 0 <= i < |s| ==> IsSpace(s[i])
  }

  lemma {:induction false} StripPadded(left: string, arg: string, right: string)
    requires AllSpace(left) && AllSpace(right) && Strip(arg) == arg
    ensures Strip(left + arg + right) == arg
    decreases |left| + |right|
  {
    TrimmedEnds(arg);
    if left != "" {
      assert (left + arg + right)[1..] == left[1..] + arg + right;
      StripPadded(left[1..], arg, right);
    } else {
      assert left + arg + right == arg + right;
      if arg == "" {
        StripSpaces(right);
        assert arg + right == right;
      } else {
        StripTail(arg, right);
      }
    }
  }

  lemma {:induction false} StripSpaces(s: string)
    requires AllSpace(s)
    ensures StripLeft(s) == "" && Strip(s) == ""
  {
    if s != "" {
      StripSpaces(s[1..]);
    }
  }

  lemma {:induction false} StripEmptyIff(s: string)
    ensures Strip(s) == "" <==> AllSpace(s)
  {
    if AllSpace(s) {
      StripSpaces(s);
    } else {
      StripLeftKeeps(s);
      StripRightKeeps(StripLeft(s));
    }
  }

  lemma {:induction false} StripLeftKeeps(s: string)
    requires !AllSpace(s)
    ensures !AllSpace(StripLeft(s))
  {
    if IsSpace(s[0]) {
      StripLeftKeeps(s[1..]);
    }
  }

  lemma {:induction false} StripRightKeeps(s: string)
    requires !AllSpace(s)
    ensures StripRight(s) != ""
  {
    if IsSpace(s[|s| - 1]) {
      StripRightKeeps(s[..|s| - 1]);
    }
  }

  lemma {:induction false} StripTail(arg: string, right: string)
    requires AllSpace(right) && arg != "" && !IsSpace(arg[0]) && !IsSpace(arg[|arg| - 1])
    ensures StripRight(arg + right) == arg && Strip(arg + right) == arg
    decreases |right|
  {
    if right != "" {
      assert (arg + right)[..|arg + right| - 1] == arg + right[..|right| - 1];
      StripTail(arg, right[..|right| - 1]);
    } else {
      assert arg + right == arg;
    }
  }

  lemma {:induction false} StripLeftShorter(s: string)
    ensures |StripLeft(s)| <= |s| && (s != "" && IsSpace(s[0]) ==> |StripLeft(s)| < |s|)
    ensures StripLeft(s) == s[|s| - |StripLeft(s)|..]
    decreases |s|
  {
    if s != "" && IsSpace(s[0]) {
      StripLeftShorter(s[1..]);
    }
  }

  lemma {:induction false} StripRightShorter(s: string)
    ensures |StripRight(s)| <= |s| && (s != "" && IsSpace(s[|s| - 1]) ==> |StripRight(s)| < |s|)
    decreases |s|
  {
    if s != "" && IsSpace(s[|s| - 1]) {
      StripRightShorter(s[..|s| - 1]);
    }
  }

  lemma TrimmedEnds(arg: string)
    requires Strip(arg) == arg
    ensures arg != "" ==> !IsSpace(arg[0]) && !IsSpace(arg[|arg| - 1])
  {
    StripLeftShorter(arg);
    StripRightShorter(StripLeft(arg));
    StripRightShorter(arg);
  }
}
