/**
 Which loaded plugins need a given one (apps/api/app/core/plugin_ops.py, `_dependents`):
 a breadth-first closure over hard and soft dependencies, compared without case.
 */
module PluginDependents {
  type Name = string

  datatype Plugin = Plugin(name: Name, filename: string, depend: seq<Name>, softdepend: seq<Name>)

  function LowerChar(c: char): char {
    if 'A' <= c <= 'Z' then c + 32 as char else c
  }

  function Lower(s: string): string {
    seq(|s|, i requires 0 <= i < |s| => LowerChar(s[i]))
  }

  /** What the plugin needs, in lower case. */
  function Needs(p: Plugin): set<Name> {
    set d | d in p.depend + p.softdepend :: Lower(d)
  }

  // ----- the definition -----

  /** Each plugin of the path needs the next one, and the last needs `name`; all are loaded and have a name. */
  ghost predicate IsPath(enabled: seq<Plugin>, path: seq<Plugin>, name: Name) {
    && |path| > 0
    && (forall i :: 0 <= i < |path| ==> Loaded(enabled, path[i]))
    && (forall i :: 0 <= i < |path| - 1 ==> Lower(path[i + 1].name) in Needs(path[i]))
    && Lower(name) in Needs(path[|path| - 1])
  }

  predicate Loaded(enabled: seq<Plugin>, p: Plugin) {
    p in enabled && p.name != ""
  }

  /** A path of that many plugins leads from `p` to `name`. */
  ghost predicate Reaches(enabled: seq<Plugin>, p: Plugin, name: Name, steps: nat)
    decreases steps
  {
    && steps > 0 && Loaded(enabled, p)
    && if steps == 1 then Lower(name) in Needs(p)
       else exists q :: Reaches(enabled, q, name, steps - 1) && Lower(q.name) in Needs(p)
  }

  ghost predicate DependsOn(enabled: seq<Plugin>, p: Plugin, name: Name) {
    exists steps: nat :: Reaches(enabled, p, name, steps)
  }

  /** `steps` is the length of a shortest path from `p` to `name`. */
  ghost predicate Distance(enabled: seq<Plugin>, p: Plugin, name: Name, steps: nat) {
    Reaches(enabled, p, name, steps) && forall n: nat :: n < steps ==> !Reaches(enabled, p, name, n)
  }

  lemma {:induction false} PathReaches(enabled: seq<Plugin>, path: seq<Plugin>, name: Name)
    requires IsPath(enabled, path, name)
    ensures Reaches(enabled, path[0], name, |path|)
    decreases |path|
  {
    if |path| > 1 {
      var rest := path[1..];
      assert IsPath(enabled, rest, name);
      PathReaches(enabled, rest, name);
      assert Lower(rest[0].name) in Needs(path[0]);
    }
  }

  lemma {:induction false} ReachingPath(enabled: seq<Plugin>, p: Plugin, name: Name, steps: nat)
        returns (path: seq<Plugin>)
    requires Reaches(enabled, p, name, steps)
    ensures IsPath(enabled, path, name) && path[0] == p && |path| == steps
    decreases steps
  {
    if steps == 1 {
      path := [p];
    } else {
      var q :| Reaches(enabled, q, name, steps - 1) && Lower(q.name) in Needs(p);
      var rest := ReachingPath(enabled, q, name, steps - 1);
      path := [p] + rest;
      PathExtends(enabled, p, rest, name);
    }
  }

  lemma PathExtends(enabled: seq<Plugin>, p: Plugin, rest: seq<Plugin>, name: Name)
    requires IsPath(enabled, rest, name) && Loaded(enabled, p) && Lower(rest[0].name) in Needs(p)
    ensures IsPath(enabled, [p] + rest, name)
  {
    var path := [p] + rest;
    forall i | 0 <= i < |path|
      ensures Loaded(enabled, path[i])
      ensures i < |path| - 1 ==> Lower(path[i + 1].name) in Needs(path[i])
    {
      if i > 0 {
        assert path[i] == rest[i - 1];
      }
    }
  }

  /** The definition in terms of paths. */
  lemma DependsOnIsPath(enabled: seq<Plugin>, p: Plugin, name: Name)
    ensures DependsOn(enabled, p, name) <==> exists path :: IsPath(enabled, path, name) && path[0] == p
  {
    if DependsOn(enabled, p, name) {
      var steps: nat :| Reaches(enabled, p, name, steps);
      var path := ReachingPath(enabled, p, name, steps);
    }
    if path :| IsPath(enabled, path, name) && path[0] == p {
      PathReaches(enabled, path, name);
    }
  }

  // ----- the definition, from what the plugins list -----

  predicate SameLetter(a: char, b: char) {
    a == b || ('A' <= a <= 'Z' && b == a + 32 as char) || ('A' <= b <= 'Z' && a == b + 32 as char)
  }

  /** The names are the same but for the case of their letters. */
  predicate SameName(a: Name, b: Name) {
    |a| == |b| && forall i :: 0 <= i < |a| ==> SameLetter(a[i], b[i])
  }

  lemma LowerIff(a: Name, b: Name)
    ensures Lower(a) == Lower(b) <==> SameName(a, b)
  {
    assert |Lower(a)| == |a| && |Lower(b)| == |b|;
    if Lower(a) == Lower(b) {
      forall i | 0 <= i < |a|
        ensures SameLetter(a[i], b[i])
      {
        assert Lower(a)[i] == LowerChar(a[i]) && Lower(b)[i] == LowerChar(b[i]);
      }
    }
  }

  /** The plugin lists the name among those it needs, or those it uses if they are there. */
  ghost predicate Lists(p: Plugin, name: Name) {
    exists d :: (d in p.depend || d in p.softdepend) && SameName(d, name)
  }

  lemma ListsIff(p: Plugin, name: Name)
    ensures Lists(p, name) <==> Lower(name) in Needs(p)
  {
    if d :| (d in p.depend || d in p.softdepend) && SameName(d, name) {
      LowerIff(d, name);
      assert d in p.depend + p.softdepend;
    }
    if Lower(name) in Needs(p) {
      var d :| d in p.depend + p.softdepend && Lower(d) == Lower(name);
      LowerIff(d, name);
    }
  }

  /** Each plugin of the path lists the next one, and the last lists `name`; all are loaded and have a name. */
  ghost predicate IsListedPath(enabled: seq<Plugin>, path: seq<Plugin>, name: Name) {
    && |path| > 0
    && (forall i :: 0 <= i < |path| ==> path[i] in enabled && path[i].name != "")
    && (forall i :: 0 <= i < |path| - 1 ==> Lists(path[i], path[i + 1].name))
    && Lists(path[|path| - 1], name)
  }

  lemma PathIsListed(enabled: seq<Plugin>, path: seq<Plugin>, name: Name)
    ensures IsListedPath(enabled, path, name) <==> IsPath(enabled, path, name)
  {
    if path != [] {
      forall i | 0 <= i < |path| - 1
        ensures Lists(path[i], path[i + 1].name) <==> Lower(path[i + 1].name) in Needs(path[i])
      {
        ListsIff(path[i], path[i + 1].name);
      }
      ListsIff(path[|path| - 1], name);
    }
  }

  /**
   What it is to depend on `name`, from what the plugins list, hard or soft and in any
   letter case. A loaded plugin that lists it itself does.
   */
  lemma DependsOnIff(enabled: seq<Plugin>, p: Plugin, name: Name)
    ensures DependsOn(enabled, p, name) <==> exists path :: IsListedPath(enabled, path, name) && path[0] == p
    ensures p in enabled && p.name != "" && Lists(p, name) ==> DependsOn(enabled, p, name)
  {
    DependsOnIsPath(enabled, p, name);
    if path :| IsPath(enabled, path, name) && path[0] == p {
      PathIsListed(enabled, path, name);
    }
    if path :| IsListedPath(enabled, path, name) && path[0] == p {
      PathIsListed(enabled, path, name);
    }
    if p in enabled && p.name != "" && Lists(p, name) {
      assert IsListedPath(enabled, [p], name) && [p][0] == p;
      PathIsListed(enabled, [p], name);
    }
  }

  // ----- the layers -----

  /** The loaded plugins that need one of `frontier` and are not in `out` yet, in the order listed. */
  function More(enabled: seq<Plugin>, out: seq<Plugin>, frontier: set<Name>): seq<Plugin> {
    if enabled == [] then []
    else
      var p := enabled[|enabled| - 1];
      More(enabled[..|enabled| - 1], out, frontier)
      + if p !in out && p.name != "" && frontier * Needs(p) != {} then [p] else []
  }

  lemma {:induction false} MoreIs(enabled: seq<Plugin>, out: seq<Plugin>, frontier: set<Name>)
    ensures forall p :: p in More(enabled, out, frontier)
              <==> p in enabled && p !in out && p.name != "" && exists n :: n in frontier && n in Needs(p)
    ensures Distinct(enabled) ==> Distinct(More(enabled, out, frontier))
  {
    if enabled != [] {
      var front, last := enabled[..|enabled| - 1], enabled[|enabled| - 1];
      MoreIs(front, out, frontier);
      assert enabled == front + [last];
      if n :| n in frontier && n in Needs(last) {
        assert n in frontier * Needs(last);
      }
      if frontier * Needs(last) != {} {
        var n :| n in frontier * Needs(last);
      }
    }
  }

  /** `p` is listed before `q`. */
  ghost predicate Earlier(ps: seq<Plugin>, p: Plugin, q: Plugin) {
    exists a, b :: 0 <= a < b < |ps| && ps[a] == p && ps[b] == q
  }

  lemma EarlierMore(ps: seq<Plugin>, p: Plugin, q: Plugin, last: Plugin)
    ensures Earlier(ps, p, q) ==> Earlier(ps + [last], p, q)
    ensures p in ps ==> Earlier(ps + [last], p, last)
  {
    var all := ps + [last];
    if Earlier(ps, p, q) {
      var a, b :| 0 <= a < b < |ps| && ps[a] == p && ps[b] == q;
      assert all[a] == p && all[b] == q;
    }
    if p in ps {
      var a :| 0 <= a < |ps| && ps[a] == p;
      assert all[a] == p && all[|ps|] == last;
    }
  }

  lemma {:induction false} MoreInOrder(enabled: seq<Plugin>, out: seq<Plugin>, frontier: set<Name>, i: nat, j: nat)
    requires i < j < |More(enabled, out, frontier)|
    ensures Earlier(enabled, More(enabled, out, frontier)[i], More(enabled, out, frontier)[j])
  {
    var front, last := enabled[..|enabled| - 1], enabled[|enabled| - 1];
    var before, more := More(front, out, frontier), More(enabled, out, frontier);
    assert enabled == front + [last];
    EarlierMore(front, more[i], more[j], last);
    if j < |before| {
      assert more[i] == before[i] && more[j] == before[j];
      MoreInOrder(front, out, frontier, i, j);
    } else {
      assert more[i] == before[i] && more[j] == last;
      MoreIs(front, out, frontier);
      assert before[i] in before;
    }
  }

  ghost predicate Distinct(ps: seq<Plugin>) {
    forall i, j :: 0 <= i < j < |ps| ==> ps[i] != ps[j]
  }

  function NamesOf(ps: seq<Plugin>): set<Name> {
    set p | p in ps :: Lower(p.name)
  }

  function Reverse(ps: seq<Plugin>): seq<Plugin> {
    if ps == [] then [] else [ps[|ps| - 1]] + Reverse(ps[..|ps| - 1])
  }

  lemma {:induction false} ReverseIs(ps: seq<Plugin>)
    ensures |Reverse(ps)| == |ps| && forall i :: 0 <= i < |ps| ==> Reverse(ps)[i] == ps[|ps| - 1 - i]
  {
    if ps != [] {
      ReverseIs(ps[..|ps| - 1]);
    }
  }

  lemma {:induction false} ReverseMembers(ps: seq<Plugin>)
    ensures forall p :: p in Reverse(ps) <==> p in ps
  {
    if ps != [] {
      ReverseMembers(ps[..|ps| - 1]);
      assert ps == ps[..|ps| - 1] + [ps[|ps| - 1]];
    }
  }

  /**
   After `k` rounds: `out` holds exactly the plugins within distance `k`, by distance,
   and `frontier` names the plugins at distance `k` exactly.
   */
  ghost predicate Layered(enabled: seq<Plugin>, name: Name, out: seq<Plugin>, frontier: set<Name>, k: nat) {
    WithinDistance(enabled, name, out, k) && NearestFirst(enabled, name, out) && NamesLayer(enabled, name, frontier, k)
  }

  ghost predicate WithinDistance(enabled: seq<Plugin>, name: Name, out: seq<Plugin>, k: nat) {
    forall p :: p in out <==> exists n: nat :: n <= k && Distance(enabled, p, name, n)
  }

  /** `p` is nearer to `name` than `q`, or as near and listed before it. */
  ghost predicate Sorted(enabled: seq<Plugin>, name: Name, p: Plugin, q: Plugin) {
    forall m: nat, n: nat :: Distance(enabled, p, name, m) && Distance(enabled, q, name, n)
                             ==> m < n || (m == n && Earlier(enabled, p, q))
  }

  /** By distance, and in the order listed where it is the same. */
  ghost predicate NearestFirst(enabled: seq<Plugin>, name: Name, out: seq<Plugin>) {
    forall i, j :: 0 <= i < j < |out| ==> Sorted(enabled, name, out[i], out[j])
  }

  lemma DistanceUnique(enabled: seq<Plugin>, p: Plugin, name: Name, m: nat, n: nat)
    requires Distance(enabled, p, name, m) && Distance(enabled, p, name, n)
    ensures m == n
  {
  }

  lemma {:induction false} ShortestExists(enabled: seq<Plugin>, p: Plugin, name: Name, steps: nat) returns (d: nat)
    requires Reaches(enabled, p, name, steps)
    ensures d <= steps && Distance(enabled, p, name, d)
    decreases steps
  {
    if n: nat :| n < steps && Reaches(enabled, p, name, n) {
      d := ShortestExists(enabled, p, name, n);
    } else {
      d := steps;
    }
  }

  /** The next plugin on a shortest path is one step nearer. */
  lemma NextIsNearer(enabled: seq<Plugin>, p: Plugin, name: Name, k: nat) returns (q: Plugin)
    requires k > 0 && Distance(enabled, p, name, k + 1)
    ensures Distance(enabled, q, name, k) && Lower(q.name) in Needs(p)
  {
    q :| Reaches(enabled, q, name, k) && Lower(q.name) in Needs(p);
    var d := ShortestExists(enabled, q, name, k);
    assert Reaches(enabled, p, name, d + 1);
  }

  ghost predicate NamesLayer(enabled: seq<Plugin>, name: Name, frontier: set<Name>, k: nat) {
    if k == 0 then frontier == {Lower(name)}
    else forall x :: x in frontier <==> exists p :: Distance(enabled, p, name, k) && Lower(p.name) == x
  }

  lemma NeedsFrontier(enabled: seq<Plugin>, name: Name, frontier: set<Name>, k: nat, p: Plugin, n: Name)
    requires NamesLayer(enabled, name, frontier, k) && Loaded(enabled, p) && n in frontier && n in Needs(p)
    ensures Reaches(enabled, p, name, k + 1)
  {
    if k > 0 {
      var q :| Distance(enabled, q, name, k) && Lower(q.name) == n;
    }
  }

  lemma FrontierNeeded(enabled: seq<Plugin>, name: Name, frontier: set<Name>, k: nat, p: Plugin) returns (n: Name)
    requires NamesLayer(enabled, name, frontier, k) && Distance(enabled, p, name, k + 1)
    ensures Loaded(enabled, p) && n in frontier && n in Needs(p)
  {
    if k > 0 {
      var q := NextIsNearer(enabled, p, name, k);
      n := Lower(q.name);
    } else {
      n := Lower(name);
    }
  }

  lemma FoundIsNext(enabled: seq<Plugin>, name: Name, out: seq<Plugin>, frontier: set<Name>, k: nat, p: Plugin)
    requires Layered(enabled, name, out, frontier, k) && p in More(enabled, out, frontier)
    ensures Distance(enabled, p, name, k + 1)
  {
    MoreIs(enabled, out, frontier);
    var n :| n in frontier && n in Needs(p);
    NeedsFrontier(enabled, name, frontier, k, p, n);
    var d := ShortestExists(enabled, p, name, k + 1);
  }

  lemma NextIsFound(enabled: seq<Plugin>, name: Name, out: seq<Plugin>, frontier: set<Name>, k: nat, p: Plugin)
    requires Layered(enabled, name, out, frontier, k) && Distance(enabled, p, name, k + 1)
    ensures p in More(enabled, out, frontier)
  {
    MoreIs(enabled, out, frontier);
    var n := FrontierNeeded(enabled, name, frontier, k, p);
  }

  /** One round finds exactly the plugins one step further. */
  lemma RoundFinds(enabled: seq<Plugin>, name: Name, out: seq<Plugin>, frontier: set<Name>, k: nat, p: Plugin)
    requires Layered(enabled, name, out, frontier, k)
    ensures p in More(enabled, out, frontier) <==> Distance(enabled, p, name, k + 1)
  {
    if p in More(enabled, out, frontier) {
      FoundIsNext(enabled, name, out, frontier, k, p);
    }
    if Distance(enabled, p, name, k + 1) {
      NextIsFound(enabled, name, out, frontier, k, p);
    }
  }

  lemma OldIsNearer(enabled: seq<Plugin>, name: Name, out: seq<Plugin>, frontier: set<Name>, k: nat,
                    p: Plugin, q: Plugin, m: nat, n: nat)
    requires Layered(enabled, name, out, frontier, k)
    requires p in out && q in More(enabled, out, frontier)
    requires Distance(enabled, p, name, m) && Distance(enabled, q, name, n)
    ensures m < n
  {
    FoundIsNext(enabled, name, out, frontier, k, q);
    DistanceUnique(enabled, q, name, n, k + 1);
    var x: nat :| x <= k && Distance(enabled, p, name, x);
    DistanceUnique(enabled, p, name, x, m);
  }

  lemma NewAreAsFar(enabled: seq<Plugin>, name: Name, out: seq<Plugin>, frontier: set<Name>, k: nat,
                    p: Plugin, q: Plugin, m: nat, n: nat)
    requires Layered(enabled, name, out, frontier, k)
    requires p in More(enabled, out, frontier) && q in More(enabled, out, frontier)
    requires Distance(enabled, p, name, m) && Distance(enabled, q, name, n)
    ensures m == n
  {
    FoundIsNext(enabled, name, out, frontier, k, p);
    FoundIsNext(enabled, name, out, frontier, k, q);
    DistanceUnique(enabled, p, name, m, k + 1);
    DistanceUnique(enabled, q, name, n, k + 1);
  }

  lemma OldNewSorted(enabled: seq<Plugin>, name: Name, out: seq<Plugin>, frontier: set<Name>, k: nat,
                     p: Plugin, q: Plugin)
    requires Layered(enabled, name, out, frontier, k) && p in out && q in More(enabled, out, frontier)
    ensures Sorted(enabled, name, p, q)
  {
    forall m: nat, n: nat | Distance(enabled, p, name, m) && Distance(enabled, q, name, n)
      ensures m < n
    {
      OldIsNearer(enabled, name, out, frontier, k, p, q, m, n);
    }
  }

  lemma NewSorted(enabled: seq<Plugin>, name: Name, out: seq<Plugin>, frontier: set<Name>, k: nat, i: nat, j: nat)
    requires Layered(enabled, name, out, frontier, k) && i < j < |More(enabled, out, frontier)|
    ensures Sorted(enabled, name, More(enabled, out, frontier)[i], More(enabled, out, frontier)[j])
  {
    var p, q := More(enabled, out, frontier)[i], More(enabled, out, frontier)[j];
    MoreInOrder(enabled, out, frontier, i, j);
    forall m: nat, n: nat | Distance(enabled, p, name, m) && Distance(enabled, q, name, n)
      ensures m == n
    {
      NewAreAsFar(enabled, name, out, frontier, k, p, q, m, n);
    }
  }

  lemma RoundKeepsOrder(enabled: seq<Plugin>, name: Name, out: seq<Plugin>, frontier: set<Name>, k: nat, i: nat, j: nat)
    requires Layered(enabled, name, out, frontier, k)
    requires i < j < |out + More(enabled, out, frontier)|
    ensures Sorted(enabled, name, (out + More(enabled, out, frontier))[i], (out + More(enabled, out, frontier))[j])
  {
    var more := More(enabled, out, frontier);
    if j < |out| {
      assert Sorted(enabled, name, out[i], out[j]);
    } else if i < |out| {
      OldNewSorted(enabled, name, out, frontier, k, out[i], more[j - |out|]);
    } else {
      NewSorted(enabled, name, out, frontier, k, i - |out|, j - |out|);
    }
  }

  lemma RoundKeepsWithin(enabled: seq<Plugin>, name: Name, out: seq<Plugin>, frontier: set<Name>, k: nat)
    requires Layered(enabled, name, out, frontier, k)
    ensures WithinDistance(enabled, name, out + More(enabled, out, frontier), k + 1)
  {
    var more := More(enabled, out, frontier);
    forall p ensures p in out + more <==> exists n: nat :: n <= k + 1 && Distance(enabled, p, name, n) {
      RoundFinds(enabled, name, out, frontier, k, p);
      if p in out {
        var n: nat :| n <= k && Distance(enabled, p, name, n);
        assert n <= k + 1;
      }
    }
  }

  lemma RoundNamesLayer(enabled: seq<Plugin>, name: Name, out: seq<Plugin>, frontier: set<Name>, k: nat)
    requires Layered(enabled, name, out, frontier, k)
    ensures NamesLayer(enabled, name, NamesOf(More(enabled, out, frontier)), k + 1)
  {
    forall p ensures p in More(enabled, out, frontier) <==> Distance(enabled, p, name, k + 1) {
      RoundFinds(enabled, name, out, frontier, k, p);
    }
  }

  lemma RoundKeepsLayers(enabled: seq<Plugin>, name: Name, out: seq<Plugin>, frontier: set<Name>, k: nat)
    requires Layered(enabled, name, out, frontier, k)
    ensures Layered(enabled, name, out + More(enabled, out, frontier), NamesOf(More(enabled, out, frontier)), k + 1)
  {
    var out' := out + More(enabled, out, frontier);
    RoundKeepsWithin(enabled, name, out, frontier, k);
    RoundNamesLayer(enabled, name, out, frontier, k);
    forall i, j | 0 <= i < j < |out'|
      ensures Sorted(enabled, name, out'[i], out'[j])
    {
      RoundKeepsOrder(enabled, name, out, frontier, k, i, j);
    }
  }

  /** After some number of rounds. */
  ghost predicate Underway(enabled: seq<Plugin>, name: Name, out: seq<Plugin>, frontier: set<Name>) {
    exists k: nat :: Layered(enabled, name, out, frontier, k)
  }

  lemma LayersStart(enabled: seq<Plugin>, name: Name)
    ensures Underway(enabled, name, [], {Lower(name)})
  {
    assert Layered(enabled, name, [], {Lower(name)}, 0);
  }

  lemma Continues(enabled: seq<Plugin>, name: Name, out: seq<Plugin>, frontier: set<Name>)
    requires Underway(enabled, name, out, frontier)
    ensures Underway(enabled, name, out + More(enabled, out, frontier), NamesOf(More(enabled, out, frontier)))
  {
    var k: nat :| Layered(enabled, name, out, frontier, k);
    RoundKeepsLayers(enabled, name, out, frontier, k);
  }

  ghost predicate NoneAt(enabled: seq<Plugin>, name: Name, n: nat) {
    forall q :: !Distance(enabled, q, name, n)
  }

  /** When a round finds nothing, nothing further depends on `name`. */
  lemma {:induction false} NothingFurther(enabled: seq<Plugin>, name: Name, k: nat, p: Plugin, n: nat)
    requires NoneAt(enabled, name, k + 1)
    requires n > k
    ensures !Distance(enabled, p, name, n)
    decreases n
  {
    if Distance(enabled, p, name, n) && n > k + 1 {
      var q := NextIsNearer(enabled, p, name, n - 1);
      NothingFurther(enabled, name, k, q, n - 1);
    }
  }

  /** By distance, farthest first, and in the opposite of the order listed where it is the same. */
  ghost predicate FarthestFirst(enabled: seq<Plugin>, name: Name, result: seq<Plugin>) {
    forall i, j :: 0 <= i < j < |result| ==> Sorted(enabled, name, result[j], result[i])
  }

  lemma ReverseIsFarthestFirst(enabled: seq<Plugin>, name: Name, out: seq<Plugin>)
    requires NearestFirst(enabled, name, out)
    ensures FarthestFirst(enabled, name, Reverse(out))
    ensures Distinct(out) ==> Distinct(Reverse(out))
  {
    ReverseIs(out);
  }

  ghost function Unseen(enabled: seq<Plugin>, out: seq<Plugin>): set<Plugin> {
    set p | p in enabled && p !in out
  }

  /**
   The dependents of `name`, farthest first: exactly the loaded plugins that depend on
   it, directly or through others, in non-increasing distance, those of one distance in
   the opposite of the order listed (by file name), and each once if no plugin is listed
   twice. Cyclic dependencies are no problem.
   */
  method Dependents(enabled: seq<Plugin>, name: Name) returns (result: seq<Plugin>)
    ensures forall p :: p in result <==> DependsOn(enabled, p, name)
    ensures FarthestFirst(enabled, name, result)
    ensures Distinct(enabled) ==> Distinct(result)
  {
    var out: seq<Plugin> := [];
    var frontier := {Lower(name)};
    LayersStart(enabled, name);
    while true
      invariant Underway(enabled, name, out, frontier)
      invariant Distinct(enabled) ==> Distinct(out)
      decreases Unseen(enabled, out)
    {
      var more := More(enabled, out, frontier);
      if more == [] {
        Finished(enabled, name, out, frontier);
        return Reverse(out);
      }
      Continues(enabled, name, out, frontier);
      RoundAdds(enabled, out, frontier);
      out := out + more;
      frontier := NamesOf(more);
    }
  }

  lemma RoundAdds(enabled: seq<Plugin>, out: seq<Plugin>, frontier: set<Name>)
    requires More(enabled, out, frontier) != []
    ensures Unseen(enabled, out + More(enabled, out, frontier)) < Unseen(enabled, out)
    ensures Distinct(enabled) && Distinct(out) ==> Distinct(out + More(enabled, out, frontier))
  {
    var more := More(enabled, out, frontier);
    MoreIs(enabled, out, frontier);
    assert more[0] in more;
    assert more[0] in Unseen(enabled, out) && more[0] !in Unseen(enabled, out + more);
    forall i, j | 0 <= i < |out| && 0 <= j < |more|
      ensures out[i] != more[j]
    {
      assert more[j] in more;
    }
  }

  lemma Finished(enabled: seq<Plugin>, name: Name, out: seq<Plugin>, frontier: set<Name>)
    requires Underway(enabled, name, out, frontier) && More(enabled, out, frontier) == []
    ensures forall p :: p in Reverse(out) <==> DependsOn(enabled, p, name)
    ensures FarthestFirst(enabled, name, Reverse(out))
    ensures Distinct(out) ==> Distinct(Reverse(out))
  {
    var k: nat :| Layered(enabled, name, out, frontier, k);
    forall p ensures p in out <==> DependsOn(enabled, p, name) {
      AllFound(enabled, name, out, frontier, k, p);
    }
    ReverseIsFarthestFirst(enabled, name, out);
    ReverseMembers(out);
  }

  lemma AllFound(enabled: seq<Plugin>, name: Name, out: seq<Plugin>, frontier: set<Name>, k: nat, p: Plugin)
    requires Layered(enabled, name, out, frontier, k) && More(enabled, out, frontier) == []
    ensures p in out <==> DependsOn(enabled, p, name)
  {
    var next := k + 1;
    forall q ensures !Distance(enabled, q, name, next) {
      RoundFinds(enabled, name, out, frontier, k, q);
    }
    assert NoneAt(enabled, name, next);
    if p in out {
      var n: nat :| n <= k && Distance(enabled, p, name, n);
      assert Reaches(enabled, p, name, n);
    }
    if DependsOn(enabled, p, name) {
      var steps: nat :| Reaches(enabled, p, name, steps);
      var d := ShortestExists(enabled, p, name, steps);
      if d > k {
        NothingFurther(enabled, name, k, p, d);
      }
    }
  }

  // ----- the order of unloading -----

  /** No plugin is unloaded before another one that needs it. */
  ghost predicate SafeOrder(result: seq<Plugin>) {
    forall i, j :: 0 <= i < j < |result| ==> Lower(result[i].name) !in Needs(result[j])
  }

  /** `p` is farther from `name` than `q`, or as far and listed after it. */
  ghost predicate UnloadedFirst(enabled: seq<Plugin>, name: Name, p: Plugin, q: Plugin) {
    exists m: nat, n: nat :: Distance(enabled, p, name, m) && Distance(enabled, q, name, n)
                             && (m > n || (m == n && Earlier(enabled, q, p)))
  }

  /** Every dependent is unloaded before each other dependent it needs. */
  ghost predicate NeedsAreNearer(enabled: seq<Plugin>, name: Name) {
    forall p, q ::
      DependsOn(enabled, p, name) && DependsOn(enabled, q, name) && p != q && Lower(q.name) in Needs(p)
      ==> UnloadedFirst(enabled, name, p, q)
  }

  lemma HasDistance(enabled: seq<Plugin>, name: Name, p: Plugin) returns (d: nat)
    requires DependsOn(enabled, p, name)
    ensures Distance(enabled, p, name, d)
  {
    var steps: nat :| Reaches(enabled, p, name, steps);
    d := ShortestExists(enabled, p, name, steps);
  }

  lemma OrderIsUnloadedFirst(enabled: seq<Plugin>, name: Name, result: seq<Plugin>, i: nat, j: nat)
    requires Distinct(enabled) && i < |result| && j < |result| && i != j
    requires forall p :: p in result ==> DependsOn(enabled, p, name)
    requires FarthestFirst(enabled, name, result)
    ensures i < j <==> UnloadedFirst(enabled, name, result[i], result[j])
  {
    var m := HasDistance(enabled, name, result[i]);
    var n := HasDistance(enabled, name, result[j]);
    if UnloadedFirst(enabled, name, result[i], result[j]) {
      var x: nat, y: nat :| Distance(enabled, result[i], name, x) && Distance(enabled, result[j], name, y)
                            && (x > y || (x == y && Earlier(enabled, result[j], result[i])));
      DistanceUnique(enabled, result[i], name, m, x);
      DistanceUnique(enabled, result[j], name, n, y);
    }
  }

  /**
   The list is meant to have dependents before what they need. It has exactly when
   every loaded dependent is farther from `name` than each other dependent it needs, or
   as far and listed after it; farthest first alone does not make it so.
   */
  lemma UnloadOrderIsSafeIff(enabled: seq<Plugin>, name: Name, result: seq<Plugin>)
    requires Distinct(enabled) && Distinct(result)
    requires forall p :: p in result <==> DependsOn(enabled, p, name)
    requires FarthestFirst(enabled, name, result)
    ensures SafeOrder(result) <==> NeedsAreNearer(enabled, name)
  {
    if SafeOrder(result) {
      forall p, q | DependsOn(enabled, p, name) && DependsOn(enabled, q, name) && p != q && Lower(q.name) in Needs(p)
        ensures UnloadedFirst(enabled, name, p, q)
      {
        assert p in result && q in result;
        var i :| 0 <= i < |result| && result[i] == p;
        var j :| 0 <= j < |result| && result[j] == q;
        OrderIsUnloadedFirst(enabled, name, result, i, j);
      }
    } else {
      var j, i :| 0 <= j < i < |result| && Lower(result[j].name) in Needs(result[i]);
      OrderIsUnloadedFirst(enabled, name, result, i, j);
      assert result[i] in result && result[j] in result;
    }
  }

  // ----- an order that is not safe -----

  const APP := Plugin("app", "app.jar", ["core", "bank"], [])
  const BANK := Plugin("bank", "bank.jar", ["store"], [])
  const STORE := Plugin("store", "store.jar", ["core"], [])

  /** Three plugins of which `core` is asked; `app` needs `bank`, which is farther from `core`. */
  const TANGLED: seq<Plugin> := [APP, BANK, STORE]

  lemma TangledNeeds()
    ensures Lower("core") == "core" && Lower("bank") == "bank" && Lower("store") == "store"
    ensures Needs(APP) == {"core", "bank"} && Needs(BANK) == {"store"} && Needs(STORE) == {"core"}
  {
    assert Lower("core") == "core" && Lower("bank") == "bank" && Lower("store") == "store";
    assert APP.depend + APP.softdepend == ["core", "bank"];
    assert BANK.depend + BANK.softdepend == ["store"];
    assert STORE.depend + STORE.softdepend == ["core"];
  }

  lemma TangledDistances()
    ensures Distance(TANGLED, APP, "core", 1) && Distance(TANGLED, BANK, "core", 2)
    ensures Lower(BANK.name) in Needs(APP)
  {
    TangledNeeds();
    assert TANGLED[0] == APP && TANGLED[1] == BANK && TANGLED[2] == STORE;
    assert Reaches(TANGLED, APP, "core", 1);
    assert Reaches(TANGLED, STORE, "core", 1);
    assert Reaches(TANGLED, BANK, "core", 2);
    assert !Reaches(TANGLED, BANK, "core", 1);
  }

  lemma BankIsFarther()
    ensures !UnloadedFirst(TANGLED, "core", APP, BANK)
  {
    TangledDistances();
    forall m: nat, n: nat | Distance(TANGLED, APP, "core", m) && Distance(TANGLED, BANK, "core", n)
      ensures m == 1 && n == 2
    {
      DistanceUnique(TANGLED, APP, "core", m, 1);
      DistanceUnique(TANGLED, BANK, "core", n, 2);
    }
  }

  /** Whatever `_dependents` returns for these, it has `bank` unloaded while `app`, which needs it, is loaded. */
  lemma TangledIsUnsafe(result: seq<Plugin>)
    requires Distinct(result) && FarthestFirst(TANGLED, "core", result)
    requires forall p :: p in result <==> DependsOn(TANGLED, p, "core")
    ensures !SafeOrder(result)
  {
    TangledDistances();
    BankIsFarther();
    assert DependsOn(TANGLED, APP, "core") && DependsOn(TANGLED, BANK, "core") && APP != BANK;
    UnloadOrderIsSafeIff(TANGLED, "core", result);
  }
}
