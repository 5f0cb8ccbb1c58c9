/**
 Restoring a backup (apps/worker/backups.py, `restore`): the worlds of a server are
 swapped for unpacked ones by renames, any of which may fail, with a rollback.
 Every file-system step leaves a snapshot, so what the worker leaves behind when it
 dies at any point is one of them.
 */
module WorldSwap {
  import opened Wrappers

  type World = string

  /** A folder tree by identity; not `whole` once a removal of it stopped half-way. */
  datatype Tree = Tree(id: nat, whole: bool)

  /** Where a world folder can be: the server folder, the folder of replaced worlds, the unpacked backup. */
  datatype Place = Live | Replaced | Staging

  /** What is at the three places of one world. */
  datatype Slots = Slots(live: Option<Tree>, replaced: Option<Tree>, staging: Option<Tree>) {
    function Get(p: Place): Option<Tree> {
      match p
      case Live => live
      case Replaced => replaced
      case Staging => staging
    }

    function Put(p: Place, t: Option<Tree>): Slots {
      match p
      case Live => this.(live := t)
      case Replaced => this.(replaced := t)
      case Staging => this.(staging := t)
    }
  }

  type Folders = map<World, Slots>

  function At(f: Folders, w: World): Slots {
    if w in f then f[w] else Slots(None, None, None)
  }

  /** No tree is at two places. */
  predicate Separate(s: Slots) {
    && (s.live.Some? && s.replaced.Some? ==> s.live.value.id != s.replaced.value.id)
    && (s.live.Some? && s.staging.Some? ==> s.live.value.id != s.staging.value.id)
  }

  ghost predicate AllSeparate(f: Folders) {
    forall w :: Separate(At(f, w))
  }

  // ----- one world -----

  /** The tree that was live is in exactly one of the live and the replaced folder. */
  predicate Kept(s0: Slots, s: Slots) {
    s0.live.Some? ==> (s.live == s0.live <==> s.replaced != s0.live)
  }

  function Aside(s: Slots): Slots {
    Slots(None, s.live, s.staging)
  }

  /** A swapped world: the unpacked tree is live, the one that was live before, if any, aside. */
  function Swapped(s: Slots): Slots {
    Slots(s.staging, if s.live.Some? then s.live else s.replaced, None)
  }

  // ----- all worlds -----

  ghost predicate AllKept(f0: Folders, f: Folders) {
    forall w :: Kept(At(f0, w), At(f, w))
  }

  /** The first `k` worlds are swapped; with `half`, the next one is moved aside; the rest is as it was. */
  ghost predicate Swapping(f0: Folders, f: Folders, worlds: seq<World>, k: nat, half: bool) {
    && k <= |worlds|
    && (half ==> k < |worlds| && At(f0, worlds[k]).live.Some?)
    && forall w ::
         && (w in worlds[..k] ==> At(f0, w).staging.Some?)
         && At(f, w) == if w in worlds[..k] then Swapped(At(f0, w))
                        else if half && w == worlds[k] then Aside(At(f0, w))
                        else At(f0, w)
  }

  ghost predicate Distinct(worlds: seq<World>) {
    forall i, j :: 0 <= i < j < |worlds| ==> worlds[i] != worlds[j]
  }

  /** The worlds the code lists as moved aside. */
  ghost predicate MovedAre(f0: Folders, worlds: seq<World>, k: nat, half: bool, moved: seq<World>)
    requires k <= |worlds| && (half ==> k < |worlds|)
  {
    forall w :: w in moved <==> At(f0, w).live.Some? && (w in worlds[..k] || (half && w == worlds[k]))
  }

  lemma SwappingKeeps(f0: Folders, f: Folders, worlds: seq<World>, k: nat, half: bool)
    requires AllSeparate(f0) && Swapping(f0, f, worlds, k, half)
    ensures AllKept(f0, f)
  {
    forall w ensures Kept(At(f0, w), At(f, w)) {
      assert Separate(At(f0, w));
    }
  }

  lemma SwapOneMore(f0: Folders, f: Folders, f': Folders, worlds: seq<World>, k: nat, half: bool)
    requires Distinct(worlds) && Swapping(f0, f, worlds, k, half) && k < |worlds|
    requires half <==> At(f0, worlds[k]).live.Some?
    requires At(f0, worlds[k]).staging.Some? && At(f', worlds[k]) == Swapped(At(f0, worlds[k]))
    requires forall w :: w != worlds[k] ==> At(f', w) == At(f, w)
    ensures Swapping(f0, f', worlds, k + 1, false)
  {
    assert worlds[..k + 1] == worlds[..k] + [worlds[k]];
  }

  /** A step on world `w` that keeps it keeps all. */
  lemma KeptElsewhere(f0: Folders, f: Folders, f': Folders, w: World)
    requires AllKept(f0, f) && Kept(At(f0, w), At(f', w))
    requires forall v :: v != w ==> At(f', v) == At(f, v)
    ensures AllKept(f0, f')
  {
  }

  /** The rollback after its first `j` worlds: those moved aside are back, and the rest is as the swap left it. */
  ghost predicate Returning(f0: Folders, g: Folders, f: Folders, worlds: seq<World>, moved: seq<World>, j: nat)
    requires j <= |worlds|
  {
    forall w :: if w in worlds[..j] && w in moved
                then At(f, w).live == At(f0, w).live && At(f, w).replaced == None
                else At(f, w) == At(g, w)
  }

  /** What a swap that stopped at one of its renames and was rolled back can leave. */
  ghost predicate UndoneEnd(f0: Folders, f: Folders, worlds: seq<World>) {
    exists g, k: nat, half, moved ::
      k < |worlds| && Swapping(f0, g, worlds, k, half) && MovedAre(f0, worlds, k, half, moved)
      && Returning(f0, g, f, worlds, moved, |worlds|)
  }

  lemma NoneReturned(f0: Folders, g: Folders, worlds: seq<World>, moved: seq<World>)
    ensures Returning(f0, g, g, worlds, moved, 0)
  {
  }

  lemma ReturnOneMore(f0: Folders, g: Folders, f: Folders, f': Folders, worlds: seq<World>, moved: seq<World>, j: nat)
    requires Distinct(worlds) && j < |worlds| && Returning(f0, g, f, worlds, moved, j)
    requires forall w :: w != worlds[j] ==> At(f', w) == At(f, w)
    requires if worlds[j] in moved
             then At(f', worlds[j]).live == At(f0, worlds[j]).live && At(f', worlds[j]).replaced == None
             else f' == f
    ensures Returning(f0, g, f', worlds, moved, j + 1)
  {
    assert worlds[..j + 1] == worlds[..j] + [worlds[j]];
  }

  // ----- what a restore promises -----

  datatype SwapEnd = AllSwapped | Undone | HalfUndone

  /** Why a restore failed: before the swap, in it, or because the server did not come up after it. */
  datatype Reason = Untouched | SwapUndone | SwapHalfUndone | ServerNotUp

  datatype Outcome = Done | Failed(reason: Reason)

  /** The disk after one step, the archive made by then, and whether the server was flagged as in maintenance. */
  datatype Snapshot = Snapshot(folders: Folders, archived: Option<map<World, Tree>>, maintenance: bool)

  /**
   How the checks, commands and the server turn out in a restore: the backup and the
   folder are usable, the pre-restore backup is made, the backup unpacks, the server
   stops, starts again before the swap, answers after it.
   */
  datatype Luck = Luck(
    usable: bool,
    backedUp: bool,
    unpacks: bool,
    stops: bool,
    startsAgain: bool,
    answers: bool)

  ghost predicate LiveSame(f0: Folders, f: Folders) {
    forall w :: At(f, w).live == At(f0, w).live
  }

  /** Every world that was live in `f0` is live as it was; others may have appeared. */
  ghost predicate LiveBack(f0: Folders, f: Folders) {
    forall w :: At(f0, w).live.Some? ==> At(f, w).live == At(f0, w).live
  }

  /** The listed worlds are live as unpacked, every other one as it was in `f0`. */
  ghost predicate Restored(f0: Folders, f: Folders, worlds: seq<World>, unpacked: map<World, Tree>) {
    && (forall w :: w in worlds ==> w in unpacked)
    && (forall w :: At(f, w).live == if w in worlds && w in unpacked then Some(unpacked[w]) else At(f0, w).live)
  }

  /**
   A crash leaves either every original tree in place or aside, or the restored worlds,
   and those only if the server is `served`: it did not run before, or has answered.
   */
  ghost predicate CrashSafe(f0: Folders, t: Snapshot, worlds: seq<World>, unpacked: map<World, Tree>, served: bool) {
    AllKept(f0, t.folders) || (served && Restored(f0, t.folders, worlds, unpacked))
  }

  ghost predicate EndsWell(f0: Folders, f: Folders, outcome: Outcome, worlds: seq<World>, unpacked: map<World, Tree>) {
    match outcome
    case Done => Restored(f0, f, worlds, unpacked)
    case Failed(reason) =>
      && AllKept(f0, f)
      && (reason == Untouched ==> LiveSame(f0, f))
      && (reason == SwapUndone ==> LiveBack(f0, f))
      && (reason == ServerNotUp ==> Restored(f0, f, worlds, unpacked))
  }

  /** The live worlds of the server: what a backup archives. */
  function LiveWorlds(f: Folders): map<World, Tree> {
    map w | w in f && f[w].live.Some? :: f[w].live.value
  }

  /** The disk with nothing but `unpacked` in the staging folder. */
  function Staged(f: Folders, unpacked: map<World, Tree>): Folders {
    map w | w in f.Keys + unpacked.Keys :: At(f, w).(staging := if w in unpacked then Some(unpacked[w]) else None)
  }

  /** Only the live and the replaced folders matter to these judgements. */
  lemma SameJudgement(f0: Folders, f1: Folders, f: Folders, f': Folders, outcome: Outcome, worlds: seq<World>,
                      unpacked: map<World, Tree>)
    requires LiveSame(f0, f1)
    requires forall w :: At(f', w).live == At(f, w).live && At(f', w).replaced == At(f, w).replaced
    requires EndsWell(f1, f, outcome, worlds, unpacked)
    ensures EndsWell(f0, f', outcome, worlds, unpacked)
  {
    forall w ensures Kept(At(f1, w), At(f, w)) <==> Kept(At(f0, w), At(f', w)) {
      assert At(f1, w).live == At(f0, w).live;
    }
  }

  lemma SameSafety(f0: Folders, f1: Folders, t: Snapshot, worlds: seq<World>, unpacked: map<World, Tree>,
                   served: bool)
    requires LiveSame(f0, f1) && CrashSafe(f1, t, worlds, unpacked, served)
    ensures CrashSafe(f0, t, worlds, unpacked, served)
  {
    if AllKept(f1, t.folders) {
      SameJudgement(f0, f1, t.folders, t.folders, Failed(SwapHalfUndone), worlds, unpacked);
    } else {
      SameJudgement(f0, f1, t.folders, t.folders, Done, worlds, unpacked);
    }
  }

  /** The disk after a server has written its live worlds anew, or removed or made some. */
  function Overwritten(f: Folders, written: map<World, Option<Tree>>): Folders {
    map w | w in f.Keys + written.Keys :: if w in written then At(f, w).(live := written[w]) else At(f, w)
  }

  lemma OverwrittenIs(f: Folders, written: map<World, Option<Tree>>)
    ensures forall w :: At(Overwritten(f, written), w)
                        == if w in written then At(f, w).(live := written[w]) else At(f, w)
  {
  }

  /** The restore comes as far as stopping the server. */
  ghost predicate ComesToStop(worlds: seq<World>, unpacked: map<World, Tree>, luck: Luck) {
    luck.usable && worlds != [] && luck.backedUp && luck.unpacks && forall w :: w in worlds ==> w in unpacked
  }

  /** The disk once a server, if it is running, has written until it was stopped. */
  function AtStop(f0: Folders, running: bool, written: map<World, Option<Tree>>): Folders {
    if running then Overwritten(f0, written) else f0
  }

  ghost function StopOf(f0: Folders, worlds: seq<World>, unpacked: map<World, Tree>, running: bool,
                        written: map<World, Option<Tree>>, luck: Luck): Folders
  {
    if ComesToStop(worlds, unpacked, luck) then AtStop(f0, running, written) else f0
  }

  /** What the server writes does not depend on what has been unpacked beside its worlds. */
  lemma SameAtStop(f0: Folders, f1: Folders, running: bool, written: map<World, Option<Tree>>)
    requires LiveSame(f0, f1)
    ensures LiveSame(AtStop(f0, running, written), AtStop(f1, running, written))
  {
    OverwrittenIs(f0, written);
    OverwrittenIs(f1, written);
  }

  /** A crash after any step finds the originals of before, or those of the stop, or the restore complete. */
  ghost predicate AllSafe(f0: Folders, stop: Folders, trace: seq<Snapshot>, worlds: seq<World>,
                          unpacked: map<World, Tree>, served: bool) {
    forall i :: 0 <= i < |trace| ==>
      CrashSafe(f0, trace[i], worlds, unpacked, served) || CrashSafe(stop, trace[i], worlds, unpacked, served)
  }

  /** The server is flagged as in maintenance whenever the worker has touched a live world. */
  ghost predicate FlaggedFirst(f0: Folders, stop: Folders, trace: seq<Snapshot>) {
    forall i :: 0 <= i < |trace| && !trace[i].maintenance ==>
      LiveSame(f0, trace[i].folders) || LiveSame(stop, trace[i].folders)
  }

  /** The snapshots after those of `t0` are of one archive and flag, and keep the originals. */
  ghost predicate KeptSince(f0: Folders, t0: seq<Snapshot>, t1: seq<Snapshot>, archived: Option<map<World, Tree>>,
                            maintenance: bool) {
    && t0 <= t1
    && forall i :: |t0| <= i < |t1| ==>
         t1[i].archived == archived && t1[i].maintenance == maintenance && AllKept(f0, t1[i].folders)
  }

  lemma KeptOn(f0: Folders, t0: seq<Snapshot>, t1: seq<Snapshot>, t2: seq<Snapshot>,
               archived: Option<map<World, Tree>>, maintenance: bool)
    requires KeptSince(f0, t0, t1, archived, maintenance) && KeptSince(f0, t1, t2, archived, maintenance)
    ensures KeptSince(f0, t0, t2, archived, maintenance)
  {
  }

  /** The same, or the restore complete and the server served. */
  ghost predicate SafeSince(f0: Folders, t0: seq<Snapshot>, t1: seq<Snapshot>, archived: Option<map<World, Tree>>,
                            maintenance: bool, worlds: seq<World>, unpacked: map<World, Tree>, served: bool) {
    && t0 <= t1
    && forall i :: |t0| <= i < |t1| ==>
         t1[i].archived == archived && t1[i].maintenance == maintenance
         && CrashSafe(f0, t1[i], worlds, unpacked, served)
  }

  lemma SafeOn(f0: Folders, t0: seq<Snapshot>, t1: seq<Snapshot>, t2: seq<Snapshot>,
               archived: Option<map<World, Tree>>, maintenance: bool, worlds: seq<World>, unpacked: map<World, Tree>,
               served: bool)
    requires KeptSince(f0, t0, t1, archived, maintenance)
    requires SafeSince(f0, t1, t2, archived, maintenance, worlds, unpacked, served)
    ensures SafeSince(f0, t0, t2, archived, maintenance, worlds, unpacked, served)
  {
  }

  /** No live world is touched before all of them are archived. */
  ghost predicate ArchivedFirst(f0: Folders, trace: seq<Snapshot>) {
    forall i :: 0 <= i < |trace| && !LiveSame(f0, trace[i].folders) ==> trace[i].archived == Some(LiveWorlds(f0))
  }

  /** The first step unpacks; those after it are judged by the worlds of the stop. */
  lemma TraceFromStop(f0: Folders, stop: Folders, stop1: Folders, trace: seq<Snapshot>,
                      archived: Option<map<World, Tree>>, worlds: seq<World>, unpacked: map<World, Tree>, served: bool)
    requires LiveSame(stop, stop1) && |trace| > 0 && trace[0].archived == archived
    requires LiveSame(f0, trace[0].folders) && AllKept(f0, trace[0].folders)
    requires SafeSince(stop1, [trace[0]], trace, archived, true, worlds, unpacked, served)
    ensures AllSafe(f0, stop, trace, worlds, unpacked, served) && FlaggedFirst(f0, stop, trace)
    ensures forall i :: 0 <= i < |trace| ==> trace[i].archived == archived
  {
    forall i | 0 < i < |trace|
      ensures CrashSafe(stop, trace[i], worlds, unpacked, served)
    {
      SameSafety(stop, stop1, trace[i], worlds, unpacked, served);
    }
  }

  lemma OneMoreSafe(f0: Folders, stop: Folders, trace: seq<Snapshot>, t: Snapshot, worlds: seq<World>,
                    unpacked: map<World, Tree>, served: bool)
    requires AllSafe(f0, stop, trace, worlds, unpacked, served) && CrashSafe(stop, t, worlds, unpacked, served)
    ensures AllSafe(f0, stop, trace + [t], worlds, unpacked, served)
  {
  }

  /** Clearing up at the end changes nothing of what was archived and flagged before. */
  lemma LastStep(f0: Folders, stop: Folders, f: Folders, trace: seq<Snapshot>, t: Snapshot)
    requires FlaggedFirst(f0, stop, trace) && LiveSame(f, t.folders)
    requires t.maintenance || LiveSame(f0, f) || LiveSame(stop, f)
    requires forall i :: 0 <= i < |trace| ==> trace[i].archived == t.archived
    requires t.archived == Some(LiveWorlds(f0)) || (LiveSame(f0, f) && trace == [])
    ensures FlaggedFirst(f0, stop, trace + [t]) && ArchivedFirst(f0, trace + [t])
  {
  }

  /** The archive has what is live at the stop exactly if the server leaves each world it writes as it was. */
  lemma ArchiveHasWrittenIff(f0: Folders, written: map<World, Option<Tree>>)
    ensures LiveWorlds(Overwritten(f0, written)) == LiveWorlds(f0)
            <==> forall w :: w in written ==> written[w] == At(f0, w).live
  {
    var f := Overwritten(f0, written);
    OverwrittenIs(f0, written);
    forall w ensures At(f, w).live == if w in written then written[w] else At(f0, w).live {
    }
    forall w
      ensures At(f, w).live == At(f0, w).live
              <==> (w in LiveWorlds(f) <==> w in LiveWorlds(f0))
                   && (w in LiveWorlds(f) ==> LiveWorlds(f)[w] == LiveWorlds(f0)[w])
    {
      LiveWorldsAt(f, w);
      LiveWorldsAt(f0, w);
    }
    if forall w :: w in written ==> written[w] == At(f0, w).live {
      forall w ensures At(f, w).live == At(f0, w).live {
      }
      assert LiveWorlds(f) == LiveWorlds(f0);
    }
  }

  /** A world made where there was none, or removed: one change of that kind is not in the archive. */
  lemma OneChangeIsMissed(f0: Folders, w: World)
    ensures var written := map[w := if At(f0, w).live.None? then Some(Tree(0, true)) else None];
            LiveWorlds(Overwritten(f0, written)) != LiveWorlds(f0)
  {
    var written := map[w := if At(f0, w).live.None? then Some(Tree(0, true)) else None];
    ArchiveHasWrittenIff(f0, written);
    assert w in written;
  }

  /**
   What can be told before a restore: the archive made first is sure to hold the worlds
   as they are when they are swapped if and only if the server is not running.
   */
  lemma ArchiveIsAtStopIff(f0: Folders, running: bool)
    ensures (forall written :: LiveWorlds(AtStop(f0, running, written)) == LiveWorlds(f0)) <==> !running
  {
    if running {
      var w: World := "world";
      var written := map[w := if At(f0, w).live.None? then Some(Tree(0, true)) else None];
      OneChangeIsMissed(f0, w);
      assert LiveWorlds(AtStop(f0, running, written)) != LiveWorlds(f0);
    }
  }

  lemma LiveWorldsAt(f: Folders, w: World)
    ensures At(f, w).live == if w in LiveWorlds(f) then Some(LiveWorlds(f)[w]) else None
  {
  }

  lemma StagedIs(f: Folders, unpacked: map<World, Tree>)
    ensures forall w :: At(Staged(f, unpacked), w)
                        == At(f, w).(staging := if w in unpacked then Some(unpacked[w]) else None)
  {
  }

  /** Nothing is lost while live and replaced folders are as they were. */
  lemma UntouchedKept(f0: Folders, f: Folders)
    requires AllSeparate(f0)
    requires forall w :: At(f, w).live == At(f0, w).live && At(f, w).replaced == At(f0, w).replaced
    ensures AllKept(f0, f)
  {
    forall w ensures Kept(At(f0, w), At(f, w)) {
      assert Separate(At(f0, w));
    }
  }

  lemma SwappedIsRestored(f0: Folders, f: Folders, worlds: seq<World>, unpacked: map<World, Tree>)
    requires Swapping(f0, f, worlds, |worlds|, false)
    requires forall w :: w in worlds ==> w in unpacked && At(f0, w).staging == Some(unpacked[w])
    ensures Restored(f0, f, worlds, unpacked)
  {
    assert worlds[..|worlds|] == worlds;
  }

  ghost predicate ReplacedSame(f0: Folders, f: Folders) {
    forall w :: At(f, w).replaced == At(f0, w).replaced
  }

  /** Nothing whole is left at the place. */
  ghost predicate Cleared(f: Folders, place: Place) {
    forall w :: At(f, w).Get(place).Some? ==> !At(f, w).Get(place).value.whole
  }

  /**
   How a restore turns out once the backup is unpacked, on the disk `f`. It is done
   exactly if the server stopped, did not start by itself, every rename succeeded and the
   server answered; if only the answer was missing it says so; and it stays away from the
   worlds exactly if it never came to the swap.
   */
  ghost predicate SwapTurnsOut(f: Folders, outcome: Outcome, worlds: seq<World>, running: bool,
                               written: map<World, Option<Tree>>, luck: Luck, refuses: nat -> bool, first: nat) {
    var comes := (running ==> luck.stops) && !luck.startsAgain;
    var swaps := comes && Goes(AtStop(f, running, written), worlds, refuses, first, |worlds|);
    && (outcome == Done <==> swaps && (running ==> luck.answers))
    && (outcome == Failed(ServerNotUp) <==> swaps && running && !luck.answers)
    && (outcome == Failed(Untouched) <==> !comes)
  }

  ghost predicate TurnsOut(f0: Folders, outcome: Outcome, worlds: seq<World>, unpacked: map<World, Tree>, running: bool,
                           written: map<World, Option<Tree>>, luck: Luck, refuses: nat -> bool, first: nat) {
    if ComesToStop(worlds, unpacked, luck)
    then SwapTurnsOut(Staged(f0, unpacked), outcome, worlds, running, written, luck, refuses, first)
    else outcome == Failed(Untouched)
  }

  /**
   Exactly when a restore is done: every check, command and rename succeeded, and a server
   that ran stopped and answered.
   */
  lemma DoneIff(f0: Folders, outcome: Outcome, worlds: seq<World>, unpacked: map<World, Tree>, running: bool,
                written: map<World, Option<Tree>>, luck: Luck, refuses: nat -> bool, first: nat)
    requires TurnsOut(f0, outcome, worlds, unpacked, running, written, luck, refuses, first)
    ensures outcome == Done <==>
              && luck.usable && worlds != [] && luck.backedUp && luck.unpacks
              && (forall w :: w in worlds ==> w in unpacked)
              && (running ==> luck.stops && luck.answers) && !luck.startsAgain
              && Goes(AtStop(Staged(f0, unpacked), running, written), worlds, refuses, first, |worlds|)
    ensures outcome == Failed(ServerNotUp) ==> running && !luck.answers
  {
  }

  // ----- which renames a swap makes -----

  /** The worlds' renames have what they need: something unpacked, and room aside for what is live. */
  predicate Ready(s: Slots) {
    s.staging.Some? && (s.live.Some? ==> s.replaced.None?)
  }

  function RenamesOf(s: Slots): nat {
    if s.live.Some? then 2 else 1
  }

  function RenamesUpTo(f0: Folders, worlds: seq<World>, k: nat): nat
    requires k <= |worlds|
  {
    if k == 0 then 0 else RenamesUpTo(f0, worlds, k - 1) + RenamesOf(At(f0, worlds[k - 1]))
  }

  /** The disk refuses none of the renames from number `a` up to `b`. */
  ghost predicate NoneRefused(refuses: nat -> bool, a: nat, b: nat) {
    forall n :: a <= n < b ==> !refuses(n)
  }

  /** The first `k` worlds can be swapped, beginning with rename number `first`. */
  ghost predicate Goes(f0: Folders, worlds: seq<World>, refuses: nat -> bool, first: nat, k: nat)
    requires k <= |worlds|
  {
    k == 0 ||
    (var from, s := first + RenamesUpTo(f0, worlds, k - 1), At(f0, worlds[k - 1]);
     Goes(f0, worlds, refuses, first, k - 1) && Ready(s) && NoneRefused(refuses, from, from + RenamesOf(s)))
  }

  lemma {:induction false} GoesBefore(f0: Folders, worlds: seq<World>, refuses: nat -> bool, first: nat, j: nat, k: nat)
    requires j <= k <= |worlds|
    ensures Goes(f0, worlds, refuses, first, k) ==> Goes(f0, worlds, refuses, first, j)
    decreases k
  {
    if j < k {
      GoesBefore(f0, worlds, refuses, first, j, k - 1);
    }
  }

  /** In terms of all the renames together. */
  lemma {:induction false} GoesIs(f0: Folders, worlds: seq<World>, refuses: nat -> bool, first: nat, k: nat)
    requires k <= |worlds|
    ensures Goes(f0, worlds, refuses, first, k)
            <==> (forall i :: 0 <= i < k ==> Ready(At(f0, worlds[i])))
                 && NoneRefused(refuses, first, first + RenamesUpTo(f0, worlds, k))
  {
    if k > 0 {
      GoesIs(f0, worlds, refuses, first, k - 1);
      var from, s := first + RenamesUpTo(f0, worlds, k - 1), At(f0, worlds[k - 1]);
      RefusedParts(refuses, first, from, from + RenamesOf(s));
    }
  }

  lemma RefusedParts(refuses: nat -> bool, a: nat, b: nat, c: nat)
    requires a <= b <= c
    ensures NoneRefused(refuses, a, c) <==> NoneRefused(refuses, a, b) && NoneRefused(refuses, b, c)
  {
    if NoneRefused(refuses, a, b) && NoneRefused(refuses, b, c) {
      forall n | a <= n < c
        ensures !refuses(n)
      {
        assert n < b || b <= n;
      }
    }
  }

  // ----- and its rollback -----

  /** How many of the first `j` worlds are listed as moved aside. */
  function MovedUpTo(worlds: seq<World>, moved: seq<World>, j: nat): nat
    requires j <= |worlds|
  {
    if j == 0 then 0 else MovedUpTo(worlds, moved, j - 1) + if worlds[j - 1] in moved then 1 else 0
  }

  /** How many of the first `j` worlds are live. */
  function LiveUpTo(f0: Folders, worlds: seq<World>, j: nat): nat
    requires j <= |worlds|
  {
    if j == 0 then 0 else LiveUpTo(f0, worlds, j - 1) + if At(f0, worlds[j - 1]).live.Some? then 1 else 0
  }

  /** The rollback from the disk `g`, beginning with rename number `first`, gets through its first `j` worlds. */
  ghost predicate BackGoes(g: Folders, worlds: seq<World>, moved: seq<World>, refuses: nat -> bool,
                           sticks: World -> bool, first: nat, j: nat)
    requires j <= |worlds|
  {
    j == 0 ||
    (var w := worlds[j - 1];
     BackGoes(g, worlds, moved, refuses, sticks, first, j - 1)
     && (w in moved ==>
           !refuses(first + MovedUpTo(worlds, moved, j - 1)) && (At(g, w).live.Some? ==> !sticks(w))))
  }

  lemma {:induction false} BackGoesBefore(g: Folders, worlds: seq<World>, moved: seq<World>, refuses: nat -> bool,
                                          sticks: World -> bool, first: nat, i: nat, j: nat)
    requires i <= j <= |worlds|
    ensures BackGoes(g, worlds, moved, refuses, sticks, first, j)
            ==> BackGoes(g, worlds, moved, refuses, sticks, first, i)
    decreases j
  {
    if i < j {
      BackGoesBefore(g, worlds, moved, refuses, sticks, first, i, j - 1);
    }
  }

  lemma {:induction false} BackGoesIs(g: Folders, worlds: seq<World>, moved: seq<World>, refuses: nat -> bool,
                                      sticks: World -> bool, first: nat, j: nat)
    requires j <= |worlds|
    ensures BackGoes(g, worlds, moved, refuses, sticks, first, j) <==>
              && NoneRefused(refuses, first, first + MovedUpTo(worlds, moved, j))
              && forall i :: 0 <= i < j && worlds[i] in moved && At(g, worlds[i]).live.Some? ==> !sticks(worlds[i])
  {
    if j > 0 {
      BackGoesIs(g, worlds, moved, refuses, sticks, first, j - 1);
      var from := first + MovedUpTo(worlds, moved, j - 1);
      RefusedParts(refuses, first, from, from + if worlds[j - 1] in moved then 1 else 0);
    }
  }

  /** The live world is aside, and another one, if any, in its place. */
  predicate IsAside(s0: Slots, s: Slots) {
    s0.live.Some? && s.replaced == s0.live && (s.live.Some? ==> s.live.value.id != s0.live.value.id)
  }

  lemma MovedIsAside(f0: Folders, g: Folders, worlds: seq<World>, k: nat, half: bool, moved: seq<World>, j: nat)
    requires Distinct(worlds) && Swapping(f0, g, worlds, k, half) && MovedAre(f0, worlds, k, half, moved)
    requires j < |worlds| && AllSeparate(f0)
    ensures worlds[j] in moved ==> IsAside(At(f0, worlds[j]), At(g, worlds[j]))
  {
    assert Separate(At(f0, worlds[j]));
  }

  lemma {:induction false} MovedIsLive(f0: Folders, worlds: seq<World>, k: nat, half: bool, moved: seq<World>, j: nat)
    requires k <= |worlds| && (half ==> k < |worlds| && At(f0, worlds[k]).live.Some?)
    requires Distinct(worlds) && MovedAre(f0, worlds, k, half, moved) && j <= |worlds|
    ensures MovedUpTo(worlds, moved, j)
            == LiveUpTo(f0, worlds, if j < k then j else k) + if half && j > k then 1 else 0
  {
    if j > 0 {
      MovedIsLive(f0, worlds, k, half, moved, j - 1);
      var w := worlds[j - 1];
      assert w in worlds[..k] <==> j - 1 < k;
      assert half && w == worlds[k] <==> half && j - 1 == k;
    }
  }

  /** The rollback of a swap that stopped at world `k`, the live one of which is aside if `half`, goes through. */
  ghost predicate GoesBack(f0: Folders, worlds: seq<World>, k: nat, half: bool, refuses: nat -> bool,
                           sticks: World -> bool, first: nat)
    requires k <= |worlds|
  {
    var back := first + RenamesUpTo(f0, worlds, k) + if half then 2 else 1;
    && NoneRefused(refuses, back, back + LiveUpTo(f0, worlds, k) + if half then 1 else 0)
    && forall i :: 0 <= i < k && At(f0, worlds[i]).live.Some? ==> !sticks(worlds[i])
  }

  lemma BackIs(f0: Folders, g: Folders, worlds: seq<World>, k: nat, half: bool, moved: seq<World>,
               refuses: nat -> bool, sticks: World -> bool, first: nat)
    requires Distinct(worlds) && Swapping(f0, g, worlds, k, half) && MovedAre(f0, worlds, k, half, moved)
    ensures var back := first + RenamesUpTo(f0, worlds, k) + if half then 2 else 1;
            GoesBack(f0, worlds, k, half, refuses, sticks, first)
            <==> BackGoes(g, worlds, moved, refuses, sticks, back, |worlds|)
  {
    var back := first + RenamesUpTo(f0, worlds, k) + if half then 2 else 1;
    BackGoesIs(g, worlds, moved, refuses, sticks, back, |worlds|);
    MovedIsLive(f0, worlds, k, half, moved, |worlds|);
    forall i | 0 <= i < |worlds|
      ensures worlds[i] in moved && At(g, worlds[i]).live.Some? <==> i < k && At(f0, worlds[i]).live.Some?
    {
      assert worlds[i] in worlds[..k] <==> i < k;
    }
  }

  class ServerFolder {
    /** Whether the disk refuses the rename of that number. */
    const refuses: nat -> bool
    /** Whether something of an unpacked world stays when it is deleted. */
    const sticks: World -> bool
    var folders: Folders
    var maintenance: bool
    /** The pre-restore backup, once made. */
    var archived: Option<map<World, Tree>>
    /** How many renames were tried. */
    var renames: nat
    ghost var trace: seq<Snapshot>

    constructor (folders: Folders, maintenance: bool, refuses: nat -> bool, sticks: World -> bool)
      ensures this.folders == folders && this.maintenance == maintenance
      ensures this.refuses == refuses && this.sticks == sticks
      ensures archived == None && renames == 0 && trace == []
    {
      this.folders, this.maintenance, this.refuses, this.sticks := folders, maintenance, refuses, sticks;
      archived, renames, trace := None, 0, [];
    }

    ghost function Now(): Snapshot
      reads this
    {
      Snapshot(folders, archived, maintenance)
    }

    /** A rename: it fails when the disk refuses it, the source is missing or the target is taken. */
    method Rename(from: Place, to: Place, w: World) returns (ok: bool)
      requires from != to
      modifies this`folders, this`trace, this`renames
      ensures renames == old(renames) + 1
      ensures trace == old(trace) + [Now()]
      ensures ok <==> !refuses(old(renames))
                      && At(old(folders), w).Get(from).Some? && At(old(folders), w).Get(to) == None
      ensures !ok ==> folders == old(folders)
      ensures ok ==> At(folders, w) == At(old(folders), w).Put(from, None).Put(to, At(old(folders), w).Get(from))
      ensures forall v :: v != w ==> At(folders, v) == At(old(folders), v)
    {
      var s := At(folders, w);
      ok := !refuses(renames) && s.Get(from).Some? && s.Get(to) == None;
      if ok {
        folders := folders[w := s.Put(from, None).Put(to, s.Get(from))];
      }
      renames := renames + 1;
      trace := trace + [Now()];
    }

    /** `rmtree(..., ignore_errors=True)` of a live world: removed, or left damaged. */
    method RemoveLive(w: World)
      modifies this`folders, this`trace
      ensures trace == old(trace) + [Now()]
      ensures var s := At(old(folders), w);
              At(folders, w)
              == s.(live := if sticks(w) && s.live.Some? then Some(s.live.value.(whole := false)) else None)
      ensures forall v :: v != w ==> At(folders, v) == At(old(folders), v)
    {
      var s := At(folders, w);
      var left := if sticks(w) && s.live.Some? then Some(s.live.value.(whole := false)) else None;
      folders := folders[w := s.(live := left)];
      trace := trace + [Now()];
    }

    /** One turn of the swap loop: the live world, if any, aside, and the unpacked one in its place. */
    method SwapOne(worlds: seq<World>, i: nat, moved: seq<World>, ghost f0: Folders)
        returns (ok: bool, moved': seq<World>, ghost half: bool)
      requires Distinct(worlds) && i < |worlds| && AllSeparate(f0)
      requires Swapping(f0, folders, worlds, i, false) && MovedAre(f0, worlds, i, false, moved)
      modifies this`folders, this`trace, this`renames
      ensures ok <==> Ready(At(f0, worlds[i]))
                      && NoneRefused(refuses, old(renames), old(renames) + RenamesOf(At(f0, worlds[i])))
      ensures renames == old(renames) + if ok then RenamesOf(At(f0, worlds[i])) else if half then 2 else 1
      ensures ok ==> Swapping(f0, folders, worlds, i + 1, false) && MovedAre(f0, worlds, i + 1, false, moved')
      ensures !ok ==> Swapping(f0, folders, worlds, i, half) && MovedAre(f0, worlds, i, half, moved')
      ensures KeptSince(f0, old(trace), trace, archived, maintenance)
    {
      var w := worlds[i];
      moved', half := moved, false;
      SwappingKeeps(f0, folders, worlds, i, false);
      assert w !in worlds[..i];
      if At(folders, w).live.Some? {
        ok := Rename(Live, Replaced, w);
        if !ok {
          return;
        }
        half := true;
        SwappingKeeps(f0, folders, worlds, i, true);
        moved' := moved + [w];
      }
      ghost var g := folders;
      ok := Rename(Staging, Live, w);
      if ok {
        SwapOneMore(f0, g, folders, worlds, i, half);
        assert worlds[..i + 1] == worlds[..i] + [w];
      }
    }

    /**
     The swap loop up to its end or its first failing rename: `moved` lists the worlds
     moved aside, `k` counts those swapped, `half` tells whether the next one was moved aside.
     */
    method SwapAll(worlds: seq<World>) returns (ok: bool, moved: seq<World>, ghost k: nat, ghost half: bool)
      requires Distinct(worlds) && AllSeparate(folders)
      modifies this`folders, this`trace, this`renames
      ensures k <= |worlds| && (ok <==> k == |worlds|) && (half ==> !ok)
      ensures ok <==> Goes(old(folders), worlds, refuses, old(renames), |worlds|)
      ensures !ok ==> renames == old(renames) + RenamesUpTo(old(folders), worlds, k) + if half then 2 else 1
      ensures Swapping(old(folders), folders, worlds, k, half)
      ensures MovedAre(old(folders), worlds, k, half, moved)
      ensures KeptSince(old(folders), old(trace), trace, archived, maintenance)
    {
      ghost var f0, first := folders, renames;
      moved := [];
      for i := 0 to |worlds|
        invariant renames == first + RenamesUpTo(f0, worlds, i) && Goes(f0, worlds, refuses, first, i)
        invariant Swapping(f0, folders, worlds, i, false) && MovedAre(f0, worlds, i, false, moved)
        invariant KeptSince(f0, old(trace), trace, archived, maintenance)
      {
        ghost var t := trace;
        ok, moved, half := SwapOne(worlds, i, moved, f0);
        KeptOn(f0, old(trace), t, trace, archived, maintenance);
        if !ok {
          GoesBefore(f0, worlds, refuses, first, i + 1, |worlds|);
          k := i;
          return;
        }
      }
      ok, k, half := true, |worlds|, false;
    }

    /** One turn of the rollback: the world, if it was moved aside, takes the place of what is there. */
    method PutOneBack(worlds: seq<World>, j: nat, moved: seq<World>, ghost f0: Folders, ghost g: Folders)
        returns (ok: bool)
      requires Distinct(worlds) && j < |worlds| && AllKept(f0, folders)
      requires Returning(f0, g, folders, worlds, moved, j)
      requires worlds[j] in moved ==> IsAside(At(f0, worlds[j]), At(g, worlds[j]))
      modifies this`folders, this`trace, this`renames
      ensures renames == old(renames) + if worlds[j] in moved then 1 else 0
      ensures ok <==> worlds[j] in moved ==>
                        !refuses(old(renames)) && (At(g, worlds[j]).live.Some? ==> !sticks(worlds[j]))
      ensures ok ==> Returning(f0, g, folders, worlds, moved, j + 1)
      ensures AllKept(f0, folders)
      ensures KeptSince(f0, old(trace), trace, archived, maintenance)
    {
      var w := worlds[j];
      assert w !in worlds[..j];
      ghost var before := folders;
      ok := true;
      if w in moved && At(folders, w).replaced.Some? {
        if At(folders, w).live.Some? {
          RemoveLive(w);
          KeptElsewhere(f0, before, folders, w);
        }
        ok := Rename(Replaced, Live, w);
        KeptElsewhere(f0, before, folders, w);
      }
      if ok {
        ReturnOneMore(f0, g, before, folders, worlds, moved, j);
      }
    }

    /** Puts back every world in `moved`; an exception (a rename that fails) stops it. */
    method PutAllBack(worlds: seq<World>, moved: seq<World>, ghost f0: Folders) returns (ok: bool)
      requires Distinct(worlds) && AllKept(f0, folders)
      requires forall j :: 0 <= j < |worlds| && worlds[j] in moved ==>
                 IsAside(At(f0, worlds[j]), At(folders, worlds[j]))
      modifies this`folders, this`trace, this`renames
      ensures ok <==> BackGoes(old(folders), worlds, moved, refuses, sticks, old(renames), |worlds|)
      ensures ok ==> Returning(f0, old(folders), folders, worlds, moved, |worlds|)
      ensures AllKept(f0, folders)
      ensures KeptSince(f0, old(trace), trace, archived, maintenance)
    {
      ghost var g, first := folders, renames;
      NoneReturned(f0, g, worlds, moved);
      for j := 0 to |worlds|
        invariant Returning(f0, g, folders, worlds, moved, j)
        invariant renames == first + MovedUpTo(worlds, moved, j)
        invariant BackGoes(g, worlds, moved, refuses, sticks, first, j)
        invariant AllKept(f0, folders)
        invariant KeptSince(f0, old(trace), trace, archived, maintenance)
      {
        ghost var t := trace;
        ok := PutOneBack(worlds, j, moved, f0, g);
        KeptOn(f0, old(trace), t, trace, archived, maintenance);
        if !ok {
          BackGoesBefore(g, worlds, moved, refuses, sticks, first, j + 1, |worlds|);
          return;
        }
      }
      ok := true;
    }

    /**
     The swap with its rollback. Once undone, every world that had a live folder has it
     back. The disk shows the live worlds it showed before exactly when each of the `k`
     worlds swapped before the failure had one: the rollback leaves in place an unpacked
     world that replaced nothing.
     */
    method Swap(worlds: seq<World>) returns (end: SwapEnd, ghost k: nat, ghost half: bool)
      requires Distinct(worlds) && AllSeparate(folders)
      modifies this`folders, this`trace, this`renames
      ensures k <= |worlds|
      ensures end == AllSwapped <==> k == |worlds|
      ensures end == AllSwapped <==> Goes(old(folders), worlds, refuses, old(renames), |worlds|)
      ensures end == AllSwapped ==> Swapping(old(folders), folders, worlds, |worlds|, false)
      ensures half ==> k < |worlds| && At(old(folders), worlds[k]).live.Some?
      ensures end == Undone <==>
                end != AllSwapped && GoesBack(old(folders), worlds, k, half, refuses, sticks, old(renames))
      ensures end == Undone ==> UndoneEnd(old(folders), folders, worlds)
      ensures end == Undone ==> LiveBack(old(folders), folders)
      ensures end == Undone ==>
                (LiveSame(old(folders), folders) <==> forall i :: 0 <= i < k ==> At(old(folders), worlds[i]).live.Some?)
      ensures AllKept(old(folders), folders)
      ensures KeptSince(old(folders), old(trace), trace, archived, maintenance)
    {
      ghost var f0 := folders;
      ghost var first := renames;
      var ok, moved;
      ok, moved, k, half := SwapAll(worlds);
      if ok {
        SwappingKeeps(f0, folders, worlds, k, false);
        return AllSwapped, k, false;
      }
      ghost var g := folders;
      ghost var t := trace;
      SwappingKeeps(f0, g, worlds, k, half);
      forall j | 0 <= j < |worlds|
        ensures worlds[j] in moved ==> IsAside(At(f0, worlds[j]), At(g, worlds[j]))
      {
        MovedIsAside(f0, g, worlds, k, half, moved, j);
      }
      var back := PutAllBack(worlds, moved, f0);
      KeptOn(f0, old(trace), t, trace, archived, maintenance);
      BackIs(f0, g, worlds, k, half, moved, refuses, sticks, first);
      if back {
        UndoneLive(f0, g, folders, worlds, moved, k, half);
      }
      end := if back then Undone else HalfUndone;
    }

    ghost method Note()
      modifies this`trace
      ensures trace == old(trace) + [Now()]
    {
      trace := trace + [Now()];
    }

    /** Unpacks the backup next to the server; when that fails only `part` of it is there. */
    method Unpack(unpacked: map<World, Tree>, ok: bool)
      modifies this`folders, this`trace
      ensures trace == old(trace) + [Now()]
      ensures forall w ::
                && At(folders, w).live == At(old(folders), w).live
                && At(folders, w).replaced == At(old(folders), w).replaced
      ensures ok ==> folders == Staged(old(folders), unpacked)
    {
      var part: set<World> := *;
      var there := if ok then unpacked else map w | w in part && w in unpacked :: unpacked[w];
      StagedIs(folders, there);
      folders := Staged(folders, there);
      Note();
    }

    /** `rmtree` of the staging folder or of the replaced worlds: what is left of it is damaged. */
    method RemovePlace(place: Place)
      modifies this`folders, this`trace
      ensures trace == old(trace) + [Now()]
      ensures forall w, t :: At(folders, w).Put(place, t) == At(old(folders), w).Put(place, t)
      ensures Cleared(folders, place)
    {
      var left: set<World> := *;
      folders := map w | w in folders ::
        var t := folders[w].Get(place);
        folders[w].Put(place, if w in left && t.Some? then Some(t.value.(whole := false)) else None);
      Note();
    }

    /**
     Step 5 of a restore: wait until the server answers, if it was running, and delete the
     replaced worlds. They are deleted exactly if it did not run or has answered, and not
     touched before that.
     */
    method StartSwapped(worlds: seq<World>, unpacked: map<World, Tree>, running: bool, answers: bool, ghost f0: Folders)
        returns (outcome: Outcome)
      requires AllKept(f0, folders) && Restored(f0, folders, worlds, unpacked)
      modifies this`folders, this`trace
      ensures outcome == if running && !answers then Failed(ServerNotUp) else Done
      ensures EndsWell(f0, folders, outcome, worlds, unpacked)
      ensures outcome == Failed(ServerNotUp) ==> folders == old(folders)
      ensures outcome == Done ==> Cleared(folders, Replaced)
      ensures SafeSince(f0, old(trace), trace, archived, maintenance, worlds, unpacked,
                        running ==> answers)
      ensures forall i :: |old(trace)| <= i < |trace| && !ReplacedSame(old(folders), trace[i].folders) ==>
                (running ==> answers)
    {
      Note();
      if running {
        if !answers {
          return Failed(ServerNotUp);
        }
      }
      ghost var f := folders;
      RemovePlace(Replaced);
      assert forall w :: At(folders, w).Put(Replaced, None).live == At(f, w).Put(Replaced, None).live;
      outcome := Done;
    }

    /** Steps 4 and 5 of a restore, the server being stopped: the swap, and what follows it. */
    method SwapStopped(worlds: seq<World>, unpacked: map<World, Tree>, running: bool, answers: bool)
        returns (outcome: Outcome)
      requires Distinct(worlds) && worlds != [] && AllSeparate(folders)
      requires forall w :: w in worlds ==> w in unpacked && At(folders, w).staging == Some(unpacked[w])
      modifies this`folders, this`trace, this`renames
      ensures outcome != Failed(Untouched)
      ensures outcome == Done
              <==> Goes(old(folders), worlds, refuses, old(renames), |worlds|) && (running ==> answers)
      ensures outcome == Failed(ServerNotUp)
              <==> Goes(old(folders), worlds, refuses, old(renames), |worlds|) && running && !answers
      ensures EndsWell(old(folders), folders, outcome, worlds, unpacked)
      ensures outcome == Done ==> Cleared(folders, Replaced)
      ensures SafeSince(old(folders), old(trace), trace, archived, maintenance, worlds, unpacked,
                        running ==> answers)
    {
      ghost var f0 := folders;
      var end, k, half := Swap(worlds);
      if end != AllSwapped {
        return Failed(if end == Undone then SwapUndone else SwapHalfUndone);
      }
      SwappedIsRestored(f0, folders, worlds, unpacked);
      ghost var t := trace;
      outcome := StartSwapped(worlds, unpacked, running, answers, f0);
      SafeOn(f0, old(trace), t, trace, archived, maintenance, worlds, unpacked, running ==> answers);
    }

    /** Steps 3 to 5 of a restore: stop the server, which writes until then, and swap. */
    method SwapAndStart(worlds: seq<World>, unpacked: map<World, Tree>, running: bool,
                        written: map<World, Option<Tree>>, luck: Luck)
        returns (outcome: Outcome)
      requires Distinct(worlds) && worlds != [] && AllSeparate(folders) && AllSeparate(Overwritten(folders, written))
      requires forall w :: w in worlds ==> w in unpacked && At(folders, w).staging == Some(unpacked[w])
      modifies this`folders, this`trace, this`renames
      ensures SwapTurnsOut(old(folders), outcome, worlds, running, written, luck, refuses, old(renames))
      ensures EndsWell(AtStop(old(folders), running, written), folders, outcome, worlds, unpacked)
      ensures outcome == Done ==> Cleared(folders, Replaced)
      ensures SafeSince(AtStop(old(folders), running, written), old(trace), trace, archived, maintenance, worlds,
                        unpacked, running ==> luck.answers)
    {
      OverwrittenIs(folders, written);
      if running {
        folders := Overwritten(folders, written);
      }
      UntouchedKept(folders, folders);
      if running && !luck.stops {
        return Failed(Untouched);
      }
      if luck.startsAgain {
        return Failed(Untouched);
      }
      outcome := SwapStopped(worlds, unpacked, running, luck.answers);
    }

    /** Steps 3 to 5 of a restore, the backup being unpacked beside the disk `f0`. */
    method SwapUnpacked(worlds: seq<World>, unpacked: map<World, Tree>, running: bool,
                        written: map<World, Option<Tree>>, luck: Luck, ghost f0: Folders)
        returns (outcome: Outcome)
      requires Distinct(worlds) && ComesToStop(worlds, unpacked, luck)
      requires folders == Staged(f0, unpacked) && AllSeparate(folders) && AllSeparate(Overwritten(folders, written))
      requires |trace| == 1 && trace[0].archived == archived && LiveSame(f0, trace[0].folders)
      requires AllKept(f0, trace[0].folders)
      modifies this`folders, this`trace, this`renames, this`maintenance
      ensures TurnsOut(f0, outcome, worlds, unpacked, running, written, luck, refuses, old(renames))
      ensures EndsWell(AtStop(f0, running, written), folders, outcome, worlds, unpacked)
      ensures outcome == Done ==> Cleared(folders, Replaced)
      ensures AllSafe(f0, AtStop(f0, running, written), trace, worlds, unpacked, running ==> luck.answers)
      ensures FlaggedFirst(f0, AtStop(f0, running, written), trace)
      ensures forall i :: 0 <= i < |trace| ==> trace[i].archived == archived
      ensures maintenance
    {
      maintenance := true;
      ghost var f1 := folders;
      StagedIs(f0, unpacked);
      outcome := SwapAndStart(worlds, unpacked, running, written, luck);
      SameAtStop(f0, f1, running, written);
      SameJudgement(AtStop(f0, running, written), AtStop(f1, running, written), folders, folders, outcome, worlds,
                    unpacked);
      TraceFromStop(f0, AtStop(f0, running, written), AtStop(f1, running, written), trace, archived, worlds, unpacked,
                    running ==> luck.answers);
    }

    /** Steps 2 to 5 of a restore. */
    method UnpackAndSwap(worlds: seq<World>, unpacked: map<World, Tree>, running: bool,
                         written: map<World, Option<Tree>>, luck: Luck)
        returns (outcome: Outcome, ghost stop: Folders)
      requires Distinct(worlds) && worlds != [] && luck.usable && luck.backedUp
      requires AllSeparate(folders) && AllSeparate(Staged(folders, unpacked))
      requires AllSeparate(Overwritten(Staged(folders, unpacked), written)) && trace == []
      modifies this`folders, this`trace, this`renames, this`maintenance
      ensures stop == StopOf(old(folders), worlds, unpacked, running, written, luck)
      ensures TurnsOut(old(folders), outcome, worlds, unpacked, running, written, luck, refuses, old(renames))
      ensures EndsWell(stop, folders, outcome, worlds, unpacked)
      ensures outcome == Done ==> Cleared(folders, Replaced)
      ensures AllSafe(old(folders), stop, trace, worlds, unpacked, running ==> luck.answers)
      ensures FlaggedFirst(old(folders), stop, trace)
      ensures forall i :: 0 <= i < |trace| ==> trace[i].archived == archived
      ensures maintenance <==> old(maintenance) || ComesToStop(worlds, unpacked, luck)
    {
      ghost var f0 := folders;
      stop := folders;
      Unpack(unpacked, luck.unpacks);
      UntouchedKept(f0, folders);
      if !luck.unpacks || exists w :: w in worlds && w !in unpacked {
        return Failed(Untouched), stop;
      }
      stop := AtStop(f0, running, written);
      outcome := SwapUnpacked(worlds, unpacked, running, written, luck, f0);
    }

    /** The end of every restore that began on the disk `f0`: what is left of the unpacked backup is deleted. */
    method RemoveStaging(outcome: Outcome, worlds: seq<World>, unpacked: map<World, Tree>, ghost f0: Folders,
                         ghost stop: Folders, ghost served: bool)
      requires EndsWell(stop, folders, outcome, worlds, unpacked) && (outcome == Done ==> served)
      requires AllSafe(f0, stop, trace, worlds, unpacked, served) && FlaggedFirst(f0, stop, trace)
      requires forall i :: 0 <= i < |trace| ==> trace[i].archived == archived
      requires archived == Some(LiveWorlds(f0)) || (archived == None && trace == [] && folders == f0)
      requires maintenance || LiveSame(f0, folders) || LiveSame(stop, folders)
      requires outcome == Done ==> Cleared(folders, Replaced)
      modifies this`folders, this`trace
      ensures EndsWell(stop, folders, outcome, worlds, unpacked)
      ensures AllSafe(f0, stop, trace, worlds, unpacked, served)
      ensures FlaggedFirst(f0, stop, trace) && ArchivedFirst(f0, trace)
      ensures LiveSame(old(folders), folders) && ReplacedSame(old(folders), folders)
      ensures (outcome == Done ==> Cleared(folders, Replaced)) && Cleared(folders, Staging)
    {
      ghost var f, before := folders, trace;
      RemovePlace(Staging);
      assert forall w :: At(folders, w).Put(Staging, None) == At(f, w).Put(Staging, None);
      SameJudgement(stop, stop, f, folders, outcome, worlds, unpacked);
      OneMoreSafe(f0, stop, before, Now(), worlds, unpacked, served);
      LastStep(f0, stop, f, before, Now());
    }

    /** A restore but for what is cleared up at its end. */
    method RestoreWorlds(worlds: seq<World>, unpacked: map<World, Tree>, running: bool,
                         written: map<World, Option<Tree>>, luck: Luck)
        returns (outcome: Outcome, ghost stop: Folders)
      requires Distinct(worlds)
      requires AllSeparate(folders) && AllSeparate(Staged(folders, unpacked))
      requires AllSeparate(Overwritten(Staged(folders, unpacked), written))
      requires archived == None && trace == []
      modifies this
      ensures stop == StopOf(old(folders), worlds, unpacked, running, written, luck)
      ensures TurnsOut(old(folders), outcome, worlds, unpacked, running, written, luck, refuses, old(renames))
      ensures EndsWell(stop, folders, outcome, worlds, unpacked)
      ensures outcome == Done ==> Cleared(folders, Replaced)
      ensures AllSafe(old(folders), stop, trace, worlds, unpacked, running ==> luck.answers)
      ensures FlaggedFirst(old(folders), stop, trace)
      ensures forall i :: 0 <= i < |trace| ==> trace[i].archived == archived
      ensures archived
              == if luck.usable && worlds != [] && luck.backedUp then Some(LiveWorlds(old(folders))) else None
      ensures archived == None ==> folders == old(folders) && trace == []
      ensures maintenance || LiveSame(old(folders), folders) || LiveSame(stop, folders)
      ensures maintenance <==> old(maintenance) || ComesToStop(worlds, unpacked, luck)
    {
      stop := folders;
      UntouchedKept(folders, folders);
      if !luck.usable || worlds == [] || !luck.backedUp {
        return Failed(Untouched), stop;
      }
      archived := Some(LiveWorlds(folders));
      outcome, stop := UnpackAndSwap(worlds, unpacked, running, written, luck);
    }

    /**
     The whole restore of a backup that lists `worlds` and unpacks to `unpacked`; a
     running server makes its live worlds `written` before it stops. `stop` is the disk of
     before, with what the server wrote if the restore has come to stopping it.
     */
    method Restore(worlds: seq<World>, unpacked: map<World, Tree>, running: bool, written: map<World, Option<Tree>>,
                   luck: Luck)
        returns (outcome: Outcome, ghost stop: Folders)
      requires Distinct(worlds)
      requires AllSeparate(folders) && AllSeparate(Staged(folders, unpacked))
      requires AllSeparate(Overwritten(Staged(folders, unpacked), written))
      requires archived == None && trace == []
      modifies this
      ensures stop == StopOf(old(folders), worlds, unpacked, running, written, luck)
      ensures TurnsOut(old(folders), outcome, worlds, unpacked, running, written, luck, refuses, old(renames))
      ensures EndsWell(stop, folders, outcome, worlds, unpacked)
      ensures (outcome == Done ==> Cleared(folders, Replaced)) && Cleared(folders, Staging)
      ensures AllSafe(old(folders), stop, trace, worlds, unpacked, running ==> luck.answers)
      ensures ArchivedFirst(old(folders), trace) && FlaggedFirst(old(folders), stop, trace)
      ensures archived
              == if luck.usable && worlds != [] && luck.backedUp then Some(LiveWorlds(old(folders))) else None
      ensures maintenance == old(maintenance)
    {
      ghost var f0 := folders;
      var flagged := maintenance;
      outcome, stop := RestoreWorlds(worlds, unpacked, running, written, luck);
      RemoveStaging(outcome, worlds, unpacked, f0, stop, running ==> luck.answers);
      if !flagged {
        maintenance := false;
      }
    }
  }

  /** What a finished rollback shows of the live worlds. */
  lemma UndoneLive(f0: Folders, g: Folders, f: Folders, worlds: seq<World>, moved: seq<World>, k: nat, half: bool)
    requires Swapping(f0, g, worlds, k, half) && MovedAre(f0, worlds, k, half, moved)
    requires Returning(f0, g, f, worlds, moved, |worlds|)
    ensures LiveBack(f0, f)
    ensures LiveSame(f0, f) <==> forall i :: 0 <= i < k ==> At(f0, worlds[i]).live.Some?
  {
    assert worlds[..|worlds|] == worlds;
    forall w
      ensures w in worlds[..k] && At(f0, w).live.None? ==> At(f, w).live.Some?
      ensures !(w in worlds[..k] && At(f0, w).live.None?) ==> At(f, w).live == At(f0, w).live
    {
      assert w in moved ==> w in worlds;
    }
    forall i | 0 <= i < k
      ensures worlds[i] in worlds[..k]
    {
      assert worlds[..k][i] == worlds[i];
    }
  }

  function LiveAmong(f: Folders, worlds: seq<World>): seq<World> {
    if worlds == [] then []
    else LiveAmong(f, worlds[..|worlds| - 1])
         + if At(f, worlds[|worlds| - 1]).live.Some? then [worlds[|worlds| - 1]] else []
  }

  lemma {:induction false} LiveAmongIs(f: Folders, worlds: seq<World>)
    ensures forall w :: w in LiveAmong(f, worlds) <==> w in worlds && At(f, w).live.Some?
  {
    if worlds != [] {
      LiveAmongIs(f, worlds[..|worlds| - 1]);
      assert worlds == worlds[..|worlds| - 1] + [worlds[|worlds| - 1]];
    }
  }

  /** The swap that fails at its last world, rolled back. */
  lemma LastSwapUndone(f0: Folders, worlds: seq<World>) returns (f: Folders)
    requires Distinct(worlds) && worlds != [] && forall w :: w in worlds ==> At(f0, w).staging.Some?
    ensures UndoneEnd(f0, f, worlds)
    ensures LiveSame(f0, f) <==> forall i :: 0 <= i < |worlds| - 1 ==> At(f0, worlds[i]).live.Some?
  {
    var k := |worlds| - 1;
    var before := worlds[..k];
    var moved := LiveAmong(f0, before);
    LiveAmongIs(f0, before);
    var all := f0.Keys + set w | w in worlds;
    var g: Folders := map w | w in all :: if w in before then Swapped(At(f0, w)) else At(f0, w);
    f := map w | w in all :: if w in moved then At(f0, w).(replaced := None) else g[w];
    assert Swapping(f0, g, worlds, k, false);
    assert MovedAre(f0, worlds, k, false, moved);
    assert worlds[..|worlds|] == worlds;
    assert Returning(f0, g, f, worlds, moved, |worlds|);
    UndoneLive(f0, g, f, worlds, moved, k, false);
  }

  /**
   What can be told before the swap: every way it can be undone shows the live worlds
   of before if and only if all listed worlds but the last have a live folder.
   */
  lemma EveryUndoneIsSameIff(f0: Folders, worlds: seq<World>)
    requires Distinct(worlds) && worlds != [] && forall w :: w in worlds ==> At(f0, w).staging.Some?
    ensures (forall f :: UndoneEnd(f0, f, worlds) ==> LiveSame(f0, f))
            <==> forall i :: 0 <= i < |worlds| - 1 ==> At(f0, worlds[i]).live.Some?
  {
    if forall i :: 0 <= i < |worlds| - 1 ==> At(f0, worlds[i]).live.Some? {
      forall f | UndoneEnd(f0, f, worlds)
        ensures LiveSame(f0, f)
      {
        var g, k: nat, half, moved :|
          k < |worlds| && Swapping(f0, g, worlds, k, half) && MovedAre(f0, worlds, k, half, moved)
          && Returning(f0, g, f, worlds, moved, |worlds|);
        UndoneLive(f0, g, f, worlds, moved, k, half);
      }
    } else {
      var f := LastSwapUndone(f0, worlds);
    }
  }
}
