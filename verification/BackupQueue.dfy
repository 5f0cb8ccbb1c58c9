/**
 The backup worker's queue (apps/worker/backups.py): what one run does with restores,
 restarts and backups that wait, and with the schedule that adds more on the way.
 The clock stands still during a run.
 */
module BackupQueue {
  import opened Wrappers

  type Server = string

  const HOUR := 3600

  datatype Status = Pending | Running | Done | Failed

  datatype Kind = Manual | Scheduled | PreRestore

  datatype Backup = Backup(server: Server, kind: Kind, status: Status, created: int)

  /** A restore or a restart asked for. */
  datatype Job = Job(server: Server, status: Status, created: int)

  /** The backup settings of one server. */
  datatype Plan = Plan(enabled: bool, everyHours: int)

  /**
   What does not change during a run: the time, the servers, whose scheduled backups
   always fail, and whose may fail or succeed each time anew.
   */
  datatype Setting = Setting(
    now: int,
    servers: seq<Server>,
    plans: map<Server, Plan>,
    failing: set<Server>,
    shaky: set<Server>)

  /** The scheduled backups of the server all succeed. */
  predicate Sound(c: Setting, s: Server) {
    s !in c.failing && s !in c.shaky
  }

  /** A scheduled backup of the server may end so. */
  predicate MayEnd(c: Setting, s: Server, ok: bool) {
    if ok then s !in c.failing else !Sound(c, s)
  }

  /** How one thing ends, where that is open, and how the backup made before a restore ended, if one was. */
  datatype Fate = Fate(ok: bool, made: Option<bool>)

  function Ending(ok: bool): Status {
    if ok then Done else Failed
  }

  datatype Queue = Queue(restores: seq<Job>, restarts: seq<Job>, backups: seq<Backup>)

  predicate Enabled(c: Setting, s: Server) {
    s in c.servers && s in c.plans && c.plans[s].enabled
  }

  // ----- the schedule -----

  /** The row is a scheduled backup of `s` that counts and is not older than the interval. */
  predicate Fresh(c: Setting, b: Backup, s: Server)
    requires s in c.plans
  {
    && b.server == s && b.kind.Scheduled? && !b.status.Failed?
    && c.now - b.created < c.plans[s].everyHours * HOUR
  }

  predicate Due(c: Setting, bs: seq<Backup>, s: Server) {
    Enabled(c, s) && forall i :: 0 <= i < |bs| ==> !Fresh(c, bs[i], s)
  }

  function NewBackup(c: Setting, s: Server): Backup {
    Backup(s, Scheduled, Pending, c.now)
  }

  /** The backups after the schedule went over the first `k` servers. */
  function ScheduledFor(c: Setting, bs: seq<Backup>, k: nat): seq<Backup>
    requires k <= |c.servers|
  {
    if k == 0 then bs
    else
      var before := ScheduledFor(c, bs, k - 1);
      if Due(c, before, c.servers[k - 1]) then before + [NewBackup(c, c.servers[k - 1])] else before
  }

  function ScheduleDue(c: Setting, q: Queue): Queue {
    q.(backups := ScheduledFor(c, q.backups, |c.servers|))
  }

  // ----- one thing done -----

  ghost predicate OldestJob(js: seq<Job>, i: nat) {
    && i < |js| && js[i].status.Pending?
    && forall j :: 0 <= j < |js| && js[j].status.Pending? ==> js[i].created <= js[j].created
  }

  ghost predicate OldestBackup(bs: seq<Backup>, i: nat) {
    && i < |bs| && bs[i].status.Pending?
    && forall j :: 0 <= j < |bs| && bs[j].status.Pending? ==> bs[i].created <= bs[j].created
  }

  predicate NoneWaiting(js: seq<Job>) {
    forall i :: 0 <= i < |js| ==> !js[i].status.Pending?
  }

  predicate NoBackupWaiting(bs: seq<Backup>) {
    forall i :: 0 <= i < |bs| ==> !bs[i].status.Pending?
  }

  predicate Idle(q: Queue) {
    NoneWaiting(q.restores) && NoneWaiting(q.restarts) && NoBackupWaiting(q.backups)
  }

  /** A restore ends one way or the other, and may have made a backup before it. */
  ghost predicate RestoreDone(q: Queue, q': Queue, i: nat, ok: bool, pre: seq<Backup>) {
    && OldestJob(q.restores, i)
    && |pre| <= 1
    && (forall b :: b in pre ==>
          b.server == q.restores[i].server && b.kind.PreRestore? && (b.status.Done? || b.status.Failed?))
    && q' == q.(restores := q.restores[i := q.restores[i].(status := Ending(ok))],
          backups := q.backups + pre)
  }

  ghost predicate RestartDone(q: Queue, q': Queue, i: nat, ok: bool) {
    && NoneWaiting(q.restores) && OldestJob(q.restarts, i)
    && q' == q.(restarts := q.restarts[i := q.restarts[i].(status := Ending(ok))])
  }

  ghost predicate BackupDone(c: Setting, q: Queue, q': Queue, i: nat, ok: bool) {
    && NoneWaiting(q.restores) && NoneWaiting(q.restarts) && OldestBackup(q.backups, i)
    && (q.backups[i].kind.Scheduled? ==> MayEnd(c, q.backups[i].server, ok))
    && q' == q.(backups := q.backups[i := q.backups[i].(status := Ending(ok))])
  }

  /** `run_once` did one thing. */
  ghost predicate Did(c: Setting, q: Queue, q': Queue) {
    || (exists i, ok, pre :: RestoreDone(q, q', i, ok, pre))
    || (exists i, ok :: RestartDone(q, q', i, ok))
    || (exists i, ok :: BackupDone(c, q, q', i, ok))
  }

  /** The states of the drain loop, each one turn after the one before. */
  ghost predicate DrainRun(c: Setting, q: Queue, qs: seq<Queue>) {
    && |qs| > 0 && qs[0] == ScheduleDue(c, q)
    && forall n :: 0 <= n < |qs| - 1 ==> Turn(c, qs[n], qs[n + 1])
  }

  ghost predicate Turn(c: Setting, q: Queue, q': Queue) {
    exists mid :: Did(c, q, mid) && q' == ScheduleDue(c, mid)
  }

  // ----- when it ends -----

  ghost predicate DrainsWithin(c: Setting, q: Queue, bound: nat) {
    forall qs :: DrainRun(c, q, qs) ==> |qs| <= bound
  }

  /** A server that can keep the loop going: its schedule asks for a backup that need never be made. */
  ghost predicate Stuck(c: Setting, bs: seq<Backup>, s: Server) {
    && Enabled(c, s)
    && (c.plans[s].everyHours <= 0 || !Sound(c, s))
    && forall i :: 0 <= i < |bs| && !bs[i].status.Pending? ==> !Fresh(c, bs[i], s)
  }

  /** The schedule asks nothing more of `s`: a backup of it counts and will go on counting. */
  ghost predicate Settled(c: Setting, bs: seq<Backup>, s: Server)
    requires s in c.plans
  {
    exists i :: 0 <= i < |bs| && Fresh(c, bs[i], s) && (bs[i].status.Pending? ==> Sound(c, s))
  }

  ghost predicate AllSettled(c: Setting, bs: seq<Backup>) {
    forall s :: Enabled(c, s) ==> Settled(c, bs, s)
  }

  ghost predicate Past(c: Setting, bs: seq<Backup>) {
    forall i :: 0 <= i < |bs| ==> bs[i].created <= c.now
  }

  function WaitingJobs(js: seq<Job>): nat {
    if js == [] then 0 else WaitingJobs(js[..|js| - 1]) + if js[|js| - 1].status.Pending? then 1 else 0
  }

  function WaitingBackups(bs: seq<Backup>): nat {
    if bs == [] then 0 else WaitingBackups(bs[..|bs| - 1]) + if bs[|bs| - 1].status.Pending? then 1 else 0
  }

  /** How many turns are left once the schedule is settled. */
  function Waiting(q: Queue): nat {
    WaitingJobs(q.restores) + WaitingJobs(q.restarts) + WaitingBackups(q.backups)
  }

  lemma {:induction false} JobAnswered(js: seq<Job>, i: nat, st: Status)
    requires i < |js| && js[i].status.Pending? && !st.Pending?
    ensures WaitingJobs(js[i := js[i].(status := st)]) == WaitingJobs(js) - 1
  {
    var js' := js[i := js[i].(status := st)];
    var n := |js| - 1;
    if i == n {
      assert js'[..n] == js[..n];
    } else {
      assert js'[..n] == js[..n][i := js[i].(status := st)];
      JobAnswered(js[..n], i, st);
    }
  }

  lemma {:induction false} BackupAnswered(bs: seq<Backup>, i: nat, st: Status)
    requires i < |bs| && bs[i].status.Pending? && !st.Pending?
    ensures WaitingBackups(bs[i := bs[i].(status := st)]) == WaitingBackups(bs) - 1
  {
    var bs' := bs[i := bs[i].(status := st)];
    var n := |bs| - 1;
    if i == n {
      assert bs'[..n] == bs[..n];
    } else {
      assert bs'[..n] == bs[..n][i := bs[i].(status := st)];
      BackupAnswered(bs[..n], i, st);
    }
  }

  lemma {:induction false} AnsweredRows(a: seq<Backup>, b: seq<Backup>)
    requires forall i :: 0 <= i < |b| ==> !b[i].status.Pending?
    ensures WaitingBackups(a + b) == WaitingBackups(a)
  {
    if b == [] {
      assert a + b == a;
    } else {
      assert (a + b)[..|a + b| - 1] == a + b[..|b| - 1];
      AnsweredRows(a, b[..|b| - 1]);
    }
  }

  lemma DidOneLess(c: Setting, q: Queue, q': Queue)
    requires Did(c, q, q')
    ensures Waiting(q') == Waiting(q) - 1
  {
    if i, ok, pre :| RestoreDone(q, q', i, ok, pre) {
      JobAnswered(q.restores, i, Ending(ok));
      AnsweredRows(q.backups, pre);
    } else if i, ok :| RestartDone(q, q', i, ok) {
      JobAnswered(q.restarts, i, Ending(ok));
    } else {
      var i, ok :| BackupDone(c, q, q', i, ok);
      BackupAnswered(q.backups, i, Ending(ok));
    }
  }

  /** `b'` is the row `b` once its backup ended; a scheduled one ends as its server allows. */
  predicate Ended(c: Setting, b: Backup, b': Backup) {
    && b' == b.(status := b'.status)
    && (b'.status.Done? || b'.status.Failed?)
    && (b.kind.Scheduled? ==> MayEnd(c, b.server, b'.status.Done?))
  }

  /** What one thing done can change of a backup row: only a pending one, and a scheduled one as its server allows. */
  lemma DidRows(c: Setting, q: Queue, q': Queue)
    requires Did(c, q, q')
    ensures |q.backups| <= |q'.backups|
    ensures forall i :: 0 <= i < |q.backups| ==>
              || q'.backups[i] == q.backups[i]
              || (q.backups[i].status.Pending? && Ended(c, q.backups[i], q'.backups[i]))
    ensures forall i :: |q.backups| <= i < |q'.backups| ==> q'.backups[i].kind.PreRestore?
  {
    if i, ok, pre :| RestoreDone(q, q', i, ok, pre) {
      forall j | |q.backups| <= j < |q'.backups|
        ensures q'.backups[j].kind.PreRestore?
      {
        assert q'.backups[j] in pre;
      }
    } else if i, ok :| RestartDone(q, q', i, ok) {
    } else {
      var i, ok :| BackupDone(c, q, q', i, ok);
    }
  }

  /**
   In what order things are done: restores before restarts before backups, and the oldest
   of them first. Only a row that waited changes, and it is done or failed afterwards.
   */
  lemma DidInOrder(c: Setting, q: Queue, q': Queue)
    requires Did(c, q, q')
    ensures |q'.restores| == |q.restores| && |q'.restarts| == |q.restarts| && |q'.backups| >= |q.backups|
    ensures forall i :: 0 <= i < |q.restores| && q'.restores[i] != q.restores[i] ==>
              && q.restores[i].status == Pending && q'.restores[i].status in {Done, Failed}
              && forall j :: 0 <= j < |q.restores| && q.restores[j].status == Pending ==>
                   q.restores[i].created <= q.restores[j].created
    ensures forall i :: 0 <= i < |q.restarts| && q'.restarts[i] != q.restarts[i] ==>
              && q.restarts[i].status == Pending && q'.restarts[i].status in {Done, Failed}
              && (forall j :: j in q.restores ==> j.status != Pending)
              && forall j :: 0 <= j < |q.restarts| && q.restarts[j].status == Pending ==>
                   q.restarts[i].created <= q.restarts[j].created
    ensures forall i :: 0 <= i < |q.backups| && q'.backups[i] != q.backups[i] ==>
              && q.backups[i].status == Pending && q'.backups[i].status in {Done, Failed}
              && (forall j :: j in q.restores ==> j.status != Pending)
              && (forall j :: j in q.restarts ==> j.status != Pending)
              && forall j :: 0 <= j < |q.backups| && q.backups[j].status == Pending ==>
                   q.backups[i].created <= q.backups[j].created
  {
    if i, ok, pre :| RestoreDone(q, q', i, ok, pre) {
    } else if i, ok :| RestartDone(q, q', i, ok) {
    } else {
      var i, ok :| BackupDone(c, q, q', i, ok);
    }
  }

  // ----- what the schedule adds -----

  /**
   The settings ask for a scheduled backup of `s` now: the schedule is on, and every one
   that did not fail was asked for at least the interval ago.
   */
  predicate Asked(c: Setting, bs: seq<Backup>, s: Server) {
    && s in c.plans && c.plans[s].enabled
    && forall b :: b in bs && b.server == s && b.kind == Scheduled && b.status != Failed ==>
         c.now - b.created >= c.plans[s].everyHours * 3600
  }

  lemma DueIsAsked(c: Setting, bs: seq<Backup>, s: Server)
    ensures Due(c, bs, s) <==> s in c.servers && Asked(c, bs, s)
  {
    if Enabled(c, s) {
      forall b | b in bs && forall i :: 0 <= i < |bs| ==> !Fresh(c, bs[i], s)
        ensures !Fresh(c, b, s)
      {
      }
    }
  }

  predicate AllDistinct(ss: seq<Server>) {
    forall i, j :: 0 <= i < j < |ss| ==> ss[i] != ss[j]
  }

  /** What a row of another server does not change. */
  lemma AskedDespite(c: Setting, bs: seq<Backup>, b: Backup, s: Server)
    requires b.server != s
    ensures Asked(c, bs + [b], s) <==> Asked(c, bs, s)
  {
    forall x | x in bs
      ensures x in bs + [b]
    {
    }
  }

  /** A pass over the servers of `done` added exactly the rows asked for. */
  ghost predicate Added(c: Setting, bs: seq<Backup>, after: seq<Backup>, done: seq<Server>) {
    && bs <= after
    && (forall i :: |bs| <= i < |after| ==> after[i] == Backup(after[i].server, Scheduled, Pending, c.now))
    && (forall i, j :: |bs| <= i < j < |after| ==> after[i].server != after[j].server)
    && (forall s :: (exists i :: |bs| <= i < |after| && after[i].server == s) <==> s in done && Asked(c, bs, s))
  }

  lemma {:induction false} StillAsked(c: Setting, bs: seq<Backup>, after: seq<Backup>, s: Server)
    requires bs <= after && forall i :: |bs| <= i < |after| ==> after[i].server != s
    ensures Asked(c, after, s) <==> Asked(c, bs, s)
  {
    if |after| > |bs| {
      var front := after[..|after| - 1];
      StillAsked(c, bs, front, s);
      assert after == front + [after[|after| - 1]];
      AskedDespite(c, front, after[|after| - 1], s);
    } else {
      assert after == bs;
    }
  }

  lemma AddsOne(c: Setting, bs: seq<Backup>, before: seq<Backup>, done: seq<Server>, s: Server)
    requires Added(c, bs, before, done) && s !in done && Asked(c, bs, s)
    ensures Added(c, bs, before + [Backup(s, Scheduled, Pending, c.now)], done + [s])
  {
    var after := before + [Backup(s, Scheduled, Pending, c.now)];
    assert forall i :: |bs| <= i < |before| ==> before[i].server in done;
    forall x
      ensures (exists i :: |bs| <= i < |after| && after[i].server == x) <==> x in done + [s] && Asked(c, bs, x)
    {
      if x == s {
        assert after[|before|].server == x;
      } else if x in done && Asked(c, bs, x) {
        var i :| |bs| <= i < |before| && before[i].server == x;
        assert after[i].server == x;
      }
    }
  }

  lemma {:induction false} ScheduleAddsUpTo(c: Setting, bs: seq<Backup>, k: nat)
    requires k <= |c.servers| && AllDistinct(c.servers)
    ensures Added(c, bs, ScheduledFor(c, bs, k), c.servers[..k])
  {
    if k > 0 {
      var before, s := ScheduledFor(c, bs, k - 1), c.servers[k - 1];
      ScheduleAddsUpTo(c, bs, k - 1);
      assert c.servers[..k] == c.servers[..k - 1] + [s];
      assert Added(c, bs, before, c.servers[..k - 1]);
      forall i | |bs| <= i < |before|
        ensures before[i].server != s
      {
        assert before[i].server in c.servers[..k - 1];
      }
      StillAsked(c, bs, before, s);
      DueIsAsked(c, before, s);
      if Asked(c, bs, s) {
        AddsOne(c, bs, before, c.servers[..k - 1], s);
      }
    }
  }

  /**
   What a pass of the schedule adds: one row for each server whose schedule is on and whose
   scheduled backups that did not fail are all as old as the interval, pending and of now;
   none for another server, and nothing else changes.
   */
  lemma ScheduleAdds(c: Setting, q: Queue)
    requires AllDistinct(c.servers)
    ensures ScheduleDue(c, q).restores == q.restores && ScheduleDue(c, q).restarts == q.restarts
    ensures Added(c, q.backups, ScheduleDue(c, q).backups, c.servers)
  {
    ScheduleAddsUpTo(c, q.backups, |c.servers|);
    assert c.servers[..|c.servers|] == c.servers;
  }

  /** Nothing was scheduled for `s`: old rows are the same backups, and no new one is a scheduled one of it. */
  ghost predicate NoneScheduled(a: seq<Backup>, b: seq<Backup>, s: Server) {
    && |a| <= |b|
    && (forall i :: 0 <= i < |a| ==> b[i] == a[i].(status := b[i].status))
    && (forall i :: |a| <= i < |b| && b[i].server == s ==> b[i].kind == PreRestore)
  }

  predicate SwitchedOff(c: Setting, s: Server) {
    s !in c.servers || s !in c.plans || !c.plans[s].enabled
  }

  lemma {:induction false} PassSkips(c: Setting, bs: seq<Backup>, k: nat, s: Server)
    requires k <= |c.servers| && SwitchedOff(c, s)
    ensures NoneScheduled(bs, ScheduledFor(c, bs, k), s)
  {
    if k > 0 {
      PassSkips(c, bs, k - 1, s);
    }
  }

  lemma TurnSkips(c: Setting, q: Queue, q': Queue, s: Server)
    requires Turn(c, q, q') && SwitchedOff(c, s)
    ensures NoneScheduled(q.backups, q'.backups, s)
  {
    var mid :| Did(c, q, mid) && q' == ScheduleDue(c, mid);
    DidRows(c, q, mid);
    PassSkips(c, mid.backups, |c.servers|, s);
  }

  /** A server whose schedule is off gets no scheduled backup in any drain. */
  lemma {:induction false} SwitchedOffIsLeft(c: Setting, q: Queue, qs: seq<Queue>, s: Server, n: nat)
    requires DrainRun(c, q, qs) && n < |qs| && SwitchedOff(c, s)
    ensures NoneScheduled(q.backups, qs[n].backups, s)
  {
    if n == 0 {
      PassSkips(c, q.backups, |c.servers|, s);
    } else {
      SwitchedOffIsLeft(c, q, qs, s, n - 1);
      TurnSkips(c, qs[n - 1], qs[n], s);
    }
  }

  lemma {:induction false} SettledNeedsNothing(c: Setting, bs: seq<Backup>, k: nat)
    requires k <= |c.servers| && AllSettled(c, bs)
    ensures ScheduledFor(c, bs, k) == bs
  {
    if k > 0 {
      SettledNeedsNothing(c, bs, k - 1);
      var s := c.servers[k - 1];
      assert Enabled(c, s) ==> Settled(c, bs, s);
    }
  }

  lemma DidKeepsSettled(c: Setting, q: Queue, q': Queue)
    requires Did(c, q, q') && AllSettled(c, q.backups)
    ensures AllSettled(c, q'.backups)
  {
    DidRows(c, q, q');
    forall s | Enabled(c, s)
      ensures Settled(c, q'.backups, s)
    {
      var i :| 0 <= i < |q.backups| && Fresh(c, q.backups[i], s) && (q.backups[i].status.Pending? ==> Sound(c, s));
      assert Fresh(c, q'.backups[i], s);
    }
  }

  /** The rows the schedule adds, one server after the other. */
  lemma {:induction false} ScheduledRows(c: Setting, bs: seq<Backup>, k: nat)
    requires k <= |c.servers|
    ensures bs <= ScheduledFor(c, bs, k)
    ensures forall i :: |bs| <= i < |ScheduledFor(c, bs, k)| ==>
            ScheduledFor(c, bs, k)[i] == NewBackup(c, ScheduledFor(c, bs, k)[i].server)
    ensures forall j :: 0 <= j < k && Enabled(c, c.servers[j]) ==>
              exists i :: 0 <= i < |ScheduledFor(c, bs, k)|
                          && (Fresh(c, ScheduledFor(c, bs, k)[i], c.servers[j])
                                || ScheduledFor(c, bs, k)[i] == NewBackup(c, c.servers[j]))
  {
    if k > 0 {
      ScheduledRows(c, bs, k - 1);
      var before, after, s := ScheduledFor(c, bs, k - 1), ScheduledFor(c, bs, k), c.servers[k - 1];
      forall j | 0 <= j < k && Enabled(c, c.servers[j])
        ensures exists i :: 0 <= i < |after|
                            && (Fresh(c, after[i], c.servers[j]) || after[i] == NewBackup(c, c.servers[j]))
      {
        if j < k - 1 {
          var i :| 0 <= i < |before| && (Fresh(c, before[i], c.servers[j]) || before[i] == NewBackup(c, c.servers[j]));
          assert after[i] == before[i];
        } else if Due(c, before, s) {
          assert after[|before|] == NewBackup(c, s);
        }
      }
    }
  }

  /** With no stuck server one pass of the schedule settles everything. */
  lemma ScheduleSettles(c: Setting, q: Queue)
    requires forall s :: !Stuck(c, q.backups, s)
    ensures AllSettled(c, ScheduleDue(c, q).backups)
  {
    var bs, after := q.backups, ScheduleDue(c, q).backups;
    ScheduledRows(c, bs, |c.servers|);
    forall s | Enabled(c, s)
      ensures Settled(c, after, s)
    {
      if c.plans[s].everyHours <= 0 || !Sound(c, s) {
        assert !Stuck(c, bs, s);
        var i :| 0 <= i < |bs| && !bs[i].status.Pending? && Fresh(c, bs[i], s);
        assert after[i] == bs[i];
      } else {
        var j :| 0 <= j < |c.servers| && c.servers[j] == s;
        assert Enabled(c, c.servers[j]);
        var i :| 0 <= i < |after| && (Fresh(c, after[i], s) || after[i] == NewBackup(c, s));
        assert Fresh(c, after[i], s);
      }
    }
  }

  /**
   A drain with no stuck server does one thing a turn and ends when the jobs waiting after
   the first schedule pass are done.
   */
  lemma {:induction false} SettledRunIsShort(c: Setting, q: Queue, qs: seq<Queue>, n: nat)
    requires (forall s :: !Stuck(c, q.backups, s)) && DrainRun(c, q, qs) && n < |qs|
    ensures AllSettled(c, qs[n].backups) && Waiting(qs[n]) == Waiting(qs[0]) - n
  {
    if n == 0 {
      ScheduleSettles(c, q);
    } else {
      SettledRunIsShort(c, q, qs, n - 1);
      assert Turn(c, qs[n - 1], qs[n]);
      var mid :| Did(c, qs[n - 1], mid) && qs[n] == ScheduleDue(c, mid);
      DidOneLess(c, qs[n - 1], mid);
      DidKeepsSettled(c, qs[n - 1], mid);
      SettledNeedsNothing(c, mid.backups, |c.servers|);
    }
  }

  /** A stuck server stays stuck and always has a backup waiting after the schedule. */
  lemma StuckStays(c: Setting, q: Queue, s: Server)
    requires Stuck(c, q.backups, s) && Past(c, q.backups)
    ensures var q' := ScheduleDue(c, q);
            Stuck(c, q'.backups, s) && Past(c, q'.backups) && !Idle(q')
  {
    var bs, after := q.backups, ScheduleDue(c, q).backups;
    ScheduledRows(c, bs, |c.servers|);
    forall i | 0 <= i < |after|
      ensures after[i].created <= c.now && (!after[i].status.Pending? ==> !Fresh(c, after[i], s))
    {
      assert i < |bs| ==> after[i] == bs[i];
    }
    var j :| 0 <= j < |c.servers| && c.servers[j] == s;
    assert Enabled(c, c.servers[j]);
    var i :| 0 <= i < |after| && (Fresh(c, after[i], s) || after[i] == NewBackup(c, s));
    assert after[i].status.Pending?;
  }

  /** What was done is no successful scheduled backup of `s`, or one that does not count. */
  ghost predicate LeavesUnmade(c: Setting, q: Queue, q': Queue, s: Server) {
    || (s in c.plans && c.plans[s].everyHours <= 0)
    || forall i :: 0 <= i < |q.backups| <= |q'.backups| && WaitsFor(q.backups[i], s) ==>
         q'.backups[i].status.Pending? || q'.backups[i].status.Failed?
  }

  predicate WaitsFor(b: Backup, s: Server) {
    b.server == s && b.kind.Scheduled? && b.status.Pending?
  }

  lemma DidKeepsStuck(c: Setting, q: Queue, q': Queue, s: Server)
    requires Did(c, q, q') && Stuck(c, q.backups, s) && Past(c, q.backups) && LeavesUnmade(c, q, q', s)
    requires forall i :: |q.backups| <= i < |q'.backups| ==> q'.backups[i].created <= c.now
    ensures Stuck(c, q'.backups, s) && Past(c, q'.backups)
  {
    DidRows(c, q, q');
  }

  /** Something can be done whenever something waits, and it can leave a stuck server as it is. */
  lemma SomethingToDo(c: Setting, q: Queue, s: Server) returns (q': Queue)
    requires !Idle(q) && Stuck(c, q.backups, s)
    ensures Did(c, q, q') && |q'.backups| == |q.backups| && LeavesUnmade(c, q, q', s)
  {
    if !NoneWaiting(q.restores) {
      var i := OldestJobExists(q.restores);
      q' := q.(restores := q.restores[i := q.restores[i].(status := Done)]);
      assert q.backups + [] == q.backups;
      assert RestoreDone(q, q', i, true, []);
    } else if !NoneWaiting(q.restarts) {
      var i := OldestJobExists(q.restarts);
      q' := q.(restarts := q.restarts[i := q.restarts[i].(status := Done)]);
      assert RestartDone(q, q', i, true);
    } else {
      var i := OldestBackupExists(q.backups);
      var ok := Sound(c, q.backups[i].server);
      q' := q.(backups := q.backups[i := q.backups[i].(status := Ending(ok))]);
      assert BackupDone(c, q, q', i, ok);
    }
  }

  lemma {:induction false} OldestJobExists(js: seq<Job>) returns (i: nat)
    requires !NoneWaiting(js)
    ensures OldestJob(js, i)
    decreases |js|
  {
    var n := |js| - 1;
    if NoneWaiting(js[..n]) {
      i := n;
    } else {
      i := OldestJobExists(js[..n]);
      assert forall j :: 0 <= j < n ==> js[..n][j] == js[j];
      if js[n].status.Pending? && js[n].created < js[i].created {
        i := n;
      }
    }
  }

  lemma {:induction false} OldestBackupExists(bs: seq<Backup>) returns (i: nat)
    requires !NoBackupWaiting(bs)
    ensures OldestBackup(bs, i)
    decreases |bs|
  {
    var n := |bs| - 1;
    if NoBackupWaiting(bs[..n]) {
      i := n;
    } else {
      i := OldestBackupExists(bs[..n]);
      assert forall j :: 0 <= j < n ==> bs[..n][j] == bs[j];
      if bs[n].status.Pending? && bs[n].created < bs[i].created {
        i := n;
      }
    }
  }

  /** With a stuck server there is a drain of every length. */
  lemma {:induction false} StuckRuns(c: Setting, q: Queue, s: Server, n: nat) returns (qs: seq<Queue>)
    requires Stuck(c, q.backups, s) && Past(c, q.backups)
    ensures DrainRun(c, q, qs) && |qs| == n + 1
    ensures Stuck(c, qs[n].backups, s) && Past(c, qs[n].backups) && !Idle(qs[n])
  {
    if n == 0 {
      StuckStays(c, q, s);
      qs := [ScheduleDue(c, q)];
    } else {
      var before := StuckRuns(c, q, s, n - 1);
      var mid := SomethingToDo(c, before[n - 1], s);
      DidKeepsStuck(c, before[n - 1], mid, s);
      StuckStays(c, mid, s);
      qs := before + [ScheduleDue(c, mid)];
      assert Turn(c, qs[n - 1], qs[n]);
      forall m | 0 <= m < |qs| - 1
        ensures Turn(c, qs[m], qs[m + 1])
      {
        if m < n - 1 {
          assert Turn(c, before[m], before[m + 1]);
        }
      }
    }
  }

  /**
   The drain loop is sure to end exactly when no server is stuck: none with the
   schedule on lacks a recent backup that counts while its interval is not positive
   or its scheduled backups may fail.
   */
  lemma DrainEndsIff(c: Setting, q: Queue)
    requires Past(c, q.backups)
    ensures (exists bound: nat :: DrainsWithin(c, q, bound)) <==> forall s :: !Stuck(c, q.backups, s)
  {
    if forall s :: !Stuck(c, q.backups, s) {
      var bound := Waiting(ScheduleDue(c, q)) + 1;
      forall qs | DrainRun(c, q, qs)
        ensures |qs| <= bound
      {
        SettledRunIsShort(c, q, qs, |qs| - 1);
      }
      assert DrainsWithin(c, q, bound);
    } else {
      var s :| Stuck(c, q.backups, s);
      forall bound: nat
        ensures !DrainsWithin(c, q, bound)
      {
        var qs := StuckRuns(c, q, s, bound);
      }
    }
  }

  /** With a server that is stuck for good, no drain ever comes to rest. */
  lemma {:induction false} StuckNeverRests(c: Setting, q: Queue, s: Server, qs: seq<Queue>, n: nat)
    requires s in c.plans && (c.plans[s].everyHours <= 0 || s in c.failing)
    requires Stuck(c, q.backups, s) && Past(c, q.backups) && DrainRun(c, q, qs) && n < |qs|
    requires forall m, i :: 0 <= m < |qs| && 0 <= i < |qs[m].backups| ==> qs[m].backups[i].created <= c.now
    ensures Stuck(c, qs[n].backups, s) && !Idle(qs[n])
  {
    if n == 0 {
      StuckStays(c, q, s);
    } else {
      StuckNeverRests(c, q, s, qs, n - 1);
      assert Turn(c, qs[n - 1], qs[n]);
      var mid :| Did(c, qs[n - 1], mid) && qs[n] == ScheduleDue(c, mid);
      ScheduledRows(c, mid.backups, |c.servers|);
      forall i | |qs[n - 1].backups| <= i < |mid.backups|
        ensures mid.backups[i].created <= c.now
      {
        assert qs[n].backups[i] == mid.backups[i];
      }
      DidRows(c, qs[n - 1], mid);
      DidKeepsStuck(c, qs[n - 1], mid, s);
      StuckStays(c, mid, s);
    }
  }

  // ----- the worker -----

  class Worker {
    const c: Setting
    var restores: seq<Job>
    var restarts: seq<Job>
    var backups: seq<Backup>

    constructor (c: Setting, q: Queue)
      ensures this.c == c && Value() == q
    {
      this.c := c;
      restores, restarts, backups := q.restores, q.restarts, q.backups;
    }

    ghost function Value(): Queue
      reads this
    {
      Queue(restores, restarts, backups)
    }

    /** When the newest scheduled backup of `s` that did not fail was asked for. */
    method LastScheduled(s: Server) returns (last: Option<int>)
      requires s in c.plans
      ensures (last == None || c.now - last.value >= c.plans[s].everyHours * HOUR)
              <==> forall i :: 0 <= i < |backups| ==> !Fresh(c, backups[i], s)
    {
      last := None;
      for k := 0 to |backups|
        invariant last.Some? ==> exists i :: 0 <= i < k && backups[i].server == s && backups[i].kind.Scheduled?
                                             && !backups[i].status.Failed? && backups[i].created == last.value
        invariant forall i ::
                    0 <= i < k && backups[i].server == s && backups[i].kind.Scheduled? && !backups[i].status.Failed?
                    ==> last.Some? && backups[i].created <= last.value
      {
        var b := backups[k];
        if b.server == s && b.kind.Scheduled? && !b.status.Failed? && (last.None? || last.value <= b.created) {
          last := Some(b.created);
        }
      }
    }

    method ScheduleAllDue()
      modifies this`backups
      ensures Value() == ScheduleDue(c, old(Value()))
    {
      for k := 0 to |c.servers|
        invariant backups == ScheduledFor(c, old(backups), k)
      {
        var s := c.servers[k];
        if s in c.plans && c.plans[s].enabled {
          var last := LastScheduled(s);
          if last.None? || c.now - last.value >= c.plans[s].everyHours * HOUR {
            backups := backups + [NewBackup(c, s)];
          }
        }
      }
    }

    method FirstJob(js: seq<Job>) returns (i: nat)
      ensures i == |js| <==> NoneWaiting(js)
      ensures i < |js| ==> OldestJob(js, i)
      ensures i <= |js|
    {
      i := |js|;
      for k := 0 to |js|
        invariant i == |js| ==> forall j :: 0 <= j < k ==> !js[j].status.Pending?
        invariant i < |js| ==> i < k && js[i].status.Pending?
        invariant i < |js| ==> forall j :: 0 <= j < k && js[j].status.Pending? ==> js[i].created <= js[j].created
        invariant i <= |js|
      {
        if js[k].status.Pending? && (i == |js| || js[k].created < js[i].created) {
          i := k;
        }
      }
    }

    method FirstBackup() returns (i: nat)
      ensures i == |backups| <==> NoBackupWaiting(backups)
      ensures i < |backups| ==> OldestBackup(backups, i)
      ensures i <= |backups|
    {
      i := |backups|;
      for k := 0 to |backups|
        invariant i == |backups| ==> forall j :: 0 <= j < k ==> !backups[j].status.Pending?
        invariant i < |backups| ==> i < k && backups[i].status.Pending?
        invariant i < |backups| ==> forall j :: 0 <= j < k && backups[j].status.Pending? ==>
                  backups[i].created <= backups[j].created
        invariant i <= |backups|
      {
        if backups[k].status.Pending? && (i == |backups| || backups[k].created < backups[i].created) {
          i := k;
        }
      }
    }

    /**
     Does one thing, if there is anything to do, and it ends as `fate` says; a scheduled
     backup that cannot end so ends the other way.
     */
    method RunOnce(fate: Fate) returns (did: bool)
      modifies this`restores, this`restarts, this`backups
      ensures did <==> !Idle(old(Value()))
      ensures did ==> Did(c, old(Value()), Value())
      ensures !did ==> Value() == old(Value())
      ensures !NoneWaiting(old(restores)) ==>
                exists i, pre :: RestoreDone(old(Value()), Value(), i, fate.ok, pre)
                                 && (fate.made.None? <==> pre == [])
                                 && forall b :: b in pre ==> (b.status == Done <==> fate.made == Some(true))
      ensures NoneWaiting(old(restores)) && !NoneWaiting(old(restarts)) ==>
                exists i :: RestartDone(old(Value()), Value(), i, fate.ok)
      ensures NoneWaiting(old(restores)) && NoneWaiting(old(restarts)) && !NoBackupWaiting(old(backups)) ==>
                exists i: nat, ok ::
                  && BackupDone(c, old(Value()), Value(), i, ok)
                  && (ok == fate.ok || old(backups)[i].kind.Scheduled?)
                  && (MayEnd(c, old(backups)[i].server, fate.ok) ==> ok == fate.ok)
    {
      var i := FirstJob(restores);
      if i < |restores| {
        var pre :=
          if fate.made.None? then [] else [Backup(restores[i].server, PreRestore, Ending(fate.made.value), c.now)];
        restores := restores[i := restores[i].(status := Ending(fate.ok))];
        backups := backups + pre;
        assert RestoreDone(old(Value()), Value(), i, fate.ok, pre);
        return true;
      }
      i := FirstJob(restarts);
      if i < |restarts| {
        restarts := restarts[i := restarts[i].(status := Ending(fate.ok))];
        assert RestartDone(old(Value()), Value(), i, fate.ok);
        return true;
      }
      i := FirstBackup();
      if i < |backups| {
        var ok := fate.ok;
        if backups[i].kind.Scheduled? && !MayEnd(c, backups[i].server, ok) {
          ok := !ok;
        }
        backups := backups[i := backups[i].(status := Ending(ok))];
        assert BackupDone(c, old(Value()), Value(), i, ok);
        return true;
      }
      did := false;
    }

    /** Jobs left running by a worker that died are failed, and no other row changes. */
    method Recover()
      modifies this`restores, this`restarts, this`backups
      ensures |restores| == |old(restores)| && |restarts| == |old(restarts)| && |backups| == |old(backups)|
      ensures forall i :: 0 <= i < |restores| ==>
                restores[i] == (var j := old(restores)[i]; if j.status == Running then j.(status := Failed) else j)
      ensures forall i :: 0 <= i < |restarts| ==>
                restarts[i] == (var j := old(restarts)[i]; if j.status == Running then j.(status := Failed) else j)
      ensures forall i :: 0 <= i < |backups| ==>
                backups[i] == (var b := old(backups)[i]; if b.status == Running then b.(status := Failed) else b)
    {
      backups := seq(|backups|, i requires 0 <= i < |backups| reads this =>
        if backups[i].status.Running? then backups[i].(status := Failed) else backups[i]);
      restarts := seq(|restarts|, i requires 0 <= i < |restarts| reads this => LeftRunning(restarts[i]));
      restores := seq(|restores|, i requires 0 <= i < |restores| reads this => LeftRunning(restores[i]));
    }

    /**
     The drain loop, for a queue it is sure to end on: at its end nothing waits and
     every server with the schedule on has a scheduled backup that is done, or still
     counted as running, and younger than its interval.
     */
    method Drain(fates: nat -> Fate)
      requires forall s :: !Stuck(c, backups, s)
      modifies this`restores, this`restarts, this`backups
      ensures Idle(Value())
      ensures forall s :: Enabled(c, s) ==>
                exists i :: 0 <= i < |backups| && Fresh(c, backups[i], s) && !backups[i].status.Pending?
    {
      ScheduleSettles(c, Value());
      ScheduleAllDue();
      ghost var q := Value();
      var turn: nat := 0;
      var did := RunOnce(fates(turn));
      if did {
        DidKeepsSettled(c, q, Value());
      }
      while did
        invariant AllSettled(c, backups)
        invariant !did ==> Idle(Value())
        decreases did, Waiting(Value())
      {
        SettledNeedsNothing(c, backups, |c.servers|);
        ScheduleAllDue();
        q := Value();
        turn := turn + 1;
        did := RunOnce(fates(turn));
        if did {
          DidKeepsSettled(c, q, Value());
          DidOneLess(c, q, Value());
        }
      }
      forall s | Enabled(c, s)
        ensures exists i :: 0 <= i < |backups| && Fresh(c, backups[i], s) && !backups[i].status.Pending?
      {
        assert Settled(c, backups, s);
      }
    }
  }

  function LeftRunning(j: Job): Job {
    if j.status.Running? then j.(status := Failed) else j
  }
}
