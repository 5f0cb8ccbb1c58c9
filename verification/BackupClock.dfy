/**
 The backup worker's loop while the clock goes on (apps/worker/backups.py:465-479 and
 563-568): every pass of the schedule has its own time, up to some last moment.
 */
module BackupClock {
  import opened Wrappers
  import opened BackupQueue

  /** The setting at another time. */
  function AtTime(c: Setting, t: int): Setting {
    c.(now := t)
  }

  /**
   The states of the drain loop from `c.now` on and no later than `last`, each with the
   time of its pass of the schedule.
   */
  ghost predicate TimedRun(c: Setting, q: Queue, last: int, qs: seq<Queue>, ts: seq<int>) {
    && |qs| == |ts| > 0
    && (forall n :: 0 <= n < |ts| ==> c.now <= ts[n] <= last)
    && (forall n :: 0 <= n < |ts| - 1 ==> ts[n] <= ts[n + 1])
    && qs[0] == ScheduleDue(AtTime(c, ts[0]), q)
    && forall n :: 0 <= n < |qs| - 1 ==> Turn(AtTime(c, ts[n + 1]), qs[n], qs[n + 1])
  }

  ghost predicate EndsWithin(c: Setting, q: Queue, last: int, bound: nat) {
    forall qs, ts :: TimedRun(c, q, last, qs, ts) ==> |qs| <= bound
  }

  ghost predicate NoneStuck(c: Setting, bs: seq<Backup>, last: int) {
    forall s :: !Stuck(AtTime(c, last), bs, s)
  }

  /** A server whose schedule is off gets no scheduled backup while the clock goes on either. */
  lemma {:induction false} SwitchedOffIsLeftBy(c: Setting, q: Queue, last: int, qs: seq<Queue>, ts: seq<int>, s: Server,
                                               n: nat)
    requires TimedRun(c, q, last, qs, ts) && n < |qs| && SwitchedOff(c, s)
    ensures NoneScheduled(q.backups, qs[n].backups, s)
  {
    if n == 0 {
      PassSkips(AtTime(c, ts[0]), q.backups, |c.servers|, s);
    } else {
      SwitchedOffIsLeftBy(c, q, last, qs, ts, s, n - 1);
      TurnSkips(AtTime(c, ts[n]), qs[n - 1], qs[n], s);
    }
  }

  // ----- how often a server can still become due -----

  /** The row is a scheduled backup of `s` that did not fail. */
  predicate Counts(b: Backup, s: Server) {
    b.server == s && b.kind.Scheduled? && !b.status.Failed?
  }

  /** When the newest one was asked for. */
  function Newest(bs: seq<Backup>, s: Server): Option<int> {
    if bs == [] then None
    else
      var before, b := Newest(bs[..|bs| - 1], s), bs[|bs| - 1];
      if Counts(b, s) && (before.None? || before.value < b.created) then Some(b.created) else before
  }

  lemma {:induction false} NewestIs(bs: seq<Backup>, s: Server)
    ensures Newest(bs, s).None? ==> forall i :: 0 <= i < |bs| ==> !Counts(bs[i], s)
    ensures Newest(bs, s).Some? ==>
              && (exists i :: 0 <= i < |bs| && Counts(bs[i], s) && bs[i].created == Newest(bs, s).value)
              && (forall i :: 0 <= i < |bs| && Counts(bs[i], s) ==> bs[i].created <= Newest(bs, s).value)
  {
    if bs != [] {
      var front, last := bs[..|bs| - 1], bs[|bs| - 1];
      NewestIs(front, s);
      if Newest(front, s).Some? {
        var i :| 0 <= i < |front| && Counts(front[i], s) && front[i].created == Newest(front, s).value;
        assert bs[i] == front[i];
      }
      assert bs[|bs| - 1] == last;
      forall i | 0 <= i < |bs| && Counts(bs[i], s)
        ensures Newest(bs, s).Some? && bs[i].created <= Newest(bs, s).value
      {
        assert i < |front| ==> bs[i] == front[i];
      }
    }
  }

  /** The schedule asks for backups of the server, and they are made. */
  predicate Served(c: Setting, s: Server) {
    Enabled(c, s) && Sound(c, s) && c.plans[s].everyHours > 0
  }

  /** How many whole intervals fit. */
  function Times(span: int, every: int): nat
    requires every > 0
    decreases if span < 0 then 0 else span
  {
    if span < every then 0 else 1 + Times(span - every, every)
  }

  lemma {:induction false} TimesMonotone(a: int, b: int, every: int)
    requires every > 0 && a <= b
    ensures Times(a, every) <= Times(b, every)
    decreases if a < 0 then 0 else a
  {
    if a >= every {
      TimesMonotone(a - every, b - every, every);
    }
  }

  /** How often the server can still become due until `last`. */
  function Credit(c: Setting, bs: seq<Backup>, last: int, s: Server): nat
    requires c.now <= last
  {
    if !Served(c, s) then 0
    else
      var every, newest := c.plans[s].everyHours * HOUR, Newest(bs, s);
      if newest.None? then Times(last - c.now, every) + 1 else Times(last - newest.value, every)
  }

  lemma NewestMore(bs: seq<Backup>, b: Backup, s: Server)
    ensures Newest(bs + [b], s)
            == if Counts(b, s) && (Newest(bs, s).None? || Newest(bs, s).value < b.created) then Some(b.created)
               else Newest(bs, s)
  {
    assert (bs + [b])[..|bs|] == bs;
  }

  /** A backup added at time `t` for a server that is due takes one off its credit, and nothing off another's. */
  lemma AddingTakesOne(c: Setting, bs: seq<Backup>, last: int, t: int, s: Server, other: Server)
    requires c.now <= t <= last && Served(c, s) && Due(AtTime(c, t), bs, s)
    ensures var bs' := bs + [NewBackup(AtTime(c, t), s)];
            && Credit(c, bs', last, s) + 1 <= Credit(c, bs, last, s)
            && Credit(c, bs', last, other) <= Credit(c, bs, last, other)
  {
    var b, every := NewBackup(AtTime(c, t), s), c.plans[s].everyHours * HOUR;
    NewestIs(bs, s);
    NewestMore(bs, b, s);
    NewestMore(bs, b, other);
    if Newest(bs, s).Some? {
      var i :| 0 <= i < |bs| && Counts(bs[i], s) && bs[i].created == Newest(bs, s).value;
      assert !Fresh(AtTime(c, t), bs[i], s);
      TimesMonotone(last - t, last - bs[i].created - every, every);
    } else {
      TimesMonotone(last - t, last - c.now, every);
    }
  }

  function Credits(c: Setting, bs: seq<Backup>, last: int, ss: seq<Server>): nat
    requires c.now <= last
  {
    if ss == [] then 0 else Credits(c, bs, last, ss[..|ss| - 1]) + Credit(c, bs, last, ss[|ss| - 1])
  }

  lemma {:induction false} CreditsLess(c: Setting, a: seq<Backup>, b: seq<Backup>, last: int, ss: seq<Server>,
                                       s: Server)
    requires c.now <= last
    requires forall x :: x in ss ==> Credit(c, b, last, x) <= Credit(c, a, last, x)
    ensures Credits(c, b, last, ss) <= Credits(c, a, last, ss)
    ensures s in ss && Credit(c, b, last, s) < Credit(c, a, last, s) ==>
              Credits(c, b, last, ss) + 1 <= Credits(c, a, last, ss)
  {
    if ss != [] {
      var front := ss[..|ss| - 1];
      assert ss == front + [ss[|ss| - 1]];
      CreditsLess(c, a, b, last, front, s);
    }
  }

  /** No server is due that may stay due: the others are spared by a backup that stays fresh to the end. */
  lemma DueIsServed(c: Setting, bs: seq<Backup>, last: int, t: int, s: Server)
    requires c.now <= t <= last && NoneStuck(c, bs, last)
    ensures Due(AtTime(c, t), bs, s) ==> Served(c, s)
  {
    assert !Stuck(AtTime(c, last), bs, s);
    if Enabled(c, s) && !Served(c, s) {
      var i :| 0 <= i < |bs| && !bs[i].status.Pending? && Fresh(AtTime(c, last), bs[i], s);
      assert Fresh(AtTime(c, t), bs[i], s);
    }
  }

  lemma StillNoneStuck(c: Setting, bs: seq<Backup>, bs': seq<Backup>, last: int)
    requires NoneStuck(c, bs, last) && |bs| <= |bs'|
    requires forall i :: 0 <= i < |bs| && !bs[i].status.Pending? ==> bs'[i] == bs[i]
    ensures NoneStuck(c, bs', last)
  {
    forall s ensures !Stuck(AtTime(c, last), bs', s) {
      assert !Stuck(AtTime(c, last), bs, s);
      if Enabled(c, s) && (c.plans[s].everyHours <= 0 || !Sound(c, s)) {
        var i :| 0 <= i < |bs| && !bs[i].status.Pending? && Fresh(AtTime(c, last), bs[i], s);
        assert !bs'[i].status.Pending? && Fresh(AtTime(c, last), bs'[i], s);
      }
    }
  }

  lemma WaitingMore(bs: seq<Backup>, b: Backup)
    requires b.status.Pending?
    ensures WaitingBackups(bs + [b]) == WaitingBackups(bs) + 1
  {
    assert (bs + [b])[..|bs|] == bs;
  }

  /** The backups that wait, and those the schedule may still ask for. */
  function BackupsLeft(c: Setting, bs: seq<Backup>, last: int): nat
    requires c.now <= last
  {
    WaitingBackups(bs) + Credits(c, bs, last, c.servers)
  }

  /** Every backup the schedule adds takes at least one off the credits. */
  lemma {:induction false} SchedulingKeepsSum(c: Setting, bs: seq<Backup>, last: int, t: int, k: nat)
    requires c.now <= t <= last && NoneStuck(c, bs, last) && k <= |c.servers|
    ensures var after := ScheduledFor(AtTime(c, t), bs, k);
            && NoneStuck(c, after, last)
            && BackupsLeft(c, after, last) <= BackupsLeft(c, bs, last)
  {
    if k > 0 {
      SchedulingKeepsSum(c, bs, last, t, k - 1);
      var before, s := ScheduledFor(AtTime(c, t), bs, k - 1), c.servers[k - 1];
      if Due(AtTime(c, t), before, s) {
        AddingKeepsSum(c, before, last, t, s);
      }
    }
  }

  lemma AddingKeepsSum(c: Setting, bs: seq<Backup>, last: int, t: int, s: Server)
    requires c.now <= t <= last && NoneStuck(c, bs, last) && s in c.servers && Due(AtTime(c, t), bs, s)
    ensures var after := bs + [NewBackup(AtTime(c, t), s)];
            && NoneStuck(c, after, last)
            && BackupsLeft(c, after, last) <= BackupsLeft(c, bs, last)
  {
    var after := bs + [NewBackup(AtTime(c, t), s)];
    StillNoneStuck(c, bs, after, last);
    DueIsServed(c, bs, last, t, s);
    WaitingMore(bs, NewBackup(AtTime(c, t), s));
    forall x | x in c.servers
      ensures Credit(c, after, last, x) <= Credit(c, bs, last, x)
    {
      AddingTakesOne(c, bs, last, t, s, x);
    }
    AddingTakesOne(c, bs, last, t, s, s);
    CreditsLess(c, bs, after, last, c.servers, s);
  }

  // ----- one thing done -----

  /** For a server whose backups succeed, what was done leaves the newest that counts. */
  lemma {:induction false} NewestSame(c: Setting, a: seq<Backup>, b: seq<Backup>, s: Server)
    requires |a| <= |b|
    requires forall i :: 0 <= i < |a| ==> a[i].created == b[i].created && Counts(a[i], s) == Counts(b[i], s)
    requires forall i :: |a| <= i < |b| ==> !Counts(b[i], s)
    ensures Newest(a, s) == Newest(b, s)
    decreases |b|
  {
    if |b| > |a| {
      NewestSame(c, a, b[..|b| - 1], s);
    } else if b != [] {
      var n := |a| - 1;
      assert a[n] == a[|a| - 1] && b[n] == b[|b| - 1];
      NewestSame(c, a[..n], b[..n], s);
    }
  }

  lemma DidKeepsCredit(c: Setting, t: int, q: Queue, q': Queue, last: int, s: Server)
    requires c.now <= last && Did(AtTime(c, t), q, q')
    ensures Credit(c, q'.backups, last, s) == Credit(c, q.backups, last, s)
  {
    if Served(c, s) {
      DidRows(AtTime(c, t), q, q');
      NewestSame(c, q.backups, q'.backups, s);
    }
  }

  lemma DidKeepsNoneStuck(c: Setting, t: int, q: Queue, q': Queue, last: int)
    requires Did(AtTime(c, t), q, q') && NoneStuck(c, q.backups, last)
    ensures NoneStuck(c, q'.backups, last)
  {
    DidRows(AtTime(c, t), q, q');
    StillNoneStuck(c, q.backups, q'.backups, last);
  }

  /** What is left to do. */
  function Left(c: Setting, q: Queue, last: int): nat
    requires c.now <= last
  {
    WaitingJobs(q.restores) + WaitingJobs(q.restarts) + BackupsLeft(c, q.backups, last)
  }

  lemma PassKeepsLeft(c: Setting, q: Queue, last: int, t: int)
    requires c.now <= t <= last && NoneStuck(c, q.backups, last)
    ensures var q' := ScheduleDue(AtTime(c, t), q);
            NoneStuck(c, q'.backups, last) && Left(c, q', last) <= Left(c, q, last)
  {
    SchedulingKeepsSum(c, q.backups, last, t, |c.servers|);
  }

  lemma TurnLeavesLess(c: Setting, q: Queue, q': Queue, last: int, t: int)
    requires c.now <= t <= last && NoneStuck(c, q.backups, last) && Turn(AtTime(c, t), q, q')
    ensures NoneStuck(c, q'.backups, last) && Left(c, q', last) + 1 <= Left(c, q, last)
  {
    var mid :| Did(AtTime(c, t), q, mid) && q' == ScheduleDue(AtTime(c, t), mid);
    DidOneLess(AtTime(c, t), q, mid);
    DidKeepsNoneStuck(c, t, q, mid, last);
    forall s | s in c.servers
      ensures Credit(c, mid.backups, last, s) <= Credit(c, q.backups, last, s)
    {
      DidKeepsCredit(c, t, q, mid, last, s);
    }
    CreditsLess(c, q.backups, mid.backups, last, c.servers, "");
    PassKeepsLeft(c, mid, last, t);
  }

  /** Each turn leaves less to do. */
  lemma {:induction false} TimedRunIsShort(c: Setting, q: Queue, last: int, qs: seq<Queue>, ts: seq<int>, n: nat)
    requires c.now <= last && NoneStuck(c, q.backups, last) && TimedRun(c, q, last, qs, ts) && n < |qs|
    ensures NoneStuck(c, qs[n].backups, last) && Left(c, qs[n], last) + n <= Left(c, q, last)
  {
    if n == 0 {
      PassKeepsLeft(c, q, last, ts[0]);
    } else {
      TimedRunIsShort(c, q, last, qs, ts, n - 1);
      TurnLeavesLess(c, qs[n - 1], qs[n], last, ts[n]);
    }
  }

  /** With a server that is stuck at the last moment there is a run of every length, all of it at that moment. */
  lemma StuckTimedRuns(c: Setting, q: Queue, last: int, s: Server, n: nat) returns (qs: seq<Queue>, ts: seq<int>)
    requires c.now <= last && Past(c, q.backups) && Stuck(AtTime(c, last), q.backups, s)
    ensures TimedRun(c, q, last, qs, ts) && |qs| == n + 1
  {
    qs := StuckRuns(AtTime(c, last), q, s, n);
    ts := seq(|qs|, _ => last);
  }

  /**
   With the clock going on up to `last`: the number of turns of the drain loop is bounded
   exactly when no server is stuck at the last moment: none with the schedule on lacks a
   settled backup still fresh then while its interval is not positive or its backups may
   fail. A server whose backups succeed may become due again and again on the way.
   */
  lemma DrainEndsByIff(c: Setting, q: Queue, last: int)
    requires c.now <= last && Past(c, q.backups)
    ensures (exists bound: nat :: EndsWithin(c, q, last, bound)) <==> NoneStuck(c, q.backups, last)
  {
    if NoneStuck(c, q.backups, last) {
      var bound := Left(c, q, last) + 1;
      forall qs, ts | TimedRun(c, q, last, qs, ts)
        ensures |qs| <= bound
      {
        TimedRunIsShort(c, q, last, qs, ts, |qs| - 1);
      }
      assert EndsWithin(c, q, last, bound);
    } else {
      var s :| Stuck(AtTime(c, last), q.backups, s);
      forall bound: nat
        ensures !EndsWithin(c, q, last, bound)
      {
        var qs, ts := StuckTimedRuns(c, q, last, s, bound);
      }
    }
  }
}
