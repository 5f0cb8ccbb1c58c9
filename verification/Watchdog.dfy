/**
 The per-server watchdog (apps/worker/watchdog.py): one check a minute, the state it
 keeps between checks, when it kills a hung server, and how often. Times are seconds
 on one clock.
 */
module Watchdog {
  import opened Wrappers

  const MINUTE := 60
  const WINDOW := 3600

  datatype Status =
    | NeverChecked | Off | NotConfigured | Maintenance | Restoring | Booting | Down | Ok | Unresponsive | Restarted

  /** The row's `state` dictionary: a missing key is None or false. */
  datatype State = State(
    status: Status,
    failingSince: Option<int>,
    answeredAt: Option<int>,
    restartedAt: Option<int>,
    reportedHang: bool,
    reportedLimit: bool)

  const FRESH := State(NeverChecked, None, None, None, false, false)

  datatype Kind = WentDown | Recovered | Hang | Limit | Restart

  datatype Event = Event(kind: Kind, at: int)

  datatype Config = Config(hangMinutes: int, graceMinutes: int, restart: bool, maxPerHour: int)

  datatype Active = IsActive | Activating | Inactive

  /**
   All that one run of the worker sees of a server. `dumped`: the thread dump of a hung
   server, if taken, raises no error; `killed`: the kill, if tried, succeeds.
   */
  datatype Seen = Seen(
    at: int,
    switchedOn: bool,
    hasUnit: bool,
    maintenance: bool,
    restoring: bool,
    active: Active,
    pid: int,
    uptime: Option<int>,
    answered: bool,
    dumped: bool,
    killed: bool)

  /** The check gets as far as asking the server over RCON. */
  predicate Asked(o: Seen) {
    o.switchedOn && o.hasUnit && !o.maintenance && !o.restoring && o.active.IsActive? && o.pid > 0
  }

  function Uptime(o: Seen): int {
    if o.uptime.Some? then o.uptime.value else 0
  }

  predicate GraceOver(c: Config, o: Seen) {
    Uptime(o) >= c.graceMinutes * MINUTE
  }

  /** How many restarts of the last hour the events record. */
  function Recent(events: seq<Event>, at: int): nat {
    if events == [] then 0
    else Recent(events[..|events| - 1], at)
         + if events[|events| - 1].kind.Restart? && events[|events| - 1].at >= at - WINDOW then 1 else 0
  }

  datatype Row = Row(state: State, events: seq<Event>)

  /**
   What the row of a server is after a hung, past-grace silence since `since`. An error
   while the thread dump is saved ends the check with nothing stored.
   */
  function Hung(c: Config, r: Row, o: Seen, since: int): Row {
    var st := r.state.(failingSince := Some(since));
    if o.at - since < c.hangMinutes * MINUTE then
      r.(state := st.(status := Unresponsive))
    else if !o.dumped then r
    else if !c.restart then
      Row(st.(status := Unresponsive, reportedHang := true),
          r.events + if st.reportedHang then [] else [Event(Hang, o.at)])
    else if Recent(r.events, o.at) >= c.maxPerHour then
      Row(st.(status := Unresponsive, reportedLimit := true),
          r.events + if st.reportedLimit then [] else [Event(Limit, o.at)])
    else
      Row(st.(status := Restarted, failingSince := None, reportedHang := false, reportedLimit := false,
              restartedAt := if o.killed then Some(o.at) else st.restartedAt),
          r.events + [Event(if o.killed then Restart else Hang, o.at)])
  }

  /** One run of the worker on a server. */
  function Checked(c: Config, r: Row, o: Seen): Row {
    var st := r.state;
    if !o.switchedOn then r.(state := st.(status := Off))
    else if !o.hasUnit then r.(state := st.(status := NotConfigured))
    else if o.maintenance then r.(state := st.(status := Maintenance, failingSince := None))
    else if o.restoring then r.(state := st.(status := Restoring, failingSince := None))
    else if !o.active.IsActive? || o.pid <= 0 then
      if o.active.Activating? then r.(state := st.(status := Booting))
      else Row(st.(status := Down, failingSince := None),
               r.events + if st.status.Down? then [] else [Event(WentDown, o.at)])
    else if o.answered then
      Row(st.(status := Ok, failingSince := None, restartedAt := None, answeredAt := Some(o.at)),
          r.events + if st.restartedAt.Some? || ((st.status.Unresponsive? || st.status.Down?) && st.failingSince.Some?)
                     then [Event(Recovered, o.at)] else [])
    else if !GraceOver(c, o) then r.(state := st.(status := Booting))
    else Hung(c, r, o, if st.failingSince.Some? then st.failingSince.value else o.at)
  }

  class Watched {
    const c: Config
    var state: State
    var events: seq<Event>

    constructor (c: Config)
      ensures this.c == c && Value() == Row(FRESH, [])
    {
      this.c, state, events := c, FRESH, [];
    }

    ghost function Value(): Row
      reads this
    {
      Row(state, events)
    }

    method Report(kind: Kind, at: int)
      modifies this`events
      ensures events == old(events) + [Event(kind, at)]
    {
      events := events + [Event(kind, at)];
    }

    method CountRecent(at: int) returns (n: nat)
      ensures n == Recent(events, at)
    {
      n := 0;
      for k := 0 to |events|
        invariant n == Recent(events[..k], at)
      {
        assert events[..k + 1][..k] == events[..k];
        if events[k].kind.Restart? && events[k].at >= at - WINDOW {
          n := n + 1;
        }
      }
      assert events[..|events|] == events;
    }

    method Settle(status: Status, st: State)
      modifies this`state
      ensures state == st.(status := status)
    {
      state := st.(status := status);
    }

    /** `run` on this server: `check`, unless the watchdog is switched off. */
    method Check(o: Seen)
      modifies this`state, this`events
      ensures Value() == Checked(c, old(Value()), o)
    {
      var st := state;
      if !o.switchedOn {
        Settle(Off, st);
        return;
      }
      if !o.hasUnit {
        Settle(NotConfigured, st);
        return;
      }
      if o.maintenance {
        st := st.(failingSince := None);
        Settle(Maintenance, st);
        return;
      }
      if o.restoring {
        st := st.(failingSince := None);
        Settle(Restoring, st);
        return;
      }
      if !o.active.IsActive? || o.pid <= 0 {
        if o.active.Activating? {
          Settle(Booting, st);
          return;
        }
        if !st.status.Down? {
          Report(WentDown, o.at);
        }
        st := st.(failingSince := None);
        Settle(Down, st);
        return;
      }
      if o.answered {
        if st.restartedAt.Some? {
          st := st.(restartedAt := None);
          Report(Recovered, o.at);
        } else if (st.status.Unresponsive? || st.status.Down?) && st.failingSince.Some? {
          Report(Recovered, o.at);
        }
        st := st.(failingSince := None, answeredAt := Some(o.at));
        Settle(Ok, st);
        return;
      }
      if Uptime(o) < c.graceMinutes * MINUTE {
        Settle(Booting, st);
        return;
      }
      var since := if st.failingSince.Some? then st.failingSince.value else o.at;
      st := st.(failingSince := Some(since));
      if o.at - since < c.hangMinutes * MINUTE {
        Settle(Unresponsive, st);
        return;
      }
      if !o.dumped {
        return;
      }
      if !c.restart {
        if !st.reportedHang {
          Report(Hang, o.at);
          st := st.(reportedHang := true);
        }
        Settle(Unresponsive, st);
        return;
      }
      var recent := CountRecent(o.at);
      if recent >= c.maxPerHour {
        if !st.reportedLimit {
          Report(Limit, o.at);
          st := st.(reportedLimit := true);
        }
        Settle(Unresponsive, st);
        return;
      }
      if o.killed {
        Report(Restart, o.at);
        st := st.(restartedAt := Some(o.at));
      } else {
        Report(Hang, o.at);
      }
      st := st.(failingSince := None, reportedHang := false, reportedLimit := false);
      Settle(Restarted, st);
    }
  }

  // ----- runs -----

  /** The row after the observations of `os`, in order. */
  function After(c: Config, os: seq<Seen>): Row {
    if os == [] then Row(FRESH, []) else Checked(c, After(c, os[..|os| - 1]), os[|os| - 1])
  }

  ghost predicate InOrder(os: seq<Seen>) {
    forall i, j :: 0 <= i < j < |os| ==> os[i].at <= os[j].at
  }

  /** Check `n` of the run kills the server. */
  predicate Kills(c: Config, os: seq<Seen>, n: nat)
    requires n < |os|
  {
    |After(c, os[..n + 1]).events| > |After(c, os[..n]).events|
    && var events := After(c, os[..n + 1]).events; events[|events| - 1].kind.Restart?
  }

  /** Nothing but silence since time `since`, which is when some check first met it. */
  ghost predicate SilentSince(c: Config, os: seq<Seen>, since: int) {
    exists k: nat :: SilentFrom(c, os, k) && os[k].at == since
  }

  /**
   From check `k` on every check that asked went unanswered, and none saw the server down, in
   maintenance or restored.
   */
  ghost predicate SilentFrom(c: Config, os: seq<Seen>, k: nat) {
    && k < |os| && Asked(os[k]) && GraceOver(c, os[k])
    && forall j :: k <= j < |os| ==> Quiet(os[j])
  }

  predicate Quiet(o: Seen) {
    o.switchedOn && o.hasUnit ==>
      !o.maintenance && !o.restoring
      && (Asked(o) ==> !o.answered)
      && (!Asked(o) ==> o.active.Activating?)
  }

  /** What every run keeps of the state. */
  ghost predicate Inv(c: Config, os: seq<Seen>) {
    var r := After(c, os);
    && (r.state.failingSince.Some? ==> SilentSince(c, os, r.state.failingSince.value))
    && (r.state.status.Down? || r.state.status.Ok? || r.state.status.Restarted? ==> r.state.failingSince.None?)
    && (forall e :: e in r.events ==> exists j :: 0 <= j < |os| && os[j].at == e.at)
  }

  /** A check reports at most one thing, of its own time; a restart only within the hourly limit and for a reason. */
  lemma CheckReports(c: Config, r: Row, o: Seen)
    ensures Checked(c, r, o).events == r.events
            || exists kind :: Checked(c, r, o).events == r.events + [Event(kind, o.at)]
                              && (kind.Restart? ==> MayKill(c, r, o))
  {
    var r' := Checked(c, r, o);
    if r'.events != r.events {
      assert r'.events == r.events + [Event(r'.events[|r.events|].kind, o.at)];
    }
  }

  // ----- what a check reports, from what it sees and what is stored -----

  predicate Reports(c: Config, r: Row, o: Seen, kind: Kind) {
    Checked(c, r, o).events == r.events + [Event(kind, o.at)]
  }

  /** The check looks at the server: it is watched, and neither in maintenance nor being restored. */
  predicate Watches(o: Seen) {
    o.switchedOn && o.hasUnit && !o.maintenance && !o.restoring
  }

  /** The server is found neither running nor starting. */
  predicate FoundDown(o: Seen) {
    Watches(o) && (o.active == Inactive || (o.active == IsActive && o.pid <= 0))
  }

  /** The server is found running, and has now been silent past its grace for the hang limit. */
  predicate FoundHung(c: Config, st: State, o: Seen) {
    && Watches(o) && o.active == IsActive && o.pid > 0 && !o.answered && o.dumped
    && (match o.uptime case Some(up) => up >= c.graceMinutes * 60 case None => 0 >= c.graceMinutes)
    && (match st.failingSince
        case Some(since) => o.at - since >= c.hangMinutes * 60
        case None => 0 >= c.hangMinutes)
  }

  predicate RestartOfHour(e: Event, at: int) {
    e.kind == Restart && at - e.at <= 3600
  }

  function RestartsOfHour(events: seq<Event>, at: int): set<int> {
    set i | 0 <= i < |events| && RestartOfHour(events[i], at)
  }

  lemma HourMore(events: seq<Event>, at: int)
    requires events != []
    ensures var front, last := events[..|events| - 1], events[|events| - 1];
            |RestartsOfHour(events, at)| == |RestartsOfHour(front, at)| + if RestartOfHour(last, at) then 1 else 0
  {
    var n := |events| - 1;
    var before, after := RestartsOfHour(events[..n], at), RestartsOfHour(events, at);
    assert after == if RestartOfHour(events[n], at) then before + {n} else before;
  }

  lemma {:induction false} RecentCounts(events: seq<Event>, at: int)
    ensures Recent(events, at) == |RestartsOfHour(events, at)|
  {
    if events != [] {
      RecentCounts(events[..|events| - 1], at);
      HourMore(events, at);
    }
  }

  lemma ReportsAreApart(c: Config, r: Row, o: Seen, kind: Kind, other: Kind)
    requires Reports(c, r, o, kind) && Reports(c, r, o, other)
    ensures kind == other
  {
    assert (r.events + [Event(kind, o.at)])[|r.events|] == (r.events + [Event(other, o.at)])[|r.events|];
  }

  lemma ReportsLast(c: Config, r: Row, o: Seen, kind: Kind)
    ensures Reports(c, r, o, kind)
            <==> |Checked(c, r, o).events| > |r.events| && Checked(c, r, o).events[|r.events|].kind == kind
  {
    CheckReports(c, r, o);
    assert (r.events + [Event(kind, o.at)])[|r.events|].kind == kind;
  }

  /** An outage is reported when it begins, and the end of one that is known. */
  lemma ComingAndGoingIff(c: Config, r: Row, o: Seen)
    ensures Reports(c, r, o, WentDown) <==> FoundDown(o) && r.state.status != Down
    ensures Reports(c, r, o, Recovered)
            <==> && Watches(o) && o.active == IsActive && o.pid > 0 && o.answered
                 && (r.state.restartedAt.Some?
                     || (r.state.failingSince.Some? && r.state.status in {Unresponsive, Down}))
  {
    ReportsLast(c, r, o, WentDown);
    ReportsLast(c, r, o, Recovered);
  }

  /**
   Exactly when a hang, the reached limit and a restart are reported: one found hung is
   restarted while fewer restarts than the limit are of the last hour; otherwise its hang
   or the limit is reported, unless it has been.
   */
  lemma HangReportsIff(c: Config, r: Row, o: Seen)
    ensures var recent := |RestartsOfHour(r.events, o.at)|;
            && (Reports(c, r, o, Restart)
                <==> FoundHung(c, r.state, o) && c.restart && recent < c.maxPerHour && o.killed)
            && (Reports(c, r, o, Limit)
                <==> FoundHung(c, r.state, o) && c.restart && recent >= c.maxPerHour && !r.state.reportedLimit)
            && (Reports(c, r, o, Hang)
                <==> && FoundHung(c, r.state, o)
                     && if c.restart then recent < c.maxPerHour && !o.killed else !r.state.reportedHang)
  {
    RecentCounts(r.events, o.at);
    ReportsLast(c, r, o, Restart);
    ReportsLast(c, r, o, Limit);
    ReportsLast(c, r, o, Hang);
  }

  /**
   What a check stores besides the silence. A kill tried takes back the marks of what was
   reported, and one that works is remembered until the server answers.
   */
  lemma StoredIs(c: Config, r: Row, o: Seen)
    ensures var st, st' := r.state, Checked(c, r, o).state;
            var up := Watches(o) && o.active == IsActive && o.pid > 0;
            var tried := FoundHung(c, st, o) && c.restart && |RestartsOfHour(r.events, o.at)| < c.maxPerHour;
            && st'.restartedAt == (if up && o.answered then None else if tried && o.killed then Some(o.at)
                                   else st.restartedAt)
            && st'.answeredAt == (if up && o.answered then Some(o.at) else st.answeredAt)
            && (st'.reportedHang <==> !tried && (st.reportedHang || (FoundHung(c, st, o) && !c.restart)))
            && (st'.reportedLimit <==> !tried && (st.reportedLimit || (FoundHung(c, st, o) && c.restart)))
  {
    RecentCounts(r.events, o.at);
  }

  /** The status a check leaves, from what it sees; one whose thread dump raised an error leaves the old one. */
  lemma StatusIs(c: Config, r: Row, o: Seen)
    ensures var st, status := r.state, Checked(c, r, o).state.status;
            var up := Watches(o) && o.active == IsActive && o.pid > 0;
            var silence := if st.failingSince.Some? then o.at - st.failingSince.value else 0;
            && (!o.switchedOn ==> status == Off)
            && (o.switchedOn && !o.hasUnit ==> status == NotConfigured)
            && (o.switchedOn && o.hasUnit && o.maintenance ==> status == Maintenance)
            && (o.switchedOn && o.hasUnit && !o.maintenance && o.restoring ==> status == Restoring)
            && (Watches(o) && o.active == Activating ==> status == Booting)
            && (FoundDown(o) ==> status == Down)
            && (up && o.answered ==> status == Ok)
            && (up && !o.answered && Uptime(o) < c.graceMinutes * 60 ==> status == Booting)
            && (up && !o.answered && Uptime(o) >= c.graceMinutes * 60 && silence < c.hangMinutes * 60 ==>
                  status == Unresponsive)
            && (FoundHung(c, st, o) ==>
                  status == if c.restart && |RestartsOfHour(r.events, o.at)| < c.maxPerHour then Restarted
                            else Unresponsive)
  {
    RecentCounts(r.events, o.at);
  }

  predicate MayKill(c: Config, r: Row, o: Seen) {
    && Asked(o) && !o.answered && GraceOver(c, o) && o.dumped && c.restart
    && Recent(r.events, o.at) < c.maxPerHour
    && o.at - (if r.state.failingSince.Some? then r.state.failingSince.value else o.at) >= c.hangMinutes * MINUTE
  }

  /** A stored silence is either begun by this check or carried over one that did not end it. */
  lemma CheckSilence(c: Config, r: Row, o: Seen)
    ensures var st := Checked(c, r, o).state;
            st.failingSince.Some? ==>
              && Quiet(o)
              && (st.failingSince == r.state.failingSince
                  || (r.state.failingSince.None? && st.failingSince.value == o.at && Asked(o) && GraceOver(c, o)))
    ensures var st := Checked(c, r, o).state;
            st == r.state || (st.status.Down? || st.status.Ok? || st.status.Restarted? ==> st.failingSince.None?)
  {
  }

  lemma {:induction false} RunsKeepInv(c: Config, os: seq<Seen>)
    ensures Inv(c, os)
    decreases |os|
  {
    if os != [] {
      var before, o := os[..|os| - 1], os[|os| - 1];
      RunsKeepInv(c, before);
      var r, r' := After(c, before), After(c, os);
      CheckSilence(c, r, o);
      CheckReports(c, r, o);
      if r'.state.failingSince.Some? {
        if r'.state.failingSince == r.state.failingSince {
          var k: nat :| SilentFrom(c, before, k) && before[k].at == r.state.failingSince.value;
          assert SilentFrom(c, os, k);
        } else {
          assert SilentFrom(c, os, |os| - 1);
        }
      }
      forall e | e in r'.events
        ensures exists j :: 0 <= j < |os| && os[j].at == e.at
      {
        if e in r.events {
          var j :| 0 <= j < |before| && before[j].at == e.at;
          assert os[j].at == e.at;
        } else {
          assert os[|os| - 1].at == e.at;
        }
      }
    }
  }

  /**
   At every kill the server has been silent since the stored time for at least the
   hang limit: every check since that asked it went unanswered, none found it down,
   in maintenance or being restored, and this one found it running past its grace.
   */
  lemma KillsAreDeserved(c: Config, os: seq<Seen>, n: nat)
    requires n < |os| && Kills(c, os, n)
    ensures exists k: nat :: SilentFrom(c, os[..n + 1], k) && os[n].at - os[k].at >= c.hangMinutes * MINUTE
                        && (After(c, os[..n]).state.failingSince.Some? ==>
                              os[k].at == After(c, os[..n]).state.failingSince.value)
    ensures Asked(os[n]) && !os[n].answered && GraceOver(c, os[n]) && os[n].dumped && c.restart
    ensures Recent(After(c, os[..n]).events, os[n].at) < c.maxPerHour
  {
    KillsIff(c, os, n);
    var k := SilentUpTo(c, os, n);
  }

  /** A quiet check past the grace has been preceded by silence since the stored time, or begins it. */
  lemma SilentUpTo(c: Config, os: seq<Seen>, n: nat) returns (k: nat)
    requires n < |os| && Asked(os[n]) && !os[n].answered && GraceOver(c, os[n])
    ensures SilentFrom(c, os[..n + 1], k)
    ensures os[k].at == if After(c, os[..n]).state.failingSince.Some? then After(c, os[..n]).state.failingSince.value
                        else os[n].at
  {
    var before, upTo := os[..n], os[..n + 1];
    RunsKeepInv(c, before);
    k := n;
    if After(c, before).state.failingSince.Some? {
      k :| SilentFrom(c, before, k) && before[k].at == After(c, before).state.failingSince.value;
      assert upTo[k] == before[k];
    }
    forall j | k <= j < |upTo|
      ensures Quiet(upTo[j])
    {
      assert j < n ==> upTo[j] == before[j];
    }
  }

  /** And a deserved kill is made: the check kills exactly under these conditions. */
  lemma KillsIff(c: Config, os: seq<Seen>, n: nat)
    requires n < |os|
    ensures Kills(c, os, n) <==> os[n].killed && MayKill(c, After(c, os[..n]), os[n])
  {
    assert os[..n + 1][..n] == os[..n];
  }

  // ----- what is reported once -----

  /** In a run: the status is down exactly after a check that found the server down. */
  lemma DownAfterIff(c: Config, os: seq<Seen>)
    requires c.hangMinutes > 0 && os != []
    ensures After(c, os).state.status == Down <==> FoundDown(os[|os| - 1])
  {
    RunsKeepInv(c, os[..|os| - 1]);
  }

  /** An outage is reported exactly at the check that first finds the server down. */
  lemma OutageIsReportedOnceIff(c: Config, os: seq<Seen>, n: nat)
    requires c.hangMinutes > 0 && n < |os|
    ensures Reports(c, After(c, os[..n]), os[n], WentDown)
            <==> FoundDown(os[n]) && (n == 0 || !FoundDown(os[n - 1]))
  {
    ComingAndGoingIff(c, After(c, os[..n]), os[n]);
    if n > 0 {
      DownAfterIff(c, os[..n]);
    }
  }

  /** The run has reported a hang. */
  ghost predicate HangReported(c: Config, os: seq<Seen>) {
    exists i :: 0 <= i < |After(c, os).events| && After(c, os).events[i].kind == Hang
  }

  lemma {:induction false} HangFlagIff(c: Config, os: seq<Seen>)
    requires !c.restart
    ensures After(c, os).state.reportedHang <==> HangReported(c, os)
    decreases |os|
  {
    if os != [] {
      var before, o := os[..|os| - 1], os[|os| - 1];
      HangFlagIff(c, before);
      var r, r' := After(c, before), After(c, os);
      CheckReports(c, r, o);
      HangReportsIff(c, r, o);
      if HangReported(c, before) {
        var i :| 0 <= i < |r.events| && r.events[i].kind == Hang;
        assert r'.events[i].kind == Hang;
      }
      if Reports(c, r, o, Hang) {
        assert r'.events[|r.events|].kind == Hang;
      }
      ReportsLast(c, r, o, Hang);
      assert HangReported(c, os) ==> HangReported(c, before) || Reports(c, r, o, Hang) by {
        assert forall i :: 0 <= i < |r.events| ==> r'.events[i] == r.events[i];
      }
    }
  }

  /**
   With restarting switched off a hang is reported exactly if none has been before in the
   whole run: the mark is not taken back when the server answers again, so only the first
   of several hangs is ever reported.
   */
  lemma HangIsReportedOnceIff(c: Config, os: seq<Seen>, n: nat)
    requires !c.restart && n < |os|
    ensures Reports(c, After(c, os[..n]), os[n], Hang)
            <==> FoundHung(c, After(c, os[..n]).state, os[n]) && !HangReported(c, os[..n])
  {
    HangReportsIff(c, After(c, os[..n]), os[n]);
    HangFlagIff(c, os[..n]);
  }

  function Silent(at: int): Seen {
    Seen(at, true, true, false, false, IsActive, 1, Some(600), false, true, false)
  }

  lemma AfterMore(c: Config, os: seq<Seen>, o: Seen)
    ensures After(c, os + [o]) == Checked(c, After(c, os), o)
  {
    assert (os + [o])[..|os|] == os;
  }

  /** A server that hangs, answers, and hangs again: the second hang is not reported. */
  lemma SecondHangIsNotReported()
    ensures var c := Config(1, 1, false, 1);
            var first := [] + [Silent(0)] + [Silent(60)] + [Silent(120).(answered := true)] + [Silent(180)];
            && FoundHung(c, After(c, first).state, Silent(240))
            && After(c, first + [Silent(240)]).events == [Event(Hang, 60), Event(Recovered, 120)]
  {
    var c := Config(1, 1, false, 1);
    var os := [] + [Silent(0)];
    AfterMore(c, [], Silent(0));
    AfterMore(c, os, Silent(60));
    AfterMore(c, os + [Silent(60)], Silent(120).(answered := true));
    os := os + [Silent(60)] + [Silent(120).(answered := true)];
    AfterMore(c, os, Silent(180));
    AfterMore(c, os + [Silent(180)], Silent(240));
  }

  // ----- the hourly limit -----

  /** How many restarts the events record from time `from` on, up to time `to`. */
  function Restarts(events: seq<Event>, from: int, to: int): nat {
    if events == [] then 0
    else Restarts(events[..|events| - 1], from, to)
         + if events[|events| - 1].kind.Restart? && from <= events[|events| - 1].at <= to then 1 else 0
  }

  lemma {:induction false} RestartsMore(events: seq<Event>, from: int, to: int, at: int)
    requires from >= at - WINDOW
    ensures Restarts(events, from, to) <= Recent(events, at)
  {
    if events != [] {
      RestartsMore(events[..|events| - 1], from, to, at);
    }
  }

  /** A check that adds a restart to a window found fewer than the limit in it. */
  lemma LimitAfterCheck(c: Config, r: Row, o: Seen, from: int)
    ensures var to := from + WINDOW;
            || Restarts(Checked(c, r, o).events, from, to) == Restarts(r.events, from, to)
            || Restarts(Checked(c, r, o).events, from, to) <= c.maxPerHour
  {
    var r' := Checked(c, r, o);
    CheckReports(c, r, o);
    if r'.events != r.events {
      var e := r'.events[|r.events|];
      assert r'.events == r.events + [e];
      RestartsSnoc(r.events, e, from, from + WINDOW);
      if from <= o.at <= from + WINDOW {
        RestartsMore(r.events, from, from + WINDOW, o.at);
      }
    }
  }

  /** In every run no hour-long window holds more restarts than the limit, whatever the clock does between checks. */
  lemma {:induction false} HourlyLimit(c: Config, os: seq<Seen>, from: int)
    ensures Restarts(After(c, os).events, from, from + 3600) <= if c.maxPerHour > 0 then c.maxPerHour else 0
    decreases |os|
  {
    if os != [] {
      var before, o := os[..|os| - 1], os[|os| - 1];
      HourlyLimit(c, before, from);
      LimitAfterCheck(c, After(c, before), o, from);
    }
  }

  lemma RestartsSnoc(events: seq<Event>, e: Event, from: int, to: int)
    ensures Restarts(events + [e], from, to)
            == Restarts(events, from, to) + if e.kind.Restart? && from <= e.at <= to then 1 else 0
  {
    assert (events + [e])[..|events|] == events;
  }

  /** Two kills are at least the hang limit apart. */
  lemma KillsAreSpaced(c: Config, os: seq<Seen>, m: nat, n: nat)
    requires InOrder(os) && m < n < |os| && Kills(c, os, m) && Kills(c, os, n)
    ensures os[n].at - os[m].at >= c.hangMinutes * MINUTE
  {
    assert os[..m + 1][..m] == os[..m];
    NotSilentBefore(c, os, m, n);
    KillsIff(c, os, n);
  }

  /** After a kill the stored silence starts at a later check. */
  lemma {:induction false} NotSilentBefore(c: Config, os: seq<Seen>, m: nat, n: nat)
    requires InOrder(os) && m < n < |os| && Kills(c, os, m)
    ensures After(c, os[..n]).state.failingSince.Some? ==> After(c, os[..n]).state.failingSince.value >= os[m].at
    decreases n
  {
    assert os[..n][..n - 1] == os[..n - 1];
    if n == m + 1 {
      KillsIff(c, os, m);
    } else {
      NotSilentBefore(c, os, m, n - 1);
      CheckSilence(c, After(c, os[..n - 1]), os[n - 1]);
    }
  }

  // ----- what ends a stored silence -----

  function Resumed(c: Config, r: Row, os: seq<Seen>): Row {
    if os == [] then r else Checked(c, Resumed(c, r, os[..|os| - 1]), os[|os| - 1])
  }

  /** Exactly when one check keeps the stored silence. */
  lemma KeepsSilenceIff(c: Config, r: Row, o: Seen)
    requires r.state.failingSince.Some?
    ensures Checked(c, r, o).state.failingSince == r.state.failingSince <==> Quiet(o) && !MayKill(c, r, o)
  {
  }

  lemma RecentMore(events: seq<Event>, e: Event, at: int)
    ensures Recent(events + [e], at) == Recent(events, at) + if e.kind.Restart? && e.at >= at - WINDOW then 1 else 0
  {
    assert (events + [e])[..|events|] == events;
  }

  /** A check that may not kill adds no restart. */
  lemma RecentStays(c: Config, r: Row, o: Seen, at: int)
    requires !MayKill(c, r, o)
    ensures Recent(Checked(c, r, o).events, at) == Recent(r.events, at)
  {
    var r' := Checked(c, r, o);
    CheckReports(c, r, o);
    if r'.events != r.events {
      var e := r'.events[|r.events|];
      assert r'.events == r.events + [e];
      RecentMore(r.events, e, at);
    }
  }

  /** What is seen neither breaks the silence nor allows a kill by the row the silence was stored in. */
  ghost predicate StaysQuiet(c: Config, r: Row, os: seq<Seen>) {
    forall i :: 0 <= i < |os| ==> Quiet(os[i]) && !MayKill(c, r, os[i])
  }

  lemma {:induction false} QuietKeepsSilence(c: Config, r: Row, os: seq<Seen>, at: int)
    requires r.state.failingSince.Some? && StaysQuiet(c, r, os)
    ensures Resumed(c, r, os).state.failingSince == r.state.failingSince
    ensures Recent(Resumed(c, r, os).events, at) == Recent(r.events, at)
    decreases |os|
  {
    if os != [] {
      var front, o := os[..|os| - 1], os[|os| - 1];
      QuietKeepsSilence(c, r, front, o.at);
      QuietKeepsSilence(c, r, front, at);
      KeepsSilenceIff(c, Resumed(c, r, front), o);
      RecentStays(c, Resumed(c, r, front), o, at);
    }
  }

  lemma StaysQuietMore(c: Config, r: Row, os: seq<Seen>)
    requires os != []
    ensures var front, o := os[..|os| - 1], os[|os| - 1];
            StaysQuiet(c, r, os) <==> StaysQuiet(c, r, front) && Quiet(o) && !MayKill(c, r, o)
  {
  }

  lemma OneMoreQuietIff(c: Config, r: Row, front: seq<Seen>, o: Seen)
    requires r.state.failingSince.Some? && StaysQuiet(c, r, front)
    ensures Checked(c, Resumed(c, r, front), o).state.failingSince == r.state.failingSince
            <==> Quiet(o) && !MayKill(c, r, o)
  {
    QuietKeepsSilence(c, r, front, o.at);
    KeepsSilenceIff(c, Resumed(c, r, front), o);
  }

  /**
   Exactly when a stored silence survives a run of later checks: when every check is
   quiet and none may kill. Restarts of the process and the watchdog being switched
   off are quiet.
   */
  lemma {:induction false} SilenceSurvivesIff(c: Config, r: Row, os: seq<Seen>)
    requires r.state.failingSince.Some?
    requires forall i :: 0 <= i < |os| ==> os[i].at > r.state.failingSince.value
    ensures Resumed(c, r, os).state.failingSince == r.state.failingSince <==> StaysQuiet(c, r, os)
  {
    if os != [] {
      var front, o := os[..|os| - 1], os[|os| - 1];
      SilenceSurvivesIff(c, r, front);
      StaysQuietMore(c, r, os);
      if StaysQuiet(c, r, front) {
        OneMoreQuietIff(c, r, front, o);
      } else {
        CheckSilence(c, Resumed(c, r, front), o);
      }
    }
  }

  lemma KillsRowIff(c: Config, r: Row, o: Seen)
    ensures Checked(c, r, o).events == r.events + [Event(Restart, o.at)] <==> o.killed && MayKill(c, r, o)
  {
    var restarted := r.events + [Event(Restart, o.at)];
    assert |restarted| == |r.events| + 1 && restarted[|r.events|].kind.Restart?;
    var r' := Checked(c, r, o);
    if |r'.events| == |r.events| + 1 {
      var last := r'.events[|r.events|];
      assert last.kind.Restart? <==> o.killed && MayKill(c, r, o);
    }
  }

  /** A silence that survived counts from its start: the next check kills exactly if it may by the row of that time. */
  lemma KillsAfterQuietIff(c: Config, r: Row, os: seq<Seen>, o: Seen)
    requires r.state.failingSince.Some? && StaysQuiet(c, r, os)
    ensures Checked(c, Resumed(c, r, os), o).events == Resumed(c, r, os).events + [Event(Restart, o.at)]
            <==> o.killed && MayKill(c, r, o)
  {
    QuietKeepsSilence(c, r, os, o.at);
    KillsRowIff(c, Resumed(c, r, os), o);
  }

  /** Quiet checks that do not ask a server past its grace report nothing. */
  lemma {:induction false} BootsReportNothing(c: Config, r: Row, os: seq<Seen>)
    requires forall i :: 0 <= i < |os| ==> Quiet(os[i]) && !(Asked(os[i]) && GraceOver(c, os[i]))
    ensures Resumed(c, r, os).events == r.events
  {
    if os != [] {
      BootsReportNothing(c, r, os[..|os| - 1]);
    }
  }

  /**
   A restart of the process does not end the silence: a server that stopped answering,
   came up again by itself and has not answered yet is killed at the first check past
   its grace, however short the new process has been watched.
   */
  lemma SilenceOutlivesTheProcess(c: Config, r: Row, boots: seq<Seen>, o: Seen)
    requires r.state.failingSince.Some?
    requires forall i :: 0 <= i < |boots| ==>
               boots[i].switchedOn && boots[i].hasUnit && !boots[i].maintenance && !boots[i].restoring
               && (if Asked(boots[i]) then !boots[i].answered && !GraceOver(c, boots[i])
                   else boots[i].active.Activating?)
    requires Asked(o) && !o.answered && GraceOver(c, o) && o.dumped && c.restart && o.killed
    requires o.at - r.state.failingSince.value >= c.hangMinutes * MINUTE && Recent(r.events, o.at) < c.maxPerHour
    ensures Checked(c, Resumed(c, r, boots), o).events == r.events + [Event(Restart, o.at)]
  {
    KillsAfterQuietIff(c, r, boots, o);
    BootsReportNothing(c, r, boots);
  }

  /**
   Nor does switching the watchdog off: a silence stored before it is counted to the
   first check after it, so a single unanswered question can be enough to kill.
   */
  lemma SilenceOutlivesTheSwitch(c: Config, r: Row, offs: seq<Seen>, o: Seen)
    requires r.state.failingSince.Some? && forall i :: 0 <= i < |offs| ==> !offs[i].switchedOn
    requires Asked(o) && !o.answered && GraceOver(c, o) && o.dumped && c.restart && o.killed
    requires o.at - r.state.failingSince.value >= c.hangMinutes * MINUTE && Recent(r.events, o.at) < c.maxPerHour
    ensures Checked(c, Resumed(c, r, offs), o).events == r.events + [Event(Restart, o.at)]
  {
    KillsAfterQuietIff(c, r, offs, o);
    BootsReportNothing(c, r, offs);
  }

  /** A server that was down is reported back only if the watchdog had restarted it before. */
  lemma DownIsNotReportedBack(c: Config, os: seq<Seen>, n: nat)
    requires n < |os| && After(c, os[..n]).state.status.Down? && After(c, os[..n]).state.restartedAt.None?
    ensures After(c, os[..n]).events <= After(c, os[..n + 1]).events
    ensures forall e :: e in After(c, os[..n + 1]).events[|After(c, os[..n]).events|..] ==> !e.kind.Recovered?
  {
    RunsKeepInv(c, os[..n]);
    assert os[..n + 1][..n] == os[..n];
  }
}
