/**
 The queue of file jobs of a remote server (apps/api/app/core/remote_files.py): a
 caller adds a job and looks for its result, the plugin polls for jobs and posts
 results, and each database commit is one step that any other may come between.
 Times are seconds.
 */
module FileJobs {
  import opened Wrappers

  type Server = string
  type JobId = nat

  const PENDING_TTL := 60
  const KEEP := 600

  datatype Status = Pending | Sent | Expired | Done | Failed

  /** What the plugin posts for a job. */
  datatype Reply = Reply(ok: bool, body: string)

  datatype Job = Job(server: Server, op: string, status: Status, created: int, reply: Option<Reply>)

  type Rows = map<JobId, Job>

  predicate IsPending(rows: Rows, id: JobId) {
    id in rows && rows[id].status.Pending?
  }

  // ----- the steps, on the table -----

  function TooOld(j: Job, server: Server, now: int): bool {
    j.server == server && j.created < now - KEEP
  }

  function Stale(j: Job, server: Server, now: int): bool {
    j.server == server && j.status.Pending? && j.created < now - PENDING_TTL
  }

  /** A poll first expires what waited too long, then forgets old rows. */
  function Cleaned(rows: Rows, server: Server, now: int): Rows {
    map id | id in rows && !TooOld(rows[id], server, now)
      :: if Stale(rows[id], server, now) then rows[id].(status := Expired) else rows[id]
  }

  /** The first `limit` pending jobs of the server with ids from `a` up to `b`, in order. */
  function Waiting(rows: Rows, server: Server, a: JobId, b: JobId, limit: nat): seq<JobId>
    requires a <= b
    decreases b - a
  {
    if a == b || limit == 0 then []
    else if IsPending(rows, a) && rows[a].server == server then [a] + Waiting(rows, server, a + 1, b, limit - 1)
    else Waiting(rows, server, a + 1, b, limit)
  }

  function Marked(rows: Rows, ids: seq<JobId>): Rows {
    map id | id in rows :: if id in ids then rows[id].(status := Sent) else rows[id]
  }

  function Posted(rows: Rows, id: JobId, reply: Reply): Rows
    requires id in rows
  {
    rows[id := rows[id].(status := if reply.ok then Done else Failed, reply := Some(reply))]
  }

  function GivenUp(rows: Rows, id: JobId): Rows {
    if IsPending(rows, id) then rows[id := rows[id].(status := Expired)] else rows
  }

  /** How a caller's wait can end. */
  datatype Answer = Returned(reply: Reply) | TakenNoAnswer | NotTaken

  class JobTable {
    var rows: Rows
    var next: JobId

    constructor ()
      ensures rows == map[] && next == 0
    {
      rows, next := map[], 0;
    }

    method Enqueue(server: Server, op: string, now: int) returns (id: JobId)
      modifies this
      ensures id == old(next) && next == id + 1
      ensures rows == old(rows)[id := Job(server, op, Pending, now, None)]
    {
      id := next;
      rows := rows[id := Job(server, op, Pending, now, None)];
      next := next + 1;
    }

    /** Expires what waited too long, then forgets old rows. */
    method Clean(server: Server, now: int)
      modifies this`rows
      ensures rows == Cleaned(old(rows), server, now)
    {
      rows := map id | id in rows :: if Stale(rows[id], server, now) then rows[id].(status := Expired) else rows[id];
      rows := map id | id in rows && !TooOld(rows[id], server, now) :: rows[id];
    }

    /** The jobs that wait for the server, first added first. */
    method FirstPending(server: Server, limit: nat) returns (ids: seq<JobId>)
      ensures ids == Waiting(rows, server, 0, next, limit)
    {
      ids := [];
      var id := 0;
      while id < next && |ids| < limit
        invariant id <= next && |ids| <= limit
        invariant ids + Waiting(rows, server, id, next, limit - |ids|) == Waiting(rows, server, 0, next, limit)
      {
        if id in rows && rows[id].status.Pending? && rows[id].server == server {
          TakeOne(ids, id, Waiting(rows, server, id + 1, next, limit - |ids| - 1));
          ids := ids + [id];
        }
        id := id + 1;
      }
    }

    method TakePending(server: Server, now: int, limit: nat) returns (taken: seq<JobId>)
      modifies this`rows
      ensures taken == Waiting(Cleaned(old(rows), server, now), server, 0, next, limit)
      ensures rows == Marked(Cleaned(old(rows), server, now), taken)
      ensures forall id :: id in rows ==>
                && id in old(rows)
                && rows[id].(status := old(rows)[id].status) == old(rows)[id]
                && (rows[id].status == Sent && old(rows)[id].status != Sent <==> id in taken)
    {
      Clean(server, now);
      taken := FirstPending(server, limit);
      WaitingIs(rows, server, 0, next, limit);
      rows := Marked(rows, taken);
    }

    method Finish(server: Server, id: JobId, reply: Reply) returns (found: bool)
      modifies this`rows
      ensures found <==> id in old(rows) && old(rows)[id].server == server
      ensures !found ==> rows == old(rows)
      ensures found ==>
                var job := old(rows)[id];
                var status := if reply.ok then Done else Failed;
                rows == old(rows)[id := Job(server, job.op, status, job.created, Some(reply))]
    {
      if id !in rows || rows[id].server != server {
        return false;
      }
      rows := rows[id := rows[id].(status := if reply.ok then Done else Failed, reply := Some(reply))];
      found := true;
    }

    /** One look of the waiting caller. */
    method Look(id: JobId) returns (answer: Option<Answer>)
      ensures answer.Some? <==> id in rows && (rows[id].status.Done? || rows[id].status.Failed?) && rows[id].reply.Some?
      ensures answer.Some? ==> answer.value == Returned(rows[id].reply.value)
    {
      if id in rows && (rows[id].status.Done? || rows[id].status.Failed?) && rows[id].reply.Some? {
        return Some(Returned(rows[id].reply.value));
      }
      answer := None;
    }

    /** The deadline passed: drop the job if nobody has taken it. */
    method GiveUp(id: JobId)
      modifies this`rows
      ensures rows == GivenUp(old(rows), id)
      ensures rows == if id in old(rows) && old(rows)[id].status == Pending
                      then old(rows)[id := old(rows)[id].(status := Expired)] else old(rows)
    {
      if id in rows && rows[id].status.Pending? {
        rows := rows[id := rows[id].(status := Expired)];
      }
    }

    /** A step of a run, done by the call it stands for; the table of any run in this state goes the same way. */
    method Do(e: Event)
      modifies this
      ensures forall w: World :: w.rows == old(rows) && w.next == old(next) ==>
                rows == Step(w, e).rows && next == Step(w, e).next
    {
      match e
      case Add(server, op, now) =>
        var id := Enqueue(server, op, now);
      case Poll(server, now, limit) =>
        var taken := TakePending(server, now, limit);
      case Result(server, id, reply) =>
        var found := Finish(server, id, reply);
      case Deadline(id) =>
        GiveUp(id);
    }
  }

  lemma TakeOne(ids: seq<JobId>, id: JobId, rest: seq<JobId>)
    ensures ids + ([id] + rest) == (ids + [id]) + rest
  {
  }

  /** What the caller is told after that. */
  function LastWordOn(rows: Rows, id: JobId): Answer {
    if id in rows && rows[id].status.Sent? then TakenNoAnswer else NotTaken
  }

  // ----- runs -----

  datatype Handing = Handing(id: JobId, server: Server)

  datatype Post = Post(id: JobId, server: Server, reply: Reply)

  /** The table, and what has happened: jobs handed to plugins, jobs that ever expired, results taken in. */
  datatype World = World(rows: Rows, next: JobId, handed: seq<Handing>, expired: set<JobId>, posts: seq<Post>)

  const START := World(map[], 0, [], {}, [])

  datatype Event =
    | Add(server: Server, op: string, now: int)
    | Poll(server: Server, now: int, limit: nat)
    | Result(server: Server, id: JobId, reply: Reply)
    | Deadline(id: JobId)

  function Handings(ids: seq<JobId>, server: Server): seq<Handing> {
    seq(|ids|, i requires 0 <= i < |ids| => Handing(ids[i], server))
  }

  /** The jobs a poll hands out. */
  function Taken(w: World, server: Server, now: int, limit: nat): seq<JobId> {
    Waiting(Cleaned(w.rows, server, now), server, 0, w.next, limit)
  }

  function Step(w: World, e: Event): World {
    match e
    case Add(server, op, now) =>
      w.(rows := w.rows[w.next := Job(server, op, Pending, now, None)], next := w.next + 1)
    case Poll(server, now, limit) =>
      var ids := Taken(w, server, now, limit);
      w.(rows := Marked(Cleaned(w.rows, server, now), ids),
         handed := w.handed + Handings(ids, server),
         expired := w.expired + set id | id in w.rows && Stale(w.rows[id], server, now))
    case Result(server, id, reply) =>
      if id !in w.rows || w.rows[id].server != server then w
      else w.(rows := Posted(w.rows, id, reply), posts := w.posts + [Post(id, server, reply)])
    case Deadline(id) =>
      w.(rows := GivenUp(w.rows, id), expired := w.expired + if IsPending(w.rows, id) then {id} else {})
  }

  function After(es: seq<Event>): World {
    if es == [] then START else Step(After(es[..|es| - 1]), es[|es| - 1])
  }

  predicate WasHanded(w: World, id: JobId) {
    exists i :: 0 <= i < |w.handed| && w.handed[i].id == id
  }

  /** The newest result taken in for a job. */
  function NewestPost(posts: seq<Post>, id: JobId): Option<Post> {
    if posts == [] then None
    else if posts[|posts| - 1].id == id then Some(posts[|posts| - 1])
    else NewestPost(posts[..|posts| - 1], id)
  }

  ghost predicate Inv(w: World) {
    HandingInv(w) && RowsInv(w)
  }

  /** Each server's jobs are handed out in the order they were added, and a waiting one comes after them all. */
  ghost predicate HandingInv(w: World) {
    NoneExpired(w) && InOrder(w) && WaitBehind(w)
  }

  ghost predicate NoneExpired(w: World) {
    forall i :: 0 <= i < |w.handed| ==> w.handed[i].id < w.next && w.handed[i].id !in w.expired
  }

  ghost predicate InOrder(w: World) {
    forall i, j :: 0 <= i < j < |w.handed| ==>
      w.handed[i].id != w.handed[j].id && (w.handed[i].server == w.handed[j].server ==> w.handed[i].id < w.handed[j].id)
  }

  ghost predicate WaitBehind(w: World) {
    forall i, id :: 0 <= i < |w.handed| && IsPending(w.rows, id) ==>
      id != w.handed[i].id && (w.rows[id].server == w.handed[i].server ==> w.handed[i].id < id)
  }

  ghost predicate RowsInv(w: World) {
    && (forall id :: id in w.rows || id in w.expired ==> id < w.next)
    && (forall id :: IsPending(w.rows, id) ==> id !in w.expired && NewestPost(w.posts, id) == None)
    && (forall id :: id in w.rows && w.rows[id].status.Sent? ==> WasHanded(w, id))
    && (forall id :: id in w.rows && w.rows[id].status.Expired? ==> id in w.expired)
    && (forall id :: id in w.rows && (w.rows[id].status.Done? || w.rows[id].status.Failed?) ==>
          w.rows[id].reply.Some?
              && NewestPost(w.posts, id) == Some(Post(id, w.rows[id].server, w.rows[id].reply.value)))
    && (forall i :: 0 <= i < |w.posts| ==> w.posts[i].id < w.next)
  }

  lemma {:induction false} WaitingIs(rows: Rows, server: Server, a: JobId, b: JobId, limit: nat)
    requires a <= b
    ensures var ids := Waiting(rows, server, a, b, limit);
            && |ids| <= limit
            && (forall i :: 0 <= i < |ids| ==>
                  a <= ids[i] < b && IsPending(rows, ids[i]) && rows[ids[i]].server == server)
            && (forall i, j :: 0 <= i < j < |ids| ==> ids[i] < ids[j])
            && (forall i, id ::
                  0 <= i < |ids| && a <= id < b && IsPending(rows, id) && rows[id].server == server && id !in ids
                  ==> ids[i] < id)
    decreases b - a
  {
    if a < b && limit > 0 {
      if IsPending(rows, a) && rows[a].server == server {
        WaitingIs(rows, server, a + 1, b, limit - 1);
        var ids, rest := Waiting(rows, server, a, b, limit), Waiting(rows, server, a + 1, b, limit - 1);
        assert forall id :: id in ids <==> id == a || id in rest;
      } else {
        WaitingIs(rows, server, a + 1, b, limit);
      }
    }
  }

  lemma {:induction false} NewestPostIn(posts: seq<Post>, id: JobId)
    ensures NewestPost(posts, id).Some? ==> NewestPost(posts, id).value in posts && NewestPost(posts, id).value.id == id
  {
    if posts != [] {
      NewestPostIn(posts[..|posts| - 1], id);
    }
  }

  // ----- what a poll hands out, from the rows -----

  /** Those of the pending jobs of the server with ids from `a` up to `b`. */
  function Between(rows: Rows, server: Server, a: JobId, b: JobId): set<JobId> {
    set id | id in rows && a <= id < b && rows[id].status == Pending && rows[id].server == server
  }

  lemma BetweenMore(rows: Rows, server: Server, a: JobId, b: JobId)
    requires a < b
    ensures var waits := a in rows && rows[a].status == Pending && rows[a].server == server;
            |Between(rows, server, a, b)| == |Between(rows, server, a + 1, b)| + if waits then 1 else 0
  {
    var all, rest := Between(rows, server, a, b), Between(rows, server, a + 1, b);
    if a in all {
      assert all == {a} + rest;
    } else {
      assert all == rest;
    }
  }

  /** A pending job of the server is taken exactly if fewer than `limit` of them were added before it. */
  lemma {:induction false} WaitingTakesIff(rows: Rows, server: Server, a: JobId, b: JobId, limit: nat, id: JobId)
    requires a <= b
    ensures id in Waiting(rows, server, a, b, limit)
            <==> id in Between(rows, server, a, b) && |Between(rows, server, a, id)| < limit
    decreases b - a
  {
    if a < b {
      var left := if a in Between(rows, server, a, b) then limit - 1 else limit;
      if limit > 0 {
        WaitingTakesIff(rows, server, a + 1, b, left, id);
      }
      if a < id {
        BetweenMore(rows, server, a, id);
      } else {
        assert Between(rows, server, a, id) == {};
      }
    }
  }

  /** As many are taken as there are, up to `limit`. */
  lemma {:induction false} WaitingCounts(rows: Rows, server: Server, a: JobId, b: JobId, limit: nat)
    requires a <= b
    ensures var n := |Between(rows, server, a, b)|;
            |Waiting(rows, server, a, b, limit)| == if n < limit then n else limit
    decreases b - a
  {
    if a == b {
      assert Between(rows, server, a, b) == {};
    } else {
      BetweenMore(rows, server, a, b);
      if limit > 0 {
        WaitingCounts(rows, server, a + 1, b, if a in Between(rows, server, a, b) then limit - 1 else limit);
      }
    }
  }

  /**
   What a poll's clean-up does to each row: the server's rows older than ten minutes go,
   its jobs that waited for more than a minute expire, and the rest stays.
   */
  lemma CleanedIs(rows: Rows, server: Server, now: int, id: JobId)
    requires id in rows
    ensures id in Cleaned(rows, server, now) <==> rows[id].server != server || now - rows[id].created <= 600
    ensures id in Cleaned(rows, server, now) ==>
              Cleaned(rows, server, now)[id]
              == if rows[id].server == server && rows[id].status == Pending && now - rows[id].created > 60
                 then rows[id].(status := Expired) else rows[id]
  {
  }

  /** The jobs that wait for the server, have done so for no more than a minute, and have ids from `a` up to `b`. */
  function Fresh(rows: Rows, server: Server, now: int, a: JobId, b: JobId): set<JobId> {
    set id | id in rows && a <= id < b && rows[id].status == Pending && rows[id].server == server
             && now - rows[id].created <= 60
  }

  lemma CleanedLeavesFresh(rows: Rows, server: Server, now: int, a: JobId, b: JobId)
    ensures Between(Cleaned(rows, server, now), server, a, b) == Fresh(rows, server, now, a, b)
  {
    var after := Cleaned(rows, server, now);
    forall id: JobId
      ensures id in Between(after, server, a, b) <==> id in Fresh(rows, server, now, a, b)
    {
      if id in rows {
        CleanedIs(rows, server, now, id);
      }
    }
  }

  /**
   What a poll hands out: a job of the server exactly if it is pending, has waited for no
   more than a minute, and fewer than `limit` such jobs were added before it; and `limit`
   of them as long as there are so many.
   */
  lemma PollTakesIff(w: World, server: Server, now: int, limit: nat, id: JobId)
    requires forall x :: x in w.rows ==> x < w.next
    ensures id in Taken(w, server, now, limit)
            <==> && id in w.rows && w.rows[id].status == Pending && w.rows[id].server == server
                 && now - w.rows[id].created <= 60
                 && |Fresh(w.rows, server, now, 0, id)| < limit
    ensures var n := |Fresh(w.rows, server, now, 0, w.next)|;
            |Taken(w, server, now, limit)| == if n < limit then n else limit
  {
    var after := Cleaned(w.rows, server, now);
    WaitingTakesIff(after, server, 0, w.next, limit, id);
    WaitingCounts(after, server, 0, w.next, limit);
    CleanedLeavesFresh(w.rows, server, now, 0, w.next);
    CleanedLeavesFresh(w.rows, server, now, 0, id);
  }

  /** A poll that hands out fewer than it may leaves no job of the server waiting. */
  lemma ShortPollLeavesNone(w: World, server: Server, now: int, limit: nat)
    requires (forall x :: x in w.rows ==> x < w.next) && |Taken(w, server, now, limit)| < limit
    ensures var rows := Step(w, Poll(server, now, limit)).rows;
            forall id :: id in rows && rows[id].server == server ==> rows[id].status != Pending
  {
    var rows := Step(w, Poll(server, now, limit)).rows;
    forall id | id in rows && rows[id].server == server
      ensures rows[id].status != Pending
    {
      PollTakesIff(w, server, now, limit, id);
      CleanedIs(w.rows, server, now, id);
      if id in Fresh(w.rows, server, now, 0, w.next) {
        FewerBefore(w.rows, server, now, id, w.next);
      }
    }
  }

  lemma FewerBefore(rows: Rows, server: Server, now: int, a: JobId, b: JobId)
    requires a <= b
    ensures |Fresh(rows, server, now, 0, a)| <= |Fresh(rows, server, now, 0, b)|
  {
    var less, more := Fresh(rows, server, now, 0, a), Fresh(rows, server, now, 0, b);
    assert more == less + (more - less);
  }

  /** In any run, a poll of its server hands out a waiting job exactly if it is fresh and near enough to the front. */
  lemma PollHandsOutIff(es: seq<Event>, server: Server, now: int, limit: nat, id: JobId)
    requires IsPending(After(es).rows, id) && After(es).rows[id].server == server
    ensures WasHanded(After(es + [Poll(server, now, limit)]), id)
            <==> && now - After(es).rows[id].created <= 60
                 && |Fresh(After(es).rows, server, now, 0, id)| < limit
  {
    var w := After(es);
    RunsKeepInv(es);
    AfterOneMore(es, Poll(server, now, limit));
    PollTakesIff(w, server, now, limit, id);
    PollHandsSent(w, server, now, limit, id);
    assert forall i :: 0 <= i < |w.handed| ==> w.handed[i].id != id;
  }

  // ----- what every run keeps -----

  /** A poll takes jobs that were waiting and had never expired, in order. */
  lemma TakenIs(w: World, server: Server, now: int, limit: nat)
    requires Inv(w)
    ensures var ids, w' := Taken(w, server, now, limit), Step(w, Poll(server, now, limit));
            && (forall i :: 0 <= i < |ids| ==>
                  IsPending(w.rows, ids[i]) && w.rows[ids[i]].server == server && ids[i] !in w'.expired)
            && (forall i, j :: 0 <= i < j < |ids| ==> ids[i] < ids[j])
  {
    WaitingIs(Cleaned(w.rows, server, now), server, 0, w.next, limit);
  }

  /** What still waits after a poll waited before, and behind all it took for that server. */
  lemma PollLeaves(w: World, server: Server, now: int, limit: nat, id: JobId)
    requires Inv(w) && IsPending(Step(w, Poll(server, now, limit)).rows, id)
    ensures IsPending(w.rows, id) && Step(w, Poll(server, now, limit)).rows[id] == w.rows[id]
    ensures var ids := Taken(w, server, now, limit);
            forall i :: 0 <= i < |ids| ==> id != ids[i] && (w.rows[id].server == server ==> ids[i] < id)
  {
    var rows, ids := Cleaned(w.rows, server, now), Taken(w, server, now, limit);
    WaitingIs(rows, server, 0, w.next, limit);
    assert IsPending(rows, id) && id !in ids;
    forall i | 0 <= i < |ids|
      ensures id != ids[i] && (w.rows[id].server == server ==> ids[i] < id)
    {
      assert ids[i] in ids;
    }
  }

  lemma PollHandsOn(w: World, server: Server, now: int, limit: nat, i: nat)
    requires i < |Step(w, Poll(server, now, limit)).handed|
    ensures Step(w, Poll(server, now, limit)).handed[i]
            == if i < |w.handed| then w.handed[i] else Handing(Taken(w, server, now, limit)[i - |w.handed|], server)
  {
  }

  lemma PollKeepsHandedOrder(w: World, server: Server, now: int, limit: nat, i: nat, j: nat)
    requires Inv(w) && i < j < |Step(w, Poll(server, now, limit)).handed|
    ensures var handed := Step(w, Poll(server, now, limit)).handed;
            handed[i].id != handed[j].id && (handed[i].server == handed[j].server ==> handed[i].id < handed[j].id)
  {
    PollHandsOn(w, server, now, limit, i);
    PollHandsOn(w, server, now, limit, j);
    TakenIs(w, server, now, limit);
    if i < |w.handed| <= j {
      assert IsPending(w.rows, Taken(w, server, now, limit)[j - |w.handed|]);
    }
  }

  lemma PollExpiresNone(w: World, server: Server, now: int, limit: nat)
    requires Inv(w)
    ensures NoneExpired(Step(w, Poll(server, now, limit)))
  {
    var w' := Step(w, Poll(server, now, limit));
    TakenIs(w, server, now, limit);
    forall i | 0 <= i < |w'.handed|
      ensures w'.handed[i].id < w'.next && w'.handed[i].id !in w'.expired
    {
      PollHandsOn(w, server, now, limit, i);
      assert i < |w.handed| ==> !IsPending(w.rows, w.handed[i].id);
    }
  }

  lemma PollKeepsBehind(w: World, server: Server, now: int, limit: nat)
    requires Inv(w)
    ensures WaitBehind(Step(w, Poll(server, now, limit)))
  {
    var w' := Step(w, Poll(server, now, limit));
    forall i, id | 0 <= i < |w'.handed| && IsPending(w'.rows, id)
      ensures id != w'.handed[i].id && (w'.rows[id].server == w'.handed[i].server ==> w'.handed[i].id < id)
    {
      PollLeaves(w, server, now, limit, id);
      PollHandsOn(w, server, now, limit, i);
    }
  }

  lemma PollKeepsHanding(w: World, server: Server, now: int, limit: nat)
    requires Inv(w)
    ensures HandingInv(Step(w, Poll(server, now, limit)))
  {
    var w' := Step(w, Poll(server, now, limit));
    PollExpiresNone(w, server, now, limit);
    PollKeepsBehind(w, server, now, limit);
    forall i, j | 0 <= i < j < |w'.handed|
      ensures w'.handed[i].id != w'.handed[j].id
      ensures w'.handed[i].server == w'.handed[j].server ==> w'.handed[i].id < w'.handed[j].id
    {
      PollKeepsHandedOrder(w, server, now, limit, i, j);
    }
  }

  lemma PollHandsSent(w: World, server: Server, now: int, limit: nat, id: JobId)
    requires Inv(w)
    ensures WasHanded(w, id) || id in Taken(w, server, now, limit)
            <==> WasHanded(Step(w, Poll(server, now, limit)), id)
  {
    var ids, w' := Taken(w, server, now, limit), Step(w, Poll(server, now, limit));
    if id in ids {
      var i :| 0 <= i < |ids| && ids[i] == id;
      PollHandsOn(w, server, now, limit, |w.handed| + i);
      assert w'.handed[|w.handed| + i].id == id;
    }
    if WasHanded(w, id) {
      var i :| 0 <= i < |w.handed| && w.handed[i].id == id;
      PollHandsOn(w, server, now, limit, i);
      assert w'.handed[i].id == id;
    }
    if WasHanded(w', id) {
      var i :| 0 <= i < |w'.handed| && w'.handed[i].id == id;
      PollHandsOn(w, server, now, limit, i);
    }
  }

  lemma PollKeepsRows(w: World, server: Server, now: int, limit: nat)
    requires Inv(w)
    ensures RowsInv(Step(w, Poll(server, now, limit)))
  {
    var w' := Step(w, Poll(server, now, limit));
    forall id | id in w'.rows && w'.rows[id].status.Sent?
      ensures WasHanded(w', id)
    {
      PollHandsSent(w, server, now, limit, id);
    }
  }

  lemma ResultKeepsRows(w: World, server: Server, id: JobId, reply: Reply)
    requires Inv(w) && id in w.rows && w.rows[id].server == server
    ensures RowsInv(Step(w, Result(server, id, reply)))
  {
    var w' := Step(w, Result(server, id, reply));
    assert w'.posts[..|w.posts|] == w.posts;
    forall x | x in w'.rows && w'.rows[x].status.Sent?
      ensures WasHanded(w', x)
    {
      assert WasHanded(w, x);
    }
  }

  lemma AddKeepsHanding(w: World, server: Server, op: string, now: int)
    requires Inv(w)
    ensures HandingInv(Step(w, Add(server, op, now)))
  {
    var w' := Step(w, Add(server, op, now));
    forall i, id | 0 <= i < |w'.handed| && IsPending(w'.rows, id)
      ensures id != w'.handed[i].id && (w'.rows[id].server == w'.handed[i].server ==> w'.handed[i].id < id)
    {
      assert id != w.next ==> IsPending(w.rows, id);
    }
  }

  lemma AddKeepsRows(w: World, server: Server, op: string, now: int)
    requires Inv(w)
    ensures RowsInv(Step(w, Add(server, op, now)))
  {
    var w' := Step(w, Add(server, op, now));
    NewestPostIn(w.posts, w.next);
    forall id | id in w'.rows && w'.rows[id].status.Sent?
      ensures WasHanded(w', id)
    {
      assert WasHanded(w, id);
    }
  }

  lemma DeadlineKeepsHanding(w: World, x: JobId)
    requires Inv(w)
    ensures HandingInv(Step(w, Deadline(x)))
  {
    var w' := Step(w, Deadline(x));
    forall i, id | 0 <= i < |w'.handed| && IsPending(w'.rows, id)
      ensures id != w'.handed[i].id && (w'.rows[id].server == w'.handed[i].server ==> w'.handed[i].id < id)
    {
      assert IsPending(w.rows, id);
    }
  }

  lemma DeadlineKeepsRows(w: World, x: JobId)
    requires Inv(w)
    ensures RowsInv(Step(w, Deadline(x)))
  {
    var w' := Step(w, Deadline(x));
    forall id | id in w'.rows && w'.rows[id].status.Sent?
      ensures WasHanded(w', id)
    {
      assert WasHanded(w, id);
    }
    forall id | IsPending(w'.rows, id)
      ensures IsPending(w.rows, id) && id != x
    {
    }
  }

  lemma StepKeepsInv(w: World, e: Event)
    requires Inv(w)
    ensures Inv(Step(w, e))
  {
    match e
    case Add(server, op, now) =>
      AddKeepsHanding(w, server, op, now);
      AddKeepsRows(w, server, op, now);
    case Poll(server, now, limit) =>
      PollKeepsHanding(w, server, now, limit);
      PollKeepsRows(w, server, now, limit);
    case Result(server, id, reply) =>
      if id in w.rows && w.rows[id].server == server {
        ResultKeepsRows(w, server, id, reply);
      }
    case Deadline(x) =>
      DeadlineKeepsHanding(w, x);
      DeadlineKeepsRows(w, x);
  }

  lemma {:induction false} RunsKeepInv(es: seq<Event>)
    ensures Inv(After(es))
    decreases |es|
  {
    if es != [] {
      RunsKeepInv(es[..|es| - 1]);
      StepKeepsInv(After(es[..|es| - 1]), es[|es| - 1]);
    }
  }

  /**
   Whatever the interleaving: no job is handed out twice, none both expires and is
   handed out, and a server's plugin gets its jobs in the order they were added.
   */
  lemma HandedOnceInOrder(es: seq<Event>)
    ensures var w := After(es);
            && (forall i, j :: 0 <= i < j < |w.handed| ==> w.handed[i].id != w.handed[j].id)
            && (forall i, j :: 0 <= i < j < |w.handed| && w.handed[i].server == w.handed[j].server ==>
                  w.handed[i].id < w.handed[j].id)
            && (forall i :: 0 <= i < |w.handed| ==> w.handed[i].id !in w.expired)
  {
    RunsKeepInv(es);
  }

  /** A result a caller gets was posted for its very job, by the plugin of the job's server, and nothing newer was. */
  lemma ReturnedWasPosted(es: seq<Event>, id: JobId)
    requires id in After(es).rows && (After(es).rows[id].status.Done? || After(es).rows[id].status.Failed?)
    ensures var w := After(es);
            && w.rows[id].reply.Some?
            && NewestPost(w.posts, id) == Some(Post(id, w.rows[id].server, w.rows[id].reply.value))
            && Post(id, w.rows[id].server, w.rows[id].reply.value) in w.posts
  {
    RunsKeepInv(es);
    NewestPostIn(After(es).posts, id);
  }

  // ----- giving up -----

  lemma StepNeverRevives(w: World, e: Event, id: JobId)
    requires Inv(w) && id < w.next && !IsPending(w.rows, id)
    ensures id < Step(w, e).next && !IsPending(Step(w, e).rows, id)
    ensures WasHanded(Step(w, e), id) <==> WasHanded(w, id)
  {
    if e.Poll? {
      TakenIs(w, e.server, e.now, e.limit);
      PollHandsSent(w, e.server, e.now, e.limit, id);
    } else {
      assert Step(w, e).handed == w.handed;
    }
  }

  /** After its caller's deadline a job never waits again, and is handed out later only if it had been before. */
  lemma {:induction false} NoLateRun(es: seq<Event>, id: JobId, more: seq<Event>)
    requires id < After(es).next
    ensures WasHanded(After(es + [Deadline(id)] + more), id) <==> WasHanded(After(es), id)
    ensures !IsPending(After(es + [Deadline(id)] + more).rows, id) && id < After(es + [Deadline(id)] + more).next
    decreases |more|
  {
    var all := es + [Deadline(id)] + more;
    if more == [] {
      assert all[..|all| - 1] == es;
      assert After(all).handed == After(es).handed;
    } else {
      assert all[..|all| - 1] == es + [Deadline(id)] + more[..|more| - 1];
      NoLateRun(es, id, more[..|more| - 1]);
      RunsKeepInv(all[..|all| - 1]);
      StepNeverRevives(After(all[..|all| - 1]), all[|all| - 1], id);
    }
  }

  /** The plugin posts results only for jobs it was handed. */
  ghost predicate Honest(es: seq<Event>) {
    forall n :: 0 <= n < |es| && es[n].Result? ==> WasHanded(After(es[..n]), es[n].id)
  }

  /** Every job waits, has expired or was handed out. */
  ghost predicate Accounted(w: World) {
    forall id: JobId :: id < w.next ==> IsPending(w.rows, id) || id in w.expired || WasHanded(w, id)
  }

  lemma StepKeepsAccounted(w: World, e: Event)
    requires Inv(w) && Accounted(w) && (e.Result? ==> WasHanded(w, e.id))
    ensures Accounted(Step(w, e))
  {
    var w' := Step(w, e);
    forall id: JobId | id < w'.next
      ensures IsPending(w'.rows, id) || id in w'.expired || WasHanded(w', id)
    {
      if e.Poll? {
        PollHandsSent(w, e.server, e.now, e.limit, id);
      } else {
        assert w'.handed == w.handed;
        assert WasHanded(w, id) ==> WasHanded(w', id);
      }
    }
  }

  lemma {:induction false} HonestIsAccounted(es: seq<Event>)
    requires Honest(es)
    ensures Accounted(After(es))
    decreases |es|
  {
    if es != [] {
      var n := |es| - 1;
      HonestBefore(es, n);
      HonestIsAccounted(es[..n]);
      RunsKeepInv(es[..n]);
      StepKeepsAccounted(After(es[..n]), es[n]);
    }
  }

  lemma HonestBefore(es: seq<Event>, n: nat)
    requires Honest(es) && n <= |es|
    ensures Honest(es[..n])
  {
    var before := es[..n];
    forall m | 0 <= m < n && before[m].Result?
      ensures WasHanded(After(before[..m]), before[m].id)
    {
      assert before[..m] == es[..m] && es[m] == before[m];
    }
  }

  lemma {:induction false} HonestAnswers(es: seq<Event>, id: JobId)
    requires Honest(es) && id in After(es).rows
            && (After(es).rows[id].status.Done? || After(es).rows[id].status.Failed?)
    ensures WasHanded(After(es), id)
    decreases |es|
  {
    var n := |es| - 1;
    var before, e := es[..n], es[n];
    var w := After(before);
    HonestBefore(es, n);
    if id in w.rows && (w.rows[id].status.Done? || w.rows[id].status.Failed?) {
      HonestAnswers(before, id);
    }
    assert WasHanded(w, id);
    var i :| 0 <= i < |w.handed| && w.handed[i].id == id;
    assert After(es).handed[i].id == id;
  }

  /**
   The caller's last word. "Taken, no answer" is always true. "Not taken" is said when
   the row is not marked sent. It is true exactly when the job has expired, which, while
   the row is there, its status tells: a result that came between the last look and the
   deadline makes it false, and so does the clean-up of a row that was sent.
   */
  lemma LastWordIsTrueIff(es: seq<Event>, id: JobId, between: seq<Event>)
    requires id < After(es).next && Honest(es + [Deadline(id)] + between)
    ensures var w := After(es + [Deadline(id)] + between);
            && (LastWordOn(w.rows, id) == TakenNoAnswer ==> WasHanded(w, id))
            && (!WasHanded(w, id) <==> id in w.expired)
            && (id in w.rows ==> (id in w.expired <==> w.rows[id].status.Expired?))
  {
    var all := es + [Deadline(id)] + between;
    var w := After(all);
    RunsKeepInv(all);
    NoLateRun(es, id, between);
    HonestIsAccounted(all);
    if WasHanded(w, id) {
      var i :| 0 <= i < |w.handed| && w.handed[i].id == id;
    }
    if id in w.rows && (w.rows[id].status.Done? || w.rows[id].status.Failed?) {
      HonestAnswers(all, id);
    }
  }

  /**
   At the deadline itself, while the row is there, the table of just before tells:
   nobody has been handed the job exactly if its row is pending or expired.
   */
  lemma LastWordAtDeadlineIff(es: seq<Event>, id: JobId)
    requires Honest(es) && id in After(es).rows
    ensures var row, w := After(es).rows[id], After(es + [Deadline(id)]);
            && (!WasHanded(w, id) <==> row.status.Pending? || row.status.Expired?)
            && (LastWordOn(w.rows, id) == NotTaken <==> !row.status.Sent?)
  {
    RunsKeepInv(es);
    HonestIsAccounted(es);
    AfterOneMore(es, Deadline(id));
    var w := After(es);
    assert WasHanded(After(es + [Deadline(id)]), id) <==> WasHanded(w, id);
    if w.rows[id].status.Done? || w.rows[id].status.Failed? {
      HonestAnswers(es, id);
    }
  }

  /** And that does happen, to any job being done whose result comes just before its caller gives up. */
  lemma LateAnswerIsCalledNotTaken(es: seq<Event>, id: JobId, reply: Reply)
    requires id in After(es).rows && After(es).rows[id].status.Sent?
    ensures var w := After(es + [Result(After(es).rows[id].server, id, reply)] + [Deadline(id)]);
            LastWordOn(w.rows, id) == NotTaken && WasHanded(w, id) && id in w.rows && w.rows[id].reply == Some(reply)
  {
    var e := Result(After(es).rows[id].server, id, reply);
    RunsKeepInv(es);
    AfterOneMore(es, e);
    AfterOneMore(es + [e], Deadline(id));
    var i :| 0 <= i < |After(es).handed| && After(es).handed[i].id == id;
    assert After(es + [e] + [Deadline(id)]).handed[i].id == id;
  }

  lemma AfterOneMore(es: seq<Event>, e: Event)
    ensures After(es + [e]) == Step(After(es), e)
  {
    assert (es + [e])[..|es|] == es;
  }
}
