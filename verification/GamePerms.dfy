/**
 In-game permissions (apps/api/app/core/game_perms.py): the panel's tables, the
 reconciliation of what people should have with what the panel has put on them,
 the results the game plugin posts back, and the weight hierarchy of hand-outs.
 */
module GamePerms {
  import opened Wrappers

  type ServerId = string
  type UserId = string
  type RoleId = string
  type GroupName = string

  /** One person's membership of one group on one server. */
  datatype Grant = Grant(server: ServerId, user: UserId, group: GroupName)

  /** `servers == None`: the role is for every server. */
  datatype Role = Role(badge: bool, servers: Option<set<ServerId>>, groups: map<ServerId, seq<GroupName>>)

  datatype GroupInfo = GroupInfo(name: GroupName, weight: int)

  /** A LuckPerms change. Removing a group given by hand in the game names no panel user. */
  datatype Op =
    | UserParent(user: Option<UserId>, nick: string, group: GroupName, remove: bool)
    | GroupEdit(kind: string, group: GroupName)

  datatype Status = Pending | Done | Failed

  datatype OpRow = OpRow(server: ServerId, op: Op, status: Status)

  /** The tables as one value. */
  datatype World = World(
    roles: map<RoleId, Role>,
    members: set<(RoleId, UserId)>,
    direct: set<Grant>,
    catalogs: map<ServerId, seq<GroupInfo>>,
    nicks: map<UserId, string>,
    applied: set<Grant>,
    ops: seq<OpRow>)

  // ----- who should have what -----

  predicate RoleActs(r: Role, sid: ServerId) {
    && !r.badge
    && sid in r.groups
    && (r.servers == None || sid in r.servers.value)
  }

  function Desired(w: World, sid: ServerId): set<Grant> {
    (set m, g | m in w.members && m.0 in w.roles && RoleActs(w.roles[m.0], sid) && g in w.roles[m.0].groups[sid]
       :: Grant(sid, m.1, g))
    + (set d | d in w.direct && d.server == sid)
  }

  /** Membership of a role that is no badge, lists the group for the server, and is for all servers or for that one. */
  ghost predicate ThroughRole(w: World, k: Grant) {
    exists r: RoleId ::
      && (r, k.user) in w.members && r in w.roles && !w.roles[r].badge
      && k.server in w.roles[r].groups && k.group in w.roles[r].groups[k.server]
      && (w.roles[r].servers.None? || k.server in w.roles[r].servers.value)
  }

  /** What people are to have, from the rows alone: direct grants, and groups of their roles. */
  lemma DesiredIs(w: World, k: Grant)
    ensures k in Desired(w, k.server) <==> k in w.direct || ThroughRole(w, k)
    ensures forall sid :: sid != k.server ==> k !in Desired(w, sid)
  {
    if ThroughRole(w, k) {
      var r: RoleId :| (r, k.user) in w.members && r in w.roles && !w.roles[r].badge
                       && k.server in w.roles[r].groups && k.group in w.roles[r].groups[k.server]
                       && (w.roles[r].servers.None? || k.server in w.roles[r].servers.value);
      var m := (r, k.user);
      assert m in w.members && RoleActs(w.roles[m.0], k.server);
    }
  }

  /** A badge, and a role limited to other servers, give nothing on a server, whoever has it. */
  lemma IdleRoleGivesNothing(w: World, sid: ServerId, r: RoleId)
    requires r in w.roles
    requires w.roles[r].badge || (w.roles[r].servers.Some? && sid !in w.roles[r].servers.value)
    ensures Desired(w.(members := set m | m in w.members && m.0 != r), sid) == Desired(w, sid)
  {
    var w' := w.(members := set m | m in w.members && m.0 != r);
    forall k: Grant | k.server == sid
      ensures k in Desired(w', sid) <==> k in Desired(w, sid)
    {
      DesiredIs(w, k);
      DesiredIs(w', k);
    }
    assert forall k :: k in Desired(w, sid) + Desired(w', sid) ==> k.server == sid;
  }

  function Known(w: World, sid: ServerId): set<GroupName> {
    if sid in w.catalogs then set g | g in w.catalogs[sid] :: g.name else {}
  }

  function Want(w: World, sid: ServerId): set<Grant> {
    set k | k in Desired(w, sid) && k.group in Known(w, sid)
  }

  function Have(w: World, sid: ServerId): set<Grant> {
    set k | k in w.applied && k.server == sid
  }

  predicate HasNick(w: World, u: UserId) {
    u in w.nicks && w.nicks[u] != ""
  }

  // ----- the queue -----

  predicate Keyed(row: OpRow) {
    row.op.UserParent? && row.op.user.Some?
  }

  function GrantOf(row: OpRow): Grant
    requires Keyed(row)
  {
    Grant(row.server, row.op.user.value, row.op.group)
  }

  /** The row is about grant `k`. */
  predicate About(row: OpRow, k: Grant) {
    Keyed(row) && GrantOf(row) == k
  }

  predicate Queued(ops: seq<OpRow>, k: Grant, remove: bool) {
    exists i :: 0 <= i < |ops| && ops[i].status.Pending? && About(ops[i], k) && ops[i].op.remove == remove
  }

  /** A difference `reconcile` has to queue. */
  datatype Change = Change(grant: Grant, remove: bool)

  function ChangeOf(row: OpRow): Change
    requires Keyed(row)
  {
    Change(GrantOf(row), row.op.remove)
  }

  ghost function Missing(w: World, sid: ServerId): set<Change> {
    if Known(w, sid) == {} then {}
    else ToQueue(w, Want(w, sid) - Have(w, sid), false) + ToQueue(w, Have(w, sid) - Want(w, sid), true)
  }

  /** One operation per grant of `ks`, unless it is queued already or its owner has no nickname. */
  ghost function ToQueue(w: World, ks: set<Grant>, remove: bool): set<Change> {
    set k | k in ks && !Queued(w.ops, k, remove) && HasNick(w, k.user) :: Change(k, remove)
  }

  predicate RowFor(w: World, row: OpRow) {
    && Keyed(row)
    && row.status == Pending
    && HasNick(w, row.op.user.value)
    && row.op.nick == w.nicks[row.op.user.value]
  }

  /** `added` queues each change of `cs` exactly once, in some order. */
  ghost predicate Queues(w: World, added: seq<OpRow>, cs: set<Change>) {
    && (forall i :: 0 <= i < |added| ==> RowFor(w, added[i]) && ChangeOf(added[i]) in cs)
    && (forall c :: c in cs ==> exists i :: 0 <= i < |added| && RowFor(w, added[i]) && ChangeOf(added[i]) == c)
    && (forall i, j :: 0 <= i < j < |added| && RowFor(w, added[i]) && RowFor(w, added[j])
          ==> ChangeOf(added[i]) != ChangeOf(added[j]))
  }

  /** What one call of `reconcile` does to the tables, and the count it returns. */
  ghost predicate Reconciled(w: World, w': World, sid: ServerId, n: nat) {
    && w' == w.(ops := w'.ops)
    && w.ops <= w'.ops
    && n == |w'.ops| - |w.ops|
    && Queues(w, w'.ops[|w.ops|..], Missing(w, sid))
  }

  /** What the first posted result of an operation does; later ones are ignored. */
  function Answered(w: World, i: nat, ok: bool): World {
    if i >= |w.ops| || !w.ops[i].status.Pending? then w else
      var row := w.ops[i];
      var w' := w.(ops := w.ops[i := row.(status := if ok then Done else Failed)]);
      if !ok || !Keyed(row) then w'
      else if row.op.remove then w'.(applied := w.applied - {GrantOf(row)})
      else w'.(applied := w.applied + {GrantOf(row)})
  }

  /** The panel's tables; a session's commit is one method call. */
  class PermTables {
    var roles: map<RoleId, Role>
    var members: set<(RoleId, UserId)>
    var direct: set<Grant>
    var catalogs: map<ServerId, seq<GroupInfo>>
    var nicks: map<UserId, string>
    var applied: set<Grant>
    var ops: seq<OpRow>

    ghost function Value(): World
      reads this
    {
      World(roles, members, direct, catalogs, nicks, applied, ops)
    }

    method ComputeDesired(sid: ServerId) returns (out: set<Grant>)
      ensures out == Desired(Value(), sid)
    {
      var acting: set<RoleId> := set r | r in roles && RoleActs(roles[r], sid);
      out := {};
      var todo := members;
      while todo != {}
        invariant todo <= members
        invariant out == set m, g | m in members - todo && m.0 in roles && RoleActs(roles[m.0], sid)
                                    && g in roles[m.0].groups[sid] :: Grant(sid, m.1, g)
      {
        var m :| m in todo;
        if m.0 in acting {
          out := out + set g | g in roles[m.0].groups[sid] :: Grant(sid, m.1, g);
        }
        todo := todo - {m};
      }
      out := out + set d | d in direct && d.server == sid;
    }

    method Enqueue(sid: ServerId, op: Op)
      modifies this`ops
      ensures ops == old(ops) + [OpRow(sid, op, Pending)]
    {
      ops := ops + [OpRow(sid, op, Pending)];
    }

    /** Queues `Change(k, remove)` for each grant of `ks` not queued already whose owner has a nickname. */
    method QueueAll(sid: ServerId, ks: set<Grant>, remove: bool, queued: set<(Option<UserId>, GroupName, bool)>,
                    ghost w: World)
        returns (n: nat)
      requires w.nicks == nicks
      requires forall k :: k in ks ==>
                 k.server == sid && ((Some(k.user), k.group, remove) in queued <==> Queued(w.ops, k, remove))
      modifies this`ops
      ensures old(ops) <= ops && n == |ops| - |old(ops)|
      ensures Queues(w, ops[|old(ops)|..], ToQueue(w, ks, remove))
    {
      n := 0;
      var todo := ks;
      ghost var seen: set<Change> := {};
      while todo != {}
        invariant todo <= ks
        invariant old(ops) <= ops && n == |ops| - |old(ops)|
        invariant seen == ToQueue(w, ks - todo, remove)
        invariant Queues(w, ops[|old(ops)|..], seen)
      {
        var k :| k in todo;
        todo := todo - {k};
        assert ks - todo == (ks - (todo + {k})) + {k};
        ToQueueMore(w, ks - (todo + {k}), k, remove);
        if (Some(k.user), k.group, remove) !in queued && k.user in nicks && nicks[k.user] != "" {
          ghost var before := ops[|old(ops)|..];
          Enqueue(sid, UserParent(Some(k.user), nicks[k.user], k.group, remove));
          ghost var row := OpRow(sid, UserParent(Some(k.user), nicks[k.user], k.group, remove), Pending);
          assert ops[|old(ops)|..] == before + [row];
          QueuesOneMore(w, before, row, seen);
          seen := seen + {Change(k, remove)};
          n := n + 1;
        }
      }
      assert ks - todo == ks;
    }

    /** The changes that wait on this server. */
    method QueuedChanges(sid: ServerId) returns (queued: set<(Option<UserId>, GroupName, bool)>)
      ensures forall k: Grant, r: bool :: k.server == sid ==>
                (((Some(k.user), k.group, r) in queued) <==> Queued(ops, k, r))
    {
      queued := set i | 0 <= i < |ops| && ops[i].server == sid && ops[i].status.Pending? && ops[i].op.UserParent?
                  :: (ops[i].op.user, ops[i].op.group, ops[i].op.remove);
      QueuedSet(ops, sid, queued);
    }

    method Reconcile(sid: ServerId) returns (n: nat)
      modifies this`ops
      ensures Reconciled(old(Value()), Value(), sid, n)
    {
      ghost var w := Value();
      var known: set<GroupName> := if sid in catalogs then set g | g in catalogs[sid] :: g.name else {};
      if known == {} {
        NoCatalogue(w, sid);
        return 0;
      }
      var desired := ComputeDesired(sid);
      var want := set k | k in desired && k.group in known;
      var have := set k | k in applied && k.server == sid;
      assert want == Want(w, sid) && have == Have(w, sid);
      var queued := QueuedChanges(sid);
      n := QueueDifferences(sid, want, have, queued, w);
    }

    /** Queues what is wanted and not applied, and the other way round. */
    method QueueDifferences(sid: ServerId, want: set<Grant>, have: set<Grant>,
                            queued: set<(Option<UserId>, GroupName, bool)>, ghost w: World)
        returns (n: nat)
      requires w == Value() && Known(w, sid) != {} && want == Want(w, sid) && have == Have(w, sid)
      requires forall k: Grant, r: bool :: k.server == sid ==>
                 (((Some(k.user), k.group, r) in queued) <==> Queued(w.ops, k, r))
      modifies this`ops
      ensures Reconciled(w, Value(), sid, n)
    {
      WantedHere(w, sid);
      var added := QueueAll(sid, want - have, false, queued, w);
      ghost var mid := ops;
      var removed := QueueAll(sid, have - want, true, queued, w);
      n := added + removed;
      ReconcileEnds(w, Value(), sid, mid, n);
    }

    method RecordResult(i: nat, ok: bool)
      requires i < |ops|
      modifies this`ops, this`applied
      ensures Value() == Answered(old(Value()), i, ok)
    {
      if ops[i].status.Pending? {
        var row := ops[i];
        ops := ops[i := row.(status := if ok then Done else Failed)];
        if ok && row.op.UserParent? && row.op.user.Some? {
          var k := Grant(row.server, row.op.user.value, row.op.group);
          if row.op.remove {
            applied := applied - {k};
          } else if k !in applied {
            applied := applied + {k};
          }
        }
      }
    }
  }

  lemma ToQueueMore(w: World, ks: set<Grant>, k: Grant, remove: bool)
    requires k !in ks
    ensures Change(k, remove) !in ToQueue(w, ks, remove)
    ensures ToQueue(w, ks + {k}, remove)
            == ToQueue(w, ks, remove)
               + if !Queued(w.ops, k, remove) && HasNick(w, k.user) then {Change(k, remove)} else {}
  {
  }

  lemma QueuesOneMore(w: World, added: seq<OpRow>, row: OpRow, cs: set<Change>)
    requires Queues(w, added, cs) && RowFor(w, row) && ChangeOf(row) !in cs
    ensures Queues(w, added + [row], cs + {ChangeOf(row)})
  {
    var all := added + [row];
    forall c | c in cs + {ChangeOf(row)}
      ensures exists i :: 0 <= i < |all| && RowFor(w, all[i]) && ChangeOf(all[i]) == c
    {
      if c in cs {
        var i :| 0 <= i < |added| && RowFor(w, added[i]) && ChangeOf(added[i]) == c;
        assert all[i] == added[i];
      } else {
        assert all[|added|] == row;
      }
    }
  }

  lemma QueuesBoth(w: World, a: seq<OpRow>, b: seq<OpRow>, cs: set<Change>, ds: set<Change>)
    requires Queues(w, a, cs) && Queues(w, b, ds) && cs !! ds
    ensures Queues(w, a + b, cs + ds)
  {
    var all := a + b;
    forall c | c in cs + ds
      ensures exists i :: 0 <= i < |all| && RowFor(w, all[i]) && ChangeOf(all[i]) == c
    {
      if c in cs {
        var i :| 0 <= i < |a| && RowFor(w, a[i]) && ChangeOf(a[i]) == c;
        assert all[i] == a[i];
      } else {
        var i :| 0 <= i < |b| && RowFor(w, b[i]) && ChangeOf(b[i]) == c;
        assert all[|a| + i] == b[i];
      }
    }
  }

  /** Without a catalogue `reconcile` does nothing. */
  lemma NoCatalogue(w: World, sid: ServerId)
    requires Known(w, sid) == {}
    ensures Reconciled(w, w, sid, 0)
  {
    assert w.ops[|w.ops|..] == [];
  }

  /** Additions queued up to `mid`, removals after it: that is all `reconcile` has to do. */
  lemma ReconcileEnds(w: World, w': World, sid: ServerId, mid: seq<OpRow>, n: nat)
    requires Known(w, sid) != {} && w' == w.(ops := w'.ops) && w.ops <= mid <= w'.ops && n == |w'.ops| - |w.ops|
    requires Queues(w, mid[|w.ops|..], ToQueue(w, Want(w, sid) - Have(w, sid), false))
    requires Queues(w, w'.ops[|mid|..], ToQueue(w, Have(w, sid) - Want(w, sid), true))
    ensures Reconciled(w, w', sid, n)
  {
    QueuesBoth(w, mid[|w.ops|..], w'.ops[|mid|..],
               ToQueue(w, Want(w, sid) - Have(w, sid), false), ToQueue(w, Have(w, sid) - Want(w, sid), true));
    assert w'.ops[|w.ops|..] == mid[|w.ops|..] + w'.ops[|mid|..];
  }

  lemma QueuedSet(ops: seq<OpRow>, sid: ServerId, queued: set<(Option<UserId>, GroupName, bool)>)
    requires queued == set i | 0 <= i < |ops| && ops[i].server == sid && ops[i].status.Pending? && ops[i].op.UserParent?
                         :: (ops[i].op.user, ops[i].op.group, ops[i].op.remove)
    ensures forall k: Grant, r: bool :: k.server == sid ==>
            (((Some(k.user), k.group, r) in queued) <==> Queued(ops, k, r))
  {
  }

  // ----- deleting a group -----

  function Without(gs: seq<GroupName>, g: GroupName): seq<GroupName> {
    if gs == [] then [] else (if gs[0] == g then [] else [gs[0]]) + Without(gs[1..], g)
  }

  function DropGroup(r: Role, sid: ServerId, g: GroupName): Role {
    if sid in r.groups then r.(groups := r.groups[sid := Without(r.groups[sid], g)]) else r
  }

  /** The panel's group deletion (apps/api/app/api/routes/admin_game_perms.py). */
  function GroupDeleted(w: World, sid: ServerId, g: GroupName): World {
    w.(ops := w.ops + [OpRow(sid, GroupEdit("group.delete", g), Pending)],
       direct := (set d | d in w.direct && !(d.server == sid && d.group == g)),
       applied := (set a | a in w.applied && !(a.server == sid && a.group == g)),
       roles := (map r | r in w.roles :: DropGroup(w.roles[r], sid, g)))
  }

  ghost predicate RemovalPending(w: World, sid: ServerId, g: GroupName) {
    exists i :: 0 <= i < |w.ops| && w.ops[i].status.Pending? && Keyed(w.ops[i]) && w.ops[i].op.remove
                && w.ops[i].server == sid && w.ops[i].op.group == g
  }

  /** After it nobody is to have the group on the server, and all else is as it was. */
  lemma DeletedIs(w: World, sid: ServerId, g: GroupName, k: Grant)
    ensures var w' := GroupDeleted(w, sid, g);
            && (k in Desired(w', k.server) <==> k in Desired(w, k.server) && !(k.server == sid && k.group == g))
            && (k in w'.applied <==> k in w.applied && !(k.server == sid && k.group == g))
            && w'.ops == w.ops + [OpRow(sid, GroupEdit("group.delete", g), Pending)]
            && w'.members == w.members && w'.nicks == w.nicks && w'.catalogs == w.catalogs
  {
    var w' := GroupDeleted(w, sid, g);
    DesiredIs(w, k);
    DesiredIs(w', k);
    forall r | r in w.roles && k.server in w.roles[r].groups
      ensures k.group in w'.roles[r].groups[k.server]
              <==> k.group in w.roles[r].groups[k.server] && !(k.server == sid && k.group == g)
    {
      if k.server == sid {
        WithoutIs(w.roles[r].groups[sid], g);
      }
    }
    if ThroughRole(w, k) && !(k.server == sid && k.group == g) {
      var r: RoleId :| (r, k.user) in w.members && r in w.roles && !w.roles[r].badge
                       && k.server in w.roles[r].groups && k.group in w.roles[r].groups[k.server]
                       && (w.roles[r].servers.None? || k.server in w.roles[r].servers.value);
      assert (r, k.user) in w'.members;
    }
    if ThroughRole(w', k) {
      var r: RoleId :| (r, k.user) in w'.members && r in w'.roles && !w'.roles[r].badge
                       && k.server in w'.roles[r].groups && k.group in w'.roles[r].groups[k.server]
                       && (w'.roles[r].servers.None? || k.server in w'.roles[r].servers.value);
      assert (r, k.user) in w.members;
    }
  }

  lemma {:induction false} WithoutIs(gs: seq<GroupName>, g: GroupName)
    ensures forall x :: x in Without(gs, g) <==> x in gs && x != g
  {
    if gs != [] {
      WithoutIs(gs[1..], g);
    }
  }

  // ----- runs -----

  datatype Event =
    | People(roles: map<RoleId, Role>, members: set<(RoleId, UserId)>, direct: set<Grant>, nicks: map<UserId, string>)
    | Catalog(server: ServerId, groups: seq<GroupInfo>)
    | ByHand(server: ServerId, op: Op)
    | GroupDeletion(server: ServerId, group: GroupName)
    | Reconcile(server: ServerId, queued: nat)
    | Result(index: nat, ok: bool)

  /** One committed transaction. Staff queue only operations that name no panel user themselves. */
  ghost predicate Step(w: World, e: Event, w': World) {
    match e
    case People(roles, members, direct, nicks) =>
      w' == w.(roles := roles, members := members, direct := direct, nicks := nicks)
    case Catalog(server, groups) => w' == w.(catalogs := w.catalogs[server := groups])
    case ByHand(server, op) =>
      !Keyed(OpRow(server, op, Pending)) && w' == w.(ops := w.ops + [OpRow(server, op, Pending)])
    case GroupDeletion(server, group) => w' == GroupDeleted(w, server, group)
    case Reconcile(server, n) => Reconciled(w, w', server, n)
    case Result(i, ok) => w' == Answered(w, i, ok)
  }

  ghost predicate Run(ws: seq<World>, es: seq<Event>) {
    && |ws| == |es| + 1
    && ws[0].applied == {} && ws[0].ops == []
    && forall i :: 0 <= i < |es| ==> Step(ws[i], es[i], ws[i + 1])
  }

  // ----- what the queue keeps -----

  /** Only the newest operation about the grant can wait, and it would change what is applied. */
  ghost predicate ConsistentFor(w: World, k: Grant) {
    forall i :: 0 <= i < |w.ops| && w.ops[i].status.Pending? && About(w.ops[i], k) ==>
      (w.ops[i].op.remove <==> k in w.applied) && forall j :: i < j < |w.ops| ==> !About(w.ops[j], k)
  }

  /** So it is for every grant: at most one operation waits for it, and points away from what is applied. */
  ghost predicate Consistent(w: World) {
    forall k: Grant :: ConsistentFor(w, k)
  }

  /**
   What `reconcile` queues about a grant reverses what is applied, and nothing about it was
   pending or is queued beside it.
   */
  lemma NewRowReverses(w: World, w': World, sid: ServerId, n: nat, j: nat, k: Grant)
    requires Reconciled(w, w', sid, n) && |w.ops| <= j < |w'.ops| && About(w'.ops[j], k)
    ensures k.server == sid && w'.ops[j].status.Pending?
    ensures w'.ops[j].op.remove <==> k in w.applied
    ensures !Queued(w.ops, k, w'.ops[j].op.remove)
    ensures forall i :: |w.ops| <= i < j ==> !About(w'.ops[i], k)
  {
    var added := w'.ops[|w.ops|..];
    assert w'.ops[j] == added[j - |w.ops|];
    NewRowIsMissing(w, w', sid, n, j);
    WantedHere(w, sid);
    forall i | |w.ops| <= i < j
      ensures !About(w'.ops[i], k)
    {
      NewRowIsMissing(w, w', sid, n, i);
      assert w'.ops[i] == added[i - |w.ops|];
      assert ChangeOf(w'.ops[i]) != ChangeOf(w'.ops[j]);
    }
  }

  lemma ReconciledKeepsFor(w: World, w': World, sid: ServerId, n: nat, k: Grant)
    requires ConsistentFor(w, k) && Reconciled(w, w', sid, n)
    ensures ConsistentFor(w', k)
  {
    forall i | 0 <= i < |w'.ops| && w'.ops[i].status.Pending? && About(w'.ops[i], k)
      ensures (w'.ops[i].op.remove <==> k in w'.applied) && forall j :: i < j < |w'.ops| ==> !About(w'.ops[j], k)
    {
      if i >= |w.ops| {
        NewRowReverses(w, w', sid, n, i, k);
      }
      forall j | i < j < |w'.ops|
        ensures !About(w'.ops[j], k)
      {
        assert j < |w.ops| ==> w'.ops[j] == w.ops[j];
        if j >= |w.ops| && About(w'.ops[j], k) {
          NewRowReverses(w, w', sid, n, j, k);
        }
      }
    }
  }

  lemma AnsweredKeepsFor(w: World, i: nat, ok: bool, k: Grant)
    requires ConsistentFor(w, k)
    ensures ConsistentFor(Answered(w, i, ok), k)
  {
    var w' := Answered(w, i, ok);
    forall a | 0 <= a < |w'.ops| && w'.ops[a].status.Pending? && About(w'.ops[a], k)
      ensures (w'.ops[a].op.remove <==> k in w'.applied) && forall j :: a < j < |w'.ops| ==> !About(w'.ops[j], k)
    {
      assert w'.ops[a] == w.ops[a];
      assert forall j :: a < j < |w'.ops| ==> About(w'.ops[j], k) == About(w.ops[j], k);
    }
  }

  /** The step deletes the grant's group while a removal of the grant waits. */
  predicate DropsUnderRemoval(w: World, e: Event, k: Grant) {
    e.GroupDeletion? && e.server == k.server && e.group == k.group && Queued(w.ops, k, true)
  }

  lemma DeletionIsSafeForIff(w: World, sid: ServerId, g: GroupName, k: Grant)
    requires ConsistentFor(w, k)
    ensures ConsistentFor(GroupDeleted(w, sid, g), k) <==> !DropsUnderRemoval(w, GroupDeletion(sid, g), k)
  {
    var w' := GroupDeleted(w, sid, g);
    forall i | 0 <= i < |w'.ops|
      ensures About(w'.ops[i], k) ==> i < |w.ops|
      ensures i < |w.ops| ==> w'.ops[i] == w.ops[i]
    {
    }
    if DropsUnderRemoval(w, GroupDeletion(sid, g), k) {
      var i :| 0 <= i < |w.ops| && w.ops[i].status.Pending? && About(w.ops[i], k) && w.ops[i].op.remove == true;
      assert w'.ops[i] == w.ops[i] && k !in w'.applied;
    }
  }

  /** A step keeps a grant consistent, unless it deletes its group while a removal of it waits. */
  lemma StepIsSafeForIff(w: World, e: Event, w': World, k: Grant)
    requires ConsistentFor(w, k) && Step(w, e, w')
    ensures ConsistentFor(w', k) <==> !DropsUnderRemoval(w, e, k)
  {
    match e
    case People(_, _, _, _) =>
    case Catalog(_, _) =>
    case ByHand(server, op) =>
      forall i | 0 <= i < |w'.ops| && About(w'.ops[i], k)
        ensures i < |w.ops| && w'.ops[i] == w.ops[i]
      {
      }
    case GroupDeletion(server, group) => DeletionIsSafeForIff(w, server, group, k);
    case Reconcile(server, n) => ReconciledKeepsFor(w, w', server, n, k);
    case Result(i, ok) => AnsweredKeepsFor(w, i, ok, k);
  }

  /** The run never deletes the grant's group, before step `n`, while a removal of the grant waits. */
  ghost predicate DropsSafely(ws: seq<World>, es: seq<Event>, n: nat, k: Grant)
    requires Run(ws, es) && n <= |es|
  {
    forall m :: 0 <= m < n ==> !DropsUnderRemoval(ws[m], es[m], k)
  }

  ghost predicate StaysConsistentFor(ws: seq<World>, es: seq<Event>, n: nat, k: Grant)
    requires Run(ws, es) && n <= |es|
  {
    forall m :: 0 <= m <= n ==> ConsistentFor(ws[m], k)
  }

  /** Grant by grant: a run keeps it consistent exactly if it never deletes its group while a removal of it waits. */
  lemma {:induction false} RunIsConsistentForIff(ws: seq<World>, es: seq<Event>, n: nat, k: Grant)
    requires Run(ws, es) && n <= |es|
    ensures StaysConsistentFor(ws, es, n, k) <==> DropsSafely(ws, es, n, k)
  {
    if n > 0 {
      RunIsConsistentForIff(ws, es, n - 1, k);
      if DropsSafely(ws, es, n - 1, k) {
        assert ConsistentFor(ws[n - 1], k);
        StepIsSafeForIff(ws[n - 1], es[n - 1], ws[n], k);
      }
    }
  }

  lemma PendingRemovalIs(w: World, sid: ServerId, g: GroupName)
    ensures RemovalPending(w, sid, g) <==> exists k: Grant :: DropsUnderRemoval(w, GroupDeletion(sid, g), k)
  {
    if RemovalPending(w, sid, g) {
      var i :| 0 <= i < |w.ops| && w.ops[i].status.Pending? && Keyed(w.ops[i]) && w.ops[i].op.remove
               && w.ops[i].server == sid && w.ops[i].op.group == g;
      assert About(w.ops[i], GrantOf(w.ops[i]));
      assert DropsUnderRemoval(w, GroupDeletion(sid, g), GrantOf(w.ops[i]));
    }
  }

  /** Deleting a group keeps the queue consistent exactly when no removal of it is pending. */
  lemma DeletionIsSafeIff(w: World, sid: ServerId, g: GroupName)
    requires Consistent(w)
    ensures Consistent(GroupDeleted(w, sid, g)) <==> !RemovalPending(w, sid, g)
  {
    PendingRemovalIs(w, sid, g);
    forall k: Grant
      ensures ConsistentFor(GroupDeleted(w, sid, g), k) <==> !DropsUnderRemoval(w, GroupDeletion(sid, g), k)
    {
      DeletionIsSafeForIff(w, sid, g, k);
    }
  }

  /** The run deletes no group before step `n` while a removal of it is pending. */
  ghost predicate DeletesSafely(ws: seq<World>, es: seq<Event>, n: nat)
    requires Run(ws, es) && n <= |es|
  {
    forall m :: 0 <= m < n && es[m].GroupDeletion? ==> !RemovalPending(ws[m], es[m].server, es[m].group)
  }

  lemma DeletesSafelyIs(ws: seq<World>, es: seq<Event>, n: nat)
    requires Run(ws, es) && n <= |es|
    ensures DeletesSafely(ws, es, n) <==> forall k: Grant :: DropsSafely(ws, es, n, k)
  {
    if DeletesSafely(ws, es, n) {
      forall k: Grant, m | 0 <= m < n
        ensures !DropsUnderRemoval(ws[m], es[m], k)
      {
        PendingRemovalIs(ws[m], k.server, k.group);
      }
    }
    if forall k: Grant :: DropsSafely(ws, es, n, k) {
      forall m | 0 <= m < n && es[m].GroupDeletion?
        ensures !RemovalPending(ws[m], es[m].server, es[m].group)
      {
        PendingRemovalIs(ws[m], es[m].server, es[m].group);
        forall k: Grant
          ensures !DropsUnderRemoval(ws[m], es[m], k)
        {
          assert DropsSafely(ws, es, n, k);
        }
        assert es[m] == GroupDeletion(es[m].server, es[m].group);
      }
    }
  }

  /** Exactly when: the worlds of a run are all consistent if and only if it deletes groups safely. */
  lemma RunIsConsistentIff(ws: seq<World>, es: seq<Event>, n: nat)
    requires Run(ws, es) && n <= |es|
    ensures (forall m :: 0 <= m <= n ==> Consistent(ws[m])) <==> DeletesSafely(ws, es, n)
  {
    DeletesSafelyIs(ws, es, n);
    forall k: Grant
      ensures StaysConsistentFor(ws, es, n, k) <==> DropsSafely(ws, es, n, k)
    {
      RunIsConsistentForIff(ws, es, n, k);
    }
    if forall m :: 0 <= m <= n ==> Consistent(ws[m]) {
      assert forall k: Grant :: StaysConsistentFor(ws, es, n, k);
    }
    if forall k: Grant :: StaysConsistentFor(ws, es, n, k) {
      forall m | 0 <= m <= n
        ensures Consistent(ws[m])
      {
        forall k: Grant
          ensures ConsistentFor(ws[m], k)
        {
          assert StaysConsistentFor(ws, es, n, k);
        }
      }
    }
  }

  // ----- what is applied -----

  /** The step puts the grant on its user. */
  predicate Adds(w: World, e: Event, k: Grant) {
    e.Result? && e.ok && e.index < |w.ops| && w.ops[e.index].status.Pending? && About(w.ops[e.index], k)
    && !w.ops[e.index].op.remove
  }

  /** The step takes the grant away: its removal succeeded, or its group is deleted. */
  predicate Takes(w: World, e: Event, k: Grant) {
    match e
    case Result(i, ok) =>
      ok && i < |w.ops| && w.ops[i].status.Pending? && About(w.ops[i], k) && w.ops[i].op.remove
    case GroupDeletion(server, group) => k.server == server && k.group == group
    case _ => false
  }

  /** Step `m` added the grant, and none since, up to step `n`, took it. */
  ghost predicate AddedLast(ws: seq<World>, es: seq<Event>, m: nat, n: nat, k: Grant)
    requires Run(ws, es) && n <= |es|
  {
    m < n && Adds(ws[m], es[m], k) && forall l :: m < l < n ==> !Takes(ws[l], es[l], k)
  }

  lemma StepApplied(w: World, e: Event, w': World, k: Grant)
    requires Step(w, e, w')
    ensures k in w'.applied <==> Adds(w, e, k) || (k in w.applied && !Takes(w, e, k))
  {
  }

  /** Added before step `n` and not taken since. */
  ghost predicate Added(ws: seq<World>, es: seq<Event>, n: nat, k: Grant)
    requires Run(ws, es) && n <= |es|
  {
    exists m: nat :: AddedLast(ws, es, m, n, k)
  }

  lemma AddedMore(ws: seq<World>, es: seq<Event>, n: nat, next: nat, k: Grant)
    requires Run(ws, es) && n + 1 == next <= |es|
    ensures Added(ws, es, next, k) <==> Adds(ws[n], es[n], k) || (Added(ws, es, n, k) && !Takes(ws[n], es[n], k))
  {
    if Adds(ws[n], es[n], k) {
      assert AddedLast(ws, es, n, next, k);
    } else if Added(ws, es, n, k) && !Takes(ws[n], es[n], k) {
      var m: nat :| AddedLast(ws, es, m, n, k);
      assert AddedLast(ws, es, m, next, k);
    }
    if Added(ws, es, next, k) && !Adds(ws[n], es[n], k) {
      var m: nat :| AddedLast(ws, es, m, next, k);
      assert AddedLast(ws, es, m, n, k);
    }
  }

  lemma AppliedMore(ws: seq<World>, es: seq<Event>, n: nat, next: nat, k: Grant)
    requires Run(ws, es) && n + 1 == next <= |es|
    requires k in ws[n].applied <==> Added(ws, es, n, k)
    ensures k in ws[next].applied <==> Added(ws, es, next, k)
  {
    StepApplied(ws[n], es[n], ws[next], k);
    AddedMore(ws, es, n, next, k);
  }

  /** In every run, deletions included: what is applied is what was added and not taken since. */
  lemma {:induction false} AppliedIsAddedLast(ws: seq<World>, es: seq<Event>, n: nat, k: Grant)
    requires Run(ws, es) && n <= |es|
    ensures k in ws[n].applied <==> Added(ws, es, n, k)
  {
    if n > 0 {
      AppliedIsAddedLast(ws, es, n - 1, k);
      AppliedMore(ws, es, n - 1, n, k);
    }
  }

  /** Step `q` queued row `i`. */
  predicate QueuedAt(ws: seq<World>, q: nat, i: nat) {
    q + 1 < |ws| && |ws[q].ops| <= i < |ws[q + 1].ops|
  }

  /** Rows are only ever added, and only their status changes. */
  lemma RowsStay(w: World, e: Event, w': World)
    requires Step(w, e, w')
    ensures |w.ops| <= |w'.ops|
    ensures forall i :: 0 <= i < |w.ops| ==> w'.ops[i].(status := Pending) == w.ops[i].(status := Pending)
  {
  }

  lemma {:induction false} WhenQueued(ws: seq<World>, es: seq<Event>, n: nat, i: nat) returns (q: nat)
    requires Run(ws, es) && n <= |es| && i < |ws[n].ops|
    ensures q < n && QueuedAt(ws, q, i) && ws[q + 1].ops[i].(status := Pending) == ws[n].ops[i].(status := Pending)
  {
    RowsStay(ws[n - 1], es[n - 1], ws[n]);
    if i < |ws[n - 1].ops| {
      q := WhenQueued(ws, es, n - 1, i);
    } else {
      q := n - 1;
    }
  }

  /** Every operation ever queued about a grant reversed what was applied when it was queued. */
  lemma QueuedReverses(ws: seq<World>, es: seq<Event>, n: nat, i: nat, k: Grant) returns (q: nat)
    requires Run(ws, es) && n <= |es| && i < |ws[n].ops| && About(ws[n].ops[i], k)
    ensures q < n && QueuedAt(ws, q, i) && (ws[n].ops[i].op.remove <==> k in ws[q].applied)
  {
    q := WhenQueued(ws, es, n, i);
    assert Step(ws[q], es[q], ws[q + 1]);
    assert About(ws[q + 1].ops[i], k) && ws[q + 1].ops[i].op.remove == ws[n].ops[i].op.remove;
    assert es[q].Reconcile?;
    NewRowReverses(ws[q], ws[q + 1], es[q].server, es[q].queued, i, k);
  }

  /**
   The panel takes away only what it gave. In every run, deletions included: before a
   removal of a panel user's group was queued, an addition of it had succeeded, and
   since then no removal of it, nor was the group deleted.
   */
  lemma OnlyOwnGrantsAreTaken(ws: seq<World>, es: seq<Event>, n: nat, i: nat, k: Grant)
    requires Run(ws, es) && n <= |es|
    requires i < |ws[n].ops| && About(ws[n].ops[i], k) && ws[n].ops[i].op.remove
    ensures exists q: nat, m: nat :: q < n && QueuedAt(ws, q, i) && AddedLast(ws, es, m, q, k)
  {
    var q := QueuedReverses(ws, es, n, i, k);
    AppliedIsAddedLast(ws, es, q, k);
    var m :| AddedLast(ws, es, m, q, k);
  }

  // ----- convergence -----

  /** The plugin answers the listed operations, all successfully. */
  function AnswerAll(w: World, order: seq<nat>): World
    decreases |order|
  {
    if order == [] then w else AnswerAll(Answered(w, order[0], true), order[1..])
  }

  ghost predicate NothingPending(w: World, sid: ServerId) {
    forall i :: 0 <= i < |w.ops| && w.ops[i].server == sid ==> !w.ops[i].status.Pending?
  }

  lemma {:induction false} AnswerAllFrame(w: World, order: seq<nat>)
    ensures AnswerAll(w, order) == w.(applied := AnswerAll(w, order).applied, ops := AnswerAll(w, order).ops)
    ensures var ops := AnswerAll(w, order).ops;
            |ops| == |w.ops| && forall i :: 0 <= i < |ops| ==>
              ops[i] == w.ops[i] || (w.ops[i].status.Pending? && ops[i] == w.ops[i].(status := Done))
    decreases |order|
  {
    if order != [] {
      AnswerAllFrame(Answered(w, order[0], true), order[1..]);
    }
  }

  /** No row but `i` waits for grant `k`. */
  ghost predicate OnlyWaiting(ops: seq<OpRow>, i: nat, k: Grant) {
    forall j :: 0 <= j < |ops| && j != i && ops[j].status.Pending? ==> !About(ops[j], k)
  }

  lemma {:induction false} NotWaitingStays(w: World, order: seq<nat>, k: Grant)
    requires OnlyWaiting(w.ops, |w.ops|, k)
    ensures k in AnswerAll(w, order).applied <==> k in w.applied
    decreases |order|
  {
    if order != [] {
      NotWaitingStays(Answered(w, order[0], true), order[1..], k);
    }
  }

  lemma OtherAnswered(w: World, x: nat, i: nat, k: Grant)
    requires i < |w.ops| && x != i && OnlyWaiting(w.ops, i, k)
    ensures |Answered(w, x, true).ops| == |w.ops| && Answered(w, x, true).ops[i] == w.ops[i]
    ensures OnlyWaiting(Answered(w, x, true).ops, i, k)
    ensures k in Answered(w, x, true).applied <==> k in w.applied
  {
  }

  /** The one operation that waits for a grant decides it once it is answered. */
  lemma {:induction false} WaitingLands(w: World, order: seq<nat>, i: nat, k: Grant)
    requires i < |w.ops| && w.ops[i].status.Pending? && About(w.ops[i], k) && OnlyWaiting(w.ops, i, k)
    requires i < |AnswerAll(w, order).ops| && !AnswerAll(w, order).ops[i].status.Pending?
    ensures k in AnswerAll(w, order).applied <==> !w.ops[i].op.remove
    decreases |order|
  {
    if order[0] == i {
      NotWaitingStays(Answered(w, i, true), order[1..], k);
    } else {
      OtherAnswered(w, order[0], i, k);
      WaitingLands(Answered(w, order[0], true), order[1..], i, k);
    }
  }

  lemma WantFrame(w: World, w': World, sid: ServerId)
    requires w' == w.(applied := w'.applied, ops := w'.ops)
    ensures Want(w', sid) == Want(w, sid)
  {
    assert Desired(w', sid) == Desired(w, sid);
  }

  lemma RowQueuedFor(w1: World, w2: World, sid: ServerId, n: nat, c: Change) returns (i: nat)
    requires Reconciled(w1, w2, sid, n) && c in Missing(w1, sid)
    ensures |w1.ops| <= i < |w2.ops| && Keyed(w2.ops[i]) && ChangeOf(w2.ops[i]) == c
  {
    var added := w2.ops[|w1.ops|..];
    var x :| 0 <= x < |added| && RowFor(w1, added[x]) && ChangeOf(added[x]) == c;
    i := |w1.ops| + x;
    assert w2.ops[i] == added[x];
  }

  /** The change, if any, that `reconcile` queues for a grant for which nothing waits. */
  predicate Differs(w: World, sid: ServerId, k: Grant) {
    Known(w, sid) != {} && HasNick(w, k.user) && ((k in w.applied) != (k in Want(w, sid)))
  }

  lemma DiffersIsMissing(w: World, sid: ServerId, k: Grant, remove: bool)
    requires k.server == sid && !Queued(w.ops, k, k in w.applied)
    ensures Change(k, remove) in Missing(w, sid) <==> Differs(w, sid, k) && remove == (k in w.applied)
  {
    WantedHere(w, sid);
  }

  /**
   Nothing waits for the grant: reconcile and answers bring it to what is wanted, if there is
   a catalogue and a nickname.
   */
  lemma IdleGrantLands(w1: World, w2: World, sid: ServerId, n: nat, order: seq<nat>, k: Grant)
    requires Reconciled(w1, w2, sid, n) && k.server == sid && OnlyWaiting(w1.ops, |w1.ops|, k)
    requires NothingPending(AnswerAll(w2, order), sid)
    ensures k in AnswerAll(w2, order).applied
            <==> if Known(w1, sid) != {} && HasNick(w1, k.user) then k in Want(w1, sid) else k in w1.applied
  {
    AnswerAllFrame(w2, order);
    DiffersIsMissing(w1, sid, k, k in w1.applied);
    if Differs(w1, sid, k) {
      var i := RowQueuedFor(w1, w2, sid, n, Change(k, k in w1.applied));
      NewRowReverses(w1, w2, sid, n, i, k);
      forall j | 0 <= j < |w2.ops| && j != i && w2.ops[j].status.Pending?
        ensures !About(w2.ops[j], k)
      {
        if About(w2.ops[j], k) && j > i {
          NewRowReverses(w1, w2, sid, n, j, k);
        }
      }
      WaitingLands(w2, order, i, k);
    } else {
      forall j | 0 <= j < |w2.ops| && w2.ops[j].status.Pending?
        ensures !About(w2.ops[j], k)
      {
        if About(w2.ops[j], k) && j >= |w1.ops| {
          NewRowReverses(w1, w2, sid, n, j, k);
          NewRowIsMissing(w1, w2, sid, n, j);
        }
      }
      NotWaitingStays(w2, order, k);
    }
  }

  lemma NewRowIsMissing(w: World, w': World, sid: ServerId, n: nat, j: nat)
    requires Reconciled(w, w', sid, n) && |w.ops| <= j < |w'.ops|
    ensures Keyed(w'.ops[j]) && ChangeOf(w'.ops[j]) in Missing(w, sid)
  {
    assert w'.ops[j] == w'.ops[|w.ops|..][j - |w.ops|];
  }

  /**
   From any state at all: drain, reconcile, drain. Then everyone with a nickname has
   exactly the wanted groups the plugin knows, people without one, and servers without
   a catalogue, are untouched, and nothing is left to queue.
   */
  lemma Converges(w0: World, first: seq<nat>, sid: ServerId, w2: World, n: nat, second: seq<nat>)
    requires NothingPending(AnswerAll(w0, first), sid)
    requires Reconciled(AnswerAll(w0, first), w2, sid, n)
    requires NothingPending(AnswerAll(w2, second), sid)
    ensures forall k: Grant :: k.server == sid ==>
              (k in AnswerAll(w2, second).applied
               <==> if Known(w0, sid) != {} && HasNick(w0, k.user) then k in Want(w0, sid)
                    else k in AnswerAll(w0, first).applied)
    ensures forall w4, m :: Reconciled(AnswerAll(w2, second), w4, sid, m) ==> m == 0 && w4 == AnswerAll(w2, second)
  {
    var w1 := AnswerAll(w0, first);
    var w3 := AnswerAll(w2, second);
    AnswerAllFrame(w0, first);
    AnswerAllFrame(w2, second);
    WantFrame(w0, w1, sid);
    WantFrame(w0, w3, sid);
    forall k: Grant | k.server == sid
      ensures k in w3.applied
              <==> if Known(w0, sid) != {} && HasNick(w0, k.user) then k in Want(w0, sid) else k in w1.applied
    {
      IdleGrantLands(w1, w2, sid, n, second, k);
    }
    NothingMissing(w3, sid);
    forall w4, m | Reconciled(w3, w4, sid, m)
      ensures m == 0 && w4 == w3
    {
      NothingToQueue(w3, w4, sid, m);
    }
  }

  /**
   The same from the rows alone: on a server whose plugin has reported groups, someone
   with a nickname has exactly the reported groups given directly or through a role.
   */
  lemma ConvergesToRows(w0: World, first: seq<nat>, sid: ServerId, w2: World, n: nat, second: seq<nat>, k: Grant)
    requires NothingPending(AnswerAll(w0, first), sid)
    requires Reconciled(AnswerAll(w0, first), w2, sid, n)
    requires NothingPending(AnswerAll(w2, second), sid)
    requires k.server == sid && sid in w0.catalogs && w0.catalogs[sid] != []
    requires k.user in w0.nicks && w0.nicks[k.user] != ""
    ensures k in AnswerAll(w2, second).applied
            <==> (k in w0.direct || ThroughRole(w0, k))
                 && exists i :: 0 <= i < |w0.catalogs[sid]| && w0.catalogs[sid][i].name == k.group
  {
    Converges(w0, first, sid, w2, n, second);
    DesiredIs(w0, k);
    assert w0.catalogs[sid][0] in w0.catalogs[sid] && w0.catalogs[sid][0].name in Known(w0, sid);
    if k.group in Known(w0, sid) {
      var g :| g in w0.catalogs[sid] && g.name == k.group;
      var i :| 0 <= i < |w0.catalogs[sid]| && w0.catalogs[sid][i] == g;
    }
  }

  /** A row a reconciliation adds to the queue: it waits, and names the user, the nickname and the group. */
  lemma NewRowIs(w: World, w': World, sid: ServerId, n: nat, j: nat)
    requires Reconciled(w, w', sid, n) && |w.ops| <= j < |w'.ops|
    ensures var row := w'.ops[j];
            && row.server == sid && row.status == Pending && row.op.UserParent? && row.op.user.Some?
            && row.op.user.value in w.nicks && row.op.nick == w.nicks[row.op.user.value] && row.op.nick != ""
            && sid in w.catalogs
            && (!row.op.remove ==> exists i :: 0 <= i < |w.catalogs[sid]| && w.catalogs[sid][i].name == row.op.group)
  {
    var added := w'.ops[|w.ops|..];
    assert w'.ops[j] == added[j - |w.ops|] && RowFor(w, added[j - |w.ops|]);
    NewRowIsMissing(w, w', sid, n, j);
    WantedHere(w, sid);
    if !w'.ops[j].op.remove {
      var g :| g in w.catalogs[sid] && g.name == w'.ops[j].op.group;
      var i :| 0 <= i < |w.catalogs[sid]| && w.catalogs[sid][i] == g;
    }
  }

  /** A first result, from the rows: it is stored as done or failed, and moves the grant only if it is done. */
  lemma AnsweredIs(w: World, i: nat, ok: bool, k: Grant)
    requires i < |w.ops| && w.ops[i].status.Pending?
    ensures var w' := Answered(w, i, ok);
            && w'.ops == w.ops[i := w.ops[i].(status := if ok then Done else Failed)]
            && (k in w'.applied <==> if ok && About(w.ops[i], k) then !w.ops[i].op.remove else k in w.applied)
  {
  }

  lemma NothingMissing(w: World, sid: ServerId)
    requires forall k: Grant :: k.server == sid && Known(w, sid) != {} && HasNick(w, k.user)
                                ==> (k in w.applied <==> k in Want(w, sid))
    ensures Missing(w, sid) == {}
  {
    if Known(w, sid) != {} {
      WantedHere(w, sid);
      assert ToQueue(w, Want(w, sid) - Have(w, sid), false) == {};
      assert ToQueue(w, Have(w, sid) - Want(w, sid), true) == {};
    }
  }

  lemma WantedHere(w: World, sid: ServerId)
    ensures forall k :: k in Want(w, sid) ==> k.server == sid
  {
  }

  lemma QueuesSomething(w: World, added: seq<OpRow>, cs: set<Change>)
    requires Queues(w, added, cs) && added != []
    ensures cs != {}
  {
    assert ChangeOf(added[0]) in cs;
  }

  lemma NothingToQueue(w: World, w': World, sid: ServerId, n: nat)
    requires Missing(w, sid) == {} && Reconciled(w, w', sid, n)
    ensures n == 0 && w' == w
  {
    if w'.ops != w.ops {
      QueuesSomething(w, w'.ops[|w.ops|..], Missing(w, sid));
    }
    assert w'.ops == w.ops;
  }

  // ----- without the first drain -----

  /** At most one operation waits for the grant, and it would change what is applied. */
  ghost predicate WaitsAlone(w: World, k: Grant) {
    forall i :: 0 <= i < |w.ops| && w.ops[i].status.Pending? && About(w.ops[i], k) ==>
      (w.ops[i].op.remove <==> k in w.applied) && OnlyWaiting(w.ops, i, k)
  }

  lemma ConsistentWaitsAlone(w: World, k: Grant)
    requires ConsistentFor(w, k)
    ensures WaitsAlone(w, k)
  {
  }

  /** A change that waits is made, wanted or not: `reconcile` does not call it back. */
  lemma StaleChangeLands(w: World, w': World, sid: ServerId, n: nat, k: Grant, remove: bool, order: seq<nat>)
    requires WaitsAlone(w, k) && k.server == sid && Queued(w.ops, k, remove)
    requires Reconciled(w, w', sid, n) && NothingPending(AnswerAll(w', order), sid)
    ensures k in AnswerAll(w', order).applied <==> !remove
  {
    var i :| 0 <= i < |w.ops| && w.ops[i].status.Pending? && About(w.ops[i], k) && w.ops[i].op.remove == remove;
    assert w'.ops[i] == w.ops[i];
    forall j | 0 <= j < |w'.ops| && j != i && w'.ops[j].status.Pending?
      ensures !About(w'.ops[j], k)
    {
      if About(w'.ops[j], k) && j >= |w.ops| {
        NewRowReverses(w, w', sid, n, j, k);
      }
    }
    AnswerAllFrame(w', order);
    WaitingLands(w', order, i, k);
  }

  /** The opposite of what is wanted waits for the grant. */
  ghost predicate Stale(w: World, sid: ServerId, k: Grant) {
    Queued(w.ops, k, k in Want(w, sid))
  }

  /**
   Exactly when one reconciliation and its answers are enough for a grant, without
   answers before it: when the opposite of what is wanted was not waiting.
   */
  lemma OneRoundIsEnoughIff(w: World, w': World, sid: ServerId, n: nat, k: Grant, order: seq<nat>)
    requires WaitsAlone(w, k) && k.server == sid && Known(w, sid) != {} && HasNick(w, k.user)
    requires Reconciled(w, w', sid, n) && NothingPending(AnswerAll(w', order), sid)
    ensures (k in AnswerAll(w', order).applied <==> k in Want(w, sid)) <==> !Stale(w, sid, k)
  {
    if Queued(w.ops, k, true) {
      StaleChangeLands(w, w', sid, n, k, true, order);
    } else if Queued(w.ops, k, false) {
      StaleChangeLands(w, w', sid, n, k, false, order);
    } else {
      IdleGrantLands(w, w', sid, n, order, k);
    }
  }

  // ----- what an unsafe deletion leads to -----

  /** When one is pending and the group is granted again, two opposite operations wait for the same person. */
  lemma OppositeOperationsAfterDeletion(w: World, sid: ServerId, i: nat, k: Grant, w2: World, w3: World, n: nat)
    requires Consistent(w) && i < |w.ops| && w.ops[i].status.Pending? && About(w.ops[i], k) && w.ops[i].op.remove
    requires k.server == sid && k.group in Known(w, sid) && HasNick(w, k.user)
    requires w2 == GroupDeleted(w, sid, k.group).(direct := GroupDeleted(w, sid, k.group).direct + {k})
    requires Reconciled(w2, w3, sid, n)
    ensures exists j :: i < j < |w3.ops| && w3.ops[j].status.Pending? && About(w3.ops[j], k) && !w3.ops[j].op.remove
                        && w3.ops[i] == w.ops[i]
  {
    GrantedAgainIsMissing(w, sid, i, k, w2);
    var j := RowQueuedFor(w2, w3, sid, n, Change(k, false));
    NewRowReverses(w2, w3, sid, n, j, k);
    assert w3.ops[i] == w2.ops[i];
  }

  /** The group granted again is not applied any more, and only its removal waits: an addition is due. */
  lemma GrantedAgainIsMissing(w: World, sid: ServerId, i: nat, k: Grant, w2: World)
    requires Consistent(w) && i < |w.ops| && w.ops[i].status.Pending? && About(w.ops[i], k) && w.ops[i].op.remove
    requires k.server == sid && k.group in Known(w, sid) && HasNick(w, k.user)
    requires w2 == GroupDeleted(w, sid, k.group).(direct := GroupDeleted(w, sid, k.group).direct + {k})
    ensures Change(k, false) in Missing(w2, sid) && w2.ops[i] == w.ops[i]
  {
    assert ConsistentFor(w, k);
    forall j | 0 <= j < |w2.ops| && w2.ops[j].status.Pending?
      ensures About(w2.ops[j], k) ==> w2.ops[j].op.remove
    {
      assert j < |w.ops| ==> w2.ops[j] == w.ops[j];
    }
    assert !Queued(w2.ops, k, false);
    assert Known(w2, sid) == Known(w, sid);
    assert k in Desired(w2, sid);
  }

  // ----- the hierarchy of hand-outs -----

  /** How heavy a group someone may hand out: strictly lighter than this. */
  datatype Power = Powerless | UpTo(weight: int) | Unlimited

  datatype Authority = Authority(
    platform: bool,
    owner: bool,
    adminServers: set<ServerId>,
    assigns: set<ServerId>,
    actor: UserId)

  function WeightIn(groups: seq<GroupInfo>, g: GroupName): int {
    if groups == [] then 0
    else if groups[|groups| - 1].name == g then groups[|groups| - 1].weight
    else WeightIn(groups[..|groups| - 1], g)
  }

  function Weight(w: World, sid: ServerId, g: GroupName): int {
    if sid in w.catalogs then WeightIn(w.catalogs[sid], g) else 0
  }

  /** The weight of a group: that of its last entry in the server's catalogue, 0 without one (`i` is -1). */
  lemma {:induction false} WeightInIs(groups: seq<GroupInfo>, g: GroupName, i: int)
    requires -1 <= i < |groups| && (i >= 0 ==> groups[i].name == g)
    requires forall j :: i < j < |groups| ==> groups[j].name != g
    ensures WeightIn(groups, g) == if i >= 0 then groups[i].weight else 0
  {
    if i < |groups| - 1 {
      WeightInIs(groups[..|groups| - 1], g, i);
    }
  }

  function GroupsOf(w: World, sid: ServerId, u: UserId): set<GroupName> {
    set k | k in Desired(w, sid) && k.user == u :: k.group
  }

  ghost function Heaviest(w: World, sid: ServerId, gs: set<GroupName>): (m: int)
    requires gs != {}
    ensures exists g :: g in gs && Weight(w, sid, g) == m
    ensures forall g :: g in gs ==> Weight(w, sid, g) <= m
  {
    var g :| g in gs;
    var rest := gs - {g};
    if rest == {} then
      assert gs == {g};
      Weight(w, sid, g)
    else
      assert gs == rest + {g};
      var m := Heaviest(w, sid, rest);
      if Weight(w, sid, g) <= m then m else Weight(w, sid, g)
  }

  ghost function PowerOf(w: World, a: Authority, sid: ServerId): Power {
    if a.platform || sid in a.adminServers then Unlimited
    else if sid !in a.assigns || GroupsOf(w, sid, a.actor) == {} then Powerless
    else UpTo(Heaviest(w, sid, GroupsOf(w, sid, a.actor)))
  }

  ghost predicate MayGive(w: World, ownerOnly: set<(ServerId, GroupName)>, a: Authority, sid: ServerId, g: GroupName) {
    if g == "default" then false
    else if (sid, g) in ownerOnly then a.owner
    else if g !in Known(w, sid) then false
    else match PowerOf(w, a, sid)
      case Powerless => false
      case UpTo(weight) => Weight(w, sid, g) < weight
      case Unlimited => true
  }

  /**
   Who may give a group, from the fields: never `default`; a group for owners only an
   owner; another one, if the plugin reported it, an admin of the platform or of the
   server, or someone who may assign and is to have a heavier one.
   */
  lemma MayGiveIff(w: World, ownerOnly: set<(ServerId, GroupName)>, a: Authority, sid: ServerId, g: GroupName)
    ensures MayGive(w, ownerOnly, a, sid, g) <==>
              && g != "default"
              && if (sid, g) in ownerOnly then a.owner
                 else
                   && g in Known(w, sid)
                   && (a.platform || sid in a.adminServers
                       || (sid in a.assigns
                           && exists k :: k in Desired(w, sid) && k.user == a.actor
                                          && Weight(w, sid, g) < Weight(w, sid, k.group)))
  {
    var gs := GroupsOf(w, sid, a.actor);
    if gs != {} {
      var held :| held in gs && Weight(w, sid, held) == Heaviest(w, sid, gs);
      assert Grant(sid, a.actor, held) in Desired(w, sid);
      assert forall k :: k in Desired(w, sid) && k.user == a.actor ==> k.group in gs;
    } else {
      forall k | k in Desired(w, sid)
        ensures k.user != a.actor
      {
        assert k.user == a.actor ==> k.group in gs;
      }
    }
  }

  /**
   What staff do to who should have which group on one server: a group given to a
   person, the groups of a role set anew, a role given to a person.
   */
  datatype HandOut =
    | ToPerson(giver: Authority, user: UserId, group: GroupName)
    | ToRole(giver: Authority, role: RoleId, groups: seq<GroupName>)
    | Assigned(role: RoleId, user: UserId)

  function GroupsIn(w: World, sid: ServerId, role: RoleId): seq<GroupName> {
    if role in w.roles && sid in w.roles[role].groups then w.roles[role].groups[sid] else []
  }

  /** The role with the groups it is to have on the server; one that does not exist yet is made. */
  function RoleWith(w: World, sid: ServerId, role: RoleId, groups: seq<GroupName>): Role {
    if role in w.roles then w.roles[role].(groups := w.roles[role].groups[sid := groups])
    else Role(false, None, map[sid := groups])
  }

  function Given(w: World, sid: ServerId, h: HandOut): World {
    match h
    case ToPerson(_, user, group) => w.(direct := w.direct + {Grant(sid, user, group)})
    case ToRole(_, role, groups) => w.(roles := w.roles[role := RoleWith(w, sid, role, groups)])
    case Assigned(role, user) => w.(members := w.members + {(role, user)})
  }

  predicate PlainStaff(a: Authority, sid: ServerId) {
    !a.platform && !a.owner && sid !in a.adminServers
  }

  /**
   A group is given, and a group put into or taken out of a role, under `may_give`.
   Roles are given to people by the rank of the role: the groups in it are not looked at.
   */
  ghost predicate Allowed(w: World, ownerOnly: set<(ServerId, GroupName)>, sid: ServerId, h: HandOut) {
    match h
    case ToPerson(giver, _, group) => PlainStaff(giver, sid) && MayGive(w, ownerOnly, giver, sid, group)
    case ToRole(giver, role, groups) =>
      && PlainStaff(giver, sid) && (role in w.roles ==> !w.roles[role].badge)
      && forall g :: (g in groups) != (g in GroupsIn(w, sid, role)) ==> MayGive(w, ownerOnly, giver, sid, g)
    case Assigned(role, _) => role in w.roles
  }

  /** Hand-outs on one server by staff who are neither its admins nor above, each allowed when it is made. */
  ghost predicate HandOuts(w: World, ownerOnly: set<(ServerId, GroupName)>, sid: ServerId, hs: seq<HandOut>)
    decreases |hs|
  {
    hs == [] || (Allowed(w, ownerOnly, sid, hs[0]) && HandOuts(Given(w, sid, hs[0]), ownerOnly, sid, hs[1..]))
  }

  function AfterHandOuts(w: World, sid: ServerId, hs: seq<HandOut>): World
    decreases |hs|
  {
    if hs == [] then w else AfterHandOuts(Given(w, sid, hs[0]), sid, hs[1..])
  }

  /** Nobody is to have a group on the server heavier than `top`. */
  ghost predicate HeldLight(w: World, sid: ServerId, top: int) {
    forall k :: k in Desired(w, sid) ==> Weight(w, sid, k.group) <= top
  }

  ghost predicate StaysLight(w: World, sid: ServerId, hs: seq<HandOut>, top: int)
    decreases |hs|
  {
    HeldLight(w, sid, top) && (hs == [] || StaysLight(Given(w, sid, hs[0]), sid, hs[1..], top))
  }

  /** What the role would give on the server is no heavier than `top`. */
  ghost predicate RoleIsLight(w: World, sid: ServerId, role: RoleId, top: int) {
    role in w.roles && RoleActs(w.roles[role], sid) ==>
      forall g :: g in w.roles[role].groups[sid] ==> Weight(w, sid, g) <= top
  }

  /** Every role given to someone is light when it is given. */
  ghost predicate AssignsLight(w: World, sid: ServerId, hs: seq<HandOut>, top: int)
    decreases |hs|
  {
    hs == [] || ((hs[0].Assigned? ==> RoleIsLight(w, sid, hs[0].role, top))
                 && AssignsLight(Given(w, sid, hs[0]), sid, hs[1..], top))
  }

  /** Every group given to a person or put into a role is lighter than `top`, and not for owners only. */
  ghost predicate GivesLighter(w: World, ownerOnly: set<(ServerId, GroupName)>, sid: ServerId, h: HandOut, top: int) {
    match h
    case ToPerson(_, _, group) => Weight(w, sid, group) < top && (sid, group) !in ownerOnly
    case ToRole(_, role, groups) =>
      forall g :: g in groups && g !in GroupsIn(w, sid, role) ==> Weight(w, sid, g) < top && (sid, g) !in ownerOnly
    case Assigned(_, _) => true
  }

  ghost predicate AllGiveLighter(w: World, ownerOnly: set<(ServerId, GroupName)>, sid: ServerId, hs: seq<HandOut>,
                                 top: int)
    decreases |hs|
  {
    hs == [] || (GivesLighter(w, ownerOnly, sid, hs[0], top)
                 && AllGiveLighter(Given(w, sid, hs[0]), ownerOnly, sid, hs[1..], top))
  }

  /** Plain staff give only what is lighter than something they hold. */
  lemma GivenIsLighter(w: World, ownerOnly: set<(ServerId, GroupName)>, sid: ServerId, a: Authority, g: GroupName,
                       top: int)
    requires HeldLight(w, sid, top) && PlainStaff(a, sid) && MayGive(w, ownerOnly, a, sid, g)
    ensures Weight(w, sid, g) < top && (sid, g) !in ownerOnly
  {
    var held :| held in GroupsOf(w, sid, a.actor) && UpTo(Weight(w, sid, held)) == PowerOf(w, a, sid);
    assert Grant(sid, a.actor, held) in Desired(w, sid);
  }

  lemma AllowedGivesLighter(w: World, ownerOnly: set<(ServerId, GroupName)>, sid: ServerId, h: HandOut, top: int)
    requires HeldLight(w, sid, top) && Allowed(w, ownerOnly, sid, h)
    ensures GivesLighter(w, ownerOnly, sid, h, top)
  {
    match h
    case ToPerson(giver, _, group) => GivenIsLighter(w, ownerOnly, sid, giver, group, top);
    case ToRole(giver, role, groups) =>
      forall g | g in groups && g !in GroupsIn(w, sid, role)
        ensures Weight(w, sid, g) < top && (sid, g) !in ownerOnly
      {
        GivenIsLighter(w, ownerOnly, sid, giver, g, top);
      }
    case Assigned(_, _) =>
  }

  /** What a hand-out adds to what people are to have. */
  lemma GivenAdds(w: World, sid: ServerId, h: HandOut, k: Grant)
    requires k in Desired(Given(w, sid, h), sid)
    ensures k in Desired(w, sid)
            || match h
               case ToPerson(_, user, group) => k == Grant(sid, user, group)
               case ToRole(_, role, groups) => k.group in groups && k.group !in GroupsIn(w, sid, role)
               case Assigned(role, user) =>
                 && k.user == user && role in w.roles && RoleActs(w.roles[role], sid)
                 && k.group in w.roles[role].groups[sid]
  {
    var w' := Given(w, sid, h);
    if k !in w'.direct {
      var m :| m in w'.members && m.0 in w'.roles && RoleActs(w'.roles[m.0], sid)
               && k.group in w'.roles[m.0].groups[sid] && k == Grant(sid, m.1, k.group);
      if m in w.members && m.0 in w.roles && w'.roles[m.0] == w.roles[m.0] {
        assert k in Desired(w, sid);
      }
    }
  }

  /** What someone is given with a role, they are to have. */
  lemma AssignedHas(w: World, sid: ServerId, role: RoleId, user: UserId, g: GroupName)
    requires role in w.roles && RoleActs(w.roles[role], sid) && g in w.roles[role].groups[sid]
    ensures Grant(sid, user, g) in Desired(Given(w, sid, Assigned(role, user)), sid)
  {
    var m := (role, user);
    assert m in Given(w, sid, Assigned(role, user)).members;
  }

  lemma SameWeights(w: World, sid: ServerId, h: HandOut)
    ensures forall g :: Weight(Given(w, sid, h), sid, g) == Weight(w, sid, g)
  {
  }

  /** One hand-out leaves everyone below the bound exactly if it is not the giving of a role above it. */
  lemma OneStaysLightIff(w: World, ownerOnly: set<(ServerId, GroupName)>, sid: ServerId, h: HandOut, top: int)
    requires HeldLight(w, sid, top) && Allowed(w, ownerOnly, sid, h)
    ensures HeldLight(Given(w, sid, h), sid, top) <==> (h.Assigned? ==> RoleIsLight(w, sid, h.role, top))
  {
    var w' := Given(w, sid, h);
    AllowedGivesLighter(w, ownerOnly, sid, h, top);
    SameWeights(w, sid, h);
    if h.Assigned? ==> RoleIsLight(w, sid, h.role, top) {
      forall k | k in Desired(w', sid)
        ensures Weight(w', sid, k.group) <= top
      {
        GivenAdds(w, sid, h, k);
      }
    } else {
      var g :| g in w.roles[h.role].groups[sid] && Weight(w, sid, g) > top;
      AssignedHas(w, sid, h.role, h.user, g);
    }
  }

  /**
   Exactly when no chain of hand-outs lifts anyone above the heaviest group held at its
   start: when no role is given to someone that carries a heavier one.
   */
  lemma {:induction false} HandOutsStayBelowIff(w: World, ownerOnly: set<(ServerId, GroupName)>, sid: ServerId,
                                               hs: seq<HandOut>, top: int)
    requires HandOuts(w, ownerOnly, sid, hs) && HeldLight(w, sid, top)
    ensures StaysLight(w, sid, hs, top) <==> AssignsLight(w, sid, hs, top)
    decreases |hs|
  {
    if hs != [] {
      OneStaysLightIff(w, ownerOnly, sid, hs[0], top);
      if HeldLight(Given(w, sid, hs[0]), sid, top) {
        HandOutsStayBelowIff(Given(w, sid, hs[0]), ownerOnly, sid, hs[1..], top);
      }
    }
  }

  /** In such a chain every group given or put into a role is lighter than that, whoever gave it. */
  lemma {:induction false} HandOutsGiveLighter(w: World, ownerOnly: set<(ServerId, GroupName)>, sid: ServerId,
                                               hs: seq<HandOut>, top: int)
    requires HandOuts(w, ownerOnly, sid, hs) && StaysLight(w, sid, hs, top)
    ensures AllGiveLighter(w, ownerOnly, sid, hs, top)
    decreases |hs|
  {
    if hs != [] {
      AllowedGivesLighter(w, ownerOnly, sid, hs[0], top);
      HandOutsGiveLighter(Given(w, sid, hs[0]), ownerOnly, sid, hs[1..], top);
    }
  }

  /**
   No chain of groups given and put into roles lifts anyone to the weight of the heaviest
   group held at its start: what anyone is to have at its end they were to have at its
   start, or it is lighter.
   */
  lemma {:induction false} HandOutsStayBelow(w: World, ownerOnly: set<(ServerId, GroupName)>, sid: ServerId,
                                             hs: seq<HandOut>, top: int)
    requires HandOuts(w, ownerOnly, sid, hs) && HeldLight(w, sid, top)
    requires forall i :: 0 <= i < |hs| ==> !hs[i].Assigned?
    ensures StaysLight(w, sid, hs, top) && AllGiveLighter(w, ownerOnly, sid, hs, top)
    ensures forall k :: k in Desired(AfterHandOuts(w, sid, hs), sid)
              ==> k in Desired(w, sid) || Weight(w, sid, k.group) < top
    decreases |hs|
  {
    if hs != [] {
      var w' := Given(w, sid, hs[0]);
      OneStaysLightIff(w, ownerOnly, sid, hs[0], top);
      AllowedGivesLighter(w, ownerOnly, sid, hs[0], top);
      SameWeights(w, sid, hs[0]);
      forall k | k in Desired(w', sid)
        ensures k in Desired(w, sid) || Weight(w, sid, k.group) < top
      {
        GivenAdds(w, sid, hs[0], k);
      }
      HandOutsStayBelow(w', ownerOnly, sid, hs[1..], top);
    }
  }
}
