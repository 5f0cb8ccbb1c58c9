/**
 Staff permissions (apps/api/app/core/permissions.py, `Access`): the effective keys of
 a person from every source, kept as an index, and the questions asked of it.
 */
module Access {
  import opened Wrappers

  type Key = string
  type ServerId = string

  /** An entry of the permission catalogue. */
  datatype Perm = Perm(key: Key, perServer: bool)

  type Catalogue = seq<Perm>

  const NOT_VIA_SERVER_ADMIN: set<Key> := {"servers.manage", "game.groups.manage"}

  /** `servers == None`: the role's keys hold everywhere. */
  datatype Role = Role(badge: bool, servers: Option<seq<ServerId>>, permissions: seq<Key>)

  datatype User = User(
    active: bool,
    admin: bool,
    moderator: bool,
    adminServers: set<ServerId>,
    permissions: seq<Key>,
    serverPermissions: map<ServerId, seq<Key>>,
    roles: seq<Role>)

  function AllKeys(cat: Catalogue): set<Key> {
    set p | p in cat :: p.key
  }

  function ServerKeys(cat: Catalogue): set<Key> {
    set p | p in cat && p.perServer :: p.key
  }

  function ServerAdminKeys(cat: Catalogue): set<Key> {
    ServerKeys(cat) - NOT_VIA_SERVER_ADMIN
  }

  /** The known ones of the given keys, in catalogue order. */
  function Sanitized(cat: Catalogue, keys: seq<Key>): seq<Key> {
    if cat == [] then [] else (if cat[0].key in keys then [cat[0].key] else []) + Sanitized(cat[1..], keys)
  }

  lemma {:induction false} SanitizedIs(cat: Catalogue, keys: seq<Key>)
    ensures forall k :: k in Sanitized(cat, keys) <==> k in keys && k in AllKeys(cat)
  {
    if cat != [] {
      SanitizedIs(cat[1..], keys);
      assert cat == [cat[0]] + cat[1..];
    }
  }

  // ----- the definition -----

  predicate Staff(u: User) {
    u.active && (u.moderator || u.adminServers != {})
  }

  /** Some source gives the key everywhere. */
  ghost predicate GivenEverywhere(cat: Catalogue, u: User, k: Key) {
    Staff(u) && k in AllKeys(cat)
    && (k in u.permissions || exists r :: r in u.roles && !r.badge && r.servers.None? && k in r.permissions)
  }

  /** Some grant or role gives the key on one server. */
  ghost predicate GivenOn(cat: Catalogue, u: User, sid: ServerId, k: Key) {
    Staff(u) && k in AllKeys(cat) && k in ServerKeys(cat)
    && ((sid in u.serverPermissions && k in u.serverPermissions[sid])
        || exists r :: r in u.roles && !r.badge && r.servers.Some? && sid in r.servers.value && k in r.permissions)
  }

  /** The key holds for the person, on a server or (None) everywhere. */
  ghost predicate Holds(cat: Catalogue, u: User, sid: Option<ServerId>, k: Key) {
    if u.active && u.admin then k in AllKeys(cat)
    else
      || GivenEverywhere(cat, u, k)
      || (sid.Some? && (GivenOn(cat, u, sid.value, k)
                        || (u.active && sid.value in u.adminServers && k in ServerAdminKeys(cat))))
  }

  /** The catalogue has the key, and as one that can be given for a single server. */
  predicate OfOneServer(cat: Catalogue, k: Key) {
    exists p :: p in cat && p.key == k && p.perServer
  }

  /**
   What holds for a person without roles. An administrator has every key. A key of the
   person's own holds everywhere, one given for a server there, and who administers a
   server has there all that can be given for one, but for two keys.
   */
  lemma WithoutRolesIff(cat: Catalogue, u: User, sid: Option<ServerId>, k: Key)
    requires u.roles == []
    ensures Holds(cat, u, sid, k) <==>
              && u.active && (exists p :: p in cat && p.key == k)
              && (|| u.admin
                  || ((u.moderator || u.adminServers != {}) && k in u.permissions)
                  || (&& sid.Some? && OfOneServer(cat, k)
                      && (|| (sid.value in u.adminServers && k != "servers.manage" && k != "game.groups.manage")
                          || ((u.moderator || u.adminServers != {})
                              && sid.value in u.serverPermissions && k in u.serverPermissions[sid.value]))))
  {
  }

  /**
   What a role adds, for all but administrators: nothing if it is a badge or its holder is
   no moderator and administers no server; its known keys everywhere if it lists no
   servers, else on the servers listed those of them that can be given for one.
   */
  lemma RoleAddsIff(cat: Catalogue, u: User, r: Role, sid: Option<ServerId>, k: Key)
    requires !u.admin
    ensures Holds(cat, u.(roles := u.roles + [r]), sid, k) <==>
              || Holds(cat, u, sid, k)
              || (&& u.active && (u.moderator || u.adminServers != {})
                  && !r.badge && k in r.permissions && (exists p :: p in cat && p.key == k)
                  && match r.servers
                     case None => true
                     case Some(on) => sid.Some? && sid.value in on && OfOneServer(cat, k))
  {
    var more := u.roles + [r];
    assert r in more && forall x :: x in more <==> x in u.roles || x == r;
  }

  // ----- the index -----

  function Known(cat: Catalogue, keys: seq<Key>): set<Key> {
    set k | k in Sanitized(cat, keys)
  }

  /** The per-server keys among those given. */
  function Kept(cat: Catalogue, keys: seq<Key>): set<Key> {
    set k | k in Sanitized(cat, keys) && k in ServerKeys(cat)
  }

  lemma KeptIs(cat: Catalogue, keys: seq<Key>)
    ensures forall k :: k in Known(cat, keys) <==> k in keys && k in AllKeys(cat)
    ensures forall k :: k in Kept(cat, keys) <==> k in keys && k in AllKeys(cat) && k in ServerKeys(cat)
  {
    SanitizedIs(cat, keys);
  }

  function FromRoles(cat: Catalogue, roles: seq<Role>): set<Key> {
    if roles == [] then {}
    else FromRoles(cat, roles[..|roles| - 1]) + OfRole(cat, roles[|roles| - 1])
  }

  function FromRolesOn(cat: Catalogue, roles: seq<Role>, sid: ServerId): set<Key> {
    if roles == [] then {}
    else FromRolesOn(cat, roles[..|roles| - 1], sid) + OfRoleOn(cat, roles[|roles| - 1], sid)
  }

  /** What one role gives everywhere. */
  function OfRole(cat: Catalogue, r: Role): set<Key> {
    if !r.badge && r.servers.None? then Known(cat, r.permissions) else {}
  }

  /** What one role gives on a server. */
  function OfRoleOn(cat: Catalogue, r: Role, sid: ServerId): set<Key> {
    if !r.badge && r.servers.Some? && sid in r.servers.value then Kept(cat, r.permissions) else {}
  }

  lemma FromRolesMore(cat: Catalogue, roles: seq<Role>, i: nat, sid: ServerId)
    requires i < |roles|
    ensures FromRoles(cat, roles[..i + 1]) == FromRoles(cat, roles[..i]) + OfRole(cat, roles[i])
    ensures FromRolesOn(cat, roles[..i + 1], sid) == FromRolesOn(cat, roles[..i], sid) + OfRoleOn(cat, roles[i], sid)
  {
    assert roles[..i + 1][..i] == roles[..i];
  }

  /** What roles give does not depend on their order, nor on the badges among them. */
  lemma {:induction false} FromRolesIs(cat: Catalogue, roles: seq<Role>, sid: ServerId)
    ensures forall k :: k in FromRoles(cat, roles)
              <==> k in AllKeys(cat) && exists r :: r in roles && !r.badge && r.servers.None? && k in r.permissions
    ensures forall k :: k in FromRolesOn(cat, roles, sid)
              <==> k in AllKeys(cat) && k in ServerKeys(cat)
                   && exists r :: r in roles && !r.badge && r.servers.Some? && sid in r.servers.value
                         && k in r.permissions
  {
    if roles != [] {
      var front, last := roles[..|roles| - 1], roles[|roles| - 1];
      FromRolesIs(cat, front, sid);
      KeptIs(cat, last.permissions);
      assert roles == front + [last];
    }
  }

  function Personal(cat: Catalogue, u: User, sid: ServerId): set<Key> {
    if sid in u.serverPermissions then Kept(cat, u.serverPermissions[sid]) else {}
  }

  function On(per: map<ServerId, set<Key>>, sid: ServerId): set<Key> {
    if sid in per then per[sid] else {}
  }

  /** The servers of `sids` gain `keys`, no other changes, and no server is kept without keys. */
  ghost predicate Gains(before: map<ServerId, set<Key>>, after: map<ServerId, set<Key>>, sids: seq<ServerId>,
                        keys: set<Key>) {
    && (forall s :: On(after, s) == On(before, s) + if s in sids then keys else {})
    && (NoneEmpty(before) ==> NoneEmpty(after))
  }

  ghost predicate NoneEmpty(per: map<ServerId, set<Key>>) {
    forall sid :: sid in per ==> per[sid] != {}
  }

  class Index {
    const cat: Catalogue
    var platformAdmin: bool
    var adminServers: set<ServerId>
    var everywhere: set<Key>
    var perServer: map<ServerId, set<Key>>

    /** The index says what the definition says. */
    ghost predicate For(u: User)
      reads this
    {
      && platformAdmin == (u.active && u.admin)
      && adminServers == (if u.active && !u.admin then u.adminServers else {})
      && (forall k :: k in everywhere <==> !platformAdmin && GivenEverywhere(cat, u, k))
      && (forall sid, k :: k in On(perServer, sid) <==> !platformAdmin && GivenOn(cat, u, sid, k))
      && NoneEmpty(perServer)
    }

    constructor (cat: Catalogue, u: User)
      ensures this.cat == cat && For(u)
    {
      this.cat := cat;
      platformAdmin := u.active && u.admin;
      adminServers, everywhere, perServer := {}, {}, map[];
      new;
      if !u.active || platformAdmin {
        return;
      }
      adminServers := u.adminServers;
      if !(u.moderator || adminServers != {}) {
        return;
      }
      everywhere := Known(cat, u.permissions);
      AddPersonal(u);
      AddRoles(u);
      KeptIs(cat, u.permissions);
      forall sid
        ensures forall k :: k in On(perServer, sid) <==> GivenOn(cat, u, sid, k)
        ensures forall k :: k in everywhere <==> GivenEverywhere(cat, u, k)
      {
        FromRolesIs(cat, u.roles, sid);
        if sid in u.serverPermissions {
          KeptIs(cat, u.serverPermissions[sid]);
        }
      }
      FromRolesIs(cat, u.roles, "");
    }

    method AddPersonal(u: User)
      requires perServer == map[]
      modifies this`perServer
      ensures forall s :: On(perServer, s) == Personal(cat, u, s)
      ensures NoneEmpty(perServer)
    {
      var todo := u.serverPermissions.Keys;
      while todo != {}
        invariant todo <= u.serverPermissions.Keys
        invariant forall s :: On(perServer, s) == if s in todo then {} else Personal(cat, u, s)
        invariant NoneEmpty(perServer)
      {
        var sid :| sid in todo;
        Add(sid, u.serverPermissions[sid]);
        todo := todo - {sid};
      }
    }

    method AddRoles(u: User)
      modifies this`perServer, this`everywhere
      ensures everywhere == old(everywhere) + FromRoles(cat, u.roles)
      ensures forall s :: On(perServer, s) == On(old(perServer), s) + FromRolesOn(cat, u.roles, s)
      ensures NoneEmpty(old(perServer)) ==> NoneEmpty(perServer)
    {
      for i := 0 to |u.roles|
        invariant everywhere == old(everywhere) + FromRoles(cat, u.roles[..i])
        invariant forall s :: On(perServer, s) == On(old(perServer), s) + FromRolesOn(cat, u.roles[..i], s)
        invariant NoneEmpty(old(perServer)) ==> NoneEmpty(perServer)
      {
        ghost var before := perServer;
        AddRole(u.roles[i]);
        forall s ensures On(perServer, s) == On(old(perServer), s) + FromRolesOn(cat, u.roles[..i + 1], s) {
          FromRolesMore(cat, u.roles, i, s);
          assert On(perServer, s) == On(before, s) + OfRoleOn(cat, u.roles[i], s);
        }
        FromRolesMore(cat, u.roles, i, "");
      }
      assert u.roles[..|u.roles|] == u.roles;
    }

    method AddRole(role: Role)
      modifies this`perServer, this`everywhere
      ensures everywhere == old(everywhere) + OfRole(cat, role)
      ensures forall s :: On(perServer, s) == On(old(perServer), s) + OfRoleOn(cat, role, s)
      ensures NoneEmpty(old(perServer)) ==> NoneEmpty(perServer)
    {
      if !role.badge {
        if role.servers.None? {
          everywhere := everywhere + Known(cat, role.permissions);
        } else {
          AddAll(role.servers.value, role.permissions);
        }
      }
    }

    method Add(sid: ServerId, keys: seq<Key>)
      modifies this`perServer
      ensures Gains(old(perServer), perServer, [sid], Kept(cat, keys))
    {
      var kept := Kept(cat, keys);
      if kept != {} {
        perServer := perServer[sid := On(perServer, sid) + kept];
      }
    }

    method AddAll(sids: seq<ServerId>, keys: seq<Key>)
      modifies this`perServer
      ensures Gains(old(perServer), perServer, sids, Kept(cat, keys))
    {
      for i := 0 to |sids|
        invariant Gains(old(perServer), perServer, sids[..i], Kept(cat, keys))
      {
        Add(sids[i], keys);
        assert sids[..i + 1] == sids[..i] + [sids[i]];
      }
      assert sids[..|sids|] == sids;
    }

    /** The effective keys on one server, or those that hold everywhere. */
    method KeysOn(sid: Option<ServerId>, ghost u: User) returns (keys: set<Key>)
      requires For(u)
      ensures forall k :: k in keys <==> Holds(cat, u, sid, k)
    {
      if platformAdmin {
        return AllKeys(cat);
      }
      keys := everywhere;
      if sid.Some? {
        if sid.value in adminServers {
          keys := keys + ServerAdminKeys(cat);
        }
        keys := keys + On(perServer, sid.value);
      }
    }

    /** The listed servers on which the key holds: exactly so for every key of the catalogue. */
    method ServersWith(key: Key, ids: set<ServerId>, ghost u: User) returns (sids: set<ServerId>)
      requires For(u)
      ensures key in AllKeys(cat) || !platformAdmin ==>
                forall s :: s in sids <==> s in ids && Holds(cat, u, Some(s), key)
      ensures key !in AllKeys(cat) && platformAdmin ==> sids == ids && forall s :: !Holds(cat, u, Some(s), key)
    {
      if platformAdmin || key in everywhere {
        return ids;
      }
      sids := set s | s in perServer && key in perServer[s];
      if key in ServerAdminKeys(cat) {
        sids := sids + adminServers;
      }
      sids := sids * ids;
      forall s
        ensures s in sids <==> s in ids && Holds(cat, u, Some(s), key)
      {
        assert key in On(perServer, s) <==> s in perServer && key in perServer[s];
      }
    }

    /** Whether the person holds any key anywhere. */
    method IsStaff(ghost u: User) returns (staff: bool)
      requires For(u)
      requires ServerAdminKeys(cat) != {}
      ensures staff <==> exists sid, k :: Holds(cat, u, sid, k)
    {
      staff := platformAdmin || adminServers != {} || everywhere != {} || perServer != map[];
      if platformAdmin {
        var k :| k in ServerAdminKeys(cat);
        assert k in AllKeys(cat);
        assert Holds(cat, u, None, k);
      } else if adminServers != {} {
        var s :| s in adminServers;
        var k :| k in ServerAdminKeys(cat);
        assert Holds(cat, u, Some(s), k);
      } else if everywhere != {} {
        var k :| k in everywhere;
        assert Holds(cat, u, None, k);
      } else if perServer != map[] {
        var s :| s in perServer;
        var k :| k in perServer[s];
        assert k in On(perServer, s);
        assert Holds(cat, u, Some(s), k);
      } else {
        forall sid: Option<ServerId>, k
          ensures !Holds(cat, u, sid, k)
        {
          assert k !in everywhere;
          assert sid.Some? ==> k !in On(perServer, sid.value);
        }
      }
    }
  }
}
