/** Which rows each transaction changes, and to what, field by field. */
module AuthorityEffects {
  import opened Outcome
  import opened Decimals
  import opened AuthorityTables
  import opened AuthoritySteps
  import opened AuthorityRows
  import opened AuthorityRuns
  import opened AuthorityStanding
  import opened AuthoritySafety

  /** The same tokens, those named revoked. */
  ghost predicate TokensCut(before: Tokens, after: Tokens, cut: set<Hash>) {
    && after.Keys == before.Keys
    && forall h :: h in before ==>
         && after[h].revoked == (before[h].revoked || h in cut)
         && after[h].(revoked := before[h].revoked) == before[h]
  }

  /** The same grants, those named and neither used nor revoked now revoked. */
  ghost predicate GrantsCut(before: Grants, after: Grants, cut: set<Id>, now: Time) {
    && after.Keys == before.Keys
    && forall g :: g in before ==>
         && after[g].revoked == (if g in cut && before[g].consumed == None && before[g].revoked == None
                                 then Some(now) else before[g].revoked)
         && after[g].(revoked := before[g].revoked) == before[g]
  }

  lemma RevokeTokensCuts(tokens: Tokens, which: set<Hash>)
    ensures TokensCut(tokens, RevokeTokens(tokens, which), which)
  {
  }

  lemma RevokeGrantsCuts(grants: Grants, which: set<Id>, now: Time)
    ensures GrantsCut(grants, RevokeGrants(grants, which, now), which, now)
  {
  }

  // ---- refresh ---------------------------------------------------------------------------

  /** The rows a rotation looks up. */
  ghost predicate RowsThere(dir: Directory, t: Token) {
    && t.app in dir.apps && t.user in dir.users && t.device in dir.devices && t.key in dir.keys
    && exists g :: g in dir.userGrants && dir.userGrants[g].app == t.app && dir.userGrants[g].user == t.user
  }

  /** The token read is of the caller's application, device and key, belongs to a family, and its rows exist. */
  ghost predicate Presentable(db: Db, snap: Snapshot, req: Request) {
    && snap.row.app == req.app && snap.row.device == req.device && snap.row.key == req.key
    && snap.row.family != None && RowsThere(db.dir, snap.row)
  }

  /** Such a token, unrevoked when read, unexpired, and still unrevoked when claimed. */
  ghost predicate MayRotate(db: Db, snap: Snapshot, req: Request, now: Time)
    requires snap.hash in db.tokens
  {
    !snap.row.revoked && now < snap.row.expires && Presentable(db, snap, req) && !db.tokens[snap.hash].revoked
  }

  lemma RotateIff(db: Db, snap: Snapshot, req: Request, newHash: Hash, expires: Time, now: Time)
    requires snap.hash in db.tokens
    ensures RotateAct(db, snap, req, newHash, expires, now).1
            == if MayRotate(db, snap, req, now) then Done else Refused(AuthFailed)
  {
    hide RevokeTokens, RevokeGrants, RevokeFamily, Rotated;
  }

  /** Then the successor carries the identity of the old token, which points to it; nothing else changes. */
  lemma RotateRows(db: Db, snap: Snapshot, req: Request, newHash: Hash, expires: Time, now: Time)
    requires snap.hash in db.tokens && newHash !in db.tokens
    requires RotateAct(db, snap, req, newHash, expires, now).1 == Done
    ensures var after := RotateAct(db, snap, req, newHash, expires, now).0;
            && after.tokens.Keys == db.tokens.Keys + {newHash}
            && after.tokens[newHash].user == snap.row.user && after.tokens[newHash].app == snap.row.app
            && after.tokens[newHash].device == snap.row.device && after.tokens[newHash].key == snap.row.key
            && after.tokens[newHash].family == snap.row.family && after.tokens[newHash].parent == Some(snap.hash)
            && after.tokens[newHash].rotatedTo == None && after.tokens[newHash].expires == expires
            && !after.tokens[newHash].revoked
            && after.tokens[snap.hash].revoked && after.tokens[snap.hash].rotatedTo == Some(newHash)
            && after.tokens[snap.hash].expires == db.tokens[snap.hash].expires
            && (forall h :: h in db.tokens && h != snap.hash ==> after.tokens[h] == db.tokens[h])
            && after.grants == db.grants && after.dir == db.dir
            && after.connections == db.connections && after.leases == db.leases
  {
  }

  /** The refusals that end a family: a token revoked when read, or revoked by another worker since. */
  ghost predicate EndsFamily(db: Db, snap: Snapshot, req: Request, now: Time)
    requires snap.hash in db.tokens
  {
    snap.row.revoked
    || (now < snap.row.expires && Presentable(db, snap, req) && db.tokens[snap.hash].revoked)
  }

  /** Read unrevoked but past its expiry. */
  predicate Lapsed(snap: Snapshot, now: Time) {
    !snap.row.revoked && snap.row.expires <= now
  }

  ghost function TokensRefused(db: Db, snap: Snapshot, req: Request, now: Time): set<Hash>
    requires snap.hash in db.tokens
  {
    set h | h in db.tokens
      && ((Lapsed(snap, now) && h == snap.hash)
          || (EndsFamily(db, snap, req, now) && snap.row.family != None && db.tokens[h].family == snap.row.family))
  }

  ghost function GrantsRefused(db: Db, snap: Snapshot, req: Request, now: Time): set<Id>
    requires snap.hash in db.tokens
  {
    set g | g in db.grants
      && (Lapsed(snap, now) || EndsFamily(db, snap, req, now)) && Some(db.grants[g].family) == snap.row.family
  }

  lemma NothingCut(db: Db, cut: set<Hash>, cutGrants: set<Id>, now: Time)
    requires cut == {} && cutGrants == {}
    ensures TokensCut(db.tokens, db.tokens, cut) && GrantsCut(db.grants, db.grants, cutGrants, now)
  {
  }

  /** What a refused refresh revokes: the whole family, or an expired token with its family's grants, or nothing. */
  lemma RefusedRotateRows(db: Db, snap: Snapshot, req: Request, newHash: Hash, expires: Time, now: Time)
    requires snap.hash in db.tokens && RotateAct(db, snap, req, newHash, expires, now).1 != Done
    ensures var after := RotateAct(db, snap, req, newHash, expires, now).0;
            && TokensCut(db.tokens, after.tokens, TokensRefused(db, snap, req, now))
            && GrantsCut(db.grants, after.grants, GrantsRefused(db, snap, req, now), now)
            && after.dir == db.dir && after.connections == db.connections && after.leases == db.leases
  {
    hide IdentityRows, RowsThere, RevokeTokens, RevokeGrants, TokensCut, GrantsCut, Rotated;
    RowsThereIff(db.dir, snap.row);
    var cut, cutGrants := TokensRefused(db, snap, req, now), GrantsRefused(db, snap, req, now);
    RevokeTokensCuts(db.tokens, cut);
    RevokeGrantsCuts(db.grants, cutGrants, now);
    if EndsFamily(db, snap, req, now) && snap.row.family.Some? {
      assert cut == FamilyTokens(db.tokens, snap.row.family.value);
      assert cutGrants == FamilyGrants(db.grants, snap.row.family.value);
    } else if Lapsed(snap, now) {
      assert cut == {snap.hash};
      if snap.row.family.Some? {
        assert cutGrants == FamilyGrants(db.grants, snap.row.family.value);
      } else {
        assert cutGrants == {};
        NoGrantsCut(db.grants, cutGrants, now);
      }
    } else {
      assert cut == {} && cutGrants == {};
      NothingCut(db, cut, cutGrants, now);
    }
  }

  lemma NoGrantsCut(grants: Grants, cut: set<Id>, now: Time)
    requires cut == {}
    ensures GrantsCut(grants, grants, cut, now)
  {
  }

  lemma RowsThereIff(dir: Directory, t: Token)
    ensures IdentityRows(dir, t) == RowsThere(dir, t)
  {
  }

  lemma InitialRows(db: Db, hash: Hash, user: Id, app: Id, device: Id, key: Id, family: Family, expires: Time)
    ensures var after := SaveInitial(db, hash, user, app, device, key, family, expires);
            && after.tokens.Keys == db.tokens.Keys + {hash}
            && after.tokens[hash].user == user && after.tokens[hash].app == app && after.tokens[hash].device == device
            && after.tokens[hash].key == key && after.tokens[hash].family == Some(family)
            && after.tokens[hash].parent == None && after.tokens[hash].rotatedTo == None
            && after.tokens[hash].expires == expires && !after.tokens[hash].revoked
            && (forall h :: h in db.tokens && h != hash ==> after.tokens[h] == db.tokens[h])
            && after.(tokens := db.tokens, serial := db.serial) == db
  {
  }

  // ---- config grants -----------------------------------------------------------------------

  /** Success retires the usable grants of the same application, user and device and adds one per selector. */
  lemma IssueRows(db: Db, ctx: Context, issued: map<Id, Selector>, now: Time, expires: Time, limit: LimitPolicy, g: Id)
    requires issued.Keys !! db.grants.Keys && issued != map[] && now < expires
    requires IssueGrants(db, ctx, issued, now, expires, limit).1 == Done
    ensures var after := IssueGrants(db, ctx, issued, now, expires, limit).0;
            && after.grants.Keys == db.grants.Keys + issued.Keys
            && after.(grants := db.grants) == db
            && (g in issued ==>
                  && after.grants[g].app == ctx.app && after.grants[g].user == ctx.user
                  && after.grants[g].device == ctx.device && after.grants[g].key == ctx.key
                  && after.grants[g].family == ctx.family
                  && after.grants[g].core == issued[g].core && after.grants[g].protocol == issued[g].protocol
                  && after.grants[g].source == issued[g].source && after.grants[g].expires == expires
                  && after.grants[g].connection == None && after.grants[g].consumed == None
                  && after.grants[g].revoked == None)
            && (g in db.grants ==>
                  var was := db.grants[g];
                  var own := was.app == ctx.app && was.user == ctx.user && was.device == ctx.device;
                  after.grants[g] == if own && was.consumed == None && was.revoked == None
                                     then was.(revoked := Some(now)) else was)
  {
    hide Authorized, CanSign;
  }

  // ---- connections ------------------------------------------------------------------------------

  /** A reservation renews the connection that holds the active key, or opens a pending one under the new id. */
  lemma ReserveRows(db: Db, ctx: Context, config: Id, newId: Id, notAfter: Time, now: Time, limit: LimitPolicy) returns (c: Id)
    requires Bound(db) && newId !in db.connections
    requires Reserve(db, ctx, config, newId, notAfter, now, limit).1 == Done
    ensures config in db.grants && db.grants[config].protocol.Some?
    ensures var after := Reserve(db, ctx, config, newId, notAfter, now, limit).0;
            var row := db.grants[config];
            var key := ActiveKey(ctx.app, ctx.device, row.core, row.protocol.value);
            && c in after.connections && c in after.leases && after.dir == db.dir && after.tokens == db.tokens
            && after.grants == db.grants[config := row.(connection := Some(c))]
            && after.connections[c].app == ctx.app && after.connections[c].device == ctx.device
            && after.connections[c].key == ctx.key && after.connections[c].family == ctx.family
            && after.connections[c].notAfter == notAfter && after.leases[c].notAfter == notAfter
            && after.connections[c].activeKey == Some(key)
            && (forall d :: d in db.connections && d != c ==> d in after.connections && after.connections[d] == db.connections[d])
            && (forall d :: d in db.leases && d != c ==> d in after.leases && after.leases[d] == db.leases[d])
            && (c == newId ==>
                  && (forall d :: d in db.connections ==> db.connections[d].activeKey != Some(key))
                  && after.connections[c].user == ctx.user && after.connections[c].core == row.core
                  && after.connections[c].protocol == row.protocol.value
                  && after.connections[c].status == Pending && after.leases[c] == Lease(Pending, notAfter, None))
            && (c != newId ==>
                  && c in db.connections && c in db.leases && db.connections[c].activeKey == Some(key)
                  && after.connections[c].user == db.connections[c].user
                  && after.connections[c].core == db.connections[c].core
                  && after.connections[c].protocol == db.connections[c].protocol
                  && after.connections[c].status == db.connections[c].status
                  && after.leases[c].status == db.leases[c].status
                  && after.leases[c].removed == db.leases[c].removed)
  {
    hide Authorized, ActiveKey, KeysDistinct;
    var row := db.grants[config];
    var key := ActiveKey(ctx.app, ctx.device, row.core, row.protocol.value);
    if exists d :: Holds(db.connections, key, d) {
      c := Holder(db.connections, key);
      var held := db.connections[c];
      assert Agrees(held, db.leases[c]);
      ActiveKeyNames(held.app, held.device, held.core, held.protocol, ctx.app, ctx.device, row.core, row.protocol.value);
    } else {
      c := newId;
      forall d | d in db.connections ensures db.connections[d].activeKey != Some(key) {
        assert !Holds(db.connections, key, d);
      }
    }
  }

  // ---- administrative revocations -----------------------------------------------------------------

  /** Revoking an application cuts its tokens and grants and deactivates its keys, devices and user grants; no others. */
  lemma AppCascadeRows(db: Db, app: Id, now: Time)
    ensures var after := RevokeAppCascade(db, app, now);
            && TokensCut(db.tokens, after.tokens, set h | h in db.tokens && db.tokens[h].app == app)
            && GrantsCut(db.grants, after.grants, (set g | g in db.grants && db.grants[g].app == app), now)
            && after.dir.keys.Keys == db.dir.keys.Keys && after.dir.devices.Keys == db.dir.devices.Keys
            && after.dir.userGrants.Keys == db.dir.userGrants.Keys
            && (forall k :: k in db.dir.keys ==>
                  && after.dir.keys[k].active == (db.dir.keys[k].active && db.dir.keys[k].app != app)
                  && after.dir.keys[k].(active := db.dir.keys[k].active) == db.dir.keys[k])
            && (forall d :: d in db.dir.devices ==>
                  && after.dir.devices[d].active == (db.dir.devices[d].active && db.dir.devices[d].app != app)
                  && after.dir.devices[d].(active := db.dir.devices[d].active) == db.dir.devices[d])
            && (forall g :: g in db.dir.userGrants ==>
                  && after.dir.userGrants[g].active == (db.dir.userGrants[g].active && db.dir.userGrants[g].app != app)
                  && after.dir.userGrants[g].(active := db.dir.userGrants[g].active) == db.dir.userGrants[g])
            && after.dir.apps == db.dir.apps && after.dir.users == db.dir.users && after.dir.used == db.dir.used
            && after.connections == db.connections && after.leases == db.leases
  {
    hide RevokeTokens, RevokeGrants, TokensCut, GrantsCut;
    RevokeTokensCuts(db.tokens, set h | h in db.tokens && db.tokens[h].app == app);
    RevokeGrantsCuts(db.grants, (set g | g in db.grants && db.grants[g].app == app), now);
  }

  /** Revoking a user's grant cuts that user's tokens and grants of the application. */
  lemma UserGrantCascadeRows(db: Db, app: Id, user: Id, now: Time)
    ensures var after := RevokeUserGrantCascade(db, app, user, now);
            && TokensCut(db.tokens, after.tokens, set h | h in db.tokens && db.tokens[h].app == app && db.tokens[h].user == user)
            && GrantsCut(db.grants, after.grants,
                         (set g | g in db.grants && db.grants[g].app == app && db.grants[g].user == user), now)
            && after.(tokens := db.tokens, grants := db.grants) == db
  {
    hide RevokeTokens, RevokeGrants, TokensCut, GrantsCut;
    RevokeTokensCuts(db.tokens, set h | h in db.tokens && db.tokens[h].app == app && db.tokens[h].user == user);
    RevokeGrantsCuts(db.grants, (set g | g in db.grants && db.grants[g].app == app && db.grants[g].user == user), now);
  }

  /**
    * Revoking an encryption key cuts the tokens of its application made with it and every grant made with it;
    * revoking the signing key in use cuts every grant of the application and no token; any other key nothing.
    */
  lemma KeyCascadeRows(db: Db, app: Id, key: Id, purpose: Purpose, inUse: bool, now: Time)
    ensures var after := RevokeKeyCascade(db, app, key, purpose, inUse, now);
            && TokensCut(db.tokens, after.tokens,
                         set h | h in db.tokens && purpose == ConfigEncryption
                           && db.tokens[h].app == app && db.tokens[h].key == key)
            && GrantsCut(db.grants, after.grants,
                         (set g | g in db.grants
                            && if purpose == ConfigEncryption then db.grants[g].key == key
                               else inUse && db.grants[g].app == app), now)
            && after.(tokens := db.tokens, grants := db.grants) == db
  {
    hide RevokeTokens, RevokeGrants, TokensCut, GrantsCut;
    var cut := set h | h in db.tokens && purpose == ConfigEncryption && db.tokens[h].app == app && db.tokens[h].key == key;
    var cutGrants := set g | g in db.grants
      && if purpose == ConfigEncryption then db.grants[g].key == key else inUse && db.grants[g].app == app;
    RevokeTokensCuts(db.tokens, cut);
    RevokeGrantsCuts(db.grants, cutGrants, now);
    if purpose == ConfigEncryption {
      assert cut == set h | h in db.tokens && db.tokens[h].app == app && db.tokens[h].key == key;
      assert cutGrants == set g | g in db.grants && db.grants[g].key == key;
    } else {
      assert cut == {};
      NoTokensCut(db.tokens, cut);
      if inUse {
        assert cutGrants == set g | g in db.grants && db.grants[g].app == app;
      } else {
        assert cutGrants == {};
        NoGrantsCut(db.grants, cutGrants, now);
      }
    }
  }

  lemma NoTokensCut(tokens: Tokens, cut: set<Hash>)
    requires cut == {}
    ensures TokensCut(tokens, tokens, cut)
  {
  }

  /** Revoking an active device deactivates it and cuts its tokens and grants; an inactive one is left alone. */
  lemma DeviceRevokeRows(db: Db, device: Id, now: Time)
    ensures var after := RevokeDevice(db, device, now);
            var acts := device in db.dir.devices && db.dir.devices[device].active;
            && TokensCut(db.tokens, after.tokens, set h | h in db.tokens && acts && db.tokens[h].device == device)
            && GrantsCut(db.grants, after.grants, (set g | g in db.grants && acts && db.grants[g].device == device), now)
            && after.dir.devices.Keys == db.dir.devices.Keys
            && (forall d :: d in db.dir.devices ==>
                  && after.dir.devices[d].active == (db.dir.devices[d].active && d != device)
                  && after.dir.devices[d].(active := db.dir.devices[d].active) == db.dir.devices[d])
            && after.dir.(devices := db.dir.devices) == db.dir
            && after.connections == db.connections && after.leases == db.leases
  {
    hide RevokeTokens, RevokeGrants, TokensCut, GrantsCut;
    var acts := device in db.dir.devices && db.dir.devices[device].active;
    var cut := set h | h in db.tokens && acts && db.tokens[h].device == device;
    var cutGrants := set g | g in db.grants && acts && db.grants[g].device == device;
    RevokeTokensCuts(db.tokens, cut);
    RevokeGrantsCuts(db.grants, cutGrants, now);
    if acts {
      assert cut == set h | h in db.tokens && db.tokens[h].device == device;
      assert cutGrants == set g | g in db.grants && db.grants[g].device == device;
    } else {
      assert cut == {} && cutGrants == {};
      NothingCut(db, cut, cutGrants, now);
    }
  }

  // ---- ending a connection --------------------------------------------------------------------------

  /** A logout from the token's own application and device cuts its family; any other changes nothing. */
  lemma LogoutRows(db: Db, hash: Hash, req: Request, now: Time)
    ensures var after := Logout(db, hash, req, now);
            var acts := hash in db.tokens && db.tokens[hash].app == req.app && db.tokens[hash].device == req.device
                        && db.tokens[hash].family != None;
            && TokensCut(db.tokens, after.tokens, set h | h in db.tokens && acts && db.tokens[h].family == db.tokens[hash].family)
            && GrantsCut(db.grants, after.grants,
                         (set g | g in db.grants && acts && Some(db.grants[g].family) == db.tokens[hash].family), now)
            && after.(tokens := db.tokens, grants := db.grants) == db
  {
    hide RevokeTokens, RevokeGrants, TokensCut, GrantsCut;
    var acts := hash in db.tokens && db.tokens[hash].app == req.app && db.tokens[hash].device == req.device
                && db.tokens[hash].family != None;
    var cut := set h | h in db.tokens && acts && db.tokens[h].family == db.tokens[hash].family;
    var cutGrants := set g | g in db.grants && acts && Some(db.grants[g].family) == db.tokens[hash].family;
    RevokeTokensCuts(db.tokens, cut);
    RevokeGrantsCuts(db.grants, cutGrants, now);
    if acts {
      assert cut == FamilyTokens(db.tokens, db.tokens[hash].family.value);
      assert cutGrants == FamilyGrants(db.grants, db.tokens[hash].family.value);
    } else {
      assert cut == {} && cutGrants == {};
      NothingCut(db, cut, cutGrants, now);
    }
  }

  /** A stop marks the connection and its lease for teardown unless they have ended, and retires its grants. */
  lemma StopRows(db: Db, ctx: Context, c: Id, now: Time, limit: LimitPolicy)
    requires Stop(db, ctx, c, now, limit).1 == Done
    ensures c in db.connections && c in db.leases
    ensures var after := Stop(db, ctx, c, now, limit).0;
            var over := db.connections[c].status == Stopped || db.connections[c].status == Expired;
            && after.connections == (if over then db.connections
                                     else db.connections[c := db.connections[c].(status := RevokePending, activeKey := None)])
            && after.leases == (if over then db.leases else db.leases[c := db.leases[c].(status := RevokePending)])
            && GrantsCut(db.grants, after.grants, (set g | g in db.grants && db.grants[g].connection == Some(c)), now)
            && after.dir == db.dir && after.tokens == db.tokens
  {
    hide Authorized, RevokeGrants, GrantsCut;
    RevokeGrantsCuts(db.grants, ConnectionGrants(db.grants, c), now);
    assert ConnectionGrants(db.grants, c) == set g | g in db.grants && db.grants[g].connection == Some(c);
  }

  /** The status a teardown leaves, and the instant it records when it succeeded. */
  lemma RemovalRows(db: Db, c: Id, now: Time, expired: bool, error: bool)
    requires c in db.connections && c in db.leases
    ensures var after := MarkRemoved(db, c, now, expired, error);
            && (error ==> after.connections[c].status == after.leases[c].status == RevokePending
                          && after.leases[c].removed == db.leases[c].removed)
            && (!error && expired ==> after.connections[c].status == after.leases[c].status == Expired)
            && (!error && !expired ==> after.connections[c].status == after.leases[c].status == Stopped)
            && (!error ==> after.leases[c].removed == Some(now))
            && after.connections[c].activeKey == None
            && after.connections[c].notAfter == db.connections[c].notAfter
            && after.leases[c].notAfter == db.leases[c].notAfter
            && after.(connections := db.connections, leases := db.leases) == db
  {
  }

  /** The active key: the two ids in decimal, core and protocol, joined by colons. */
  lemma ActiveKeyIs(app: nat, device: nat, core: string, protocol: string) returns (a: string, d: string)
    ensures ActiveKey(app, device, core, protocol) == a + ":" + d + ":" + core + ":" + protocol
    ensures a != "" && (forall i :: 0 <= i < |a| ==> '0' <= a[i] <= '9') && Spelled(a) == app
    ensures d != "" && (forall i :: 0 <= i < |d| ==> '0' <= d[i] <= '9') && Spelled(d) == device
  {
    hide Digits, Spelled;
    a, d := Digits(app), Digits(device);
    DigitsSpell(app);
    DigitsSpell(device);
  }
}
