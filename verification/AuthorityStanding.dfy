/**
  * What a caller must be, row by row and field by field, for each transaction to succeed,
  * and what the rows are afterwards.
  */
module AuthorityStanding {
  import opened Outcome
  import opened AuthorityTables
  import opened AuthoritySteps
  import opened AuthoritySweep
  import opened AuthorityRows
  import opened AuthorityRuns

  // ---- who stands ----------------------------------------------------------------------

  /** Active, in application mode, not past the expiry, below the data limit. */
  ghost predicate UserStands(dir: Directory, user: Id, now: Time) {
    && user in dir.users
    && dir.users[user].active
    && dir.users[user].applicationMode
    && (forall end :: dir.users[user].expires == Some(end) ==> now < end)
    && (forall cap :: dir.users[user].dataLimit == Some(cap) ==> (if user in dir.used then dir.used[user] else 0) < cap)
  }

  /** Active and of the application, from its first instant on and before its last. */
  ghost predicate KeyStands(dir: Directory, key: Id, app: Id, now: Time) {
    && key in dir.keys
    && dir.keys[key].active
    && dir.keys[key].app == app
    && (forall start :: dir.keys[key].notBefore == Some(start) ==> start <= now)
    && (forall end :: dir.keys[key].notAfter == Some(end) ==> now < end)
  }

  /** Active, and of that user and application. */
  predicate DeviceStands(dir: Directory, device: Id, user: Id, app: Id) {
    && device in dir.devices
    && dir.devices[device].active
    && dir.devices[device].user == user
    && dir.devices[device].app == app
  }

  /** A token of the session is neither revoked nor expired. */
  ghost predicate SessionStands(tokens: Tokens, family: Family, app: Id, user: Id, device: Id, now: Time) {
    exists h :: h in tokens && !tokens[h].revoked && now < tokens[h].expires
      && tokens[h].family == Some(family) && tokens[h].app == app && tokens[h].user == user && tokens[h].device == device
  }

  /** As above, for a token made with that key. */
  ghost predicate KeyedSessionStands(tokens: Tokens, ctx: Context, now: Time) {
    exists h :: h in tokens && !tokens[h].revoked && now < tokens[h].expires
      && tokens[h].family == Some(ctx.family) && tokens[h].app == ctx.app && tokens[h].user == ctx.user
      && tokens[h].device == ctx.device && tokens[h].key == ctx.key
  }

  /** Every row behind a request. */
  ghost predicate CallerStands(db: Db, ctx: Context, now: Time, limit: LimitPolicy) {
    var dir := db.dir;
    && UserStands(dir, ctx.user, now)
    && ctx.app in dir.apps && dir.apps[ctx.app].active && dir.apps[ctx.app].publicId == ctx.appPublicId
    && DeviceStands(dir, ctx.device, ctx.user, ctx.app) && dir.devices[ctx.device].keyId == ctx.deviceKeyId
    && limit(dir, ctx.user, ctx.device)
    && KeyStands(dir, ctx.key, ctx.app, now) && dir.keys[ctx.key].kid == ctx.keyId
    && dir.keys[ctx.key].purpose == ConfigEncryption
    && ctx.family != "" && KeyedSessionStands(db.tokens, ctx, now)
    && (forall g :: ctx.grant == Some(g) && g in dir.userGrants ==>
          dir.userGrants[g].app == ctx.app && dir.userGrants[g].user == ctx.user && dir.userGrants[g].active)
    && (dir.apps[ctx.app].boundOnly ==> exists g :: ctx.grant == Some(g) && g in dir.userGrants)
  }

  /** A request is authorized exactly when all of that holds. */
  lemma AuthorizedIff(db: Db, ctx: Context, now: Time, limit: LimitPolicy)
    ensures Authorized(db, ctx, now, limit) <==> CallerStands(db, ctx, now, limit)
  {
    hide LiveMember, KeyedSessionStands;
    KeyedSessionIff(db.tokens, ctx, now);
    GrantRowIff(db.dir, ctx);
  }

  lemma KeyedSessionIff(tokens: Tokens, ctx: Context, now: Time)
    ensures KeyedSessionStands(tokens, ctx, now)
            <==> exists h :: h in tokens && LiveMember(tokens[h], ctx.family, ctx.app, ctx.user, ctx.device, now)
                   && tokens[h].key == ctx.key
  {
    if KeyedSessionStands(tokens, ctx, now) {
      var h :| h in tokens && !tokens[h].revoked && now < tokens[h].expires
        && tokens[h].family == Some(ctx.family) && tokens[h].app == ctx.app && tokens[h].user == ctx.user
        && tokens[h].device == ctx.device && tokens[h].key == ctx.key;
      assert LiveMember(tokens[h], ctx.family, ctx.app, ctx.user, ctx.device, now);
    }
  }

  lemma GrantRowIff(dir: Directory, ctx: Context)
    ensures GrantOf(dir, ctx).Some? <==> exists g :: ctx.grant == Some(g) && g in dir.userGrants
    ensures forall g :: ctx.grant == Some(g) && g in dir.userGrants ==> GrantOf(dir, ctx) == Some(dir.userGrants[g])
  {
    if GrantOf(dir, ctx).Some? {
      var g := ctx.grant.value;
      assert ctx.grant == Some(g) && g in dir.userGrants;
    }
  }

  /** The key that the application names for signing is there and usable. */
  ghost predicate SignerStands(dir: Directory, app: Id, now: Time) {
    && app in dir.apps
    && (exists k :: KeyStands(dir, k, app, now) && dir.keys[k].kid == dir.apps[app].signingKid
          && dir.keys[k].purpose == Signing)
  }

  lemma CanSignIff(dir: Directory, app: Id, now: Time)
    requires app in dir.apps
    ensures CanSign(dir, app, now) <==> SignerStands(dir, app, now)
  {
    if CanSign(dir, app, now) {
      var k :| k in dir.keys && dir.keys[k].app == app && dir.keys[k].kid == dir.apps[app].signingKid
        && dir.keys[k].purpose == Signing && dir.keys[k].active && InWindow(dir.keys[k], now);
      assert KeyStands(dir, k, app, now);
    }
  }

  // ---- what keeps a lease ------------------------------------------------------------------

  /** Every row behind a lease; a grant only has to exist, and only for bound applications. */
  ghost predicate LeaseStands(db: Db, row: Connection, now: Time, limit: LimitPolicy) {
    var dir := db.dir;
    && UserStands(dir, row.user, now)
    && row.app in dir.apps && dir.apps[row.app].active
    && DeviceStands(dir, row.device, row.user, row.app)
    && limit(dir, row.user, row.device)
    && KeyStands(dir, row.key, row.app, now)
    && SessionStands(db.tokens, row.family, row.app, row.user, row.device, now)
    && (dir.apps[row.app].boundOnly ==>
          exists g :: g in dir.userGrants && dir.userGrants[g].app == row.app && dir.userGrants[g].user == row.user)
  }

  lemma SessionIff(tokens: Tokens, family: Family, app: Id, user: Id, device: Id, now: Time)
    ensures FamilyAlive(tokens, family, app, user, device, now) <==> SessionStands(tokens, family, app, user, device, now)
  {
    if SessionStands(tokens, family, app, user, device, now) {
      var h :| h in tokens && !tokens[h].revoked && now < tokens[h].expires
        && tokens[h].family == Some(family) && tokens[h].app == app && tokens[h].user == user
        && tokens[h].device == device;
      assert LiveMember(tokens[h], family, app, user, device, now);
    }
  }

  /** A lease whose rows are all there has lost its authority exactly when one of them does not stand. */
  lemma LostIff(db: Db, c: Id, now: Time, limit: LimitPolicy)
    requires Joined(db, c)
    ensures AuthorityLost(db, c, now, limit) <==> !LeaseStands(db, db.connections[c], now, limit)
  {
    hide FamilyAlive, SessionStands;
    var row := db.connections[c];
    SessionIff(db.tokens, row.family, row.app, row.user, row.device, now);
  }

  /** A lease that was not torn down, whose rows exist, is due when it ran out, was ended, or does not stand. */
  ghost predicate DueByRows(db: Db, c: Id, now: Time, limit: LimitPolicy) {
    && c in db.connections && c in db.leases && db.leases[c].removed == None
    && db.connections[c].app in db.dir.apps && db.connections[c].user in db.dir.users
    && db.connections[c].device in db.dir.devices && db.connections[c].key in db.dir.keys
    && (db.leases[c].notAfter <= now || db.leases[c].status == RevokePending
        || !LeaseStands(db, db.connections[c], now, limit))
  }

  lemma DueIff(db: Db, c: Id, now: Time, limit: LimitPolicy)
    ensures Due(db, c, now, limit) <==> DueByRows(db, c, now, limit)
  {
    hide AuthorityLost, LeaseStands;
    if Joined(db, c) {
      LostIff(db, c, now, limit);
    }
  }

  // ---- when each transaction succeeds -----------------------------------------------------------

  /** The grant is the caller's own, unrevoked, unused and unexpired. */
  predicate GrantStands(grants: Grants, ctx: Context, id: Id, now: Time) {
    && id in grants
    && grants[id].app == ctx.app && grants[id].user == ctx.user && grants[id].device == ctx.device
    && grants[id].key == ctx.key && grants[id].family == ctx.family
    && grants[id].revoked == None && grants[id].consumed == None && now < grants[id].expires
  }

  /** The grant is bound to an active, unexpired connection of the same application, user and device. */
  ghost predicate ConnectionStands(db: Db, ctx: Context, id: Id, now: Time)
    requires id in db.grants
  {
    exists c :: db.grants[id].connection == Some(c) && c in db.connections && c in db.leases
      && db.connections[c].app == ctx.app && db.connections[c].user == ctx.user && db.connections[c].device == ctx.device
      && db.connections[c].status == Active && db.leases[c].status == Active && now < db.leases[c].notAfter
  }

  ghost predicate MayIssue(db: Db, ctx: Context, now: Time, limit: LimitPolicy) {
    CallerStands(db, ctx, now, limit) && SignerStands(db.dir, ctx.app, now)
  }

  ghost predicate MayConsume(db: Db, ctx: Context, id: Id, now: Time, deliverable: bool, limit: LimitPolicy) {
    && CallerStands(db, ctx, now, limit) && GrantStands(db.grants, ctx, id, now)
    && ConnectionStands(db, ctx, id, now) && SignerStands(db.dir, ctx.app, now) && deliverable
  }

  ghost predicate MayReserve(db: Db, ctx: Context, config: Id, now: Time, limit: LimitPolicy) {
    && CallerStands(db, ctx, now, limit) && GrantStands(db.grants, ctx, config, now)
    && db.grants[config].protocol != None && db.grants[config].source != None
  }

  ghost predicate MayStop(db: Db, ctx: Context, c: Id, now: Time, limit: LimitPolicy) {
    && CallerStands(db, ctx, now, limit) && c in db.connections
    && db.connections[c].app == ctx.app && db.connections[c].user == ctx.user && db.connections[c].device == ctx.device
  }

  ghost predicate MayRenew(db: Db, ctx: Context, c: Id, now: Time, limit: LimitPolicy) {
    MayStop(db, ctx, c, now, limit) && db.connections[c].status == Active && now < db.connections[c].notAfter
  }

  lemma IssueIff(db: Db, ctx: Context, issued: map<Id, Selector>, now: Time, expires: Time, limit: LimitPolicy)
    ensures IssueGrants(db, ctx, issued, now, expires, limit).1
            == if issued == map[] || expires <= now || MayIssue(db, ctx, now, limit) then Done else Refused(Forbidden)
  {
    hide Authorized, CallerStands, CanSign, SignerStands, RevokeGrants;
    AuthorizedIff(db, ctx, now, limit);
    StandingApp(db, ctx, now, limit);
    if ctx.app in db.dir.apps {
      CanSignIff(db.dir, ctx.app, now);
    }
  }

  lemma StandingApp(db: Db, ctx: Context, now: Time, limit: LimitPolicy)
    ensures CallerStands(db, ctx, now, limit) ==> ctx.app in db.dir.apps
  {
  }

  lemma ConsumeIff(db: Db, ctx: Context, id: Id, now: Time, deliverable: bool, limit: LimitPolicy)
    ensures var reply := ConsumeGrant(db, ctx, id, now, deliverable, limit).1;
            && (reply == Done <==> MayConsume(db, ctx, id, now, deliverable, limit))
            && (!CallerStands(db, ctx, now, limit) ==> reply == Refused(Forbidden))
  {
    hide Authorized, CallerStands, CanSign, SignerStands;
    AuthorizedIff(db, ctx, now, limit);
    StandingApp(db, ctx, now, limit);
    if ctx.app in db.dir.apps {
      CanSignIff(db.dir, ctx.app, now);
    }
  }

  lemma ReserveIff(db: Db, ctx: Context, config: Id, newId: Id, notAfter: Time, now: Time, limit: LimitPolicy)
    requires Bound(db)
    ensures var reply := Reserve(db, ctx, config, newId, notAfter, now, limit).1;
            && (reply == Done <==> MayReserve(db, ctx, config, now, limit))
            && (reply == Refused(Forbidden) <==> !CallerStands(db, ctx, now, limit))
  {
    hide Authorized, CallerStands, ActiveKey, KeysDistinct;
    AuthorizedIff(db, ctx, now, limit);
  }

  lemma StopIff(db: Db, ctx: Context, c: Id, now: Time, limit: LimitPolicy)
    requires Bound(db)
    ensures var reply := Stop(db, ctx, c, now, limit).1;
            && (reply == Done <==> MayStop(db, ctx, c, now, limit))
            && (reply == Refused(Forbidden) <==> !CallerStands(db, ctx, now, limit))
  {
    hide Authorized, CallerStands, KeysDistinct, RevokeGrants;
    AuthorizedIff(db, ctx, now, limit);
  }

  lemma RenewIff(db: Db, ctx: Context, c: Id, notAfter: Time, now: Time, limit: LimitPolicy)
    requires Bound(db)
    ensures var reply := Renew(db, ctx, c, notAfter, now, limit).1;
            && (reply == Done <==> MayRenew(db, ctx, c, now, limit))
            && (reply == Refused(Forbidden) <==> !CallerStands(db, ctx, now, limit))
  {
    hide Authorized, CallerStands, KeysDistinct;
    AuthorizedIff(db, ctx, now, limit);
    if c in db.connections {
      assert Agrees(db.connections[c], db.leases[c]);
    }
  }
}
