/** The transactions of `app/applicationapi/repository.py`, each one atomic step on the tables. */
module AuthoritySteps {
  import opened Outcome
  import opened AuthorityTables
  import opened Decimals

  // ---- refresh tokens --------------------------------------------------------------

  /** What one worker remembers between reading a refresh token and acting on it. */
  datatype Snapshot = Snapshot(hash: Hash, row: Token)

  datatype Request = Request(app: Id, device: Id, key: Id)

  function SaveInitial(db: Db, hash: Hash, user: Id, app: Id, device: Id, key: Id, family: Family, expires: Time): Db {
    db.(tokens := db.tokens[hash := Token(user, app, device, key, Some(family), None, None, expires, false, db.serial)],
        serial := db.serial + 1)
  }

  /** The rows the rotation needs are present. */
  predicate IdentityRows(dir: Directory, t: Token) {
    && t.app in dir.apps && t.device in dir.devices && t.user in dir.users && t.key in dir.keys
    && exists g :: g in dir.userGrants && dir.userGrants[g].app == t.app && dir.userGrants[g].user == t.user
  }

  /** The second half of `rotate_refresh`: everything after the read of the old row. */
  function RotateAct(db: Db, snap: Snapshot, req: Request, newHash: Hash, expires: Time, now: Time): (Db, Reply)
    requires snap.hash in db.tokens
  {
    var was := snap.row;
    if was.revoked then
      (if was.family.Some? then RevokeFamily(db, was.family.value, now) else db, Refused(AuthFailed))
    else if was.expires <= now then
      var tokens := RevokeTokens(db.tokens, {snap.hash});
      (if was.family.Some?
       then db.(tokens := tokens, grants := RevokeGrants(db.grants, FamilyGrants(db.grants, was.family.value), now))
       else db.(tokens := tokens),
       Refused(AuthFailed))
    else if was.app != req.app || was.device != req.device || was.key != req.key || was.family.None? then
      (db, Refused(AuthFailed))
    else if !IdentityRows(db.dir, was) then
      (db, Refused(AuthFailed))
    else if db.tokens[snap.hash].revoked then
      (RevokeFamily(db, was.family.value, now), Refused(AuthFailed))
    else
      (Rotated(db, snap.hash, was, newHash, expires), Done)
  }

  /** The claim succeeded: the old row points to its successor. */
  function Rotated(db: Db, hash: Hash, was: Token, newHash: Hash, expires: Time): Db
    requires hash in db.tokens
  {
    var claimed := db.tokens[hash].(revoked := true, rotatedTo := Some(newHash));
    var successor := Token(was.user, was.app, was.device, was.key, was.family, Some(hash), None, expires, false, db.serial);
    db.(tokens := db.tokens[hash := claimed][newHash := successor], serial := db.serial + 1)
  }

  function Logout(db: Db, hash: Hash, req: Request, now: Time): Db {
    if hash in db.tokens && db.tokens[hash].app == req.app && db.tokens[hash].device == req.device
       && db.tokens[hash].family.Some?
    then RevokeFamily(db, db.tokens[hash].family.value, now)
    else db
  }

  // ---- administrative revocations, committed in two transactions ----------------------

  function RevokeApp(db: Db, app: Id): Db {
    if app !in db.dir.apps then db
    else db.(dir := db.dir.(apps := db.dir.apps[app := db.dir.apps[app].(active := false)]))
  }

  function RevokeAppCascade(db: Db, app: Id, now: Time): Db {
    var dir := db.dir;
    db.(dir := dir.(
          keys := map k | k in dir.keys ::
            if dir.keys[k].app == app then dir.keys[k].(active := false) else dir.keys[k],
          userGrants := map g | g in dir.userGrants ::
            if dir.userGrants[g].app == app then dir.userGrants[g].(active := false) else dir.userGrants[g],
          devices := map d | d in dir.devices ::
            if dir.devices[d].app == app then dir.devices[d].(active := false) else dir.devices[d]),
        tokens := RevokeTokens(db.tokens, (set h | h in db.tokens && db.tokens[h].app == app)),
        grants := RevokeGrants(db.grants, (set g | g in db.grants && db.grants[g].app == app), now))
  }

  function RevokeUserGrant(db: Db, app: Id, user: Id): Db {
    var dir := db.dir;
    db.(dir := dir.(userGrants := map g | g in dir.userGrants ::
          if dir.userGrants[g].app == app && dir.userGrants[g].user == user
          then dir.userGrants[g].(active := false) else dir.userGrants[g]))
  }

  function RevokeUserGrantCascade(db: Db, app: Id, user: Id, now: Time): Db {
    db.(tokens := RevokeTokens(db.tokens,
          (set h | h in db.tokens && db.tokens[h].app == app && db.tokens[h].user == user)),
        grants := RevokeGrants(db.grants,
          (set g | g in db.grants && db.grants[g].app == app && db.grants[g].user == user), now))
  }

  function RevokeKey(db: Db, key: Id): Db {
    if key !in db.dir.keys then db
    else db.(dir := db.dir.(keys := db.dir.keys[key := db.dir.keys[key].(active := false)]))
  }

  /** `purpose` and `activeSigning` were read in the first transaction. */
  function RevokeKeyCascade(db: Db, app: Id, key: Id, purpose: Purpose, activeSigning: bool, now: Time): Db {
    var tokens :=
      if purpose == ConfigEncryption
      then RevokeTokens(db.tokens, (set h | h in db.tokens && db.tokens[h].app == app && db.tokens[h].key == key))
      else db.tokens;
    var scope :=
      if purpose == ConfigEncryption then set g | g in db.grants && db.grants[g].key == key
      else set g | g in db.grants && db.grants[g].app == app;
    db.(tokens := tokens,
        grants := if purpose == ConfigEncryption || activeSigning
                  then RevokeGrants(db.grants, scope, now) else db.grants)
  }

  function RevokeDevice(db: Db, device: Id, now: Time): Db {
    if device !in db.dir.devices || !db.dir.devices[device].active then db
    else
      db.(dir := db.dir.(devices := db.dir.devices[device := db.dir.devices[device].(active := false)]),
          tokens := RevokeTokens(db.tokens, (set h | h in db.tokens && db.tokens[h].device == device)),
          grants := RevokeGrants(db.grants, (set g | g in db.grants && db.grants[g].device == device), now))
  }

  // ---- config grants ---------------------------------------------------------------------

  datatype Selector = Selector(core: string, protocol: Option<string>, source: Option<string>)

  function OwnerGrants(grants: Grants, ctx: Context): set<Id> {
    set g | g in grants && grants[g].app == ctx.app && grants[g].user == ctx.user && grants[g].device == ctx.device
  }

  function NewGrant(ctx: Context, s: Selector, expires: Time): ConfigGrant {
    ConfigGrant(ctx.app, ctx.user, ctx.device, ctx.key, ctx.family, s.core, s.protocol, s.source,
                None, expires, None, None)
  }

  /** The rows inserted for the de-duplicated selectors, under fresh ids. */
  function NewGrants(ctx: Context, issued: map<Id, Selector>, expires: Time): Grants {
    map g | g in issued :: NewGrant(ctx, issued[g], expires)
  }

  ghost function IssueGrants(db: Db, ctx: Context, issued: map<Id, Selector>, now: Time, expires: Time,
                             limit: LimitPolicy): (Db, Reply)
  {
    if issued == map[] || expires <= now then (db, Done)
    else if !Authorized(db, ctx, now, limit) || !CanSign(db.dir, ctx.app, now) then (db, Refused(Forbidden))
    else
      (db.(grants := RevokeGrants(db.grants, OwnerGrants(db.grants, ctx), now) + NewGrants(ctx, issued, expires)), Done)
  }

  predicate Owns(ctx: Context, g: ConfigGrant) {
    g.app == ctx.app && g.user == ctx.user && g.device == ctx.device && g.key == ctx.key && g.family == ctx.family
  }

  predicate LeaseUsable(db: Db, ctx: Context, conn: Id, now: Time) {
    && conn in db.connections && conn in db.leases
    && db.connections[conn].app == ctx.app
    && db.connections[conn].user == ctx.user
    && db.connections[conn].device == ctx.device
    && db.connections[conn].status == Active
    && db.leases[conn].status == Active
    && db.leases[conn].notAfter > now
  }

  /** `deliverable` says whether the stored keys decode; when they do not the claim is rolled back. */
  ghost function ConsumeGrant(db: Db, ctx: Context, id: Id, now: Time, deliverable: bool, limit: LimitPolicy): (Db, Reply) {
    if !Authorized(db, ctx, now, limit) then (db, Refused(Forbidden))
    else if id !in db.grants || !Owns(ctx, db.grants[id]) || db.grants[id].revoked.Some? then (db, Refused(GrantInvalid))
    else
      var row := db.grants[id];
      if row.consumed.Some? then (db, Refused(GrantConsumed))
      else if row.expires <= now then
        (db.(grants := db.grants[id := row.(revoked := Some(now))]), Refused(GrantExpired))
      else if row.connection.None? || !LeaseUsable(db, ctx, row.connection.value, now) then
        (db, Refused(ConnectionRequired))
      else if !CanSign(db.dir, ctx.app, now) then (db, Refused(Forbidden))
      else if !deliverable then (db, Refused(AuthFailed))
      else (db.(grants := db.grants[id := row.(consumed := Some(now))]), Done)
  }

  // ---- connections and leases -----------------------------------------------------------------

  function ActiveKey(app: Id, device: Id, core: string, protocol: string): string {
    Decimal(app) + ":" + (Decimal(device) + ":" + (core + ":" + protocol))
  }

  /** The connection that currently holds a key. */
  ghost predicate Holds(connections: Connections, key: string, c: Id) {
    c in connections && connections[c].activeKey == Some(key)
  }

  ghost function Holder(connections: Connections, key: string): (c: Id)
    requires exists c :: Holds(connections, key, c)
    ensures Holds(connections, key, c)
  {
    var c :| Holds(connections, key, c); c
  }

  ghost function Reserve(db: Db, ctx: Context, config: Id, newId: Id, notAfter: Time, now: Time,
                         limit: LimitPolicy): (Db, Reply)
  {
    if !Authorized(db, ctx, now, limit) then (db, Refused(Forbidden))
    else if config !in db.grants || !Owns(ctx, db.grants[config]) || db.grants[config].revoked.Some? then
      (db, Refused(GrantInvalid))
    else
      var row := db.grants[config];
      if row.consumed.Some? then (db, Refused(GrantConsumed))
      else if row.expires <= now then
        (db.(grants := db.grants[config := row.(revoked := Some(now))]), Refused(GrantExpired))
      else if row.protocol.None? || row.source.None? then (db, Refused(ConnectionRequired))
      else
        var key := ActiveKey(ctx.app, ctx.device, row.core, row.protocol.value);
        if exists c :: Holds(db.connections, key, c) then
          var c := Holder(db.connections, key);
          if c !in db.leases then (db, Refused(ConnectionFailed))
          else (BindGrant(RenewReserved(db, c, ctx, notAfter), config, c), Done)
        else (BindGrant(OpenReserved(db, newId, ctx, row.core, row.protocol.value, key, notAfter), config, newId), Done)
  }

  function BindGrant(db: Db, config: Id, c: Id): Db
    requires config in db.grants
  {
    db.(grants := db.grants[config := db.grants[config].(connection := Some(c))])
  }

  function OpenReserved(db: Db, c: Id, ctx: Context, core: string, protocol: string, key: string, notAfter: Time): Db {
    db.(connections := db.connections[c := Connection(ctx.app, ctx.user, ctx.device, ctx.key, ctx.family,
                                                      core, protocol, Some(key), Pending, notAfter)],
        leases := db.leases[c := Lease(Pending, notAfter, None)])
  }

  function RenewReserved(db: Db, c: Id, ctx: Context, notAfter: Time): Db
    requires c in db.connections && c in db.leases
  {
    var row, lease := db.connections[c], db.leases[c];
    var again := row.status == Failed || row.status == Pending;
    db.(connections := db.connections[c := row.(key := ctx.key, family := ctx.family, notAfter := notAfter,
                                                status := if again then Pending else row.status)],
        leases := db.leases[c := lease.(notAfter := notAfter, status := if again then Pending else lease.status)])
  }

  function Complete(db: Db, c: Id, notAfter: Time): (Db, Reply) {
    if c !in db.connections || c !in db.leases then (db, Refused(ConnectionNotFound))
    else
      (db.(connections := db.connections[c := db.connections[c].(status := Active, notAfter := notAfter)],
           leases := db.leases[c := db.leases[c].(status := Active, notAfter := notAfter)]), Done)
  }

  function ConnectionGrants(grants: Grants, c: Id): set<Id> {
    set g | g in grants && grants[g].connection == Some(c)
  }

  function SetLeaseStatus(leases: Leases, c: Id, status: Status): Leases {
    if c in leases then leases[c := leases[c].(status := status)] else leases
  }

  function FailConnection(db: Db, c: Id, now: Time): Db {
    if c !in db.connections then db
    else
      db.(connections := db.connections[c := db.connections[c].(status := Failed, activeKey := None)],
          leases := SetLeaseStatus(db.leases, c, Failed),
          grants := RevokeGrants(db.grants, ConnectionGrants(db.grants, c), now))
  }

  predicate OwnedBy(ctx: Context, c: Connection) {
    c.app == ctx.app && c.user == ctx.user && c.device == ctx.device
  }

  ghost function Stop(db: Db, ctx: Context, c: Id, now: Time, limit: LimitPolicy): (Db, Reply) {
    if !Authorized(db, ctx, now, limit) then (db, Refused(Forbidden))
    else if c !in db.connections || !OwnedBy(ctx, db.connections[c]) || c !in db.leases then
      (db, Refused(ConnectionNotFound))
    else
      var ended := db.connections[c].status == Stopped || db.connections[c].status == Expired;
      var stopped := if ended then db else RequestRevoke(db, c);
      (stopped.(grants := RevokeGrants(db.grants, ConnectionGrants(db.grants, c), now)), Done)
  }

  function RequestRevoke(db: Db, c: Id): Db
    requires c in db.connections && c in db.leases
  {
    db.(connections := db.connections[c := db.connections[c].(status := RevokePending, activeKey := None)],
        leases := db.leases[c := db.leases[c].(status := RevokePending)])
  }

  ghost function Renew(db: Db, ctx: Context, c: Id, notAfter: Time, now: Time, limit: LimitPolicy): (Db, Reply) {
    if !Authorized(db, ctx, now, limit) then (db, Refused(Forbidden))
    else if c !in db.connections || !OwnedBy(ctx, db.connections[c]) || db.connections[c].status != Active then
      (db, Refused(ConnectionNotFound))
    else if c !in db.leases || db.leases[c].status != Active || db.leases[c].notAfter <= now then
      (db, Refused(ConnectionFailed))
    else
      (db.(connections := db.connections[c := db.connections[c].(notAfter := notAfter)],
           leases := db.leases[c := db.leases[c].(notAfter := notAfter)]), Done)
  }

  function MarkRemoved(db: Db, c: Id, now: Time, expired: bool, error: bool): Db {
    if c !in db.connections then db
    else
      var final := if error then RevokePending else if expired then Expired else Stopped;
      db.(connections := db.connections[c := db.connections[c].(status := final, activeKey := None)],
          leases := if c !in db.leases then db.leases
                    else db.leases[c := db.leases[c].(
                           status := final,
                           removed := if error then db.leases[c].removed else Some(now))])
  }
}
