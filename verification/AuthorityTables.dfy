/** Rows of the Application API and the predicates its transactions share. */
module AuthorityTables {
  import opened Outcome

  type Id = int
  type Hash = string
  type Family = string
  type Time = int

  /** `family` is absent on legacy client tokens, which share the table. `serial` is insertion order. */
  datatype Token = Token(user: Id, app: Id, device: Id, key: Id, family: Option<Family>,
                         parent: Option<Hash>, rotatedTo: Option<Hash>,
                         expires: Time, revoked: bool, serial: nat)

  datatype ConfigGrant = ConfigGrant(app: Id, user: Id, device: Id, key: Id, family: Family,
                                     core: string, protocol: Option<string>, source: Option<string>,
                                     connection: Option<Id>, expires: Time,
                                     consumed: Option<Time>, revoked: Option<Time>)

  datatype Status = Pending | Active | RevokePending | Failed | Stopped | Expired

  datatype Connection = Connection(app: Id, user: Id, device: Id, key: Id, family: Family,
                                   core: string, protocol: string,
                                   activeKey: Option<string>, status: Status, notAfter: Time)

  /** One lease per connection: the table has a unique constraint on the connection. */
  datatype Lease = Lease(status: Status, notAfter: Time, removed: Option<Time>)

  datatype App = App(publicId: string, active: bool, boundOnly: bool, signingKid: string)
  datatype User = User(active: bool, applicationMode: bool, expires: Option<Time>, dataLimit: Option<int>)
  datatype Device = Device(user: Id, app: Id, keyId: string, active: bool)
  datatype Purpose = Signing | ConfigEncryption
  datatype Key = Key(app: Id, kid: string, purpose: Purpose, active: bool,
                     notBefore: Option<Time>, notAfter: Option<Time>)
  datatype UserGrant = UserGrant(app: Id, user: Id, active: bool)

  /** The rows that administration and enrolment change. */
  datatype Directory = Directory(apps: map<Id, App>, users: map<Id, User>, devices: map<Id, Device>,
                                 keys: map<Id, Key>, userGrants: map<Id, UserGrant>, used: map<Id, int>)

  type Tokens = map<Hash, Token>
  type Grants = map<Id, ConfigGrant>
  type Connections = map<Id, Connection>
  type Leases = map<Id, Lease>

  datatype Db = Db(dir: Directory, tokens: Tokens, grants: Grants,
                   connections: Connections, leases: Leases, serial: nat)

  /** The device limit policy, kept as any function of the directory, the user and the device. */
  type LimitPolicy = (Directory, Id, Id) -> bool

  datatype Context = Context(app: Id, appPublicId: string, user: Id, grant: Option<Id>,
                             device: Id, deviceKeyId: string, key: Id, keyId: string, family: Family)

  datatype Refusal = AuthFailed | Forbidden | GrantInvalid | GrantConsumed | GrantExpired
                   | ConnectionRequired | ConnectionFailed | ConnectionNotFound

  datatype Reply = Done | Refused(why: Refusal)

  // ---- validity windows -------------------------------------------------------

  predicate Past(limit: Option<Time>, now: Time) {
    limit.Some? && limit.value <= now
  }

  predicate NotYet(start: Option<Time>, now: Time) {
    start.Some? && start.value > now
  }

  predicate InWindow(key: Key, now: Time) {
    !NotYet(key.notBefore, now) && !Past(key.notAfter, now)
  }

  function UsedBytes(dir: Directory, user: Id): int {
    if user in dir.used then dir.used[user] else 0
  }

  predicate UserEntitled(dir: Directory, user: Id, now: Time)
    requires user in dir.users
  {
    var u := dir.users[user];
    && u.active
    && u.applicationMode
    && !Past(u.expires, now)
    && (u.dataLimit.Some? ==> UsedBytes(dir, user) < u.dataLimit.value)
  }

  /** A live, unexpired token of the family bound to the same app, user and device. */
  predicate FamilyAlive(tokens: Tokens, family: Family, app: Id, user: Id, device: Id, now: Time) {
    exists h :: h in tokens && LiveMember(tokens[h], family, app, user, device, now)
  }

  predicate LiveMember(t: Token, family: Family, app: Id, user: Id, device: Id, now: Time) {
    && t.family == Some(family)
    && t.app == app
    && t.user == user
    && t.device == device
    && t.expires > now
    && !t.revoked
  }

  // ---- _assert_resource_authority -------------------------------------------------

  /** The user grant a context names, if its row exists. */
  function GrantOf(dir: Directory, ctx: Context): Option<UserGrant> {
    if ctx.grant.Some? && ctx.grant.value in dir.userGrants then Some(dir.userGrants[ctx.grant.value]) else None
  }

  predicate Authorized(db: Db, ctx: Context, now: Time, limit: LimitPolicy) {
    var dir := db.dir;
    && ctx.app in dir.apps && ctx.user in dir.users && ctx.device in dir.devices && ctx.key in dir.keys
    && (dir.apps[ctx.app].boundOnly ==> GrantOf(dir, ctx).Some?)
    && ctx.family != ""
    && (exists h :: h in db.tokens
          && LiveMember(db.tokens[h], ctx.family, ctx.app, ctx.user, ctx.device, now)
          && db.tokens[h].key == ctx.key)
    && dir.apps[ctx.app].publicId == ctx.appPublicId
    && dir.apps[ctx.app].active
    && UserEntitled(dir, ctx.user, now)
    && dir.devices[ctx.device].user == ctx.user
    && dir.devices[ctx.device].app == ctx.app
    && dir.devices[ctx.device].keyId == ctx.deviceKeyId
    && dir.devices[ctx.device].active
    && limit(dir, ctx.user, ctx.device)
    && dir.keys[ctx.key].app == ctx.app
    && dir.keys[ctx.key].kid == ctx.keyId
    && dir.keys[ctx.key].purpose == ConfigEncryption
    && dir.keys[ctx.key].active
    && InWindow(dir.keys[ctx.key], now)
    && (GrantOf(dir, ctx).Some? ==>
          var g := GrantOf(dir, ctx).value;
          g.app == ctx.app && g.user == ctx.user && g.active)
  }

  /** The application's current signing key is usable. */
  predicate CanSign(dir: Directory, app: Id, now: Time)
    requires app in dir.apps
  {
    exists k :: k in dir.keys && dir.keys[k].app == app && dir.keys[k].kid == dir.apps[app].signingKid
      && dir.keys[k].purpose == Signing && dir.keys[k].active && InWindow(dir.keys[k], now)
  }

  // ---- bulk updates --------------------------------------------------------------------

  /** `UPDATE refresh_tokens SET revoked = true WHERE ...` */
  function RevokeTokens(tokens: Tokens, which: set<Hash>): Tokens {
    map h | h in tokens :: if h in which then tokens[h].(revoked := true) else tokens[h]
  }

  predicate Usable(g: ConfigGrant) {
    g.consumed.None? && g.revoked.None?
  }

  /** `UPDATE config_grants SET revoked_at = now WHERE ... AND consumed_at IS NULL AND revoked_at IS NULL` */
  function RevokeGrants(grants: Grants, which: set<Id>, now: Time): Grants {
    map g | g in grants ::
      if g in which && Usable(grants[g]) then grants[g].(revoked := Some(now)) else grants[g]
  }

  function FamilyTokens(tokens: Tokens, family: Family): set<Hash> {
    set h | h in tokens && tokens[h].family == Some(family)
  }

  function FamilyGrants(grants: Grants, family: Family): set<Id> {
    set g | g in grants && grants[g].family == family
  }

  /** Revokes every token and every usable grant of a family. */
  function RevokeFamily(db: Db, family: Family, now: Time): Db {
    db.(tokens := RevokeTokens(db.tokens, FamilyTokens(db.tokens, family)),
        grants := RevokeGrants(db.grants, FamilyGrants(db.grants, family), now))
  }
}
