/** Every run of the Application API transactions, with any number of interleaved refresh workers. */
module AuthorityRuns {
  import opened Outcome
  import opened AuthorityTables
  import opened AuthoritySteps
  import opened AuthoritySweep
  import opened AuthorityChains
  import opened AuthorityRows

  /** The tables, and what each worker inside `rotate_refresh` has read so far. */
  datatype System = System(db: Db, pending: map<int, Snapshot>)

  datatype Event =
    | DirectoryChange(dir: Directory)
    | Initial(hash: Hash, user: Id, app: Id, device: Id, key: Id, family: Family, expires: Time)
    | RotateRead(worker: int, hash: Hash)
    | RotateWrite(worker: int, req: Request, newHash: Hash, expires: Time, now: Time)
    | LogoutOf(hash: Hash, req: Request, now: Time)
    | AppRevoke(app: Id)
    | AppCascade(app: Id, now: Time)
    | UserGrantRevoke(app: Id, user: Id)
    | UserGrantCascade(app: Id, user: Id, now: Time)
    | KeyRevoke(key: Id)
    | KeyCascade(app: Id, key: Id, purpose: Purpose, signing: bool, now: Time)
    | DeviceRevoke(device: Id, now: Time)
    | Issue(ctx: Context, issued: map<Id, Selector>, now: Time, expires: Time)
    | Consume(ctx: Context, grant: Id, now: Time, deliverable: bool)
    | ReserveFor(ctx: Context, config: Id, newId: Id, notAfter: Time, now: Time)
    | CompleteOf(c: Id, notAfter: Time)
    | FailOf(c: Id, now: Time)
    | StopOf(ctx: Context, c: Id, now: Time)
    | RenewOf(ctx: Context, c: Id, notAfter: Time, now: Time)
    | SweepAt(now: Time)
    | Removed(c: Id, now: Time, expired: bool, error: bool)

  /** Fresh secrets, families and row ids are new; a worker acts only on something it has read. */
  ghost predicate Legal(s: System, e: Event) {
    match e
    case Initial(hash, _, _, _, _, family, _) =>
      && hash !in s.db.tokens && family != ""
      && (forall h :: h in s.db.tokens ==> s.db.tokens[h].family != Some(family))
      && (forall g :: g in s.db.grants ==> s.db.grants[g].family != family)
    case RotateRead(_, hash) => hash in s.db.tokens
    case RotateWrite(w, _, newHash, _, _) => w in s.pending && newHash !in s.db.tokens
    case Issue(_, issued, _, _) => issued.Keys !! s.db.grants.Keys
    case ReserveFor(_, _, newId, _, _) => newId !in s.db.connections && newId !in s.db.leases
    case _ => true
  }

  ghost function StepDb(s: System, e: Event, limit: LimitPolicy): Db
    requires Valid(s) && Legal(s, e)
  {
    var db := s.db;
    match e
    case DirectoryChange(dir) => db.(dir := dir)
    case Initial(hash, user, app, device, key, family, expires) =>
      SaveInitial(db, hash, user, app, device, key, family, expires)
    case RotateRead(_, _) => db
    case RotateWrite(w, req, newHash, expires, now) => RotateAct(db, s.pending[w], req, newHash, expires, now).0
    case LogoutOf(hash, req, now) => Logout(db, hash, req, now)
    case AppRevoke(app) => RevokeApp(db, app)
    case AppCascade(app, now) => RevokeAppCascade(db, app, now)
    case UserGrantRevoke(app, user) => RevokeUserGrant(db, app, user)
    case UserGrantCascade(app, user, now) => RevokeUserGrantCascade(db, app, user, now)
    case KeyRevoke(key) => RevokeKey(db, key)
    case KeyCascade(app, key, purpose, signing, now) => RevokeKeyCascade(db, app, key, purpose, signing, now)
    case DeviceRevoke(device, now) => RevokeDevice(db, device, now)
    case Issue(ctx, issued, now, expires) => IssueGrants(db, ctx, issued, now, expires, limit).0
    case Consume(ctx, g, now, deliverable) => ConsumeGrant(db, ctx, g, now, deliverable, limit).0
    case ReserveFor(ctx, config, newId, notAfter, now) => Reserve(db, ctx, config, newId, notAfter, now, limit).0
    case CompleteOf(c, notAfter) => Complete(db, c, notAfter).0
    case FailOf(c, now) => FailConnection(db, c, now)
    case StopOf(ctx, c, now) => Stop(db, ctx, c, now, limit).0
    case RenewOf(ctx, c, notAfter, now) => Renew(db, ctx, c, notAfter, now, limit).0
    case SweepAt(now) => Sweep(db, now, limit)
    case Removed(c, now, expired, error) => MarkRemoved(db, c, now, expired, error)
  }

  ghost function Step(s: System, e: Event, limit: LimitPolicy): System
    requires Valid(s) && Legal(s, e)
  {
    var db := StepDb(s, e, limit);
    match e
    case RotateRead(w, hash) => System(db, s.pending[w := Snapshot(hash, s.db.tokens[hash])])
    case RotateWrite(w, _, _, _, _) => System(db, s.pending - {w})
    case _ => System(db, s.pending)
  }

  // ---- invariants ----------------------------------------------------------------------

  /** What a worker read still describes the row, except that the row may have been revoked since. */
  ghost predicate PendingTrue(tokens: Tokens, pending: map<int, Snapshot>) {
    forall w :: w in pending ==> SnapshotTrue(tokens, pending[w])
  }

  predicate SnapshotTrue(tokens: Tokens, snap: Snapshot) {
    snap.hash in tokens && TokenNext(snap.row, tokens[snap.hash])
  }

  ghost predicate Valid(s: System) {
    && Linked(s.db.tokens, s.db.serial)
    && PendingTrue(s.db.tokens, s.pending)
    && GrantsExclusive(s.db.grants)
    && LeasesAgree(s.db.connections, s.db.leases)
  }

  // ---- what each transaction does to tokens and grants ----------------------------------

  /** The effect of a transaction on tokens and grants, when it consumes no grant. */
  ghost predicate Quiet(before: Db, after: Db) {
    && TokenStep(before.tokens, after.tokens)
    && GrantStep(before.tokens, before.grants, after.grants)
    && Linked(after.tokens, after.serial)
  }

  ghost predicate Sound(db: Db) {
    Linked(db.tokens, db.serial) && GrantsExclusive(db.grants)
  }

  lemma SameQuiet(db: Db, after: Db)
    requires Sound(db) && after.tokens == db.tokens && after.grants == db.grants && after.serial == db.serial
    ensures Quiet(db, after)
  {
    hide Linked;
    SameGrants(db.tokens, db.grants);
  }

  lemma RevokingQuiet(db: Db, after: Db, which: set<Hash>, whichGrants: set<Id>, now: Time)
    requires Sound(db)
    requires after.tokens == RevokeTokens(db.tokens, which) || after.tokens == db.tokens
    requires after.grants == RevokeGrants(db.grants, whichGrants, now) || after.grants == db.grants
    requires after.serial == db.serial
    ensures Quiet(db, after)
  {
    hide Linked, RevokeTokens, RevokeGrants, GrantStep, TokenStep, GrantsExclusive;
    RevokeTokensStep(db.tokens, which);
    RevokeTokensStep(db.tokens, {});
    RevokeKeepsLinks(db.tokens, db.serial, which);
    RevokeGrantsStep(db.tokens, db.grants, whichGrants, now);
    SameGrants(db.tokens, db.grants);
    SameTokens(db.tokens);
  }

  lemma SameTokens(tokens: Tokens)
    ensures TokenStep(tokens, tokens)
  {
  }

  lemma RevokeFamilyQuiet(db: Db, family: Family, now: Time)
    requires Sound(db)
    ensures Quiet(db, RevokeFamily(db, family, now))
  {
    hide Quiet, Sound;
    RevokingQuiet(db, RevokeFamily(db, family, now), FamilyTokens(db.tokens, family),
                  FamilyGrants(db.grants, family), now);
  }

  lemma InitialQuiet(db: Db, hash: Hash, user: Id, app: Id, device: Id, key: Id, family: Family, expires: Time)
    requires Sound(db) && hash !in db.tokens
    requires forall h :: h in db.tokens ==> db.tokens[h].family != Some(family)
    ensures Quiet(db, SaveInitial(db, hash, user, app, device, key, family, expires))
  {
    hide Linked, GrantsExclusive;
    var t := Token(user, app, device, key, Some(family), None, None, expires, false, db.serial);
    InitialKeepsLinks(db.tokens, db.serial, hash, t);
    SameGrants(db.tokens, db.grants);
  }

  lemma RotatedQuiet(db: Db, hash: Hash, was: Token, newHash: Hash, expires: Time)
    requires Sound(db) && hash in db.tokens && newHash !in db.tokens
    requires !db.tokens[hash].revoked && db.tokens[hash].family.Some? && TokenNext(was, db.tokens[hash])
    ensures Quiet(db, Rotated(db, hash, was, newHash, expires))
  {
    hide Linked, GrantsExclusive;
    var claimed := db.tokens[hash].(revoked := true, rotatedTo := Some(newHash));
    var next := Token(was.user, was.app, was.device, was.key, was.family, Some(hash), None, expires, false, db.serial);
    RotateKeepsLinks(db.tokens, db.serial, hash, newHash, claimed, next);
    SameGrants(db.tokens, db.grants);
    assert LiveKin(db.tokens, was.family.value, was.app, was.user, was.device);
  }

  lemma RotateQuiet(db: Db, snap: Snapshot, req: Request, newHash: Hash, expires: Time, now: Time)
    requires Sound(db) && SnapshotTrue(db.tokens, snap) && newHash !in db.tokens
    ensures Quiet(db, RotateAct(db, snap, req, newHash, expires, now).0)
  {
    hide Quiet, Sound, IdentityRows, RevokeTokens, RevokeGrants, RevokeFamily, Rotated;
    var after := RotateAct(db, snap, req, newHash, expires, now).0;
    SameQuiet(db, db);
    if snap.row.family.Some? {
      RevokeFamilyQuiet(db, snap.row.family.value, now);
      if snap.row.revoked {
      } else if snap.row.expires <= now {
        RevokingQuiet(db, after, {snap.hash}, FamilyGrants(db.grants, snap.row.family.value), now);
      } else if !db.tokens[snap.hash].revoked {
        RotatedQuiet(db, snap.hash, snap.row, newHash, expires);
      }
    } else if !snap.row.revoked && snap.row.expires <= now {
      RevokingQuiet(db, after, {snap.hash}, {}, now);
    }
  }

  lemma IssueQuiet(db: Db, ctx: Context, issued: map<Id, Selector>, now: Time, expires: Time, limit: LimitPolicy)
    requires Sound(db) && issued.Keys !! db.grants.Keys
    ensures Quiet(db, IssueGrants(db, ctx, issued, now, expires, limit).0)
  {
    hide Linked, Authorized, CanSign, RevokeGrants;
    SameTokens(db.tokens);
    SameGrants(db.tokens, db.grants);
    RevokeGrantsStep(db.tokens, db.grants, OwnerGrants(db.grants, ctx), now);
    if Authorized(db, ctx, now, limit) {
      AuthorizedIsLive(db, ctx, now, limit);
    }
  }

  lemma AuthorizedIsLive(db: Db, ctx: Context, now: Time, limit: LimitPolicy)
    requires Authorized(db, ctx, now, limit)
    ensures LiveFamily(db.tokens, ctx.family)
  {
  }

  lemma ReserveQuiet(db: Db, ctx: Context, config: Id, newId: Id, notAfter: Time, now: Time, limit: LimitPolicy)
    requires Sound(db)
    ensures Quiet(db, Reserve(db, ctx, config, newId, notAfter, now, limit).0)
  {
    hide Linked, Authorized, ActiveKey, GrantsExclusive, GrantsNext, GrantsArise, ConsumedKept;
    SameTokens(db.tokens);
    SameGrants(db.tokens, db.grants);
    var after := Reserve(db, ctx, config, newId, notAfter, now, limit).0;
    if after.grants != db.grants {
      ChangeGrantStep(db.tokens, db.grants, config, after.grants[config]);
    }
  }

  lemma StopQuiet(db: Db, ctx: Context, c: Id, now: Time, limit: LimitPolicy)
    requires Sound(db)
    ensures Quiet(db, Stop(db, ctx, c, now, limit).0)
  {
    hide Quiet, Sound, Authorized, RevokeGrants;
    RevokingQuiet(db, Stop(db, ctx, c, now, limit).0, {}, ConnectionGrants(db.grants, c), now);
  }

  lemma ConsumeChange(db: Db, ctx: Context, id: Id, now: Time, deliverable: bool, limit: LimitPolicy)
    requires Sound(db)
    ensures var after := ConsumeGrant(db, ctx, id, now, deliverable, limit).0;
            && after.tokens == db.tokens && after.serial == db.serial
            && GrantsNext(db.grants, after.grants) && GrantsArise(db.tokens, db.grants, after.grants)
            && (forall g :: g in db.grants && g != id ==> after.grants[g] == db.grants[g])
  {
    hide Linked, Authorized, CanSign, GrantsExclusive, GrantsNext, GrantsArise;
    SameGrants(db.tokens, db.grants);
    var after := ConsumeGrant(db, ctx, id, now, deliverable, limit).0;
    if after.grants != db.grants {
      ChangeGrantStep(db.tokens, db.grants, id, after.grants[id]);
    }
  }

  // ---- what each transaction does to connections -------------------------------------------

  ghost predicate Bound(db: Db) {
    LeasesAgree(db.connections, db.leases)
  }

  lemma RenewReservedKeepsBound(db: Db, c: Id, ctx: Context, notAfter: Time)
    requires Bound(db) && c in db.connections
    ensures Bound(RenewReserved(db, c, ctx, notAfter))
  {
    hide KeysDistinct, ActiveKey;
    var after := RenewReserved(db, c, ctx, notAfter);
    assert Agrees(db.connections[c], db.leases[c]);
    ChangeKeepsAgreement(db.connections, db.leases, c, after.connections[c], after.leases[c]);
  }

  lemma ReserveKeepsBound(db: Db, ctx: Context, config: Id, newId: Id, notAfter: Time, now: Time, limit: LimitPolicy)
    requires Bound(db) && newId !in db.connections
    ensures Bound(Reserve(db, ctx, config, newId, notAfter, now, limit).0)
  {
    hide Authorized, ActiveKey, LeasesAgree;
    var after := Reserve(db, ctx, config, newId, notAfter, now, limit).0;
    if after.connections != db.connections || after.leases != db.leases {
      var row := db.grants[config];
      var key := ActiveKey(ctx.app, ctx.device, row.core, row.protocol.value);
      if exists c :: Holds(db.connections, key, c) {
        var c := Holder(db.connections, key);
        RenewReservedKeepsBound(db, c, ctx, notAfter);
      } else {
        assert forall d :: d in db.connections ==> !Holds(db.connections, key, d);
        OpenKeepsAgreement(db.connections, db.leases, newId, after.connections[newId], after.leases[newId]);
      }
    }
  }

  lemma CompleteKeepsBound(db: Db, c: Id, notAfter: Time)
    requires Bound(db)
    ensures Bound(Complete(db, c, notAfter).0)
  {
    hide KeysDistinct, ActiveKey;
    if c in db.connections {
      var after := Complete(db, c, notAfter).0;
      assert Agrees(db.connections[c], db.leases[c]);
      ChangeKeepsAgreement(db.connections, db.leases, c, after.connections[c], after.leases[c]);
    }
  }

  lemma FailKeepsBound(db: Db, c: Id, now: Time)
    requires Bound(db)
    ensures Bound(FailConnection(db, c, now))
  {
    hide KeysDistinct, ActiveKey, RevokeGrants;
    if c in db.connections {
      var after := FailConnection(db, c, now);
      assert Agrees(db.connections[c], db.leases[c]);
      ChangeKeepsAgreement(db.connections, db.leases, c, after.connections[c], after.leases[c]);
    }
  }

  lemma StopKeepsBound(db: Db, ctx: Context, c: Id, now: Time, limit: LimitPolicy)
    requires Bound(db)
    ensures Bound(Stop(db, ctx, c, now, limit).0)
  {
    hide KeysDistinct, ActiveKey, Authorized, RevokeGrants;
    var after := Stop(db, ctx, c, now, limit).0;
    if after.connections != db.connections {
      assert Agrees(db.connections[c], db.leases[c]);
      ChangeKeepsAgreement(db.connections, db.leases, c, after.connections[c], after.leases[c]);
    }
  }

  lemma RenewKeepsBound(db: Db, ctx: Context, c: Id, notAfter: Time, now: Time, limit: LimitPolicy)
    requires Bound(db)
    ensures Bound(Renew(db, ctx, c, notAfter, now, limit).0)
  {
    hide KeysDistinct, ActiveKey, Authorized;
    var after := Renew(db, ctx, c, notAfter, now, limit).0;
    if after != db {
      assert Agrees(db.connections[c], db.leases[c]);
      ChangeKeepsAgreement(db.connections, db.leases, c, after.connections[c], after.leases[c]);
    }
  }

  lemma RemovalKeepsBound(db: Db, c: Id, now: Time, expired: bool, error: bool)
    requires Bound(db)
    ensures Bound(MarkRemoved(db, c, now, expired, error))
  {
    hide KeysDistinct, ActiveKey;
    if c in db.connections {
      var after := MarkRemoved(db, c, now, expired, error);
      assert Agrees(db.connections[c], db.leases[c]);
      ChangeKeepsAgreement(db.connections, db.leases, c, after.connections[c], after.leases[c]);
    }
  }

  lemma SweepKeepsBound(db: Db, now: Time, limit: LimitPolicy)
    requires Bound(db)
    ensures Bound(Sweep(db, now, limit))
  {
    SweepKeepsAgreement(db, now, limit);
  }

  // ---- every step --------------------------------------------------------------------------

  lemma ValidParts(s: System)
    requires Valid(s)
    ensures Sound(s.db) && Bound(s.db) && PendingTrue(s.db.tokens, s.pending)
  {
  }

  lemma RevocationQuiet(s: System, e: Event, limit: LimitPolicy)
    requires Valid(s) && Legal(s, e)
    requires e.LogoutOf? || e.AppCascade? || e.UserGrantCascade? || e.KeyCascade? || e.DeviceRevoke? || e.FailOf?
    ensures Quiet(s.db, StepDb(s, e, limit))
  {
    hide Quiet, Sound, RevokeTokens, RevokeGrants, FamilyTokens, FamilyGrants;
    ValidParts(s);
    SameQuiet(s.db, s.db);
    var db, after := s.db, StepDb(s, e, limit);
    match e
    case LogoutOf(hash, _, now) =>
      if after != db {
        RevokeFamilyQuiet(db, db.tokens[hash].family.value, now);
      }
    case AppCascade(app, now) =>
      RevokingQuiet(db, after, (set h | h in db.tokens && db.tokens[h].app == app),
                    (set g | g in db.grants && db.grants[g].app == app), now);
    case UserGrantCascade(app, user, now) =>
      RevokingQuiet(db, after, (set h | h in db.tokens && db.tokens[h].app == app && db.tokens[h].user == user),
                    (set g | g in db.grants && db.grants[g].app == app && db.grants[g].user == user), now);
    case KeyCascade(app, key, purpose, _, now) =>
      var scope := if purpose == ConfigEncryption then set g | g in db.grants && db.grants[g].key == key
                   else set g | g in db.grants && db.grants[g].app == app;
      RevokingQuiet(db, after, (set h | h in db.tokens && db.tokens[h].app == app && db.tokens[h].key == key),
                    scope, now);
    case DeviceRevoke(device, now) =>
      RevokingQuiet(db, after, (set h | h in db.tokens && db.tokens[h].device == device),
                    (set g | g in db.grants && db.grants[g].device == device), now);
    case FailOf(c, now) =>
      RevokingQuiet(db, after, {}, ConnectionGrants(db.grants, c), now);
  }

  /** No transaction but a consumption consumes a grant, and none of them breaks tokens or grants. */
  lemma StepIsQuiet(s: System, e: Event, limit: LimitPolicy)
    requires Valid(s) && Legal(s, e) && !e.Consume?
    ensures Quiet(s.db, StepDb(s, e, limit))
  {
    hide Quiet, Sound, RevokeTokens, RevokeGrants, Reserve, IssueGrants, RotateAct, Stop, SaveInitial, Logout,
         RevokeAppCascade, RevokeUserGrantCascade, RevokeKeyCascade, RevokeDevice, FailConnection, Authorized;
    ValidParts(s);
    if e.LogoutOf? || e.AppCascade? || e.UserGrantCascade? || e.KeyCascade? || e.DeviceRevoke? || e.FailOf? {
      RevocationQuiet(s, e, limit);
    } else if e.Initial? {
      InitialQuiet(s.db, e.hash, e.user, e.app, e.device, e.key, e.family, e.expires);
    } else if e.RotateWrite? {
      RotateQuiet(s.db, s.pending[e.worker], e.req, e.newHash, e.expires, e.now);
    } else if e.Issue? {
      IssueQuiet(s.db, e.ctx, e.issued, e.now, e.expires, limit);
    } else if e.ReserveFor? {
      ReserveQuiet(s.db, e.ctx, e.config, e.newId, e.notAfter, e.now, limit);
    } else if e.StopOf? {
      StopQuiet(s.db, e.ctx, e.c, e.now, limit);
    } else {
      SameQuiet(s.db, StepDb(s, e, limit));
    }
  }

  predicate MovesConnections(e: Event) {
    e.ReserveFor? || e.CompleteOf? || e.FailOf? || e.StopOf? || e.RenewOf? || e.SweepAt? || e.Removed?
  }

  lemma OthersKeepConnections(s: System, e: Event, limit: LimitPolicy)
    requires Valid(s) && Legal(s, e) && !MovesConnections(e)
    ensures StepDb(s, e, limit).connections == s.db.connections && StepDb(s, e, limit).leases == s.db.leases
  {
    hide Valid, RevokeTokens, RevokeGrants, Authorized, CanSign, LeaseUsable, Owns, FamilyTokens, FamilyGrants, IdentityRows;
  }

  lemma StepKeepsBound(s: System, e: Event, limit: LimitPolicy)
    requires Valid(s) && Legal(s, e)
    ensures Bound(StepDb(s, e, limit))
  {
    hide Sound, Reserve, Stop, Renew, Sweep, Complete, FailConnection, MarkRemoved, LeasesAgree, RotateAct, IssueGrants,
         ConsumeGrant, RevokeAppCascade, RevokeUserGrantCascade, RevokeKeyCascade, RevokeDevice, Logout, SaveInitial;
    ValidParts(s);
    if !MovesConnections(e) {
      OthersKeepConnections(s, e, limit);
    } else if e.ReserveFor? {
      ReserveKeepsBound(s.db, e.ctx, e.config, e.newId, e.notAfter, e.now, limit);
    } else if e.CompleteOf? {
      CompleteKeepsBound(s.db, e.c, e.notAfter);
    } else if e.FailOf? {
      FailKeepsBound(s.db, e.c, e.now);
    } else if e.StopOf? {
      StopKeepsBound(s.db, e.ctx, e.c, e.now, limit);
    } else if e.RenewOf? {
      RenewKeepsBound(s.db, e.ctx, e.c, e.notAfter, e.now, limit);
    } else if e.SweepAt? {
      SweepKeepsBound(s.db, e.now, limit);
    } else {
      RemovalKeepsBound(s.db, e.c, e.now, e.expired, e.error);
    }
  }

  /** No transaction changes the directory except to deactivate; administration may. */
  lemma StepShrinks(s: System, e: Event, limit: LimitPolicy)
    requires Valid(s) && Legal(s, e) && !e.DirectoryChange?
    ensures DirectoryShrinks(s.db.dir, StepDb(s, e, limit).dir)
  {
    hide Valid, DirectoryShrinks, RevokeApp, RevokeAppCascade, RevokeKey, RevokeDevice, RevokeUserGrant, RevokeTokens,
         RevokeGrants, Authorized, CanSign, LeaseUsable, Owns, IdentityRows, ActiveKey;
    SameDirectoryShrinks(s.db.dir);
    if e.AppRevoke? {
      RevokeAppShrinks(s.db, e.app);
    } else if e.AppCascade? {
      CascadeShrinks(s.db, e.app, e.now);
    } else if e.KeyRevoke? {
      RevokeKeyShrinks(s.db, e.key);
    } else if e.DeviceRevoke? {
      RevokeDeviceShrinks(s.db, e.device, e.now);
    } else if e.UserGrantRevoke? {
      RevokeUserGrantShrinks(s.db, e.app, e.user);
    }
  }

  /** The effect of any transaction on tokens and grants. */
  ghost predicate DbNext(before: Db, after: Db) {
    && TokenStep(before.tokens, after.tokens)
    && GrantsNext(before.grants, after.grants)
    && GrantsArise(before.tokens, before.grants, after.grants)
  }

  lemma StepIsNext(s: System, e: Event, limit: LimitPolicy)
    requires Valid(s) && Legal(s, e)
    ensures DbNext(s.db, StepDb(s, e, limit)) && Sound(StepDb(s, e, limit))
  {
    hide TokenStep, GrantsNext, GrantsArise, ConsumedKept, Linked, GrantsExclusive, ConsumeGrant, PendingTrue, LeasesAgree;
    var after := StepDb(s, e, limit);
    if e.Consume? {
      ConsumeChange(s.db, e.ctx, e.grant, e.now, e.deliverable, limit);
      SameTokens(s.db.tokens);
    } else {
      StepIsQuiet(s, e, limit);
    }
    GrantStepExclusive(s.db.tokens, s.db.grants, after.grants);
  }

  lemma SnapshotsStayTrue(before: Tokens, after: Tokens, pending: map<int, Snapshot>)
    requires PendingTrue(before, pending) && TokensNext(before, after)
    ensures PendingTrue(after, pending)
  {
    forall w | w in pending ensures SnapshotTrue(after, pending[w]) {
      assert SnapshotTrue(before, pending[w]);
      assert TokenNext(before[pending[w].hash], after[pending[w].hash]);
    }
  }

  lemma ReadChangesNothing(s: System, e: Event, limit: LimitPolicy)
    requires Valid(s) && Legal(s, e) && e.RotateRead?
    ensures StepDb(s, e, limit) == s.db
  {
  }

  /** Every step of every worker keeps the whole invariant. */
  lemma StepKeepsValid(s: System, e: Event, limit: LimitPolicy)
    requires Valid(s) && Legal(s, e)
    ensures Valid(Step(s, e, limit))
  {
    hide StepDb, Linked, GrantsExclusive, LeasesAgree, GrantsNext, GrantsArise, TokensNext, TokensArise;
    StepIsNext(s, e, limit);
    StepKeepsBound(s, e, limit);
    SnapshotsStayTrue(s.db.tokens, StepDb(s, e, limit).tokens, s.pending);
    if e.RotateRead? {
      ReadChangesNothing(s, e, limit);
    }
  }
}
