/**
  * The repository's transactions as they read and update its tables in place. Each keeps the
  * table invariants, is the step that the run theorems speak of, and says what its caller gets.
  */
module AuthorityRepository {
  import opened Outcome
  import opened AuthorityTables
  import opened AuthoritySteps
  import opened AuthoritySweep
  import opened AuthorityChains
  import opened AuthorityRows
  import opened AuthorityRuns
  import opened AuthoritySafety
  import opened AuthorityStanding
  import opened AuthorityEffects

  // ---- what the steps mean -------------------------------------------------------------------

  /** `h` is the only live token of its family. */
  ghost predicate SoleLive(tokens: Tokens, h: Hash) {
    && h in tokens && !tokens[h].revoked
    && forall k :: k in tokens && SameFamily(tokens[h], tokens[k]) && !tokens[k].revoked ==> k == h
  }

  lemma InitialMeaning(db: Db, hash: Hash, user: Id, app: Id, device: Id, key: Id, family: Family, expires: Time)
    requires Sound(db) && hash !in db.tokens
    requires forall h :: h in db.tokens ==> db.tokens[h].family != Some(family)
    ensures var after := SaveInitial(db, hash, user, app, device, key, family, expires);
            Sound(after) && SoleLive(after.tokens, hash)
  {
    hide Linked, GrantsExclusive;
    InitialQuiet(db, hash, user, app, device, key, family, expires);
  }

  lemma SoleIsLive(tokens: Tokens, serial: nat, h: Hash)
    requires Linked(tokens, serial) && h in tokens && !tokens[h].revoked
    ensures SoleLive(tokens, h)
  {
    hide ParentsLinked, SuccessorsLinked;
  }

  lemma RotateMeaning(db: Db, snap: Snapshot, req: Request, newHash: Hash, expires: Time, now: Time)
    requires Sound(db) && SnapshotTrue(db.tokens, snap) && newHash !in db.tokens
    ensures var (after, reply) := RotateAct(db, snap, req, newHash, expires, now);
            && Sound(after)
            && TokensNext(db.tokens, after.tokens) && GrantStep(db.tokens, db.grants, after.grants)
            && (reply == Done ==> SoleLive(after.tokens, newHash))
            && (reply != Done ==> after.tokens.Keys == db.tokens.Keys)
            && (Replay(db, snap, req, now) ==> reply == Refused(AuthFailed) && DeadFamily(after, snap.row.family.value))
  {
    hide Linked, GrantsExclusive, TokensNext, TokensArise, GrantsNext, GrantsArise, ConsumedKept, SoleLive, DeadFamily,
         RevokeFamily, IdentityRows, RevokeTokens, RevokeGrants;
    RotateQuiet(db, snap, req, newHash, expires, now);
    var after := RotateAct(db, snap, req, newHash, expires, now).0;
    GrantStepExclusive(db.tokens, db.grants, after.grants);
    RevokedKeys(db, {snap.hash}, snap.row.family, now);
    if RotateAct(db, snap, req, newHash, expires, now).1 == Done {
      SoleIsLive(after.tokens, after.serial, newHash);
    }
    if Replay(db, snap, req, now) {
      assert UsedFamily(db.tokens, snap.row.family.value);
      RevokeFamilyKills(db, snap.row.family.value, now);
    }
  }

  lemma RevokedKeys(db: Db, which: set<Hash>, family: Option<Family>, now: Time)
    ensures RevokeTokens(db.tokens, which).Keys == db.tokens.Keys
    ensures family.Some? ==> RevokeFamily(db, family.value, now).tokens.Keys == db.tokens.Keys
  {
  }

  /** Tokens and grants of other families. */
  ghost predicate OthersKept(before: Db, after: Db, family: Family) {
    && (forall h :: h in before.tokens && before.tokens[h].family != Some(family) ==>
          h in after.tokens && after.tokens[h] == before.tokens[h])
    && (forall g :: g in before.grants && before.grants[g].family != family ==>
          g in after.grants && after.grants[g] == before.grants[g])
  }

  lemma RevokeFamilyMeaning(db: Db, family: Family, now: Time)
    requires Sound(db)
    ensures Sound(RevokeFamily(db, family, now)) && OthersKept(db, RevokeFamily(db, family, now), family)
    ensures UsedFamily(db.tokens, family) ==> DeadFamily(RevokeFamily(db, family, now), family)
  {
    hide Linked, DeadFamily, UsedFamily;
    RevokeFamilyQuiet(db, family, now);
    GrantStepExclusive(db.tokens, db.grants, RevokeFamily(db, family, now).grants);
    if UsedFamily(db.tokens, family) {
      RevokeFamilyKills(db, family, now);
    }
  }

  lemma IssueMeaning(db: Db, ctx: Context, issued: map<Id, Selector>, now: Time, expires: Time, limit: LimitPolicy)
    requires Sound(db) && issued.Keys !! db.grants.Keys
    ensures var (after, reply) := IssueGrants(db, ctx, issued, now, expires, limit);
            && Sound(after) && GrantStep(db.tokens, db.grants, after.grants)
            && (reply == Done && issued != map[] && expires > now ==>
                  LiveFamily(db.tokens, ctx.family) && OnlyUsable(after.grants, ctx, issued.Keys))
            && (reply != Done ==> after == db)
  {
    hide Linked, GrantsExclusive, GrantsNext, GrantsArise, ConsumedKept, TokenStep, Authorized, CanSign, LiveFamily;
    IssueQuiet(db, ctx, issued, now, expires, limit);
    var (after, reply) := IssueGrants(db, ctx, issued, now, expires, limit);
    GrantStepExclusive(db.tokens, db.grants, after.grants);
    if reply == Done && issued != map[] && expires > now {
      AuthorizedIsLive(db, ctx, now, limit);
      forall g | g in OwnerGrants(after.grants, ctx) ensures Usable(after.grants[g]) <==> g in issued {
        IssueReplaces(db, ctx, issued, now, expires, limit, g);
      }
    }
  }

  /** Of the grants of that application, user and device, exactly these are usable. */
  ghost predicate OnlyUsable(grants: Grants, ctx: Context, ids: set<Id>) {
    forall g :: g in OwnerGrants(grants, ctx) ==> (Usable(grants[g]) <==> g in ids)
  }

  lemma ConsumeMeaning(db: Db, ctx: Context, id: Id, now: Time, deliverable: bool, limit: LimitPolicy)
    requires Sound(db) && Bound(db)
    ensures var (after, reply) := ConsumeGrant(db, ctx, id, now, deliverable, limit);
            && Sound(after)
            && (reply == Done ==>
                  && id in db.grants && Usable(db.grants[id]) && Owns(ctx, db.grants[id]) && db.grants[id].expires > now
                  && BoundToLiveLease(db, db.grants[id], now)
                  && after.grants == db.grants[id := db.grants[id].(consumed := Some(now))])
            && (reply != Done ==> ConsumedKept(db.grants, after.grants))
  {
    hide Linked, GrantsExclusive, GrantsNext, GrantsArise, Authorized, CanSign, KeysDistinct;
    ConsumeChange(db, ctx, id, now, deliverable, limit);
    var (after, reply) := ConsumeGrant(db, ctx, id, now, deliverable, limit);
    GrantStepExclusive(db.tokens, db.grants, after.grants);
    if reply == Done {
      var c := db.grants[id].connection.value;
      assert Agrees(db.connections[c], db.leases[c]);
    }
  }

  /** The grant is bound to a connection that is active and unexpired, and so is its lease. */
  predicate BoundToLiveLease(db: Db, g: ConfigGrant, now: Time) {
    && g.connection.Some? && g.connection.value in db.connections && g.connection.value in db.leases
    && db.connections[g.connection.value].status == Active && db.connections[g.connection.value].notAfter > now
    && db.leases[g.connection.value].status == Active && db.leases[g.connection.value].notAfter > now
  }

  /** No usable grant is bound to the connection. */
  ghost predicate GrantsRetired(grants: Grants, c: Id) {
    forall g :: g in grants && grants[g].connection == Some(c) ==> !Usable(grants[g])
  }

  lemma RetiredByRevocation(grants: Grants, c: Id, now: Time)
    ensures GrantsRetired(RevokeGrants(grants, ConnectionGrants(grants, c), now), c)
  {
  }

  /** Connection and lease `c` may have changed; every other one is as before. */
  ghost predicate OnlyRow(before: Db, after: Db, c: Id) {
    && after.connections.Keys == before.connections.Keys && after.leases.Keys == before.leases.Keys
    && (forall d :: d in before.connections && d != c ==> after.connections[d] == before.connections[d])
    && (forall d :: d in before.leases && d != c ==> after.leases[d] == before.leases[d])
  }

  lemma CompleteMeaning(db: Db, c: Id, notAfter: Time)
    requires Sound(db) && Bound(db)
    ensures var (after, reply) := Complete(db, c, notAfter);
            && Sound(after) && Bound(after) && OnlyRow(db, after, c)
            && (reply == Done <==> c in db.connections)
  {
    hide Linked, GrantsExclusive, KeysDistinct;
    CompleteKeepsBound(db, c, notAfter);
  }

  lemma FailMeaning(db: Db, c: Id, now: Time)
    requires Sound(db) && Bound(db)
    ensures var after := FailConnection(db, c, now);
            && Sound(after) && Bound(after) && OnlyRow(db, after, c)
            && GrantStep(db.tokens, db.grants, after.grants)
            && (c in db.connections ==> GrantsRetired(after.grants, c))
  {
    hide Linked, GrantsExclusive, KeysDistinct, RevokeGrants, GrantsNext, GrantsArise, ConsumedKept, GrantsRetired;
    FailKeepsBound(db, c, now);
    RevokeGrantsStep(db.tokens, db.grants, ConnectionGrants(db.grants, c), now);
    SameGrants(db.tokens, db.grants);
    GrantStepExclusive(db.tokens, db.grants, FailConnection(db, c, now).grants);
    RetiredByRevocation(db.grants, c, now);
  }

  lemma StopMeaning(db: Db, ctx: Context, c: Id, now: Time, limit: LimitPolicy)
    requires Sound(db) && Bound(db)
    ensures var (after, reply) := Stop(db, ctx, c, now, limit);
            && Sound(after) && Bound(after) && OnlyRow(db, after, c)
            && GrantStep(db.tokens, db.grants, after.grants)
            && (reply == Done ==> GrantsRetired(after.grants, c) && Ending(after, c))
            && (reply != Done ==> after == db)
  {
    hide Linked, GrantsExclusive, KeysDistinct, RevokeGrants, GrantsNext, GrantsArise, ConsumedKept, GrantsRetired,
         Authorized;
    StopKeepsBound(db, ctx, c, now, limit);
    RevokeGrantsStep(db.tokens, db.grants, ConnectionGrants(db.grants, c), now);
    SameGrants(db.tokens, db.grants);
    GrantStepExclusive(db.tokens, db.grants, Stop(db, ctx, c, now, limit).0.grants);
    RetiredByRevocation(db.grants, c, now);
    if c in db.connections {
      assert Agrees(db.connections[c], db.leases[c]);
    }
  }

  /** The connection holds no active key and waits for teardown or has ended. */
  predicate Ending(db: Db, c: Id) {
    && c in db.connections && c in db.leases && db.connections[c].activeKey.None?
    && db.leases[c].status == db.connections[c].status
    && (db.connections[c].status == RevokePending || db.connections[c].status == Stopped
        || db.connections[c].status == Expired)
  }

  lemma RenewMeaning(db: Db, ctx: Context, c: Id, notAfter: Time, now: Time, limit: LimitPolicy)
    requires Sound(db) && Bound(db)
    ensures var (after, reply) := Renew(db, ctx, c, notAfter, now, limit);
            && Sound(after) && Bound(after) && OnlyRow(db, after, c)
            && (reply == Done ==>
                  && c in db.connections && OwnedBy(ctx, db.connections[c])
                  && db.connections[c].status == Active && db.connections[c].notAfter > now)
            && (reply != Done ==> after == db)
  {
    hide Linked, GrantsExclusive, KeysDistinct, Authorized;
    RenewKeepsBound(db, ctx, c, notAfter, now, limit);
    if c in db.connections {
      assert Agrees(db.connections[c], db.leases[c]);
    }
  }

  lemma RemovalMeaning(db: Db, c: Id, now: Time, expired: bool, error: bool)
    requires Sound(db) && Bound(db)
    ensures var after := MarkRemoved(db, c, now, expired, error);
            && Sound(after) && Bound(after) && OnlyRow(db, after, c)
            && (c in db.connections ==> Ending(after, c))
            && (c in db.connections && !error ==> forall t: Time, l: LimitPolicy :: !Due(after, c, t, l))
            && (error ==> forall t: Time, l: LimitPolicy :: Joined(db, c) ==> Due(after, c, t, l))
  {
    hide Linked, GrantsExclusive, KeysDistinct, AuthorityLost;
    RemovalKeepsBound(db, c, now, expired, error);
  }

  lemma ReserveMeaning(db: Db, ctx: Context, config: Id, newId: Id, notAfter: Time, now: Time, limit: LimitPolicy)
    requires Sound(db) && Bound(db) && newId !in db.connections
    ensures var (after, reply) := Reserve(db, ctx, config, newId, notAfter, now, limit);
            && Sound(after) && Bound(after) && GrantStep(db.tokens, db.grants, after.grants)
            && (reply == Done ==> ReservedFor(after, ctx, config, notAfter))
  {
    hide Linked, GrantsExclusive, GrantsNext, GrantsArise, ConsumedKept, LeasesAgree, Reserve, ReservedFor, TokenStep;
    ReserveQuiet(db, ctx, config, newId, notAfter, now, limit);
    ReserveKeepsBound(db, ctx, config, newId, notAfter, now, limit);
    var (after, reply) := Reserve(db, ctx, config, newId, notAfter, now, limit);
    GrantStepExclusive(db.tokens, db.grants, after.grants);
    if reply == Done {
      NoLease(db, newId);
      var c := ReserveBinds(System(db, map[]), ctx, config, newId, notAfter, now, limit);
      IsReserved(after, ctx, config, notAfter, c);
    }
  }

  /** The grant is bound to a connection of the caller's application, device, key and family, valid until then. */
  ghost predicate ReservedFor(db: Db, ctx: Context, config: Id, notAfter: Time) {
    && config in db.grants && db.grants[config].connection.Some?
    && var c := db.grants[config].connection.value;
       && c in db.connections && db.connections[c].notAfter == notAfter
       && ReservedUnder(db.connections[c].(user := ctx.user), ctx)
  }

  lemma NoLease(db: Db, c: Id)
    requires Bound(db) && c !in db.connections
    ensures c !in db.leases
  {
    hide KeysDistinct;
  }

  lemma IsReserved(db: Db, ctx: Context, config: Id, notAfter: Time, c: Id)
    requires config in db.grants && db.grants[config].connection == Some(c)
    requires c in db.connections && db.connections[c].notAfter == notAfter
    requires ReservedUnder(db.connections[c].(user := ctx.user), ctx)
    ensures ReservedFor(db, ctx, config, notAfter)
  {
  }

  class ApplicationRepository {
    var dir: Directory
    var tokens: Tokens
    var grants: Grants
    var connections: Connections
    var leases: Leases
    var serial: nat

    function Value(): Db
      reads this
    {
      Db(dir, tokens, grants, connections, leases, serial)
    }

    /** Chains of tokens, exclusive grants, and leases that agree with their connections. */
    ghost predicate Valid()
      reads this
    {
      Sound(Value()) && Bound(Value())
    }

    constructor (dir: Directory)
      ensures Valid() && Value() == Db(dir, map[], map[], map[], map[], 0)
    {
      this.dir := dir;
      tokens, grants, connections, leases, serial := map[], map[], map[], map[], 0;
    }

    // ---- refresh tokens ------------------------------------------------------------------

    method SaveInitialRefresh(hash: Hash, user: Id, app: Id, device: Id, key: Id, family: Family, expires: Time)
      requires Valid() && hash !in tokens
      requires forall h :: h in tokens ==> tokens[h].family != Some(family)
      modifies this`tokens, this`serial
      ensures Valid() && Value() == SaveInitial(old(Value()), hash, user, app, device, key, family, expires)
      ensures tokens.Keys == old(tokens).Keys + {hash} && SoleLive(tokens, hash)
      ensures forall h :: h in old(tokens) ==> tokens[h] == old(tokens)[h]
    {
      hide Linked, GrantsExclusive, LeasesAgree, SoleLive;
      InitialMeaning(Value(), hash, user, app, device, key, family, expires);
      tokens := tokens[hash := Token(user, app, device, key, Some(family), None, None, expires, false, serial)];
      serial := serial + 1;
    }

    /** Revokes every token and every usable grant of a family. */
    method RevokeFamilyRows(family: Family, now: Time)
      modifies this`tokens, this`grants
      ensures Value() == RevokeFamily(old(Value()), family, now)
    {
      tokens := RevokeTokens(tokens, FamilyTokens(tokens, family));
      grants := RevokeGrants(grants, FamilyGrants(grants, family), now);
    }

    /** The first half of `rotate_refresh`: the row as this worker sees it. */
    method ReadRefresh(hash: Hash) returns (snap: Option<Snapshot>)
      ensures snap == if hash in tokens then Some(Snapshot(hash, tokens[hash])) else None
    {
      snap := None;
      if hash in tokens {
        snap := Some(Snapshot(hash, tokens[hash]));
      }
    }

    /** The second half: other workers may have changed the tables since the read. */
    method ActOnRefresh(snap: Snapshot, req: Request, newHash: Hash, expires: Time, now: Time) returns (reply: Reply)
      requires Valid() && SnapshotTrue(tokens, snap) && newHash !in tokens
      modifies this`tokens, this`grants, this`serial
      ensures Valid() && (Value(), reply) == RotateAct(old(Value()), snap, req, newHash, expires, now)
      ensures reply == if MayRotate(old(Value()), snap, req, now) then Done else Refused(AuthFailed)
      ensures TokensNext(old(tokens), tokens) && GrantStep(old(tokens), old(grants), grants)
      ensures reply == Done ==> SoleLive(tokens, newHash) && tokens[newHash].parent == Some(snap.hash)
      ensures reply != Done ==> tokens.Keys == old(tokens).Keys
      ensures Replay(old(Value()), snap, req, now) ==>
                reply == Refused(AuthFailed) && DeadFamily(Value(), snap.row.family.value)
    {
      hide RevokeTokens, RevokeGrants, FamilyTokens, FamilyGrants, IdentityRows, RevokeFamily, Linked, GrantsExclusive,
           LeasesAgree, TokensNext, GrantStep, SoleLive, DeadFamily, Replay, MayRotate;
      RotateMeaning(Value(), snap, req, newHash, expires, now);
      RotateIff(Value(), snap, req, newHash, expires, now);
      var was := snap.row;
      if was.revoked {
        if was.family.Some? {
          RevokeFamilyRows(was.family.value, now);
        }
        return Refused(AuthFailed);
      }
      if was.expires <= now {
        tokens := RevokeTokens(tokens, {snap.hash});
        if was.family.Some? {
          grants := RevokeGrants(grants, FamilyGrants(grants, was.family.value), now);
        }
        return Refused(AuthFailed);
      }
      if was.app != req.app || was.device != req.device || was.key != req.key || was.family.None? {
        return Refused(AuthFailed);
      }
      if !IdentityRows(dir, was) {
        return Refused(AuthFailed);
      }
      var claimed := !tokens[snap.hash].revoked;
      if claimed {
        tokens := tokens[snap.hash := tokens[snap.hash].(revoked := true, rotatedTo := Some(newHash))];
      } else {
        RevokeFamilyRows(was.family.value, now);
        return Refused(AuthFailed);
      }
      tokens := tokens[newHash := Token(was.user, was.app, was.device, was.key, was.family, Some(snap.hash), None,
                                        expires, false, serial)];
      serial := serial + 1;
      return Done;
    }

    method RevokeRefreshFamily(hash: Hash, req: Request, now: Time)
      requires Valid()
      modifies this`tokens, this`grants
      ensures Valid() && Value() == Logout(old(Value()), hash, req, now)
      ensures hash in old(tokens) && old(tokens)[hash].app == req.app && old(tokens)[hash].device == req.device
                && old(tokens)[hash].family.Some? ==>
                DeadFamily(Value(), old(tokens)[hash].family.value)
                && OthersKept(old(Value()), Value(), old(tokens)[hash].family.value)
    {
      hide RevokeFamily, Linked, GrantsExclusive, LeasesAgree, DeadFamily, OthersKept;
      if hash in tokens && tokens[hash].family.Some? {
        assert UsedFamily(tokens, tokens[hash].family.value);
        RevokeFamilyMeaning(Value(), tokens[hash].family.value, now);
      }
      if hash !in tokens || tokens[hash].app != req.app || tokens[hash].device != req.device {
        return;
      }
      if tokens[hash].family.Some? {
        RevokeFamilyRows(tokens[hash].family.value, now);
      }
    }

    // ---- config grants ---------------------------------------------------------------------

    method IssueConfigGrants(ctx: Context, issued: map<Id, Selector>, now: Time, expires: Time, limit: LimitPolicy)
      returns (reply: Reply)
      requires Valid() && issued.Keys !! grants.Keys
      modifies this`grants
      ensures Valid() && (Value(), reply) == IssueGrants(old(Value()), ctx, issued, now, expires, limit)
      ensures reply == if issued == map[] || expires <= now || MayIssue(old(Value()), ctx, now, limit)
                       then Done else Refused(Forbidden)
      ensures GrantStep(tokens, old(grants), grants)
      ensures reply == Done && issued != map[] && expires > now ==>
                LiveFamily(tokens, ctx.family) && OnlyUsable(grants, ctx, issued.Keys)
      ensures reply != Done ==> grants == old(grants)
    {
      hide Linked, GrantsExclusive, LeasesAgree, GrantStep, LiveFamily, OnlyUsable;
      IssueMeaning(Value(), ctx, issued, now, expires, limit);
      IssueIff(Value(), ctx, issued, now, expires, limit);
      hide CanSign, RevokeGrants, LiveMember, UserEntitled, InWindow, MayIssue;
      if issued == map[] || expires <= now {
        return Done;
      }
      if !Authorized(Value(), ctx, now, limit) || !CanSign(dir, ctx.app, now) {
        return Refused(Forbidden);
      }
      var stale := OwnerGrants(grants, ctx);
      grants := RevokeGrants(grants, stale, now);
      grants := grants + NewGrants(ctx, issued, expires);
      return Done;
    }

    method ConsumeConfigGrant(ctx: Context, id: Id, now: Time, deliverable: bool, limit: LimitPolicy)
      returns (reply: Reply)
      requires Valid()
      modifies this`grants
      ensures Valid() && (Value(), reply) == ConsumeGrant(old(Value()), ctx, id, now, deliverable, limit)
      ensures reply == Done <==> MayConsume(old(Value()), ctx, id, now, deliverable, limit)
      ensures !CallerStands(old(Value()), ctx, now, limit) ==> reply == Refused(Forbidden)
      ensures reply == Done ==>
                && id in old(grants) && Usable(old(grants)[id]) && Owns(ctx, old(grants)[id])
                && old(grants)[id].expires > now && BoundToLiveLease(old(Value()), old(grants)[id], now)
                && grants == old(grants)[id := old(grants)[id].(consumed := Some(now))]
      ensures reply != Done ==> ConsumedKept(old(grants), grants)
    {
      hide Linked, GrantsExclusive, LeasesAgree, BoundToLiveLease, ConsumedKept;
      ConsumeMeaning(Value(), ctx, id, now, deliverable, limit);
      ConsumeIff(Value(), ctx, id, now, deliverable, limit);
      hide CanSign, LiveMember, UserEntitled, InWindow, MayConsume, CallerStands;
      if !Authorized(Value(), ctx, now, limit) {
        return Refused(Forbidden);
      }
      if id !in grants || !Owns(ctx, grants[id]) || grants[id].revoked.Some? {
        return Refused(GrantInvalid);
      }
      if grants[id].consumed.Some? {
        return Refused(GrantConsumed);
      }
      if grants[id].expires <= now {
        grants := grants[id := grants[id].(revoked := Some(now))];
        return Refused(GrantExpired);
      }
      if grants[id].connection.None? || !LeaseUsable(Value(), ctx, grants[id].connection.value, now) {
        return Refused(ConnectionRequired);
      }
      if !CanSign(dir, ctx.app, now) {
        return Refused(Forbidden);
      }
      if !deliverable {
        return Refused(AuthFailed);
      }
      grants := grants[id := grants[id].(consumed := Some(now))];
      return Done;
    }

    // ---- connections and leases ---------------------------------------------------------------

    /** Holders are unique by the unique constraint on the active key. */
    method FindHolder(key: string) returns (found: Option<Id>)
      requires KeysDistinct(connections)
      ensures found.None? <==> forall c :: !Holds(connections, key, c)
      ensures found.Some? ==> Holds(connections, key, found.value) && found.value == Holder(connections, key)
    {
      found := None;
      if c :| c in connections && connections[c].activeKey == Some(key) {
        found := Some(c);
        assert Holds(connections, key, c);
      }
    }

    method ReserveConnection(ctx: Context, config: Id, newId: Id, notAfter: Time, now: Time, limit: LimitPolicy)
      returns (reply: Reply)
      requires Valid() && newId !in connections
      modifies this`grants, this`connections, this`leases
      ensures Valid() && (Value(), reply) == Reserve(old(Value()), ctx, config, newId, notAfter, now, limit)
      ensures reply == Done <==> MayReserve(old(Value()), ctx, config, now, limit)
      ensures reply == Refused(Forbidden) <==> !CallerStands(old(Value()), ctx, now, limit)
      ensures GrantStep(tokens, old(grants), grants)
      ensures reply == Done ==> ReservedFor(Value(), ctx, config, notAfter)
    {
      hide Linked, GrantsExclusive, GrantStep, ReservedFor;
      ReserveMeaning(Value(), ctx, config, newId, notAfter, now, limit);
      ReserveIff(Value(), ctx, config, newId, notAfter, now, limit);
      hide Authorized, ActiveKey, KeysDistinct, Holds, Holder, MayReserve, CallerStands;
      if !Authorized(Value(), ctx, now, limit) {
        return Refused(Forbidden);
      }
      if config !in grants || !Owns(ctx, grants[config]) || grants[config].revoked.Some? {
        return Refused(GrantInvalid);
      }
      var row := grants[config];
      if row.consumed.Some? {
        return Refused(GrantConsumed);
      }
      if row.expires <= now {
        grants := grants[config := row.(revoked := Some(now))];
        return Refused(GrantExpired);
      }
      if row.protocol.None? || row.source.None? {
        return Refused(ConnectionRequired);
      }
      var key := ActiveKey(ctx.app, ctx.device, row.core, row.protocol.value);
      var found := FindHolder(key);
      var c: Id;
      if found.Some? {
        c := found.value;
        HolderIsRow(connections, key, c);
        if c !in leases {
          return Refused(ConnectionFailed);
        }
        var held, lease := connections[c], leases[c];
        held := held.(key := ctx.key, family := ctx.family, notAfter := notAfter);
        lease := lease.(notAfter := notAfter);
        if held.status == Failed || held.status == Pending {
          held, lease := held.(status := Pending), lease.(status := Pending);
        }
        connections, leases := connections[c := held], leases[c := lease];
      } else {
        c := newId;
        connections := connections[c := Connection(ctx.app, ctx.user, ctx.device, ctx.key, ctx.family,
                                                   row.core, row.protocol.value, Some(key), Pending, notAfter)];
        leases := leases[c := Lease(Pending, notAfter, None)];
      }
      grants := grants[config := grants[config].(connection := Some(c))];
      return Done;
    }

    method CompleteConnection(c: Id, notAfter: Time) returns (reply: Reply)
      requires Valid()
      modifies this`connections, this`leases
      ensures Valid() && (Value(), reply) == Complete(old(Value()), c, notAfter)
      ensures OnlyRow(old(Value()), Value(), c) && (reply == Done <==> c in old(connections))
      ensures reply == Done ==>
                && connections[c] == old(connections)[c].(status := Active, notAfter := notAfter)
                && leases[c].status == Active && leases[c].notAfter == notAfter
    {
      hide Linked, GrantsExclusive, LeasesAgree, OnlyRow;
      CompleteMeaning(Value(), c, notAfter);
      if c !in connections || c !in leases {
        return Refused(ConnectionNotFound);
      }
      connections := connections[c := connections[c].(status := Active, notAfter := notAfter)];
      leases := leases[c := leases[c].(status := Active, notAfter := notAfter)];
      return Done;
    }

    method FailConnectionRow(c: Id, now: Time)
      requires Valid()
      modifies this`connections, this`leases, this`grants
      ensures Valid() && Value() == FailConnection(old(Value()), c, now)
      ensures OnlyRow(old(Value()), Value(), c) && GrantStep(tokens, old(grants), grants)
      ensures c in connections ==>
                && GrantsRetired(grants, c) && connections[c].activeKey.None?
                && connections[c].status == Failed && leases[c].status == Failed
    {
      hide RevokeGrants, Linked, GrantsExclusive, KeysDistinct, OnlyRow, GrantStep, GrantsRetired;
      FailMeaning(Value(), c, now);
      if c !in connections {
        return;
      }
      connections := connections[c := connections[c].(status := Failed, activeKey := None)];
      if c in leases {
        leases := leases[c := leases[c].(status := Failed)];
      }
      grants := RevokeGrants(grants, ConnectionGrants(grants, c), now);
    }

    method RequestConnectionStop(ctx: Context, c: Id, now: Time, limit: LimitPolicy) returns (reply: Reply)
      requires Valid()
      modifies this`connections, this`leases, this`grants
      ensures Valid() && (Value(), reply) == Stop(old(Value()), ctx, c, now, limit)
      ensures reply == Done <==> MayStop(old(Value()), ctx, c, now, limit)
      ensures reply == Refused(Forbidden) <==> !CallerStands(old(Value()), ctx, now, limit)
      ensures OnlyRow(old(Value()), Value(), c) && GrantStep(tokens, old(grants), grants)
      ensures reply == Done ==> GrantsRetired(grants, c) && Ending(Value(), c)
      ensures reply != Done ==> Value() == old(Value())
    {
      hide Authorized, RevokeGrants, Linked, GrantsExclusive, LeasesAgree, OnlyRow, GrantStep, GrantsRetired, Ending,
           MayStop, CallerStands;
      StopMeaning(Value(), ctx, c, now, limit);
      StopIff(Value(), ctx, c, now, limit);
      if !Authorized(Value(), ctx, now, limit) {
        return Refused(Forbidden);
      }
      if c !in connections || !OwnedBy(ctx, connections[c]) || c !in leases {
        return Refused(ConnectionNotFound);
      }
      if connections[c].status != Stopped && connections[c].status != Expired {
        connections := connections[c := connections[c].(status := RevokePending, activeKey := None)];
        leases := leases[c := leases[c].(status := RevokePending)];
      }
      grants := RevokeGrants(grants, ConnectionGrants(grants, c), now);
      return Done;
    }

    method RenewConnection(ctx: Context, c: Id, notAfter: Time, now: Time, limit: LimitPolicy) returns (reply: Reply)
      requires Valid()
      modifies this`connections, this`leases
      ensures Valid() && (Value(), reply) == Renew(old(Value()), ctx, c, notAfter, now, limit)
      ensures reply == Done <==> MayRenew(old(Value()), ctx, c, now, limit)
      ensures reply == Refused(Forbidden) <==> !CallerStands(old(Value()), ctx, now, limit)
      ensures OnlyRow(old(Value()), Value(), c)
      ensures reply == Done ==>
                && c in old(connections) && OwnedBy(ctx, old(connections)[c])
                && old(connections)[c].status == Active && old(connections)[c].notAfter > now
                && connections[c] == old(connections)[c].(notAfter := notAfter) && leases[c].notAfter == notAfter
      ensures reply != Done ==> Value() == old(Value())
    {
      hide Authorized, Linked, GrantsExclusive, LeasesAgree, OnlyRow, MayRenew, CallerStands;
      RenewMeaning(Value(), ctx, c, notAfter, now, limit);
      RenewIff(Value(), ctx, c, notAfter, now, limit);
      if !Authorized(Value(), ctx, now, limit) {
        return Refused(Forbidden);
      }
      if c !in connections || !OwnedBy(ctx, connections[c]) || connections[c].status != Active {
        return Refused(ConnectionNotFound);
      }
      if c !in leases || leases[c].status != Active || leases[c].notAfter <= now {
        return Refused(ConnectionFailed);
      }
      connections := connections[c := connections[c].(notAfter := notAfter)];
      leases := leases[c := leases[c].(notAfter := notAfter)];
      return Done;
    }

    method MarkConnectionRemoved(c: Id, now: Time, expired: bool, error: bool)
      requires Valid()
      modifies this`connections, this`leases
      ensures Valid() && Value() == MarkRemoved(old(Value()), c, now, expired, error)
      ensures OnlyRow(old(Value()), Value(), c) && (c in connections ==> Ending(Value(), c))
      ensures c in connections && !error ==> forall t: Time, l: LimitPolicy :: !Due(Value(), c, t, l)
      ensures error && Joined(old(Value()), c) ==> forall t: Time, l: LimitPolicy :: Due(Value(), c, t, l)
    {
      hide Linked, GrantsExclusive, LeasesAgree, OnlyRow, Ending, Due, Joined;
      RemovalMeaning(Value(), c, now, expired, error);
      if c !in connections {
        return;
      }
      var final := if error then RevokePending else if expired then Expired else Stopped;
      connections := connections[c := connections[c].(status := final, activeKey := None)];
      if c in leases {
        leases := leases[c := leases[c].(status := final)];
        if !error {
          leases := leases[c := leases[c].(removed := Some(now))];
        }
      }
      assert leases == MarkRemoved(old(Value()), c, now, expired, error).leases;
    }

    /** One pass of the sweeper over the joined rows. */
    method SweepDue(rows: seq<Id>, now: Time, limit: LimitPolicy) returns (due: seq<Id>)
      requires Valid() && QueryRows(Value(), rows)
      modifies this`connections, this`leases
      ensures Valid() && Value() == Sweep(old(Value()), now, limit)
      ensures due == DueRows(old(Value()), rows, now, limit)
      ensures forall c :: c in due <==> Due(old(Value()), c, now, limit)
      ensures forall c :: c in due <==> DueByRows(old(Value()), c, now, limit)
    {
      hide QueryRows, DueRows, Linked, GrantsExclusive, LeasesAgree, Due, DueByRows;
      SweepKeepsBound(Value(), now, limit);
      ghost var before := Value();
      forall c
        ensures c in DueRows(before, rows, now, limit) <==> Due(before, c, now, limit)
        ensures c in DueRows(before, rows, now, limit) <==> DueByRows(before, c, now, limit)
      {
        PassReturnsDue(before, rows, c, now, limit);
        DueIff(before, c, now, limit);
      }
      var after;
      after, due := DueConnectionLeases(Value(), rows, now, limit);
      connections, leases := after.connections, after.leases;
    }
  }

  lemma HolderIsRow(connections: Connections, key: string, c: Id)
    requires Holds(connections, key, c)
    ensures c in connections
  {
  }
}
