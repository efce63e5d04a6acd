/** Safety over whole runs: refresh reuse, one-time grants, and the lease a reservation hands out. */
module AuthoritySafety {
  import opened Outcome
  import opened AuthorityTables
  import opened Decimals
  import opened AuthoritySteps
  import opened AuthoritySweep
  import opened AuthorityChains
  import opened AuthorityRows
  import opened AuthorityRuns

  /** Every event of the run is legal when its turn comes. */
  ghost predicate LegalRun(s: System, run: seq<Event>, limit: LimitPolicy)
    requires Valid(s)
    decreases |run|
  {
    run == []
    || (Legal(s, run[0]) && (StepKeepsValid(s, run[0], limit); LegalRun(Step(s, run[0], limit), run[1..], limit)))
  }

  /** The state a run reaches; it satisfies the invariant. */
  ghost function Exec(s: System, run: seq<Event>, limit: LimitPolicy): (t: System)
    requires Valid(s) && LegalRun(s, run, limit)
    ensures Valid(t)
    decreases |run|
  {
    if run == [] then s else (StepKeepsValid(s, run[0], limit); Exec(Step(s, run[0], limit), run[1..], limit))
  }

  lemma EmptyTablesAreValid(dir: Directory)
    ensures Valid(System(Db(dir, map[], map[], map[], map[], 0), map[]))
  {
  }

  lemma StepSetsDb(s: System, e: Event, limit: LimitPolicy)
    requires Valid(s) && Legal(s, e)
    ensures Step(s, e, limit).db == StepDb(s, e, limit)
  {
    hide StepDb, Valid, Legal;
  }

  /** In every reachable state a family has at most one live token. */
  lemma ReachableTokens(s: System, run: seq<Event>, limit: LimitPolicy, h: Hash, k: Hash)
    requires Valid(s) && LegalRun(s, run, limit)
    requires h in Exec(s, run, limit).db.tokens && k in Exec(s, run, limit).db.tokens
    requires var tokens := Exec(s, run, limit).db.tokens;
             SameFamily(tokens[h], tokens[k]) && !tokens[h].revoked && !tokens[k].revoked
    ensures h == k
  {
    hide Exec, LegalRun, ParentsLinked, SuccessorsLinked;
    assert Valid(Exec(s, run, limit));
  }

  /** In every reachable state no grant is both consumed and revoked. */
  lemma ReachableGrants(s: System, run: seq<Event>, limit: LimitPolicy, g: Id)
    requires Valid(s) && LegalRun(s, run, limit) && g in Exec(s, run, limit).db.grants
    ensures var grant := Exec(s, run, limit).db.grants[g];
            grant.consumed.None? || grant.revoked.None?
  {
    hide Exec, LegalRun, Linked, LeasesAgree;
    assert Valid(Exec(s, run, limit));
    assert Exclusive(Exec(s, run, limit).db.grants[g]);
  }

  /** In every reachable state a connection and its lease agree, and no two connections share an active key. */
  lemma ReachableConnections(s: System, run: seq<Event>, limit: LimitPolicy, c: Id, d: Id)
    requires Valid(s) && LegalRun(s, run, limit)
    requires c in Exec(s, run, limit).db.connections && d in Exec(s, run, limit).db.connections
    ensures var db := Exec(s, run, limit).db;
            && c in db.leases
            && db.connections[c].status == db.leases[c].status
            && db.connections[c].notAfter == db.leases[c].notAfter
            && (db.connections[c].activeKey.Some? ==>
                  db.connections[c].status == Pending || db.connections[c].status == Active)
            && (c != d && db.connections[c].activeKey.Some? ==>
                  db.connections[c].activeKey != db.connections[d].activeKey)
  {
    hide Exec, LegalRun, Linked;
    var db := Exec(s, run, limit).db;
    assert Valid(Exec(s, run, limit));
    assert Agrees(db.connections[c], db.leases[c]);
  }

  // ---- refresh reuse ---------------------------------------------------------------------

  /** The family has been used, has no live token and no usable grant. */
  ghost predicate DeadFamily(db: Db, family: Family) {
    && UsedFamily(db.tokens, family)
    && !LiveFamily(db.tokens, family)
    && (forall g :: g in db.grants && db.grants[g].family == family ==> !Usable(db.grants[g]))
  }

  lemma RevokeFamilyKills(db: Db, family: Family, now: Time)
    requires UsedFamily(db.tokens, family)
    ensures DeadFamily(RevokeFamily(db, family, now), family)
  {
    var after := RevokeFamily(db, family, now);
    var h :| h in db.tokens && db.tokens[h].family == Some(family);
    assert h in after.tokens && after.tokens[h].family == Some(family);
  }

  /** The worker presents a token it saw revoked, or passes every check and then loses the claim. */
  predicate Replay(db: Db, snap: Snapshot, req: Request, now: Time) {
    var was := snap.row;
    && was.family.Some?
    && (was.revoked
        || (&& was.expires > now
            && was.app == req.app && was.device == req.device && was.key == req.key
            && IdentityRows(db.dir, was)
            && snap.hash in db.tokens && db.tokens[snap.hash].revoked))
  }

  lemma ReplayKillsFamily(s: System, e: Event, limit: LimitPolicy)
    requires Valid(s) && Legal(s, e) && e.RotateWrite? && Replay(s.db, s.pending[e.worker], e.req, e.now)
    ensures DeadFamily(Step(s, e, limit).db, s.pending[e.worker].row.family.value)
  {
    hide DeadFamily, RevokeFamily, IdentityRows, Linked, GrantsExclusive, LeasesAgree, Rotated;
    var snap := s.pending[e.worker];
    assert SnapshotTrue(s.db.tokens, snap);
    assert UsedFamily(s.db.tokens, snap.row.family.value);
    RevokeFamilyKills(s.db, snap.row.family.value, e.now);
    StepSetsDb(s, e, limit);
  }

  lemma LogoutKillsFamily(db: Db, hash: Hash, req: Request, now: Time)
    requires hash in db.tokens && db.tokens[hash].family.Some?
    requires db.tokens[hash].app == req.app && db.tokens[hash].device == req.device
    ensures DeadFamily(Logout(db, hash, req, now), db.tokens[hash].family.value)
  {
    hide DeadFamily, RevokeFamily;
    RevokeFamilyKills(db, db.tokens[hash].family.value, now);
  }

  /** Grants of the family after a step were there before it. */
  ghost predicate NoNewGrant(before: Grants, after: Grants, family: Family) {
    forall g :: g in after && after[g].family == family ==> g in before
  }

  lemma DeadStaysDead(before: Db, after: Db, family: Family)
    requires DeadFamily(before, family) && DbNext(before, after)
    ensures DeadFamily(after, family) && NoNewGrant(before.grants, after.grants, family)
  {
    DeadTokens(before.tokens, after.tokens, family);
    forall g | g in after.grants && after.grants[g].family == family ensures g in before.grants && !Usable(after.grants[g]) {
      if g in before.grants {
        assert GrantNext(before.grants[g], after.grants[g]);
      }
    }
  }

  lemma DeadTokens(before: Tokens, after: Tokens, family: Family)
    requires UsedFamily(before, family) && !LiveFamily(before, family) && TokenStep(before, after)
    ensures UsedFamily(after, family) && !LiveFamily(after, family)
  {
    var h :| h in before && before[h].family == Some(family);
    assert TokenNext(before[h], after[h]);
    forall k | k in after && after[k].family == Some(family) ensures after[k].revoked {
      if k in before {
        assert TokenNext(before[k], after[k]);
      } else if LiveKin(before, family, after[k].app, after[k].user, after[k].device) {
        assert LiveFamily(before, family);
      }
    }
  }

  lemma NoNewGrantTransitive(a: Grants, b: Grants, c: Grants, family: Family)
    requires NoNewGrant(a, b, family) && NoNewGrant(b, c, family) && GrantsNext(b, c)
    ensures NoNewGrant(a, c, family)
  {
    forall g | g in c && c[g].family == family ensures g in a {
      assert GrantNext(b[g], c[g]);
    }
  }

  /** No later run gives a dead family a live token, a usable grant or a new grant. */
  lemma {:induction false} DeadFamilyForever(s: System, run: seq<Event>, limit: LimitPolicy, family: Family)
    requires Valid(s) && LegalRun(s, run, limit) && DeadFamily(s.db, family)
    ensures DeadFamily(Exec(s, run, limit).db, family)
    ensures NoNewGrant(s.db.grants, Exec(s, run, limit).db.grants, family)
    decreases |run|
  {
    hide DeadFamily, NoNewGrant, Valid, Legal, Step, StepDb, DbNext, Sound, GrantsNext;
    if run == [] {
      SameGrantsKept(s.db.grants, family);
    } else {
      StepKeepsValid(s, run[0], limit);
      var next := Step(s, run[0], limit);
      StepSetsDb(s, run[0], limit);
      StepIsNext(s, run[0], limit);
      DeadStaysDead(s.db, next.db, family);
      DeadFamilyForever(next, run[1..], limit, family);
      RunGrantsNext(next, run[1..], limit);
      NoNewGrantTransitive(s.db.grants, next.db.grants, Exec(s, run, limit).db.grants, family);
    }
  }

  lemma SameGrantsKept(grants: Grants, family: Family)
    ensures NoNewGrant(grants, grants, family)
  {
  }

  // ---- one-time grants -----------------------------------------------------------------------

  lemma NextParts(s: System, e: Event, limit: LimitPolicy)
    requires Valid(s) && Legal(s, e)
    ensures var after := Step(s, e, limit).db;
            TokensNext(s.db.tokens, after.tokens) && GrantsNext(s.db.grants, after.grants)
  {
    hide StepDb, Valid, Legal, Sound, TokensNext, GrantsNext, TokensArise, GrantsArise;
    StepSetsDb(s, e, limit);
    StepIsNext(s, e, limit);
  }

  lemma SelfNext(s: System)
    requires Valid(s)
    ensures TokensNext(s.db.tokens, s.db.tokens) && GrantsNext(s.db.grants, s.db.grants)
  {
    hide Linked, LeasesAgree, PendingTrue;
  }

  /** Over any run rows persist; revoked tokens and spent grants never change again. */
  lemma {:induction false} RunGrantsNext(s: System, run: seq<Event>, limit: LimitPolicy)
    requires Valid(s) && LegalRun(s, run, limit)
    ensures GrantsNext(s.db.grants, Exec(s, run, limit).db.grants)
    ensures TokensNext(s.db.tokens, Exec(s, run, limit).db.tokens)
    decreases |run|
  {
    hide Valid, Legal, Step, GrantsNext, TokensNext;
    if run == [] {
      SelfNext(s);
    } else {
      StepKeepsValid(s, run[0], limit);
      NextParts(s, run[0], limit);
      var next, end := Step(s, run[0], limit), Exec(s, run, limit);
      RunGrantsNext(next, run[1..], limit);
      ValidExclusive(end);
      GrantsNextTransitive(s.db.grants, next.db.grants, end.db.grants);
      TokensNextTransitive(s.db.tokens, next.db.tokens, end.db.tokens);
    }
  }

  lemma ValidExclusive(s: System)
    requires Valid(s)
    ensures GrantsExclusive(s.db.grants)
  {
  }

  /** The event hands out grant `g`. */
  ghost predicate Consumes(db: Db, e: Event, g: Id, limit: LimitPolicy) {
    e.Consume? && e.grant == g && ConsumeGrant(db, e.ctx, g, e.now, e.deliverable, limit).1 == Done
  }

  /** How many times a run hands out grant `g`. */
  ghost function Consumptions(s: System, run: seq<Event>, limit: LimitPolicy, g: Id): nat
    requires Valid(s) && LegalRun(s, run, limit)
    decreases |run|
  {
    if run == [] then 0
    else
      StepKeepsValid(s, run[0], limit);
      (if Consumes(s.db, run[0], g, limit) then 1 else 0) + Consumptions(Step(s, run[0], limit), run[1..], limit, g)
  }

  lemma ConsumesOnce(db: Db, e: Event, g: Id, limit: LimitPolicy)
    requires Consumes(db, e, g, limit)
    ensures g in db.grants && Usable(db.grants[g])
    ensures var after := ConsumeGrant(db, e.ctx, g, e.now, e.deliverable, limit).0;
            g in after.grants && !Usable(after.grants[g])
  {
    hide Authorized, CanSign, LeaseUsable;
  }

  /** Every grant is handed out at most once in a run, and never when it was already spent. */
  lemma {:induction false} AtMostOneConsumption(s: System, run: seq<Event>, limit: LimitPolicy, g: Id)
    requires Valid(s) && LegalRun(s, run, limit)
    ensures Consumptions(s, run, limit, g) <= 1
    ensures g in s.db.grants && !Usable(s.db.grants[g]) ==> Consumptions(s, run, limit, g) == 0
    decreases |run|
  {
    hide Valid, Legal, Step, TokensNext, Consumes, ConsumeGrant;
    if run != [] {
      var e := run[0];
      StepKeepsValid(s, e, limit);
      NextParts(s, e, limit);
      AtMostOneConsumption(Step(s, e, limit), run[1..], limit, g);
      if g in s.db.grants {
        assert GrantNext(s.db.grants[g], Step(s, e, limit).db.grants[g]);
      }
      if Consumes(s.db, e, g, limit) {
        ConsumesOnce(s.db, e, g, limit);
        ConsumeSteps(s, e, g, limit);
      }
    }
  }

  lemma ConsumeSteps(s: System, e: Event, g: Id, limit: LimitPolicy)
    requires Valid(s) && Legal(s, e) && Consumes(s.db, e, g, limit)
    ensures Step(s, e, limit).db == ConsumeGrant(s.db, e.ctx, g, e.now, e.deliverable, limit).0
  {
    hide Valid, ConsumeGrant;
    StepSetsDb(s, e, limit);
  }

  /** A grant becomes consumed only while its connection and lease are both active and unexpired. */
  lemma ConsumptionNeedsLiveLease(s: System, e: Event, g: Id, limit: LimitPolicy)
    requires Valid(s) && Legal(s, e)
    requires g in s.db.grants && s.db.grants[g].consumed.None?
    requires g in Step(s, e, limit).db.grants && Step(s, e, limit).db.grants[g].consumed.Some?
    ensures Consumes(s.db, e, g, limit)
    ensures s.db.grants[g].expires > e.now && Owns(e.ctx, s.db.grants[g])
    ensures s.db.grants[g].connection.Some?
    ensures var c := s.db.grants[g].connection.value;
            && c in s.db.connections && c in s.db.leases
            && s.db.connections[c].status == Active && s.db.connections[c].notAfter > e.now
            && s.db.leases[c].status == Active && s.db.leases[c].notAfter > e.now
  {
    hide StepDb, Linked, GrantsNext, GrantsArise, TokenStep, Authorized, CanSign;
    StepSetsDb(s, e, limit);
    if !e.Consume? {
      StepIsQuiet(s, e, limit);
      assert false;
    } else {
      ConsumeReply(s, e, limit, g);
      var c := s.db.grants[g].connection.value;
      assert Agrees(s.db.connections[c], s.db.leases[c]);
    }
  }

  lemma ConsumeReply(s: System, e: Event, limit: LimitPolicy, g: Id)
    requires Valid(s) && Legal(s, e) && e.Consume? && g in s.db.grants && s.db.grants[g].consumed.None?
    requires StepDb(s, e, limit).grants[g].consumed.Some?
    ensures Consumes(s.db, e, g, limit)
  {
    hide Authorized, CanSign, LeaseUsable, Linked, GrantsExclusive, LeasesAgree, PendingTrue;
  }

  /** After a list call that issued grants, only those are usable by that app, user and device. */
  lemma IssueReplaces(db: Db, ctx: Context, issued: map<Id, Selector>, now: Time, expires: Time, limit: LimitPolicy, g: Id)
    requires issued.Keys !! db.grants.Keys && issued != map[] && expires > now
    requires IssueGrants(db, ctx, issued, now, expires, limit).1 == Done
    ensures var after := IssueGrants(db, ctx, issued, now, expires, limit).0;
            g in after.grants && after.grants[g].app == ctx.app && after.grants[g].user == ctx.user
              && after.grants[g].device == ctx.device ==>
              (Usable(after.grants[g]) <==> g in issued)
  {
    hide Authorized, CanSign;
  }

  // ---- the lease a reservation hands out ---------------------------------------------------------

  /** An active key names its application and its device. */
  lemma ActiveKeyNames(app: Id, device: Id, core: string, protocol: string,
                       app': Id, device': Id, core': string, protocol': string)
    requires ActiveKey(app, device, core, protocol) == ActiveKey(app', device', core', protocol')
    ensures app == app' && device == device' && core + ":" + protocol == core' + ":" + protocol'
  {
    hide Decimal;
    DecimalHasNoColon(app);
    DecimalHasNoColon(app');
    DecimalHasNoColon(device);
    DecimalHasNoColon(device');
    var x, y := core + ":" + protocol, core' + ":" + protocol';
    assert Decimal(app) + ":" + (Decimal(device) + ":" + x) == Decimal(app') + ":" + (Decimal(device') + ":" + y);
    PrefixDetermined(Decimal(app), Decimal(app'), Decimal(device) + ":" + x, Decimal(device') + ":" + y);
    PrefixDetermined(Decimal(device), Decimal(device'), x, y);
    DecimalInjective(app, app');
    DecimalInjective(device, device');
  }

  /** A reservation binds its grant to one connection of the caller's application and device, opened or reused. */
  lemma ReserveBinds(s: System, ctx: Context, config: Id, newId: Id, notAfter: Time, now: Time, limit: LimitPolicy)
    returns (c: Id)
    requires Valid(s) && newId !in s.db.connections && newId !in s.db.leases
    requires Reserve(s.db, ctx, config, newId, notAfter, now, limit).1 == Done
    ensures var after := Reserve(s.db, ctx, config, newId, notAfter, now, limit).0;
            && config in after.grants && after.grants[config].connection == Some(c)
            && c in after.connections && after.connections[c].notAfter == notAfter
            && ReservedUnder(after.connections[c].(user := ctx.user), ctx)
            && after.connections[c].user == (if c in s.db.connections then s.db.connections[c].user else ctx.user)
            && after.connections[c].activeKey
               == Some(ActiveKey(ctx.app, ctx.device, after.grants[config].core, after.grants[config].protocol.value))
            && Authorized(s.db, ctx, now, limit) && after.dir == s.db.dir && after.tokens == s.db.tokens
  {
    hide Linked, GrantsExclusive, KeysDistinct, PendingTrue, ActiveKey;
    var db := s.db;
    var row := db.grants[config];
    var key := ActiveKey(ctx.app, ctx.device, row.core, row.protocol.value);
    if exists c :: Holds(db.connections, key, c) {
      c := Holder(db.connections, key);
      var held := db.connections[c];
      assert Agrees(held, db.leases[c]);
      ActiveKeyNames(held.app, held.device, held.core, held.protocol, ctx.app, ctx.device, row.core, row.protocol.value);
    } else {
      c := newId;
    }
  }

  /** The lease just reserved lacks authority at that instant exactly when its connection has another user. */
  lemma ReservedLeaseAuthority(s: System, ctx: Context, config: Id, newId: Id, notAfter: Time, now: Time,
                               limit: LimitPolicy, c: Id)
    requires Valid(s) && newId !in s.db.connections && newId !in s.db.leases
    requires Reserve(s.db, ctx, config, newId, notAfter, now, limit).1 == Done
    ensures var after := Reserve(s.db, ctx, config, newId, notAfter, now, limit).0;
            config in after.grants && after.grants[config].connection == Some(c) && Joined(after, c) ==>
              (AuthorityLost(after, c, now, limit) <==> after.connections[c].user != ctx.user)
  {
    hide Valid, Reserve;
    var d := ReserveBinds(s, ctx, config, newId, notAfter, now, limit);
    var after := Reserve(s.db, ctx, config, newId, notAfter, now, limit).0;
    if after.grants[config].connection == Some(c) && Joined(after, c) {
      AuthorizedElsewhere(s.db, after, ctx, now, limit);
      LostByUser(after, ctx, c, now, limit);
    }
  }

  lemma LostByUser(db: Db, ctx: Context, c: Id, now: Time, limit: LimitPolicy)
    requires Authorized(db, ctx, now, limit) && Joined(db, c)
    requires ReservedUnder(db.connections[c].(user := ctx.user), ctx)
    ensures AuthorityLost(db, c, now, limit) <==> db.connections[c].user != ctx.user
  {
    hide FamilyAlive, UserEntitled, InWindow, HasUserGrant;
    if db.connections[c].user == ctx.user {
      SweepAgreesWithAuthorization(db, ctx, c, now, limit);
    }
  }

  // ---- owners of connections -------------------------------------------------------------------------

  /** Connections belong to the user who owns their device. */
  ghost predicate OwnersKept(db: Db) {
    forall c :: c in db.connections ==> OwnerKept(db.dir, db.connections[c])
  }

  predicate OwnerKept(dir: Directory, row: Connection) {
    row.device in dir.devices && dir.devices[row.device].user == row.user
  }

  /** Every device of one directory is in the other with the same owner. */
  ghost predicate SameOwners(before: Directory, after: Directory) {
    forall d :: d in before.devices ==> d in after.devices && after.devices[d].user == before.devices[d].user
  }

  /** Administration never hands a known device to another user. */
  ghost predicate KeepsOwners(s: System, e: Event) {
    e.DirectoryChange? ==> SameOwners(s.db.dir, e.dir)
  }

  lemma StepSameOwners(s: System, e: Event, limit: LimitPolicy)
    requires Valid(s) && Legal(s, e) && KeepsOwners(s, e)
    ensures SameOwners(s.db.dir, StepDb(s, e, limit).dir)
  {
    hide StepDb, Valid;
    if e.DirectoryChange? {
      DirectorySet(s, e, limit);
    } else {
      StepShrinks(s, e, limit);
    }
  }

  lemma DirectorySet(s: System, e: Event, limit: LimitPolicy)
    requires Valid(s) && Legal(s, e) && e.DirectoryChange?
    ensures StepDb(s, e, limit).dir == e.dir
  {
  }

  /** A step changes the identity of no connection, and opens one only for an authorized caller. */
  lemma StepConnections(s: System, e: Event, limit: LimitPolicy, c: Id)
    requires Valid(s) && Legal(s, e) && c in StepDb(s, e, limit).connections
    ensures var row := StepDb(s, e, limit).connections[c];
            if c in s.db.connections
            then row.device == s.db.connections[c].device && row.user == s.db.connections[c].user
            else OwnerKept(s.db.dir, row)
  {
    hide Valid, RevokeGrants, Due, RotateAct, IssueGrants, ConsumeGrant, Reserve, Logout, RevokeDevice, RevokeAppCascade,
         RevokeUserGrantCascade, RevokeKeyCascade, Authorized;
    if !MovesConnections(e) {
      OthersKeepConnections(s, e, limit);
    } else if e.ReserveFor? {
      ReserveConnections(s.db, e.ctx, e.config, e.newId, e.notAfter, e.now, limit, c);
    }
  }

  lemma ReserveConnections(db: Db, ctx: Context, config: Id, newId: Id, notAfter: Time, now: Time, limit: LimitPolicy, c: Id)
    requires newId !in db.connections && c in Reserve(db, ctx, config, newId, notAfter, now, limit).0.connections
    ensures var row := Reserve(db, ctx, config, newId, notAfter, now, limit).0.connections[c];
            if c in db.connections
            then row.device == db.connections[c].device && row.user == db.connections[c].user
            else OwnerKept(db.dir, row)
  {
    hide CanSign, LiveMember, UserEntitled, InWindow, ActiveKey, Owns;
  }

  lemma StepKeepsOwners(s: System, e: Event, limit: LimitPolicy)
    requires Valid(s) && Legal(s, e) && KeepsOwners(s, e) && OwnersKept(s.db)
    ensures OwnersKept(StepDb(s, e, limit))
  {
    hide StepDb, Valid, Legal;
    StepSameOwners(s, e, limit);
    var after := StepDb(s, e, limit);
    forall c | c in after.connections ensures OwnerKept(after.dir, after.connections[c]) {
      StepConnections(s, e, limit, c);
    }
  }

  ghost predicate RunKeepsOwners(s: System, run: seq<Event>, limit: LimitPolicy)
    requires Valid(s) && LegalRun(s, run, limit)
    decreases |run|
  {
    run == []
    || (KeepsOwners(s, run[0])
        && (StepKeepsValid(s, run[0], limit); RunKeepsOwners(Step(s, run[0], limit), run[1..], limit)))
  }

  /** Over every run that hands no device on, connections stay with the owners of their devices. */
  lemma {:induction false} OwnersKeptForever(s: System, run: seq<Event>, limit: LimitPolicy)
    requires Valid(s) && LegalRun(s, run, limit) && RunKeepsOwners(s, run, limit) && OwnersKept(s.db)
    ensures OwnersKept(Exec(s, run, limit).db)
    decreases |run|
  {
    hide Valid, Legal, Step, OwnersKept, KeepsOwners;
    if run != [] {
      StepKeepsValid(s, run[0], limit);
      StepSetsDb(s, run[0], limit);
      StepKeepsOwners(s, run[0], limit);
      OwnersKeptForever(Step(s, run[0], limit), run[1..], limit);
    }
  }

  /** Then a lease just reserved always has authority at that instant. */
  lemma ReservedLeaseKeepsAuthority(s: System, run: seq<Event>, ctx: Context, config: Id, newId: Id, notAfter: Time,
                                    now: Time, limit: LimitPolicy, c: Id)
    requires Valid(s) && LegalRun(s, run, limit) && RunKeepsOwners(s, run, limit) && OwnersKept(s.db)
    requires var db := Exec(s, run, limit).db; newId !in db.connections && newId !in db.leases
    requires Reserve(Exec(s, run, limit).db, ctx, config, newId, notAfter, now, limit).1 == Done
    ensures var after := Reserve(Exec(s, run, limit).db, ctx, config, newId, notAfter, now, limit).0;
            config in after.grants && after.grants[config].connection == Some(c) && Joined(after, c) ==>
              !AuthorityLost(after, c, now, limit)
  {
    hide Exec, LegalRun, RunKeepsOwners, Valid, Reserve, AuthorityLost, Joined;
    OwnersKeptForever(s, run, limit);
    var t := Exec(s, run, limit);
    ReservedLeaseAuthority(t, ctx, config, newId, notAfter, now, limit, c);
    var d := ReserveBinds(t, ctx, config, newId, notAfter, now, limit);
    AuthorizedOwner(t.db, ctx, now, limit);
    if d in t.db.connections {
      assert OwnerKept(t.db.dir, t.db.connections[d]);
      ReusedDevice(t, ctx, config, newId, notAfter, now, limit, d);
    }
  }

  lemma AuthorizedOwner(db: Db, ctx: Context, now: Time, limit: LimitPolicy)
    requires Authorized(db, ctx, now, limit)
    ensures ctx.device in db.dir.devices && db.dir.devices[ctx.device].user == ctx.user
  {
  }

  /** The reused connection was already one of the caller's device. */
  lemma ReusedDevice(s: System, ctx: Context, config: Id, newId: Id, notAfter: Time, now: Time, limit: LimitPolicy, c: Id)
    requires Valid(s) && newId !in s.db.connections && newId !in s.db.leases
    requires Reserve(s.db, ctx, config, newId, notAfter, now, limit).1 == Done
    requires var after := Reserve(s.db, ctx, config, newId, notAfter, now, limit).0;
             c in s.db.connections && c in after.connections && after.connections[c].device == ctx.device
    ensures s.db.connections[c].device == ctx.device
  {
    hide Valid, Authorized, ActiveKey;
  }

  lemma AuthorizedElsewhere(db: Db, other: Db, ctx: Context, now: Time, limit: LimitPolicy)
    requires Authorized(db, ctx, now, limit) && other.dir == db.dir && other.tokens == db.tokens
    ensures Authorized(other, ctx, now, limit)
  {
  }
}
