/** Revocations and the reconciliation pass, over whole runs. */
module AuthorityRevocations {
  import opened Outcome
  import opened AuthorityTables
  import opened AuthoritySteps
  import opened AuthoritySweep
  import opened AuthorityChains
  import opened AuthorityRows
  import opened AuthorityRuns
  import opened AuthoritySafety

  // ---- leases whose family has no live token left --------------------------------------------

  /** The family has been used, but no live token of it has this application, user and device. */
  ghost predicate Orphaned(tokens: Tokens, family: Family, app: Id, user: Id, device: Id) {
    UsedFamily(tokens, family) && !LiveKin(tokens, family, app, user, device)
  }

  lemma OrphanedStays(before: Tokens, after: Tokens, family: Family, app: Id, user: Id, device: Id)
    requires Orphaned(before, family, app, user, device) && TokenStep(before, after)
    ensures Orphaned(after, family, app, user, device)
  {
    var h :| h in before && before[h].family == Some(family);
    assert TokenNext(before[h], after[h]);
    forall k | k in after && Kin(after[k], family, app, user, device) ensures after[k].revoked {
      if k in before {
        assert TokenNext(before[k], after[k]);
      }
    }
  }

  lemma OrphanedIsDue(db: Db, c: Id, now: Time, limit: LimitPolicy)
    requires Joined(db, c)
    requires var row := db.connections[c]; Orphaned(db.tokens, row.family, row.app, row.user, row.device)
    ensures Due(db, c, now, limit)
  {
    hide UserEntitled, HasUserGrant, InWindow;
    var row := db.connections[c];
    assert !FamilyAlive(db.tokens, row.family, row.app, row.user, row.device, now);
  }

  lemma StepOrphaned(s: System, e: Event, limit: LimitPolicy, family: Family, app: Id, user: Id, device: Id)
    requires Valid(s) && Legal(s, e) && Orphaned(s.db.tokens, family, app, user, device)
    ensures Orphaned(Step(s, e, limit).db.tokens, family, app, user, device)
  {
    hide StepDb, Valid, Legal, Sound, TokenStep, GrantsNext, GrantsArise, Orphaned;
    StepSetsDb(s, e, limit);
    StepIsNext(s, e, limit);
    OrphanedStays(s.db.tokens, StepDb(s, e, limit).tokens, family, app, user, device);
  }

  lemma {:induction false} OrphanedForever(s: System, run: seq<Event>, limit: LimitPolicy, family: Family, app: Id, user: Id,
                                           device: Id)
    requires Valid(s) && LegalRun(s, run, limit) && Orphaned(s.db.tokens, family, app, user, device)
    ensures Orphaned(Exec(s, run, limit).db.tokens, family, app, user, device)
    decreases |run|
  {
    hide Valid, Legal, Step, Orphaned;
    if run != [] {
      StepKeepsValid(s, run[0], limit);
      StepOrphaned(s, run[0], limit, family, app, user, device);
      OrphanedForever(Step(s, run[0], limit), run[1..], limit, family, app, user, device);
    }
  }

  /** Once its family is orphaned, a lease is due at every instant of every later run while it stays bound. */
  lemma OrphanedLeaseStaysDue(s: System, run: seq<Event>, limit: LimitPolicy, c: Id, now: Time,
                              family: Family, app: Id, user: Id, device: Id)
    requires Valid(s) && LegalRun(s, run, limit) && Orphaned(s.db.tokens, family, app, user, device)
    requires Joined(Exec(s, run, limit).db, c)
    requires var row := Exec(s, run, limit).db.connections[c];
             row.family == family && row.app == app && row.user == user && row.device == device
    ensures Due(Exec(s, run, limit).db, c, now, limit)
  {
    hide Exec, LegalRun, Valid, Orphaned, Due;
    OrphanedForever(s, run, limit, family, app, user, device);
    OrphanedIsDue(Exec(s, run, limit).db, c, now, limit);
  }

  /** After a replay or a logout every lease of the family stays due. */
  lemma DeadFamilyLeaseStaysDue(s: System, run: seq<Event>, limit: LimitPolicy, c: Id, now: Time, family: Family)
    requires Valid(s) && LegalRun(s, run, limit) && DeadFamily(s.db, family)
    requires Joined(Exec(s, run, limit).db, c) && Exec(s, run, limit).db.connections[c].family == family
    ensures Due(Exec(s, run, limit).db, c, now, limit)
  {
    hide Exec, LegalRun, Valid, Due;
    var row := Exec(s, run, limit).db.connections[c];
    DeadIsOrphaned(s.db, family, row.app, row.user, row.device);
    OrphanedLeaseStaysDue(s, run, limit, c, now, family, row.app, row.user, row.device);
  }

  lemma DeadIsOrphaned(db: Db, family: Family, app: Id, user: Id, device: Id)
    requires DeadFamily(db, family)
    ensures Orphaned(db.tokens, family, app, user, device)
  {
  }

  // ---- the two commits of a user grant revocation ----------------------------------------------

  lemma CascadeOrphans(db: Db, app: Id, user: Id, at: Time, family: Family, device: Id)
    requires UsedFamily(db.tokens, family)
    ensures Orphaned(RevokeUserGrantCascade(db, app, user, at).tokens, family, app, user, device)
  {
    var after := RevokeUserGrantCascade(db, app, user, at).tokens;
    var h :| h in db.tokens && db.tokens[h].family == Some(family);
    assert h in after && after[h].family == Some(family);
    forall k | k in after && Kin(after[k], family, app, user, device) ensures after[k].revoked {
      assert k in db.tokens && db.tokens[k].app == app && db.tokens[k].user == user;
    }
  }

  /** After the second commit, whatever happened before it, leases of that user and application stay due in every run. */
  lemma UserGrantRevocationIsSeen(s: System, app: Id, user: Id, at: Time, run: seq<Event>, limit: LimitPolicy, c: Id, now: Time)
    requires Valid(s) && Valid(Step(s, UserGrantCascade(app, user, at), limit))
    requires LegalRun(Step(s, UserGrantCascade(app, user, at), limit), run, limit)
    requires var end := Exec(Step(s, UserGrantCascade(app, user, at), limit), run, limit).db;
             && Joined(end, c) && end.connections[c].app == app && end.connections[c].user == user
             && UsedFamily(s.db.tokens, end.connections[c].family)
    ensures Due(Exec(Step(s, UserGrantCascade(app, user, at), limit), run, limit).db, c, now, limit)
  {
    hide Exec, LegalRun, Due, Orphaned, UsedFamily, Linked, PendingTrue, GrantsExclusive, LeasesAgree;
    var t := Step(s, UserGrantCascade(app, user, at), limit);
    var row := Exec(t, run, limit).db.connections[c];
    CascadeOrphans(s.db, app, user, at, row.family, row.device);
    OrphanedLeaseStaysDue(t, run, limit, c, now, row.family, app, user, row.device);
  }

  // ---- the family of a connection ----------------------------------------------------------------

  /** Every connection is bound to a family that has a token. */
  ghost predicate FamiliesUsed(db: Db) {
    forall c :: c in db.connections ==> UsedFamily(db.tokens, db.connections[c].family)
  }

  /** A step changes the family of a connection, or opens one, only for a family that is live. */
  lemma StepFamilies(s: System, e: Event, limit: LimitPolicy, c: Id)
    requires Valid(s) && Legal(s, e) && c in StepDb(s, e, limit).connections
    ensures var row := StepDb(s, e, limit).connections[c];
            (c in s.db.connections && row.family == s.db.connections[c].family) || LiveFamily(s.db.tokens, row.family)
  {
    hide Valid, RevokeGrants, Due, RotateAct, IssueGrants, ConsumeGrant, Reserve, Logout, RevokeDevice, RevokeAppCascade,
         RevokeUserGrantCascade, RevokeKeyCascade, Authorized, LiveFamily;
    if !MovesConnections(e) {
      OthersKeepConnections(s, e, limit);
    } else if e.ReserveFor? {
      ReserveFamilies(s.db, e.ctx, e.config, e.newId, e.notAfter, e.now, limit, c);
    }
  }

  lemma ReserveFamilies(db: Db, ctx: Context, config: Id, newId: Id, notAfter: Time, now: Time, limit: LimitPolicy, c: Id)
    requires c in Reserve(db, ctx, config, newId, notAfter, now, limit).0.connections
    ensures var row := Reserve(db, ctx, config, newId, notAfter, now, limit).0.connections[c];
            (c in db.connections && row.family == db.connections[c].family) || LiveFamily(db.tokens, row.family)
  {
    hide Authorized, ActiveKey, Owns, LiveFamily;
    if Authorized(db, ctx, now, limit) {
      AuthorizedIsLive(db, ctx, now, limit);
    }
  }

  lemma UsedStays(before: Tokens, after: Tokens, family: Family)
    requires TokensNext(before, after)
    ensures UsedFamily(before, family) ==> UsedFamily(after, family)
    ensures LiveFamily(before, family) ==> UsedFamily(after, family)
  {
    if UsedFamily(before, family) {
      var h :| h in before && before[h].family == Some(family);
      assert TokenNext(before[h], after[h]);
    }
  }

  lemma StepKeepsFamilies(s: System, e: Event, limit: LimitPolicy)
    requires Valid(s) && Legal(s, e) && FamiliesUsed(s.db)
    ensures FamiliesUsed(Step(s, e, limit).db)
  {
    hide StepDb, Valid, Legal, UsedFamily, LiveFamily, TokensNext, GrantsNext;
    NextParts(s, e, limit);
    StepSetsDb(s, e, limit);
    var after := StepDb(s, e, limit);
    forall c | c in after.connections ensures UsedFamily(after.tokens, after.connections[c].family) {
      StepFamilies(s, e, limit, c);
      UsedStays(s.db.tokens, after.tokens, after.connections[c].family);
    }
  }

  /** In every run each connection stays bound to a family that has a token. */
  lemma {:induction false} FamiliesUsedForever(s: System, run: seq<Event>, limit: LimitPolicy)
    requires Valid(s) && LegalRun(s, run, limit) && FamiliesUsed(s.db)
    ensures FamiliesUsed(Exec(s, run, limit).db)
    decreases |run|
  {
    hide Valid, Legal, Step, FamiliesUsed;
    if run != [] {
      StepKeepsValid(s, run[0], limit);
      StepKeepsFamilies(s, run[0], limit);
      FamiliesUsedForever(Step(s, run[0], limit), run[1..], limit);
    }
  }

  /** So every lease open at the second commit and still bound as it was then is due in every later run. */
  lemma OpenLeasesStayDue(s0: System, past: seq<Event>, app: Id, user: Id, at: Time, run: seq<Event>, limit: LimitPolicy,
                          c: Id, now: Time)
    requires Valid(s0) && FamiliesUsed(s0.db) && LegalRun(s0, past, limit)
    requires var t := Step(Exec(s0, past, limit), UserGrantCascade(app, user, at), limit);
             Valid(t) && LegalRun(t, run, limit)
    requires var s := Exec(s0, past, limit);
             var end := Exec(Step(s, UserGrantCascade(app, user, at), limit), run, limit).db;
             && c in s.db.connections && Joined(end, c) && end.connections[c].family == s.db.connections[c].family
             && end.connections[c].app == app && end.connections[c].user == user
    ensures Due(Exec(Step(Exec(s0, past, limit), UserGrantCascade(app, user, at), limit), run, limit).db, c, now, limit)
  {
    hide Exec, LegalRun, Due, Joined, Step, UsedFamily, Valid;
    FamiliesUsedForever(s0, past, limit);
    UserGrantRevocationIsSeen(Exec(s0, past, limit), app, user, at, run, limit, c, now);
  }

  /** The limit policy does not look at user grants. */
  ghost predicate IgnoresGrants(limit: LimitPolicy) {
    forall dir: Directory, grants: map<Id, UserGrant>, u: Id, d: Id ::
      limit(dir.(userGrants := grants), u, d) == limit(dir, u, d)
  }

  lemma SameGrantOwners(db: Db, app: Id, user: Id, a: Id, u: Id)
    ensures HasUserGrant(RevokeUserGrant(db, app, user).dir, a, u) <==> HasUserGrant(db.dir, a, u)
  {
    var after := RevokeUserGrant(db, app, user).dir.userGrants;
    if HasUserGrant(db.dir, a, u) {
      var g :| g in db.dir.userGrants && db.dir.userGrants[g].app == a && db.dir.userGrants[g].user == u;
      assert g in after && after[g].app == a && after[g].user == u;
    }
  }

  /** The first commit alone changes no lease's standing: the sweep looks only at the presence of a grant. */
  lemma FirstCommitIsNotSeen(db: Db, app: Id, user: Id, c: Id, now: Time, limit: LimitPolicy)
    requires IgnoresGrants(limit)
    ensures Due(RevokeUserGrant(db, app, user), c, now, limit) <==> Due(db, c, now, limit)
  {
    hide FamilyAlive, InWindow, HasUserGrant;
    var after := RevokeUserGrant(db, app, user);
    if Joined(db, c) {
      var row := db.connections[c];
      SameGrantOwners(db, app, user, row.app, row.user);
      assert limit(after.dir, row.user, row.device) == limit(db.dir, row.user, row.device);
      assert UserEntitled(after.dir, row.user, now) == UserEntitled(db.dir, row.user, now);
      assert AuthorityLost(after, c, now, limit) == AuthorityLost(db, c, now, limit);
    }
  }

  /** But it refuses every context of that user and application that names a grant. */
  lemma FirstCommitRefuses(db: Db, ctx: Context, now: Time, limit: LimitPolicy)
    requires IgnoresGrants(limit)
    ensures Authorized(RevokeUserGrant(db, ctx.app, ctx.user), ctx, now, limit)
            <==> Authorized(db, ctx, now, limit) && GrantOf(db.dir, ctx).None?
  {
    hide LiveMember, InWindow;
    var after := RevokeUserGrant(db, ctx.app, ctx.user);
    assert limit(after.dir, ctx.user, ctx.device) == limit(db.dir, ctx.user, ctx.device);
    if ctx.user in db.dir.users {
      assert UserEntitled(after.dir, ctx.user, now) == UserEntitled(db.dir, ctx.user, now);
    }
  }

  /** A crash between the commits: the context is refused and no pass returns its lease. */
  lemma CrashBetweenCommits() returns (db: Db, ctx: Context, limit: LimitPolicy)
    ensures Valid(System(db, map[]))
    ensures Authorized(db, ctx, 0, limit) && Joined(db, 0) && ReservedUnder(db.connections[0], ctx)
    ensures var after := RevokeUserGrant(db, ctx.app, ctx.user);
            !Authorized(after, ctx, 0, limit) && !Due(after, 0, 0, limit)
  {
    limit := (dir, u, d) => true;
    ctx := Context(0, "", 0, Some(0), 0, "", 0, "", "f");
    var dir := Directory(map[0 := App("", true, false, "")], map[0 := User(true, true, None, None)],
                         map[0 := Device(0, 0, "", true)], map[0 := Key(0, "", ConfigEncryption, true, None, None)],
                         map[0 := UserGrant(0, 0, true)], map[]);
    var token := Token(0, 0, 0, 0, Some("f"), None, None, 10, false, 0);
    var row := Connection(0, 0, 0, 0, "f", "", "", None, Active, 10);
    db := Db(dir, map["h" := token], map[], map[0 := row], map[0 := Lease(Active, 10, None)], 1);
    assert LiveMember(db.tokens["h"], "f", 0, 0, 0, 0);
    assert Authorized(db, ctx, 0, limit);
    SweepAgreesWithAuthorization(db, ctx, 0, 0, limit);
    FirstCommitIsNotSeen(db, 0, 0, 0, 0, limit);
    FirstCommitRefuses(db, ctx, 0, limit);
  }

  // ---- deactivated applications, keys and devices ---------------------------------------------------

  /** The application, the key or the device of the connection is inactive. */
  predicate Deactivated(dir: Directory, row: Connection) {
    || (row.app in dir.apps && !dir.apps[row.app].active)
    || (row.key in dir.keys && !dir.keys[row.key].active)
    || (row.device in dir.devices && !dir.devices[row.device].active)
  }

  lemma DeactivatedIsDue(db: Db, c: Id, now: Time, limit: LimitPolicy)
    requires Joined(db, c) && Deactivated(db.dir, db.connections[c])
    ensures Due(db, c, now, limit)
  {
    hide FamilyAlive, UserEntitled, HasUserGrant, InWindow;
  }

  lemma ShrinkTransitive(a: Directory, b: Directory, c: Directory)
    requires DirectoryShrinks(a, b) && DirectoryShrinks(b, c)
    ensures DirectoryShrinks(a, c)
  {
  }

  lemma {:induction false} RunShrinks(s: System, run: seq<Event>, limit: LimitPolicy)
    requires Valid(s) && LegalRun(s, run, limit) && forall i :: 0 <= i < |run| ==> !run[i].DirectoryChange?
    ensures DirectoryShrinks(s.db.dir, Exec(s, run, limit).db.dir)
    decreases |run|
  {
    hide Valid, Legal, Step, DirectoryShrinks;
    if run == [] {
      SameDirectoryShrinks(s.db.dir);
    } else {
      StepKeepsValid(s, run[0], limit);
      StepSetsDb(s, run[0], limit);
      StepShrinks(s, run[0], limit);
      var next := Step(s, run[0], limit);
      RunShrinks(next, run[1..], limit);
      ShrinkTransitive(s.db.dir, next.db.dir, Exec(s, run, limit).db.dir);
    }
  }

  /** Until administration acts again, every lease bound to something deactivated is due at every instant. */
  lemma DeactivationStaysSeen(s: System, run: seq<Event>, limit: LimitPolicy, c: Id, now: Time)
    requires Valid(s) && LegalRun(s, run, limit) && forall i :: 0 <= i < |run| ==> !run[i].DirectoryChange?
    requires Joined(Exec(s, run, limit).db, c) && Deactivated(s.db.dir, Exec(s, run, limit).db.connections[c])
    ensures Due(Exec(s, run, limit).db, c, now, limit)
  {
    hide Exec, LegalRun, Valid, Due, Joined;
    RunShrinks(s, run, limit);
    DeactivatedIsDue(Exec(s, run, limit).db, c, now, limit);
  }

  /** Either commit of an application revocation, a key revocation and a device revocation deactivate. */
  lemma RevocationsDeactivate(db: Db, row: Connection, now: Time)
    ensures row.app in db.dir.apps ==> Deactivated(RevokeApp(db, row.app).dir, row)
    ensures row.key in db.dir.keys ==> Deactivated(RevokeKey(db, row.key).dir, row)
    ensures row.device in db.dir.devices ==> Deactivated(RevokeDevice(db, row.device, now).dir, row)
  {
  }

  // ---- failed teardowns ---------------------------------------------------------------------------------

  /** The lease waits for its teardown. */
  predicate AwaitsTeardown(db: Db, c: Id) {
    c in db.leases && db.leases[c].status == RevokePending && db.leases[c].removed.None?
  }

  /** Events that end the wait: a late completion or failure report, or a successful teardown. */
  predicate EndsWait(e: Event, c: Id) {
    || (e.CompleteOf? && e.c == c)
    || (e.FailOf? && e.c == c)
    || (e.Removed? && e.c == c && !e.error)
  }

  lemma StepAwaits(s: System, e: Event, limit: LimitPolicy, c: Id)
    requires Valid(s) && Legal(s, e) && AwaitsTeardown(s.db, c) && !EndsWait(e, c)
    ensures AwaitsTeardown(StepDb(s, e, limit), c)
  {
    hide Linked, PendingTrue, GrantsExclusive, Authorized, RevokeGrants, Due, RotateAct, IssueGrants, ConsumeGrant,
         KeysDistinct, Reserve, Logout, RevokeDevice, RevokeAppCascade, RevokeUserGrantCascade, RevokeKeyCascade;
    assert c in s.db.connections && Agrees(s.db.connections[c], s.db.leases[c]);
    if !MovesConnections(e) {
      OthersKeepConnections(s, e, limit);
    } else if e.ReserveFor? {
      ReserveAwaits(s.db, e.ctx, e.config, e.newId, e.notAfter, e.now, limit, c);
    }
  }

  lemma ReserveAwaits(db: Db, ctx: Context, config: Id, newId: Id, notAfter: Time, now: Time, limit: LimitPolicy, c: Id)
    requires AwaitsTeardown(db, c) && newId !in db.leases && c in db.connections
    requires Agrees(db.connections[c], db.leases[c])
    ensures AwaitsTeardown(Reserve(db, ctx, config, newId, notAfter, now, limit).0, c)
  {
    hide Authorized, ActiveKey, Owns;
  }

  lemma {:induction false} TeardownRetried(s: System, run: seq<Event>, limit: LimitPolicy, c: Id)
    requires Valid(s) && LegalRun(s, run, limit) && AwaitsTeardown(s.db, c)
    requires forall i :: 0 <= i < |run| ==> !EndsWait(run[i], c)
    ensures AwaitsTeardown(Exec(s, run, limit).db, c)
    decreases |run|
  {
    hide Valid, Legal, Step, AwaitsTeardown, EndsWait;
    if run != [] {
      StepKeepsValid(s, run[0], limit);
      StepSetsDb(s, run[0], limit);
      StepAwaits(s, run[0], limit, c);
      TeardownRetried(Step(s, run[0], limit), run[1..], limit, c);
    }
  }

  /** A failed teardown keeps the lease due at every instant of every run that does not end the wait. */
  lemma FailedTeardownStaysDue(s: System, run: seq<Event>, limit: LimitPolicy, c: Id, at: Time, expired: bool, now: Time)
    requires Valid(s) && c in s.db.leases && s.db.leases[c].removed.None?
    requires var t := Removed(c, at, expired, true);
             Valid(Step(s, t, limit)) && LegalRun(Step(s, t, limit), run, limit)
    requires forall i :: 0 <= i < |run| ==> !EndsWait(run[i], c)
    requires Joined(Exec(Step(s, Removed(c, at, expired, true), limit), run, limit).db, c)
    ensures Due(Exec(Step(s, Removed(c, at, expired, true), limit), run, limit).db, c, now, limit)
  {
    hide Exec, LegalRun, AuthorityLost, Linked, PendingTrue, GrantsExclusive, KeysDistinct;
    var e := Removed(c, at, expired, true);
    assert c in s.db.connections;
    TeardownRetried(Step(s, e, limit), run, limit, c);
  }

  // ---- removed leases ---------------------------------------------------------------------------------

  predicate IsRemoved(db: Db, c: Id) {
    c in db.leases && db.leases[c].removed.Some?
  }

  lemma StepStaysRemoved(s: System, e: Event, limit: LimitPolicy, c: Id)
    requires Valid(s) && Legal(s, e) && IsRemoved(s.db, c)
    ensures IsRemoved(StepDb(s, e, limit), c)
  {
    hide Valid, Authorized, RevokeGrants, Due, RotateAct, IssueGrants, ConsumeGrant, Reserve, Logout, RevokeDevice,
         RevokeAppCascade, RevokeUserGrantCascade, RevokeKeyCascade;
    if !MovesConnections(e) {
      OthersKeepConnections(s, e, limit);
    } else if e.ReserveFor? {
      ReserveStaysRemoved(s.db, e.ctx, e.config, e.newId, e.notAfter, e.now, limit, c);
    }
  }

  lemma ReserveStaysRemoved(db: Db, ctx: Context, config: Id, newId: Id, notAfter: Time, now: Time, limit: LimitPolicy, c: Id)
    requires IsRemoved(db, c) && newId !in db.leases
    ensures IsRemoved(Reserve(db, ctx, config, newId, notAfter, now, limit).0, c)
  {
    hide Authorized, ActiveKey, Owns;
  }

  lemma {:induction false} RemovedForever(s: System, run: seq<Event>, limit: LimitPolicy, c: Id)
    requires Valid(s) && LegalRun(s, run, limit) && IsRemoved(s.db, c)
    ensures IsRemoved(Exec(s, run, limit).db, c)
    decreases |run|
  {
    hide Valid, Legal, Step, IsRemoved;
    if run != [] {
      StepKeepsValid(s, run[0], limit);
      StepSetsDb(s, run[0], limit);
      StepStaysRemoved(s, run[0], limit, c);
      RemovedForever(Step(s, run[0], limit), run[1..], limit, c);
    }
  }

  /** A lease once torn down is due at no instant of any later run. */
  lemma RemovedIsNeverDue(s: System, run: seq<Event>, limit: LimitPolicy, c: Id, now: Time)
    requires Valid(s) && LegalRun(s, run, limit) && IsRemoved(s.db, c)
    ensures !Due(Exec(s, run, limit).db, c, now, limit)
  {
    hide Exec, LegalRun, Valid, AuthorityLost;
    RemovedForever(s, run, limit, c);
  }

  /** So a late completion after the teardown leaves a lease active that no pass of any run returns. */
  lemma LateCompletionEscapes(s: System, c: Id, notAfter: Time, run: seq<Event>, limit: LimitPolicy, now: Time)
    requires Valid(s) && IsRemoved(s.db, c)
    requires Valid(Step(s, CompleteOf(c, notAfter), limit))
    requires LegalRun(Step(s, CompleteOf(c, notAfter), limit), run, limit)
    ensures var t := Step(s, CompleteOf(c, notAfter), limit).db;
            c in t.connections && t.connections[c].status == Active && t.leases[c].status == Active
            && t.leases[c].notAfter == notAfter
    ensures !Due(Exec(Step(s, CompleteOf(c, notAfter), limit), run, limit).db, c, now, limit)
  {
    hide Exec, LegalRun, Due, Linked, PendingTrue, GrantsExclusive, KeysDistinct;
    assert c in s.db.connections;
    RemovedIsNeverDue(Step(s, CompleteOf(c, notAfter), limit), run, limit, c, now);
  }

  /** The rows the sweep joins are there, whether or not the lease was removed. */
  predicate RowsPresent(db: Db, c: Id) {
    && c in db.connections && c in db.leases
    && db.connections[c].app in db.dir.apps && db.connections[c].user in db.dir.users
    && db.connections[c].device in db.dir.devices && db.connections[c].key in db.dir.keys
  }

  /** Some pass of some later run returns the lease. */
  ghost predicate Sweepable(s: System, c: Id, limit: LimitPolicy)
    requires Valid(s)
  {
    exists run: seq<Event>, now: Time :: LegalRun(s, run, limit) && Due(Exec(s, run, limit).db, c, now, limit)
  }

  /** A completed lease is returned by some later pass exactly when it had not been torn down before. */
  lemma CompletedLeaseSweepable(s: System, c: Id, notAfter: Time, limit: LimitPolicy)
    requires Valid(s) && RowsPresent(s.db, c) && Valid(Step(s, CompleteOf(c, notAfter), limit))
    ensures Sweepable(Step(s, CompleteOf(c, notAfter), limit), c, limit) <==> s.db.leases[c].removed.None?
  {
    hide Linked, PendingTrue, GrantsExclusive, LeasesAgree, AuthorityLost, LegalRun, Exec;
    var t := Step(s, CompleteOf(c, notAfter), limit);
    if s.db.leases[c].removed.None? {
      NoSteps(t, limit);
      assert Due(Exec(t, [], limit).db, c, notAfter, limit);
    } else {
      forall run: seq<Event>, now: Time | LegalRun(t, run, limit) ensures !Due(Exec(t, run, limit).db, c, now, limit) {
        RemovedIsNeverDue(t, run, limit, c, now);
      }
    }
  }

  lemma NoSteps(s: System, limit: LimitPolicy)
    requires Valid(s)
    ensures LegalRun(s, [], limit) && Exec(s, [], limit) == s
  {
  }
}
