/** Users who are inactive, outside application mode, expired or at their data limit, over whole runs. */
module AuthorityLapses {
  import opened Outcome
  import opened AuthorityTables
  import opened AuthoritySteps
  import opened AuthoritySweep
  import opened AuthorityChains
  import opened AuthorityRows
  import opened AuthorityRuns
  import opened AuthoritySafety
  import opened AuthorityRevocations
  import opened AuthorityStanding

  /** The user does not stand at that instant: one of the four reasons. */
  ghost predicate Lapsed(dir: Directory, user: Id, at: Time) {
    user in dir.users &&
    var row := dir.users[user];
    || !row.active
    || !row.applicationMode
    || (exists end :: row.expires == Some(end) && end <= at)
    || (exists cap :: row.dataLimit == Some(cap) && cap <= if user in dir.used then dir.used[user] else 0)
  }

  lemma LapsedIff(dir: Directory, user: Id, at: Time)
    requires user in dir.users
    ensures Lapsed(dir, user, at) <==> !UserStands(dir, user, at)
  {
  }

  /** Time does not heal a lapse. */
  lemma LapsedLater(dir: Directory, user: Id, at: Time, now: Time)
    requires Lapsed(dir, user, at) && at <= now
    ensures Lapsed(dir, user, now)
  {
  }

  /** Only administration changes users and their counted bytes. */
  lemma StepKeepsUsers(s: System, e: Event, limit: LimitPolicy)
    requires Valid(s) && Legal(s, e) && !e.DirectoryChange?
    ensures StepDb(s, e, limit).dir.users == s.db.dir.users && StepDb(s, e, limit).dir.used == s.db.dir.used
  {
    hide Valid, RevokeTokens, RevokeGrants, Authorized, CanSign, LeaseUsable, Owns, ActiveKey, Due, RotateAct, Logout,
         Reserve, ConsumeGrant, Stop, Renew, IssueGrants;
    if e.RotateWrite? {
      PendingRow(s, e.worker);
      RotateKeepsDirectory(s.db, s.pending[e.worker], e.req, e.newHash, e.expires, e.now);
    } else if e.LogoutOf? {
      LogoutKeepsDirectory(s.db, e.hash, e.req, e.now);
    } else if e.Issue? || e.Consume? || e.ReserveFor? || e.StopOf? || e.RenewOf? {
      RequestKeepsDirectory(s, e, limit);
    }
  }

  lemma PendingRow(s: System, w: int)
    requires Valid(s) && w in s.pending
    ensures s.pending[w].hash in s.db.tokens
  {
    hide Linked, GrantsExclusive, LeasesAgree;
    assert SnapshotTrue(s.db.tokens, s.pending[w]);
  }

  lemma RotateKeepsDirectory(db: Db, snap: Snapshot, req: Request, newHash: Hash, expires: Time, now: Time)
    requires snap.hash in db.tokens
    ensures RotateAct(db, snap, req, newHash, expires, now).0.dir == db.dir
  {
    hide RevokeTokens, RevokeGrants, IdentityRows;
  }

  lemma LogoutKeepsDirectory(db: Db, hash: Hash, req: Request, now: Time)
    ensures Logout(db, hash, req, now).dir == db.dir
  {
    hide RevokeTokens, RevokeGrants;
  }

  lemma RequestKeepsDirectory(s: System, e: Event, limit: LimitPolicy)
    requires Valid(s) && Legal(s, e) && (e.Issue? || e.Consume? || e.ReserveFor? || e.StopOf? || e.RenewOf?)
    ensures StepDb(s, e, limit).dir == s.db.dir
  {
    hide Valid, RevokeTokens, RevokeGrants, Authorized, CanSign, LeaseUsable, Owns, ActiveKey, RotateAct, Logout,
         RevokeAppCascade, RevokeKeyCascade, RevokeUserGrant, RevokeUserGrantCascade, RevokeDevice, Sweep, MarkRemoved;
  }

  /** No event of the run gives the user standing at that instant. */
  ghost predicate LeavesLapsed(run: seq<Event>, user: Id, at: Time) {
    forall i :: 0 <= i < |run| && run[i].DirectoryChange? ==> Lapsed(run[i].dir, user, at)
  }

  lemma {:induction false} LapseLasts(s: System, run: seq<Event>, limit: LimitPolicy, user: Id, at: Time)
    requires Valid(s) && LegalRun(s, run, limit) && Lapsed(s.db.dir, user, at) && LeavesLapsed(run, user, at)
    ensures Lapsed(Exec(s, run, limit).db.dir, user, at)
    decreases |run|
  {
    hide Valid, Legal, Step;
    if run != [] {
      var e := run[0];
      StepKeepsValid(s, e, limit);
      StepSetsDb(s, e, limit);
      LapseStep(s, e, limit, user, at);
      forall i | 0 <= i < |run[1..]| && run[1..][i].DirectoryChange? ensures Lapsed(run[1..][i].dir, user, at) {
        assert run[1..][i] == run[i + 1];
      }
      LapseLasts(Step(s, e, limit), run[1..], limit, user, at);
    }
  }

  lemma LapseStep(s: System, e: Event, limit: LimitPolicy, user: Id, at: Time)
    requires Valid(s) && Legal(s, e) && Lapsed(s.db.dir, user, at)
    requires e.DirectoryChange? ==> Lapsed(e.dir, user, at)
    ensures Lapsed(StepDb(s, e, limit).dir, user, at)
  {
    hide Valid, Legal, RotateAct, IssueGrants, ConsumeGrant, Reserve, Stop, Renew, Complete, FailConnection, Sweep, MarkRemoved,
         Logout, SaveInitial, RevokeApp, RevokeAppCascade, RevokeUserGrant, RevokeUserGrantCascade, RevokeKey,
         RevokeKeyCascade, RevokeDevice;
    if !e.DirectoryChange? {
      StepKeepsUsers(s, e, limit);
    }
  }

  /**
    * From a lapse on, at every later instant of every run that does not restore the user, each of the
    * user's leases is due and no request of the user is authorized.
    */
  lemma LapseStaysSeen(s: System, run: seq<Event>, limit: LimitPolicy, user: Id, at: Time, c: Id, ctx: Context, now: Time)
    requires Valid(s) && LegalRun(s, run, limit) && Lapsed(s.db.dir, user, at) && LeavesLapsed(run, user, at) && at <= now
    ensures var end := Exec(s, run, limit).db;
            && (Joined(end, c) && end.connections[c].user == user ==> Due(end, c, now, limit))
            && (ctx.user == user ==> !Authorized(end, ctx, now, limit))
  {
    hide Exec, LegalRun, Valid, Due, Authorized, LeavesLapsed, Lapsed;
    var end := Exec(s, run, limit).db;
    LapseLasts(s, run, limit, user, at);
    LapsedLater(end.dir, user, at, now);
    LapsedRefused(end, user, c, ctx, now, limit);
  }

  lemma LapsedRefused(db: Db, user: Id, c: Id, ctx: Context, now: Time, limit: LimitPolicy)
    requires Lapsed(db.dir, user, now)
    ensures Joined(db, c) && db.connections[c].user == user ==> Due(db, c, now, limit)
    ensures ctx.user == user ==> !Authorized(db, ctx, now, limit)
  {
    hide Due, Authorized, UserStands;
    LapsedIff(db.dir, user, now);
    DueIff(db, c, now, limit);
    AuthorizedIff(db, ctx, now, limit);
  }
}
