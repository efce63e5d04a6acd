/** The periodic reconciliation of leases with the authorities they rest on. */
module AuthoritySweep {
  import opened Outcome
  import opened AuthorityTables
  import opened AuthoritySteps

  /** The rows the sweep joins are all there and the lease has not been removed. */
  predicate Joined(db: Db, c: Id) {
    && c in db.connections && c in db.leases && db.leases[c].removed.None?
    && db.connections[c].app in db.dir.apps
    && db.connections[c].user in db.dir.users
    && db.connections[c].device in db.dir.devices
    && db.connections[c].key in db.dir.keys
  }

  predicate HasUserGrant(dir: Directory, app: Id, user: Id) {
    exists g :: g in dir.userGrants && dir.userGrants[g].app == app && dir.userGrants[g].user == user
  }

  predicate AuthorityLost(db: Db, c: Id, now: Time, limit: LimitPolicy)
    requires Joined(db, c)
  {
    var row, dir := db.connections[c], db.dir;
    var app, device, key := dir.apps[row.app], dir.devices[row.device], dir.keys[row.key];
    || !app.active
    || !UserEntitled(dir, row.user, now)
    || !device.active || device.app != row.app || device.user != row.user
    || !limit(dir, row.user, row.device)
    || !key.active || key.app != row.app || !InWindow(key, now)
    || (app.boundOnly && !HasUserGrant(dir, row.app, row.user))
    || !FamilyAlive(db.tokens, row.family, row.app, row.user, row.device, now)
  }

  predicate Due(db: Db, c: Id, now: Time, limit: LimitPolicy) {
    Joined(db, c)
    && (db.leases[c].notAfter <= now || AuthorityLost(db, c, now, limit) || db.leases[c].status == RevokePending)
  }

  function SweptConnection(db: Db, c: Id, now: Time, limit: LimitPolicy): Connection
    requires c in db.connections
  {
    if Due(db, c, now, limit) && db.leases[c].status != RevokePending
    then db.connections[c].(status := RevokePending, activeKey := None) else db.connections[c]
  }

  function SweptLease(db: Db, c: Id, now: Time, limit: LimitPolicy): Lease
    requires c in db.leases
  {
    if Due(db, c, now, limit) then db.leases[c].(status := RevokePending) else db.leases[c]
  }

  /** The tables after one pass. */
  function Sweep(db: Db, now: Time, limit: LimitPolicy): Db {
    db.(connections := map c | c in db.connections :: SweptConnection(db, c, now, limit),
        leases := map c | c in db.leases :: SweptLease(db, c, now, limit))
  }

  function DueRows(db: Db, rows: seq<Id>, now: Time, limit: LimitPolicy): seq<Id> {
    if rows == [] then []
    else
      var c := rows[|rows| - 1];
      DueRows(db, rows[..|rows| - 1], now, limit) + (if Due(db, c, now, limit) then [c] else [])
  }

  // ---- the sweep agrees with authorization -----------------------------------------

  /** The connection was reserved, or last renewed by reservation, under this context. */
  predicate ReservedUnder(c: Connection, ctx: Context) {
    c.app == ctx.app && c.user == ctx.user && c.device == ctx.device && c.key == ctx.key && c.family == ctx.family
  }

  /** A context that is authorized never has its connections declared without authority. */
  lemma SweepAgreesWithAuthorization(db: Db, ctx: Context, c: Id, now: Time, limit: LimitPolicy)
    requires Authorized(db, ctx, now, limit)
    requires Joined(db, c) && ReservedUnder(db.connections[c], ctx)
    ensures !AuthorityLost(db, c, now, limit)
  {
    var h :| h in db.tokens && LiveMember(db.tokens[h], ctx.family, ctx.app, ctx.user, ctx.device, now)
             && db.tokens[h].key == ctx.key;
    assert FamilyAlive(db.tokens, ctx.family, ctx.app, ctx.user, ctx.device, now);
    if db.dir.apps[ctx.app].boundOnly {
      var g := ctx.grant.value;
      assert db.dir.userGrants[g].app == ctx.app && db.dir.userGrants[g].user == ctx.user;
    }
  }

  // ---- teardown and repeated passes -----------------------------------------------------

  /** A pass changes nothing the next pass would look at: the same leases are due again. */
  lemma SweepKeepsDue(db: Db, c: Id, now: Time, limit: LimitPolicy)
    ensures Due(Sweep(db, now, limit), c, now, limit) <==> Due(db, c, now, limit)
    ensures Due(db, c, now, limit) ==>
              var after := Sweep(db, now, limit);
              after.leases[c].status == RevokePending
              && (db.leases[c].status != RevokePending ==>
                    after.connections[c].status == RevokePending && after.connections[c].activeKey.None?)
    ensures !Due(db, c, now, limit) ==>
              var after := Sweep(db, now, limit);
              (c in db.connections ==> after.connections[c] == db.connections[c])
              && (c in db.leases ==> after.leases[c] == db.leases[c])
  {
    hide UserEntitled, FamilyAlive, HasUserGrant, InWindow;
    var after := Sweep(db, now, limit);
    assert Joined(after, c) == Joined(db, c);
    if Joined(db, c) {
      assert AuthorityLost(after, c, now, limit) == AuthorityLost(db, c, now, limit);
    }
  }

  /** The rows of the query: every joined lease once, in expiry order. */
  ghost predicate QueryRows(db: Db, rows: seq<Id>) {
    && (forall c :: c in rows <==> Joined(db, c))
    && (forall i, j :: 0 <= i < j < |rows| ==> rows[i] != rows[j])
    && (forall i, j :: 0 <= i < j < |rows| && Joined(db, rows[i]) && Joined(db, rows[j]) ==>
          db.leases[rows[i]].notAfter <= db.leases[rows[j]].notAfter)
  }

  lemma QueryRow(db: Db, rows: seq<Id>, i: nat)
    requires QueryRows(db, rows) && i < |rows|
    ensures Joined(db, rows[i]) && rows[i] in db.connections && rows[i] in db.leases && rows[i] !in rows[..i]
  {
    assert rows[i] in rows;
  }

  /** `due_connection_leases`: the loop marks and returns exactly the due leases. */
  method DueConnectionLeases(db: Db, rows: seq<Id>, now: Time, limit: LimitPolicy) returns (after: Db, due: seq<Id>)
    requires QueryRows(db, rows)
    ensures after == Sweep(db, now, limit)
    ensures due == DueRows(db, rows, now, limit)
  {
    hide AuthorityLost, Joined, QueryRows, SweptConnection, SweptLease;
    var connections, leases := db.connections, db.leases;
    due := [];
    for i := 0 to |rows|
      invariant connections.Keys == db.connections.Keys && leases.Keys == db.leases.Keys
      invariant due == DueRows(db, rows[..i], now, limit)
      invariant forall c :: c in connections ==>
                  connections[c] == if c in rows[..i] then SweptConnection(db, c, now, limit) else db.connections[c]
      invariant forall c :: c in leases ==>
                  leases[c] == if c in rows[..i] then SweptLease(db, c, now, limit) else db.leases[c]
    {
      var c := rows[i];
      QueryRow(db, rows, i);
      assert rows[..i + 1] == rows[..i] + [c];
      SweptRow(db, c, now, limit);
      var lease := leases[c];
      var expires := lease.notAfter <= now;
      var requested := lease.status == RevokePending;
      if expires || AuthorityLost(db, c, now, limit) || requested {
        if lease.status != RevokePending {
          leases := leases[c := lease.(status := RevokePending)];
          connections := connections[c := connections[c].(status := RevokePending, activeKey := None)];
        }
        due := due + [c];
      }
      assert (rows[..i] + [c])[..i] == rows[..i];
    }
    assert rows[..|rows|] == rows;
    UnjoinedKept(db, rows, now, limit);
    after := db.(connections := connections, leases := leases);
    assert connections == Sweep(db, now, limit).connections;
    assert leases == Sweep(db, now, limit).leases;
  }

  /** A pass returns exactly the due leases. */
  lemma PassReturnsDue(db: Db, rows: seq<Id>, c: Id, now: Time, limit: LimitPolicy)
    requires QueryRows(db, rows)
    ensures c in DueRows(db, rows, now, limit) <==> Due(db, c, now, limit)
  {
    hide AuthorityLost;
    DueRowsMembers(db, rows, c, now, limit);
  }

  lemma {:induction false} DueRowsMembers(db: Db, rows: seq<Id>, c: Id, now: Time, limit: LimitPolicy)
    ensures c in DueRows(db, rows, now, limit) <==> c in rows && Due(db, c, now, limit)
  {
    hide Due;
    if rows != [] {
      var n := |rows| - 1;
      DueRowsMembers(db, rows[..n], c, now, limit);
      assert rows == rows[..n] + [rows[n]];
    }
  }

  lemma SweptRow(db: Db, c: Id, now: Time, limit: LimitPolicy)
    requires Joined(db, c)
    ensures var row, lease := db.connections[c], db.leases[c];
            var act := lease.notAfter <= now || AuthorityLost(db, c, now, limit) || lease.status == RevokePending;
            && Due(db, c, now, limit) == act
            && SweptConnection(db, c, now, limit)
               == (if act && lease.status != RevokePending then row.(status := RevokePending, activeKey := None) else row)
            && SweptLease(db, c, now, limit)
               == (if act && lease.status != RevokePending then lease.(status := RevokePending) else lease)
  {
    hide AuthorityLost;
  }

  lemma UnjoinedKept(db: Db, rows: seq<Id>, now: Time, limit: LimitPolicy)
    requires QueryRows(db, rows)
    ensures forall c :: c in db.connections && c !in rows ==> SweptConnection(db, c, now, limit) == db.connections[c]
    ensures forall c :: c in db.leases && c !in rows ==> SweptLease(db, c, now, limit) == db.leases[c]
  {
    hide AuthorityLost;
  }
}
