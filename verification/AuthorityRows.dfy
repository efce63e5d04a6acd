/** What any transaction may do to a token, grant, connection or lease row. */
module AuthorityRows {
  import opened Outcome
  import opened AuthorityTables
  import opened AuthoritySteps
  import opened AuthoritySweep

  // ---- tokens --------------------------------------------------------------------------

  /** Identity is fixed, and a revoked row never changes again. */
  predicate TokenNext(t: Token, u: Token) {
    && u == t.(revoked := u.revoked, rotatedTo := u.rotatedTo)
    && (t.revoked ==> u == t)
  }

  ghost predicate TokensNext(before: Tokens, after: Tokens) {
    forall h :: h in before ==> h in after && TokenNext(before[h], after[h])
  }

  ghost predicate LiveFamily(tokens: Tokens, family: Family) {
    exists h :: h in tokens && tokens[h].family == Some(family) && !tokens[h].revoked
  }

  ghost predicate UsedFamily(tokens: Tokens, family: Family) {
    exists h :: h in tokens && tokens[h].family == Some(family)
  }

  /** A live token of the same family, application, user and device. */
  ghost predicate LiveKin(tokens: Tokens, family: Family, app: Id, user: Id, device: Id) {
    exists h :: h in tokens && !tokens[h].revoked && Kin(tokens[h], family, app, user, device)
  }

  predicate Kin(t: Token, family: Family, app: Id, user: Id, device: Id) {
    t.family == Some(family) && t.app == app && t.user == user && t.device == device
  }

  /** A new token starts a family nobody used, or continues a live token of its own identity. */
  ghost predicate TokensArise(before: Tokens, after: Tokens) {
    forall h :: h in after && h !in before ==>
      && after[h].family.Some?
      && (|| LiveKin(before, after[h].family.value, after[h].app, after[h].user, after[h].device)
          || !UsedFamily(before, after[h].family.value))
  }

  ghost predicate TokenStep(before: Tokens, after: Tokens) {
    TokensNext(before, after) && TokensArise(before, after)
  }

  lemma RevokeTokensStep(tokens: Tokens, which: set<Hash>)
    ensures TokenStep(tokens, RevokeTokens(tokens, which))
  {
  }

  lemma TokensNextTransitive(a: Tokens, b: Tokens, c: Tokens)
    requires TokensNext(a, b) && TokensNext(b, c)
    ensures TokensNext(a, c)
  {
    forall h | h in a ensures h in c && TokenNext(a[h], c[h]) {
      assert h in b && TokenNext(a[h], b[h]);
      assert TokenNext(b[h], c[h]);
    }
  }

  // ---- the directory ---------------------------------------------------------------------

  /** Applications, keys and devices keep their identity, and what is inactive stays so. */
  ghost predicate DirectoryShrinks(before: Directory, after: Directory) {
    AppsShrink(before.apps, after.apps) && KeysShrink(before.keys, after.keys) && DevicesShrink(before.devices, after.devices)
  }

  ghost predicate AppsShrink(before: map<Id, App>, after: map<Id, App>) {
    after.Keys == before.Keys
    && forall a :: a in before ==>
         after[a] == before[a].(active := after[a].active) && (after[a].active ==> before[a].active)
  }

  ghost predicate KeysShrink(before: map<Id, Key>, after: map<Id, Key>) {
    after.Keys == before.Keys
    && forall k :: k in before ==>
         after[k] == before[k].(active := after[k].active) && (after[k].active ==> before[k].active)
  }

  ghost predicate DevicesShrink(before: map<Id, Device>, after: map<Id, Device>) {
    after.Keys == before.Keys
    && forall d :: d in before ==>
         after[d] == before[d].(active := after[d].active) && (after[d].active ==> before[d].active)
  }

  lemma SameDirectoryShrinks(dir: Directory)
    ensures DirectoryShrinks(dir, dir)
  {
  }

  lemma CascadeShrinks(db: Db, app: Id, now: Time)
    ensures DirectoryShrinks(db.dir, RevokeAppCascade(db, app, now).dir)
  {
    hide RevokeTokens, RevokeGrants;
  }

  lemma OneShrinks(dir: Directory, a: Id, k: Id, d: Id)
    ensures a in dir.apps ==> AppsShrink(dir.apps, dir.apps[a := dir.apps[a].(active := false)])
    ensures k in dir.keys ==> KeysShrink(dir.keys, dir.keys[k := dir.keys[k].(active := false)])
    ensures d in dir.devices ==> DevicesShrink(dir.devices, dir.devices[d := dir.devices[d].(active := false)])
  {
  }

  lemma RevokeAppShrinks(db: Db, app: Id)
    ensures DirectoryShrinks(db.dir, RevokeApp(db, app).dir)
  {
    hide AppsShrink, KeysShrink, DevicesShrink;
    SameDirectoryShrinks(db.dir);
    OneShrinks(db.dir, app, 0, 0);
  }

  lemma RevokeKeyShrinks(db: Db, key: Id)
    ensures DirectoryShrinks(db.dir, RevokeKey(db, key).dir)
  {
    hide AppsShrink, KeysShrink, DevicesShrink;
    SameDirectoryShrinks(db.dir);
    OneShrinks(db.dir, 0, key, 0);
  }

  lemma RevokeDeviceShrinks(db: Db, device: Id, now: Time)
    ensures DirectoryShrinks(db.dir, RevokeDevice(db, device, now).dir)
  {
    hide RevokeTokens, RevokeGrants, AppsShrink, KeysShrink, DevicesShrink;
    SameDirectoryShrinks(db.dir);
    OneShrinks(db.dir, 0, 0, device);
  }

  lemma RevokeUserGrantShrinks(db: Db, app: Id, user: Id)
    ensures DirectoryShrinks(db.dir, RevokeUserGrant(db, app, user).dir)
  {
  }

  // ---- grants ------------------------------------------------------------------------------

  predicate Exclusive(g: ConfigGrant) {
    g.consumed.None? || g.revoked.None?
  }

  ghost predicate GrantsExclusive(grants: Grants) {
    forall g :: g in grants ==> Exclusive(grants[g])
  }

  /** Only a usable grant changes, and it ends up consumed or revoked but not both. */
  predicate GrantNext(g: ConfigGrant, r: ConfigGrant) {
    && r == g.(connection := r.connection, consumed := r.consumed, revoked := r.revoked)
    && (if Usable(g) then Exclusive(r) else r == g)
  }

  ghost predicate GrantsNext(before: Grants, after: Grants) {
    forall g :: g in before ==> g in after && GrantNext(before[g], after[g])
  }

  /** New grants are usable and belong to a family with a live token. */
  ghost predicate GrantsArise(tokens: Tokens, before: Grants, after: Grants) {
    forall g :: g in after && g !in before ==> Usable(after[g]) && LiveFamily(tokens, after[g].family)
  }

  ghost predicate ConsumedKept(before: Grants, after: Grants) {
    forall g :: g in before && g in after ==> after[g].consumed == before[g].consumed
  }

  /** A step of the grants table that consumes nothing. */
  ghost predicate GrantStep(tokens: Tokens, before: Grants, after: Grants) {
    GrantsNext(before, after) && GrantsArise(tokens, before, after) && ConsumedKept(before, after)
  }

  lemma SameGrants(tokens: Tokens, grants: Grants)
    requires GrantsExclusive(grants)
    ensures GrantStep(tokens, grants, grants)
  {
  }

  lemma RevokeGrantsStep(tokens: Tokens, grants: Grants, which: set<Id>, now: Time)
    requires GrantsExclusive(grants)
    ensures GrantStep(tokens, grants, RevokeGrants(grants, which, now))
  {
  }

  /** One row changes. */
  lemma ChangeGrantStep(tokens: Tokens, grants: Grants, id: Id, row: ConfigGrant)
    requires GrantsExclusive(grants) && id in grants && GrantNext(grants[id], row)
    ensures GrantsNext(grants, grants[id := row]) && GrantsArise(tokens, grants, grants[id := row])
    ensures row.consumed == grants[id].consumed ==> ConsumedKept(grants, grants[id := row])
  {
  }

  lemma GrantStepExclusive(tokens: Tokens, before: Grants, after: Grants)
    requires GrantsExclusive(before) && GrantsNext(before, after) && GrantsArise(tokens, before, after)
    ensures GrantsExclusive(after)
  {
    forall g | g in after ensures Exclusive(after[g]) {
      if g in before {
        assert GrantNext(before[g], after[g]);
      }
    }
  }

  lemma GrantsNextTransitive(a: Grants, b: Grants, c: Grants)
    requires GrantsNext(a, b) && GrantsNext(b, c) && GrantsExclusive(c)
    ensures GrantsNext(a, c)
  {
    forall g | g in a ensures g in c && GrantNext(a[g], c[g]) {
      assert g in b && GrantNext(a[g], b[g]);
      assert GrantNext(b[g], c[g]);
    }
  }

  // ---- connections and leases -----------------------------------------------------------------

  predicate Agrees(c: Connection, l: Lease) {
    && c.status == l.status
    && c.notAfter == l.notAfter
    && (c.activeKey.Some? ==> c.status == Pending || c.status == Active)
    && (c.activeKey.Some? ==> c.activeKey.value == ActiveKey(c.app, c.device, c.core, c.protocol))
  }

  ghost predicate RowsAgree(connections: Connections, leases: Leases) {
    && connections.Keys == leases.Keys
    && (forall c :: c in connections ==> Agrees(connections[c], leases[c]))
  }

  ghost predicate KeysDistinct(connections: Connections) {
    forall c, d :: c in connections && d in connections && c != d && connections[c].activeKey.Some? ==>
      connections[c].activeKey != connections[d].activeKey
  }

  /** Connection and lease agree; an active key is held only while pending or active, by one connection. */
  ghost predicate LeasesAgree(connections: Connections, leases: Leases) {
    RowsAgree(connections, leases) && KeysDistinct(connections)
  }

  /** No connection gains a key. */
  lemma KeysStayDistinct(before: Connections, after: Connections)
    requires KeysDistinct(before) && after.Keys == before.Keys
    requires forall c :: c in after ==> after[c].activeKey.None? || after[c].activeKey == before[c].activeKey
    ensures KeysDistinct(after)
  {
  }

  lemma ChangeKeepsAgreement(connections: Connections, leases: Leases, c: Id, row: Connection, lease: Lease)
    requires LeasesAgree(connections, leases) && c in connections
    requires Agrees(row, lease)
    requires row.activeKey.None? || row.activeKey == connections[c].activeKey
    ensures LeasesAgree(connections[c := row], leases[c := lease])
  {
    KeysStayDistinct(connections, connections[c := row]);
  }

  lemma OpenKeepsAgreement(connections: Connections, leases: Leases, c: Id, row: Connection, lease: Lease)
    requires LeasesAgree(connections, leases) && c !in connections
    requires Agrees(row, lease) && row.activeKey.Some?
    requires forall d :: d in connections ==> connections[d].activeKey != row.activeKey
    ensures LeasesAgree(connections[c := row], leases[c := lease])
  {
  }

  lemma SweepKeepsAgreement(db: Db, now: Time, limit: LimitPolicy)
    requires LeasesAgree(db.connections, db.leases)
    ensures LeasesAgree(Sweep(db, now, limit).connections, Sweep(db, now, limit).leases)
  {
    hide Due;
    var after := Sweep(db, now, limit);
    forall c | c in after.connections
      ensures Agrees(after.connections[c], after.leases[c])
      ensures after.connections[c].activeKey.None? || after.connections[c].activeKey == db.connections[c].activeKey
    {
      assert Agrees(db.connections[c], db.leases[c]);
    }
    KeysStayDistinct(db.connections, after.connections);
  }
}
