/** No byte is lost or counted twice between the counters and the ledger. */
module UsageConservation {
  import opened Outcome
  import opened UsageCounters
  import opened Quota

  ghost predicate Distinct<T(!new)>(xs: seq<T>) {
    forall i, j :: 0 <= i < j < |xs| ==> xs[i] != xs[j]
  }

  /** Every user who owns a recorded account. */
  ghost predicate Covers(users: seq<User>, records: seq<Record>, owners: Owners) {
    forall i :: 0 <= i < |records| && records[i].k in owners ==> owners[records[i].k] in users
  }

  /** What all records add up to, per direction. */
  function RecordBytes(records: seq<Record>): Bytes {
    if records == [] then Bytes(0, 0)
    else
      var rest, last := RecordBytes(records[..|records| - 1]), records[|records| - 1].bytes;
      Bytes(rest.up + last.up, rest.down + last.down)
  }

  /** The totals of some users together, per direction. */
  function LedgerBytes(ledger: Ledger, users: seq<User>): Bytes {
    if users == [] then Bytes(0, 0)
    else
      var rest, u := LedgerBytes(ledger, users[..|users| - 1]), users[|users| - 1];
      if u in ledger then Bytes(rest.up + ledger[u].up, rest.down + ledger[u].down) else rest
  }

  function OwnedBytes(records: seq<Record>, owners: Owners, users: seq<User>): Bytes {
    if users == [] then Bytes(0, 0)
    else Plus(OwnedBytes(records, owners, users[..|users| - 1]), Owned(records, owners, users[|users| - 1]))
  }

  lemma FoldBalance(ledger: Ledger, records: seq<Record>, owners: Owners, u: User)
    ensures Balance(Fold(ledger, records, owners), u) == Plus(Balance(ledger, u), Owned(records, owners, u))
  {
    if u !in owners.Values {
      OwnedByNobody(records, owners, u);
    }
  }

  lemma {:induction false} OwnedByNobody(records: seq<Record>, owners: Owners, u: User)
    requires u !in owners.Values
    ensures Owned(records, owners, u) == NOTHING
  {
    if records != [] {
      OwnedByNobody(records[..|records| - 1], owners, u);
    }
  }

  lemma {:induction false} FoldAdds(ledger: Ledger, records: seq<Record>, owners: Owners, users: seq<User>)
    ensures LedgerBytes(Fold(ledger, records, owners), users)
            == Plus(LedgerBytes(ledger, users), OwnedBytes(records, owners, users))
  {
    hide Fold, Owned, LedgerBytes, Balance;
    NoUsers();
    if users != [] {
      LastUser(ledger, users);
      LastUser(Fold(ledger, records, owners), users);
      FoldAdds(ledger, records, owners, users[..|users| - 1]);
      FoldBalance(ledger, records, owners, users[|users| - 1]);
    }
  }

  lemma NoUsers()
    ensures forall l: Ledger :: LedgerBytes(l, []) == Bytes(0, 0)
  {
  }

  lemma {:induction false} LastUser(ledger: Ledger, users: seq<User>)
    requires users != []
    ensures LedgerBytes(ledger, users)
            == Plus(LedgerBytes(ledger, users[..|users| - 1]), Balance(ledger, users[|users| - 1]))
  {
  }

  lemma {:induction false} RecordsAppend(records: seq<Record>, r: Record)
    ensures RecordBytes(records + [r]) == Plus(RecordBytes(records), r.bytes)
  {
    assert (records + [r])[..|records|] == records;
  }

  /** One more record adds its bytes to its owner, once. */
  lemma {:induction false} OneMore(records: seq<Record>, r: Record, owners: Owners, users: seq<User>)
    requires Distinct(users)
    ensures OwnedBytes(records + [r], owners, users)
            == if r.k in owners && owners[r.k] in users then Plus(OwnedBytes(records, owners, users), r.bytes)
               else OwnedBytes(records, owners, users)
  {
    assert (records + [r])[..|records|] == records;
    if users != [] {
      var n := |users| - 1;
      OneMore(records, r, owners, users[..n]);
      assert users == users[..n] + [users[n]];
      assert users[n] !in users[..n];
    }
  }

  lemma {:induction false} NothingOwned(owners: Owners, users: seq<User>)
    ensures OwnedBytes([], owners, users) == Bytes(0, 0)
  {
    if users != [] {
      NothingOwned(owners, users[..|users| - 1]);
    }
  }

  lemma OneMoreBalances(records: seq<Record>, r: Record, owners: Owners, users: seq<User>)
    requires Distinct(users) && (r.k in owners ==> owners[r.k] in users)
    requires Plus(OwnedBytes(records, owners, users), RecordBytes(Unowned(records, owners))) == RecordBytes(records)
    ensures Plus(OwnedBytes(records + [r], owners, users), RecordBytes(Unowned(records + [r], owners)))
            == RecordBytes(records + [r])
  {
    hide OwnedBytes, RecordBytes, Unowned, Distinct;
    var rest := Unowned(records, owners);
    OneMore(records, r, owners, users);
    RecordsAppend(records, r);
    RecordsAppend(rest, r);
    UnownedAppend(records, owners, r);
    assert rest + [] == rest;
  }

  lemma {:induction false} OwnedOrDropped(records: seq<Record>, owners: Owners, users: seq<User>)
    requires Distinct(users) && Covers(users, records, owners)
    ensures Plus(OwnedBytes(records, owners, users), RecordBytes(Unowned(records, owners))) == RecordBytes(records)
  {
    hide OwnedBytes, RecordBytes, Unowned, Distinct, Plus;
    if records == [] {
      NothingOwned(owners, users);
      NoRecords(owners);
      PlusNothing(Bytes(0, 0));
    } else {
      var n := |records| - 1;
      OwnedOrDropped(records[..n], owners, users);
      OneMoreBalances(records[..n], records[n], owners, users);
      assert records == records[..n] + [records[n]];
    }
  }

  lemma NoRecords(owners: Owners)
    ensures RecordBytes([]) == Bytes(0, 0) && Unowned([], owners) == []
  {
  }

  /** Every recorded byte lands in exactly one user's total, in its direction, or in a dropped record. */
  lemma BytesConserved(ledger: Ledger, records: seq<Record>, owners: Owners, users: seq<User>)
    requires Distinct(users) && Covers(users, records, owners)
    ensures var after, dropped := LedgerBytes(Fold(ledger, records, owners), users), RecordBytes(Unowned(records, owners));
            var before, recorded := LedgerBytes(ledger, users), RecordBytes(records);
            && after.up + dropped.up == before.up + recorded.up
            && after.down + dropped.down == before.down + recorded.down
  {
    hide Fold, Unowned, RecordBytes, LedgerBytes, OwnedBytes;
    FoldAdds(ledger, records, owners, users);
    OwnedOrDropped(records, owners, users);
  }

  /** The records dropped are those of accounts nobody owns. */
  lemma {:induction false} DroppedAre(records: seq<Record>, owners: Owners, r: Record)
    ensures r in Unowned(records, owners) <==> r in records && r.k !in owners
  {
    if records != [] {
      var n := |records| - 1;
      DroppedAre(records[..n], owners, r);
      assert records == records[..n] + [records[n]];
    }
  }

  /** The cores on a receipt are those of the user's records. */
  lemma {:induction false} CoresAre(records: seq<Record>, owners: Owners, u: User, core: string)
    ensures core in CoresOf(records, owners, u)
            <==> exists r :: r in records && r.k.core == core && r.k in owners && owners[r.k] == u
  {
    if records != [] {
      var n := |records| - 1;
      CoresAre(records[..n], owners, u, core);
      assert records == records[..n] + [records[n]];
    }
  }

  /** A receipt: what was added, the new total of both directions, and whether that reaches the limit. */
  lemma ReceiptMeans(ledger: Ledger, limits: map<User, int>, records: seq<Record>, owners: Owners, u: User)
    ensures var r, after := Receipt(ledger, limits, records, owners, u), Balance(Fold(ledger, records, owners), u);
            && r.user == u
            && r.total == after.up + after.down
            && r.total == Balance(ledger, u).up + Balance(ledger, u).down + r.applied
            && (r.exceeded <==> exists cap :: r.limit == Some(cap) && cap <= r.total)
            && (u in limits ==> r.limit == Some(limits[u])) && (u !in limits ==> r.limit == None)
  {
    hide Fold, Owned, CoresOf, Balance;
    FoldBalance(ledger, records, owners, u);
  }

  // ---- batches ----------------------------------------------------------------------------

  function FoldBatches(ledger: Ledger, batches: seq<seq<Record>>, owners: Owners): Ledger {
    if batches == [] then ledger
    else Fold(FoldBatches(ledger, batches[..|batches| - 1], owners), batches[|batches| - 1], owners)
  }

  function Flatten(batches: seq<seq<Record>>): seq<Record> {
    if batches == [] then [] else Flatten(batches[..|batches| - 1]) + batches[|batches| - 1]
  }

  lemma {:induction false} OwnedConcat(a: seq<Record>, b: seq<Record>, owners: Owners, u: User)
    ensures Owned(a + b, owners, u) == Plus(Owned(a, owners, u), Owned(b, owners, u))
  {
    if b == [] {
      assert a + b == a;
    } else {
      var n := |b| - 1;
      OwnedConcat(a, b[..n], owners, u);
      assert (a + b)[..|a| + n] == a + b[..n];
    }
  }

  lemma NoneOwned(owners: Owners, u: User)
    ensures Owned([], owners, u) == NOTHING
  {
  }

  /** However the records are cut into batches, every user ends with the same totals. */
  lemma {:induction false} BatchingIsIrrelevant(ledger: Ledger, batches: seq<seq<Record>>, owners: Owners, u: User)
    ensures Balance(FoldBatches(ledger, batches, owners), u)
            == Balance(Fold(ledger, Flatten(batches), owners), u)
  {
    hide Fold, Owned, Balance;
    FoldBalance(ledger, Flatten(batches), owners, u);
    if batches == [] {
      NoneOwned(owners, u);
    } else {
      var n := |batches| - 1;
      BatchingIsIrrelevant(ledger, batches[..n], owners, u);
      FoldBalance(ledger, Flatten(batches[..n]), owners, u);
      FoldBalance(FoldBatches(ledger, batches[..n], owners), batches[n], owners, u);
      OwnedConcat(Flatten(batches[..n]), batches[n], owners, u);
    }
  }

  // ---- from counters to ledger ----------------------------------------------------------------

  /** What a user's accounts among `keys` emitted. */
  ghost function EmittedFor(s: System, keys: seq<Key>, owners: Owners, u: User): Bytes {
    if keys == [] then NOTHING
    else
      var k, rest := keys[|keys| - 1], EmittedFor(s, keys[..|keys| - 1], owners, u);
      var m := MeterOf(s.meters, k);
      if k in owners && owners[k] == u then Plus(rest, Bytes(m.up.emitted, m.down.emitted)) else rest
  }

  ghost function TrafficFor(s: System, keys: seq<Key>, owners: Owners, u: User): Bytes {
    if keys == [] then NOTHING
    else
      var k, rest := keys[|keys| - 1], TrafficFor(s, keys[..|keys| - 1], owners, u);
      var m := MeterOf(s.meters, k);
      if k in owners && owners[k] == u then Plus(rest, Bytes(m.up.traffic, m.down.traffic)) else rest
  }

  function LogFor(log: seq<Record>, keys: seq<Key>, owners: Owners, u: User): Bytes {
    if keys == [] then NOTHING
    else
      var k, rest := keys[|keys| - 1], LogFor(log, keys[..|keys| - 1], owners, u);
      if k in owners && owners[k] == u then Plus(rest, LogSum(log, k)) else rest
  }

  lemma {:induction false} LogForMore(log: seq<Record>, r: Record, keys: seq<Key>, owners: Owners, u: User)
    requires Distinct(keys)
    ensures LogFor(log + [r], keys, owners, u)
            == if r.k in owners && owners[r.k] == u && r.k in keys then Plus(LogFor(log, keys, owners, u), r.bytes)
               else LogFor(log, keys, owners, u)
  {
    if keys != [] {
      var n := |keys| - 1;
      LogForMore(log, r, keys[..n], owners, u);
      LogSumAppend(log, r, keys[n]);
      assert keys == keys[..n] + [keys[n]];
      assert keys[n] !in keys[..n];
    }
  }

  lemma {:induction false} EmptyLog(keys: seq<Key>, owners: Owners, u: User)
    ensures LogFor([], keys, owners, u) == NOTHING
  {
    if keys != [] {
      EmptyLog(keys[..|keys| - 1], owners, u);
    }
  }

  lemma {:induction false} OwnedByKey(log: seq<Record>, keys: seq<Key>, owners: Owners, u: User)
    requires Distinct(keys) && forall i :: 0 <= i < |log| ==> log[i].k in keys
    ensures Owned(log, owners, u) == LogFor(log, keys, owners, u)
  {
    if log == [] {
      EmptyLog(keys, owners, u);
    } else {
      var n := |log| - 1;
      OwnedByKey(log[..n], keys, owners, u);
      LogForMore(log[..n], log[n], keys, owners, u);
      assert log == log[..n] + [log[n]];
    }
  }

  lemma {:induction false} LogIsEmitted(run: seq<Event>, keys: seq<Key>, owners: Owners, u: User)
    ensures Balanced(BOOT)
    ensures var end := Exec(BOOT, run);
            && LogFor(end.log, keys, owners, u) == EmittedFor(end, keys, owners, u)
            && EmittedFor(end, keys, owners, u).up <= TrafficFor(end, keys, owners, u).up
            && EmittedFor(end, keys, owners, u).down <= TrafficFor(end, keys, owners, u).down
  {
    hide Exec, Balanced, Accounted, Pending;
    BootIsBalanced();
    if keys != [] {
      var n := |keys| - 1;
      LogIsEmitted(run, keys[..n], owners, u);
      RunLogs(BOOT, run, keys[n]);
      NeverOverReported(run, keys[n]);
    }
  }

  /**
    * Over any run of traffic, resets, readings, closings and restarts, and any batching of the
    * records it emits, a user is charged exactly what their accounts emitted, never more than crossed.
    */
  lemma ChargedWhatWasEmitted(run: seq<Event>, batches: seq<seq<Record>>, keys: seq<Key>, owners: Owners, u: User)
    requires Balanced(BOOT) && Flatten(batches) == Exec(BOOT, run).log
    requires Distinct(keys) && forall i :: 0 <= i < |Exec(BOOT, run).log| ==> Exec(BOOT, run).log[i].k in keys
    ensures var end := Exec(BOOT, run);
            var charged := Balance(FoldBatches(map[], batches, owners), u);
            && charged == EmittedFor(end, keys, owners, u)
            && charged.up <= TrafficFor(end, keys, owners, u).up
            && charged.down <= TrafficFor(end, keys, owners, u).down
  {
    hide Exec, Balanced, FoldBatches, Flatten, LogFor, EmittedFor, TrafficFor, Fold;
    var end := Exec(BOOT, run);
    BatchingIsIrrelevant(map[], batches, owners, u);
    FoldBalance(map[], end.log, owners, u);
    OwnedByKey(end.log, keys, owners, u);
    LogIsEmitted(run, keys, owners, u);
  }
}
