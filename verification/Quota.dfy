/** One usage ledger per user, fed by delta records: `app/cores/quota.py`. */
module Quota {
  import opened Outcome
  import opened UsageCounters
  import opened Ordering

  type User = int
  type Ledger = map<User, Bytes>
  type Owners = map<Key, User>

  function Plus(a: Bytes, b: Bytes): Bytes {
    Bytes(a.up + b.up, a.down + b.down)
  }

  function Total(b: Bytes): int {
    b.up + b.down
  }

  const NOTHING := Bytes(0, 0)

  function Balance(ledger: Ledger, u: User): Bytes {
    if u in ledger then ledger[u] else NOTHING
  }

  /** What the records of a user's accounts add up to. */
  function Owned(records: seq<Record>, owners: Owners, u: User): Bytes {
    if records == [] then NOTHING
    else
      var last, rest := records[|records| - 1], Owned(records[..|records| - 1], owners, u);
      if last.k in owners && owners[last.k] == u then Plus(rest, last.bytes) else rest
  }

  function CoresOf(records: seq<Record>, owners: Owners, u: User): set<string> {
    if records == [] then {}
    else
      var last, rest := records[|records| - 1], CoresOf(records[..|records| - 1], owners, u);
      if last.k in owners && owners[last.k] == u then rest + {last.k.core} else rest
  }

  /** Records of accounts nobody owns, in order. */
  function Unowned(records: seq<Record>, owners: Owners): seq<Record> {
    if records == [] then []
    else
      var last, rest := records[|records| - 1], Unowned(records[..|records| - 1], owners);
      if last.k in owners then rest else rest + [last]
  }

  /** Users whose totals the records change. */
  function Movers(records: seq<Record>, owners: Owners): set<User> {
    set u | u in owners.Values && Owned(records, owners, u) != NOTHING
  }

  /** The ledger after a batch. */
  function Fold(ledger: Ledger, records: seq<Record>, owners: Owners): Ledger {
    map u | u in ledger.Keys + Movers(records, owners) :: Plus(Balance(ledger, u), Owned(records, owners, u))
  }

  // ---- the service ------------------------------------------------------------------------

  datatype AppliedUsage = AppliedUsage(user: User, applied: int, total: int, limit: Option<int>, exceeded: bool,
                                       cores: set<string>)

  datatype QuotaView = QuotaView(user: User, used: Bytes, total: int, limit: Option<int>, remaining: Option<int>,
                                 exceeded: bool)

  predicate Exceeds(limit: Option<int>, total: int) {
    limit.Some? && total >= limit.value
  }

  function LimitOf(limits: map<User, int>, u: User): Option<int> {
    if u in limits then Some(limits[u]) else None
  }

  function Left(limit: int, total: int): (r: nat)
    ensures r == 0 <==> total >= limit
    ensures total < limit ==> r + total == limit
  {
    Clamp(limit - total)
  }

  /** What is left and whether the limit is reached always agree. */
  function ViewOf(u: User, used: Bytes, limit: Option<int>): (v: QuotaView)
    ensures limit.None? ==> v.remaining.None? && !v.exceeded
    ensures limit.Some? ==> v.remaining.Some? && v.remaining.value >= 0
    ensures limit.Some? ==> (v.exceeded <==> v.remaining.value == 0)
    ensures limit.Some? && !v.exceeded ==> v.remaining.value + used.up + used.down == limit.value
  {
    var total := Total(used);
    QuotaView(u, used, total, limit, if limit.Some? then Some(Left(limit.value, total)) else None, Exceeds(limit, total))
  }

  /** The receipt for one user after a batch. */
  function Receipt(ledger: Ledger, limits: map<User, int>, records: seq<Record>, owners: Owners, u: User): AppliedUsage {
    var total := Total(Plus(Balance(ledger, u), Owned(records, owners, u)));
    AppliedUsage(u, Total(Owned(records, owners, u)), total, LimitOf(limits, u), Exceeds(LimitOf(limits, u), total),
                 CoresOf(records, owners, u))
  }

  ghost predicate Ascending(users: seq<User>) {
    forall i, j :: 0 <= i < j < |users| ==> users[i] < users[j]
  }

  function UsersOf(applied: seq<AppliedUsage>): seq<User> {
    seq(|applied|, i requires 0 <= i < |applied| => applied[i].user)
  }

  method InsertUser(users: seq<User>, u: User) returns (r: seq<User>)
    requires Ascending(users) && u !in users
    ensures Ascending(r)
    ensures forall x :: x in r <==> x in users || x == u
  {
    var i := 0;
    while i < |users| && users[i] < u
      invariant i <= |users| && forall k :: 0 <= k < i ==> users[k] < u
    {
      i := i + 1;
    }
    r := users[..i] + [u] + users[i..];
    InsertedMembers(users, i, u);
  }

  method SortedUsers(s: set<User>) returns (r: seq<User>)
    ensures Ascending(r) && forall x :: x in r <==> x in s
  {
    r := [];
    var left := s;
    while exists u :: u in left
      invariant left <= s && Ascending(r)
      invariant forall x :: x in r <==> x in s && x !in left
      decreases |left|
    {
      var u :| u in left;
      r := InsertUser(r, u);
      left := left - {u};
    }
  }

  /** What the first loop knows of a user. */
  datatype Tally = Tally(bytes: Bytes, cores: set<string>)

  function TallyOf(deltas: map<User, Tally>, u: User): Tally {
    if u in deltas then deltas[u] else Tally(NOTHING, {})
  }

  ghost predicate Tallied(deltas: map<User, Tally>, records: seq<Record>, owners: Owners) {
    && deltas.Keys <= owners.Values
    && forall u :: TallyOf(deltas, u) == Tally(Owned(records, owners, u), CoresOf(records, owners, u))
  }

  lemma TallyRecord(deltas: map<User, Tally>, records: seq<Record>, owners: Owners, r: Record)
    requires Tallied(deltas, records, owners)
    ensures r.k !in owners ==> Tallied(deltas, records + [r], owners)
    ensures r.k in owners ==>
              var u := owners[r.k];
              var was := TallyOf(deltas, u);
              Tallied(deltas[u := Tally(Plus(was.bytes, r.bytes), was.cores + {r.k.core})], records + [r], owners)
  {
    assert (records + [r])[..|records|] == records;
    forall v
      ensures Owned(records + [r], owners, v)
              == if r.k in owners && owners[r.k] == v then Plus(Owned(records, owners, v), r.bytes)
                 else Owned(records, owners, v)
      ensures CoresOf(records + [r], owners, v)
              == if r.k in owners && owners[r.k] == v then CoresOf(records, owners, v) + {r.k.core}
                 else CoresOf(records, owners, v)
    {
    }
    if r.k in owners {
      var u := owners[r.k];
      var was := TallyOf(deltas, u);
      var more := deltas[u := Tally(Plus(was.bytes, r.bytes), was.cores + {r.k.core})];
      forall v ensures TallyOf(more, v) == Tally(Owned(records + [r], owners, v), CoresOf(records + [r], owners, v)) {
        assert TallyOf(deltas, v) == Tally(Owned(records, owners, v), CoresOf(records, owners, v));
      }
    } else {
      forall v ensures TallyOf(deltas, v) == Tally(Owned(records + [r], owners, v), CoresOf(records + [r], owners, v)) {
        assert TallyOf(deltas, v) == Tally(Owned(records, owners, v), CoresOf(records, owners, v));
      }
    }
  }

  lemma UnownedAppend(records: seq<Record>, owners: Owners, r: Record)
    ensures Unowned(records + [r], owners) == Unowned(records, owners) + (if r.k in owners then [] else [r])
  {
    assert (records + [r])[..|records|] == records;
  }

  /** The ledger when the movers among the first users have been added. */
  ghost predicate Added(before: Ledger, after: Ledger, deltas: map<User, Tally>, users: seq<User>) {
    && after.Keys == before.Keys + (set u | u in users && TallyOf(deltas, u).bytes != NOTHING)
    && (forall u :: Balance(after, u)
                    == if u in users then Plus(Balance(before, u), TallyOf(deltas, u).bytes) else Balance(before, u))
  }

  lemma AddedUser(before: Ledger, after: Ledger, deltas: map<User, Tally>, users: seq<User>, u: User)
    requires Added(before, after, deltas, users) && u !in users
    ensures TallyOf(deltas, u).bytes == NOTHING ==> Added(before, after, deltas, users + [u])
    ensures TallyOf(deltas, u).bytes != NOTHING ==>
              Added(before, after[u := Plus(Balance(after, u), TallyOf(deltas, u).bytes)], deltas, users + [u])
  {
    hide Plus;
    var movers := set v | v in users && TallyOf(deltas, v).bytes != NOTHING;
    var more := set v | v in users + [u] && TallyOf(deltas, v).bytes != NOTHING;
    assert Balance(after, u) == Balance(before, u);
    if TallyOf(deltas, u).bytes == NOTHING {
      assert more == movers;
      PlusNothing(Balance(before, u));
    } else {
      assert more == movers + {u};
      var next := after[u := Plus(Balance(after, u), TallyOf(deltas, u).bytes)];
      forall v
        ensures Balance(next, v)
                == if v in users + [u] then Plus(Balance(before, v), TallyOf(deltas, v).bytes) else Balance(before, v)
      {
        assert v != u ==> Balance(next, v) == Balance(after, v);
      }
    }
  }

  lemma PlusNothing(b: Bytes)
    ensures Plus(b, NOTHING) == b
  {
  }

  lemma AddedIsFold(before: Ledger, after: Ledger, deltas: map<User, Tally>, users: seq<User>, records: seq<Record>,
                    owners: Owners)
    requires Added(before, after, deltas, users) && Tallied(deltas, records, owners)
    requires forall u :: u in users <==> u in deltas
    ensures after == Fold(before, records, owners)
  {
    forall u ensures u in users && TallyOf(deltas, u).bytes != NOTHING <==> u in Movers(records, owners) {
      assert TallyOf(deltas, u).bytes == Owned(records, owners, u);
    }
    var fold := Fold(before, records, owners);
    assert after.Keys == fold.Keys;
    forall u | u in after ensures after[u] == fold[u] {
      assert Balance(after, u) == after[u];
      assert TallyOf(deltas, u).bytes == Owned(records, owners, u);
    }
  }

  class UnifiedQuotaService {
    var entries: Ledger
    var limits: map<User, int>

    constructor ()
      ensures entries == map[] && limits == map[]
    {
      entries, limits := map[], map[];
    }

    method SetLimit(u: User, limit: Option<int>)
      modifies this`limits
      ensures LimitOf(limits, u) == limit
      ensures forall v :: v != u ==> LimitOf(limits, v) == LimitOf(old(limits), v)
    {
      limits := if limit.None? then limits - {u} else limits[u := limit.value];
    }

    /** The store's `add`: a missing row starts at zero. */
    method Add(u: User, delta: Bytes) returns (entry: Bytes)
      modifies this`entries
      ensures entries == old(entries)[u := Plus(Balance(old(entries), u), delta)]
      ensures entry == entries[u]
    {
      entry := Balance(entries, u);
      entry := Bytes(entry.up + delta.up, entry.down + delta.down);
      entries := entries[u := entry];
    }

    method ApplyUsage(records: seq<Record>, owners: Owners) returns (applied: seq<AppliedUsage>, dropped: seq<Record>)
      modifies this`entries
      ensures entries == Fold(old(entries), records, owners)
      ensures dropped == Unowned(records, owners)
      ensures Ascending(UsersOf(applied))
      ensures forall u :: u in UsersOf(applied) <==> u in Movers(records, owners)
      ensures forall i :: 0 <= i < |applied| ==>
                applied[i] == Receipt(old(entries), limits, records, owners, applied[i].user)
    {
      var deltas;
      deltas, dropped := Collect(records, owners);
      var users := SortedUsers(deltas.Keys);
      applied := Settle(users, deltas, records, owners);
      AddedIsFold(old(entries), entries, deltas, users, records, owners);
      forall u ensures u in UsersOf(applied) <==> u in Movers(records, owners) {
        assert TallyOf(deltas, u).bytes == Owned(records, owners, u);
      }
    }

    /** The first loop: one tally per owner, and the records nobody owns. */
    method Collect(records: seq<Record>, owners: Owners) returns (deltas: map<User, Tally>, dropped: seq<Record>)
      ensures Tallied(deltas, records, owners)
      ensures dropped == Unowned(records, owners)
    {
      hide Tallied, TallyOf;
      deltas, dropped := map[], [];
      NothingTallied(owners);
      for i := 0 to |records|
        invariant Tallied(deltas, records[..i], owners)
        invariant dropped == Unowned(records[..i], owners)
      {
        var record := records[i];
        TallyRecord(deltas, records[..i], owners, record);
        UnownedAppend(records[..i], owners, record);
        assert records[..i + 1] == records[..i] + [record];
        if record.k !in owners {
          dropped := dropped + [record];
          continue;
        }
        var owner := owners[record.k];
        var was := TallyOf(deltas, owner);
        deltas := deltas[owner := Tally(Plus(was.bytes, record.bytes), was.cores + {record.k.core})];
      }
      assert records[..|records|] == records;
    }

    /** The second loop: add every non-zero tally, in user order. */
    method Settle(users: seq<User>, deltas: map<User, Tally>, ghost records: seq<Record>, ghost owners: Owners)
      returns (applied: seq<AppliedUsage>)
      requires Ascending(users) && (forall u :: u in users <==> u in deltas) && Tallied(deltas, records, owners)
      modifies this`entries
      ensures Added(old(entries), entries, deltas, users)
      ensures Ascending(UsersOf(applied))
      ensures forall u :: u in UsersOf(applied) <==> u in users && TallyOf(deltas, u).bytes != NOTHING
      ensures forall i :: 0 <= i < |applied| ==>
                applied[i] == Receipt(old(entries), limits, records, owners, applied[i].user)
    {
      applied := [];
      for i := 0 to |users|
        invariant Added(old(entries), entries, deltas, users[..i])
        invariant Ascending(UsersOf(applied))
        invariant forall u :: u in UsersOf(applied) <==> u in users[..i] && TallyOf(deltas, u).bytes != NOTHING
        invariant forall k :: 0 <= k < |applied| ==>
                    applied[k] == Receipt(old(entries), limits, records, owners, applied[k].user)
      {
        hide Added, Tallied, Receipt;
        var u := users[i];
        assert u in users;
        var tally := deltas[u];
        assert users[..i + 1] == users[..i] + [u];
        AddedUser(old(entries), entries, deltas, users[..i], u);
        if tally.bytes.up == 0 && tally.bytes.down == 0 {
          continue;
        }
        var entry := Add(u, tally.bytes);
        var limit := LimitOf(limits, u);
        var receipt := AppliedUsage(u, tally.bytes.up + tally.bytes.down, Total(entry), limit,
                                    Exceeds(limit, Total(entry)), tally.cores);
        assert UsersOf(applied + [receipt]) == UsersOf(applied) + [u];
        applied := applied + [receipt];
      }
      assert users[..|users|] == users;
    }

    method GetView(u: User, override: Option<int>) returns (v: QuotaView)
      ensures v == ViewOf(u, Balance(entries, u), if override.Some? then override else LimitOf(limits, u))
    {
      var entry := Balance(entries, u);
      var limit := if override.Some? then override else LimitOf(limits, u);
      var remaining := None;
      if limit.Some? {
        remaining := Some(Left(limit.value, Total(entry)));
      }
      v := QuotaView(u, entry, Total(entry), limit, remaining, Exceeds(limit, Total(entry)));
    }

    method Reset(u: User) returns (entry: Bytes)
      modifies this`entries
      ensures entry == Balance(entries, u) == NOTHING
      ensures forall v :: v != u ==> Balance(entries, v) == Balance(old(entries), v)
    {
      entries := entries[u := NOTHING];
      entry := Balance(entries, u);
    }
  }

  lemma NothingTallied(owners: Owners)
    ensures Tallied(map[], [], owners)
  {
  }
}
