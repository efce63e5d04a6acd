/** Client refresh tokens with one-shot rotation grace: `app/clientapi/stores.py` and `service.py`. */
module ClientTokens {
  import opened Outcome

  type Hash = string
  type User = int
  type Time = int

  datatype Row = Row(user: User, expires: Time, revoked: bool, rotatedTo: Option<Hash>, revokedAt: Option<Time>)

  type Rows = map<Hash, Row>

  const GRACE_SECONDS: int := 120

  // ---- the store -------------------------------------------------------------------------

  function Saved(rows: Rows, user: User, hash: Hash, expires: Time): Rows {
    rows[hash := Row(user, expires, false, None, None)]
  }

  /** Revoking overwrites the successor link, so revoking again without one clears it. */
  function Revoked(rows: Rows, hash: Hash, to: Option<Hash>, now: Time): Rows {
    if hash !in rows then rows
    else rows[hash := rows[hash].(revoked := true, rotatedTo := to, revokedAt := Some(now))]
  }

  function RevokedAll(rows: Rows, user: User): Rows {
    map h | h in rows :: if rows[h].user == user then rows[h].(revoked := true) else rows[h]
  }

  class InMemoryRefreshTokenStore {
    var rows: Rows

    constructor ()
      ensures rows == map[]
    {
      rows := map[];
    }

    method Save(user: User, hash: Hash, expires: Time)
      modifies this
      ensures rows == Saved(old(rows), user, hash, expires)
    {
      rows := rows[hash := Row(user, expires, false, None, None)];
    }

    method Get(hash: Hash) returns (row: Option<Row>)
      ensures row == if hash in rows then Some(rows[hash]) else None
    {
      row := None;
      if hash in rows {
        row := Some(rows[hash]);
      }
    }

    method Revoke(hash: Hash, to: Option<Hash>, now: Time)
      modifies this
      ensures rows == Revoked(old(rows), hash, to, now)
    {
      if hash in rows {
        rows := rows[hash := rows[hash].(revoked := true)];
        rows := rows[hash := rows[hash].(rotatedTo := to)];
        rows := rows[hash := rows[hash].(revokedAt := Some(now))];
      }
    }

    method RevokeAllForUser(user: User)
      modifies this
      ensures rows == RevokedAll(old(rows), user)
      ensures forall h :: h in rows && rows[h].user == user ==> rows[h].revoked && rows[h].rotatedTo == old(rows)[h].rotatedTo
    {
      var left := rows.Keys;
      while exists h :: h in left
        invariant left <= rows.Keys == old(rows).Keys
        invariant forall h :: h in left ==> rows[h] == old(rows)[h]
        invariant forall h :: h in rows && h !in left ==> rows[h] == RevokedAll(old(rows), user)[h]
        decreases |left|
      {
        var h :| h in left;
        if rows[h].user == user {
          rows := rows[h := rows[h].(revoked := true)];
        }
        left := left - {h};
      }
    }
  }

  // ---- the service --------------------------------------------------------------------------

  /** How a presented token is answered. */
  datatype Answer = Refuse | Rotate | Grace(successor: Hash)

  function Decide(rows: Rows, hash: Hash, now: Time): Answer {
    if hash !in rows || rows[hash].expires < now then Refuse
    else
      var row := rows[hash];
      if !row.revoked then Rotate
      else if row.rotatedTo.None? || row.revokedAt.None? || now > row.revokedAt.value + GRACE_SECONDS then Refuse
      else
        var next := row.rotatedTo.value;
        if next !in rows || rows[next].revoked then Refuse else Grace(next)
  }

  function Refreshed(rows: Rows, hash: Hash, newHash: Hash, expires: Time, now: Time): Rows {
    match Decide(rows, hash, now)
    case Refuse => rows
    case Rotate => Revoked(Saved(rows, rows[hash].user, newHash, expires), hash, Some(newHash), now)
    case Grace(successor) => Revoked(Saved(rows, rows[hash].user, newHash, expires), successor, None, now)
  }

  /** The user name of the application login and the hash of its password. */
  datatype Credentials = Credentials(name: string, passwordHash: string)

  class ClientApiService {
    const store: InMemoryRefreshTokenStore
    const ttl: int
    var credentials: map<User, Credentials>

    constructor (store: InMemoryRefreshTokenStore, ttl: int)
      ensures this.store == store && this.ttl == ttl && credentials == map[]
    {
      this.store, this.ttl, credentials := store, ttl, map[];
    }

    /** `_issue_tokens`: stores the hash of a fresh secret. */
    method IssueTokens(user: User, newHash: Hash, now: Time)
      modifies store
      ensures store.rows == Saved(old(store.rows), user, newHash, now + ttl)
    {
      store.Save(user, newHash, now + ttl);
    }

    /** `None` stands for the authentication error. */
    method Refresh(hash: Hash, newHash: Hash, now: Time) returns (issued: Option<Hash>)
      modifies store
      ensures store.rows == Refreshed(old(store.rows), hash, newHash, now + ttl, now)
      ensures issued == if Decide(old(store.rows), hash, now).Refuse? then None else Some(newHash)
    {
      hide Saved, Revoked;
      var found := store.Get(hash);
      if found.None? || found.value.expires < now {
        return None;
      }
      var row := found.value;
      if row.revoked {
        if row.rotatedTo.None? || row.revokedAt.None? || now > row.revokedAt.value + GRACE_SECONDS {
          return None;
        }
        var successor := store.Get(row.rotatedTo.value);
        if successor.None? || successor.value.revoked {
          return None;
        }
        IssueTokens(row.user, newHash, now);
        store.Revoke(row.rotatedTo.value, None, now);
        return Some(newHash);
      }
      IssueTokens(row.user, newHash, now);
      store.Revoke(hash, Some(newHash), now);
      return Some(newHash);
    }

    method Logout(hash: Hash, now: Time)
      modifies store
      ensures store.rows == Revoked(old(store.rows), hash, None, now)
    {
      store.Revoke(hash, None, now);
    }

    /** New credentials replace the old ones and cut off every login made with them. */
    method IssueAppCredentials(user: User, known: bool, next: Credentials) returns (issued: Option<Credentials>)
      modifies this`credentials, store
      ensures issued == if known then Some(next) else None
      ensures credentials == if known then old(credentials)[user := next] else old(credentials)
      ensures store.rows == if known then RevokedAll(old(store.rows), user) else old(store.rows)
      ensures known ==> forall h, now :: h in store.rows && store.rows[h].user == user ==>
                          Decide(store.rows, h, now) != Rotate
    {
      if !known {
        return None;
      }
      credentials := credentials[user := next];
      store.RevokeAllForUser(user);
      return Some(next);
    }
  }

  // ---- serial runs --------------------------------------------------------------------------

  datatype Event =
    | Login(user: User, newHash: Hash, now: Time)
    | Present(hash: Hash, newHash: Hash, now: Time)
    | Leave(hash: Hash, now: Time)
    | NewCredentials(user: User)

  /** The rows, and for the proof the login each token descends from. */
  datatype System = System(rows: Rows, login: map<Hash, nat>, logins: nat)

  /** Secrets are fresh. */
  predicate Legal(s: System, e: Event) {
    match e
    case Login(_, h, _) => h !in s.rows
    case Present(_, h, _) => h !in s.rows
    case _ => true
  }

  function Step(s: System, e: Event, ttl: int): System
    requires s.login.Keys == s.rows.Keys
  {
    match e
    case Login(user, h, now) =>
      System(Saved(s.rows, user, h, now + ttl), s.login[h := s.logins], s.logins + 1)
    case Present(h, newHash, now) =>
      System(Refreshed(s.rows, h, newHash, now + ttl, now),
             if Decide(s.rows, h, now).Refuse? then s.login else s.login[newHash := s.login[h]], s.logins)
    case Leave(h, now) => s.(rows := Revoked(s.rows, h, None, now))
    case NewCredentials(user) => s.(rows := RevokedAll(s.rows, user))
  }

  /** A successor exists, belongs to the same login and user, and only a revoked row has one. */
  predicate LinkTrue(s: System, h: Hash)
    requires h in s.rows && s.login.Keys == s.rows.Keys
  {
    && s.login[h] < s.logins
    && (s.rows[h].rotatedTo.Some? ==>
          var n := s.rows[h].rotatedTo.value;
          s.rows[h].revoked && n in s.rows && s.login[n] == s.login[h] && s.rows[n].user == s.rows[h].user)
  }

  ghost predicate LinksTrue(s: System)
    requires s.login.Keys == s.rows.Keys
  {
    forall h :: h in s.rows ==> LinkTrue(s, h)
  }

  ghost predicate OneLive(s: System)
    requires s.login.Keys == s.rows.Keys
  {
    forall h, k :: h in s.rows && k in s.rows && h != k && s.login[h] == s.login[k] ==>
      s.rows[h].revoked || s.rows[k].revoked
  }

  ghost predicate Valid(s: System) {
    s.login.Keys == s.rows.Keys && LinksTrue(s) && OneLive(s)
  }

  lemma LoginKeepsValid(s: System, e: Event, ttl: int)
    requires Valid(s) && Legal(s, e) && e.Login?
    ensures Valid(Step(s, e, ttl))
  {
    var t := Step(s, e, ttl);
    forall h | h in t.rows ensures LinkTrue(t, h) {
      if h in s.rows {
        assert LinkTrue(s, h);
      }
    }
    forall h, k | h in t.rows && k in t.rows && h != k && t.login[h] == t.login[k]
      ensures t.rows[h].revoked || t.rows[k].revoked
    {
      if h in s.rows {
        assert LinkTrue(s, h);
      }
      if k in s.rows {
        assert LinkTrue(s, k);
      }
    }
  }

  lemma RevokingKeepsValid(s: System, rows: Rows)
    requires Valid(s) && rows.Keys == s.rows.Keys
    requires forall h :: h in rows ==>
               && rows[h].user == s.rows[h].user
               && (s.rows[h].revoked ==> rows[h].revoked)
               && (rows[h].rotatedTo == s.rows[h].rotatedTo || rows[h].rotatedTo.None?)
    ensures Valid(s.(rows := rows))
  {
    var t := s.(rows := rows);
    forall h | h in t.rows ensures LinkTrue(t, h) {
      assert LinkTrue(s, h);
    }
  }

  /** The step of an answered token: `spent` is the row it revokes, in favour of `newHash`. */
  lemma AnswerKeepsValid(s: System, h: Hash, spent: Hash, newHash: Hash, to: Option<Hash>, expires: Time, now: Time)
    requires Valid(s) && newHash !in s.rows && h in s.rows && spent in s.rows
    requires s.login[spent] == s.login[h] && s.rows[spent].user == s.rows[h].user && !s.rows[spent].revoked
    requires to == None || to == Some(newHash)
    ensures Valid(System(Revoked(Saved(s.rows, s.rows[h].user, newHash, expires), spent, to, now),
                         s.login[newHash := s.login[h]], s.logins))
  {
    var t := System(Revoked(Saved(s.rows, s.rows[h].user, newHash, expires), spent, to, now),
                    s.login[newHash := s.login[h]], s.logins);
    assert LinkTrue(s, h) && LinkTrue(s, spent);
    forall k | k in t.rows ensures LinkTrue(t, k) {
      if k in s.rows {
        assert LinkTrue(s, k);
      }
    }
    forall a, b | a in t.rows && b in t.rows && a != b && t.login[a] == t.login[b]
      ensures t.rows[a].revoked || t.rows[b].revoked
    {
      var x := if a == newHash then spent else a;
      var y := if b == newHash then spent else b;
      assert x != y ==> s.rows[x].revoked || s.rows[y].revoked;
    }
  }

  lemma StepKeepsValid(s: System, e: Event, ttl: int)
    requires Valid(s) && Legal(s, e)
    ensures Valid(Step(s, e, ttl))
  {
    hide OneLive;
    match e
    case Login(_, _, _) => LoginKeepsValid(s, e, ttl);
    case Present(h, newHash, now) =>
      var answer := Decide(s.rows, h, now);
      if answer.Rotate? {
        AnswerKeepsValid(s, h, h, newHash, Some(newHash), now + ttl, now);
      } else if answer.Grace? {
        assert LinkTrue(s, h);
        AnswerKeepsValid(s, h, answer.successor, newHash, None, now + ttl, now);
      }
    case Leave(h, now) => RevokingKeepsValid(s, Revoked(s.rows, h, None, now));
    case NewCredentials(user) => RevokingKeepsValid(s, RevokedAll(s.rows, user));
  }

  // ---- how often a token can still be answered --------------------------------------------------

  /** Twice while live (or not yet issued), once while its unused successor lives, never otherwise. */
  function Budget(rows: Rows, h: Hash): nat {
    if h !in rows || !rows[h].revoked then 2
    else if rows[h].rotatedTo.Some? && rows[h].rotatedTo.value in rows && !rows[rows[h].rotatedTo.value].revoked then 1
    else 0
  }

  predicate Answered(s: System, e: Event, h: Hash) {
    e.Present? && e.hash == h && !Decide(s.rows, h, e.now).Refuse?
  }

  lemma BudgetSpent(s: System, e: Event, ttl: int, h: Hash)
    requires Valid(s) && Legal(s, e)
    ensures Budget(Step(s, e, ttl).rows, h) + (if Answered(s, e, h) then 1 else 0) <= Budget(s.rows, h)
  {
    hide OneLive;
    if h in s.rows {
      assert LinkTrue(s, h);
    }
    if e.Present? && e.hash in s.rows {
      assert LinkTrue(s, e.hash);
    }
  }

  ghost predicate LegalRun(s: System, run: seq<Event>, ttl: int)
    requires Valid(s)
    decreases |run|
  {
    run == [] || (Legal(s, run[0]) && (StepKeepsValid(s, run[0], ttl); LegalRun(Step(s, run[0], ttl), run[1..], ttl)))
  }

  ghost function Exec(s: System, run: seq<Event>, ttl: int): (t: System)
    requires Valid(s) && LegalRun(s, run, ttl)
    ensures Valid(t)
    decreases |run|
  {
    if run == [] then s else (StepKeepsValid(s, run[0], ttl); Exec(Step(s, run[0], ttl), run[1..], ttl))
  }

  /** How many times a run answers token `h`. */
  ghost function Answers(s: System, run: seq<Event>, ttl: int, h: Hash): nat
    requires Valid(s) && LegalRun(s, run, ttl)
    decreases |run|
  {
    if run == [] then 0
    else
      StepKeepsValid(s, run[0], ttl);
      (if Answered(s, run[0], h) then 1 else 0) + Answers(Step(s, run[0], ttl), run[1..], ttl, h)
  }

  lemma {:induction false} AnswersWithinBudget(s: System, run: seq<Event>, ttl: int, h: Hash)
    requires Valid(s) && LegalRun(s, run, ttl)
    ensures Answers(s, run, ttl, h) <= Budget(s.rows, h)
    decreases |run|
  {
    hide LinksTrue, OneLive, Legal, Step, Budget, Answered;
    if run != [] {
      StepKeepsValid(s, run[0], ttl);
      BudgetSpent(s, run[0], ttl, h);
      AnswersWithinBudget(Step(s, run[0], ttl), run[1..], ttl, h);
    }
  }

  /** In every run a login has at most one live token. */
  lemma OneLiveTokenPerLogin(s: System, run: seq<Event>, ttl: int, h: Hash, k: Hash)
    requires Valid(s) && LegalRun(s, run, ttl)
    requires var t := Exec(s, run, ttl);
             h in t.rows && k in t.rows && t.login[h] == t.login[k] && !t.rows[h].revoked && !t.rows[k].revoked
    ensures h == k
  {
    hide Exec, LegalRun;
  }

  /** Any token is answered at most twice in any run. */
  lemma AnsweredAtMostTwice(s: System, run: seq<Event>, ttl: int, h: Hash)
    requires Valid(s) && LegalRun(s, run, ttl)
    ensures Answers(s, run, ttl, h) <= 2
  {
    hide Answers, LegalRun;
    AnswersWithinBudget(s, run, ttl, h);
  }

  /** A token that was logged out is never answered again. */
  lemma LoggedOutNeverAnswered(s: System, h: Hash, now: Time, run: seq<Event>, ttl: int)
    requires Valid(s) && h in s.rows
    ensures Valid(Step(s, Leave(h, now), ttl))
    ensures LegalRun(Step(s, Leave(h, now), ttl), run, ttl) ==> Answers(Step(s, Leave(h, now), ttl), run, ttl, h) == 0
  {
    hide Answers, LegalRun, LinksTrue, OneLive;
    StepKeepsValid(s, Leave(h, now), ttl);
    var t := Step(s, Leave(h, now), ttl);
    if LegalRun(t, run, ttl) {
      AnswersWithinBudget(t, run, ttl, h);
    }
  }

  /** Nor is any token its user held when the credentials were rotated. */
  lemma OldCredentialsNeverAnswered(s: System, h: Hash, run: seq<Event>, ttl: int)
    requires Valid(s) && h in s.rows
    ensures var t := Step(s, NewCredentials(s.rows[h].user), ttl);
            Valid(t) && (LegalRun(t, run, ttl) ==> Answers(t, run, ttl, h) == 0)
  {
    hide Answers, LegalRun, OneLive;
    var e := NewCredentials(s.rows[h].user);
    StepKeepsValid(s, e, ttl);
    assert LinkTrue(s, h);
    var t := Step(s, e, ttl);
    assert Budget(t.rows, h) == 0;
    if LegalRun(t, run, ttl) {
      AnswersWithinBudget(t, run, ttl, h);
    }
  }

  /**
    * The grace is one-shot per token, not per login: A rotates to B, a retry of A gives C, C rotates
    * to D, and a retry of C is answered in grace as well.
    */
  lemma GraceTwiceInOneLogin(s: System, a: Hash, b: Hash, c: Hash, d: Hash, now: Time, ttl: int)
    requires Valid(s) && Decide(s.rows, a, now) == Rotate && ttl >= 0
    requires b !in s.rows && c !in s.rows && d !in s.rows && b != c && b != d && c != d
    ensures var s1 := Step(s, Present(a, b, now), ttl);
            s1.login.Keys == s1.rows.Keys && Decide(s1.rows, a, now) == Grace(b)
    ensures var s2 := Step(Step(s, Present(a, b, now), ttl), Present(a, c, now), ttl);
            s2.login.Keys == s2.rows.Keys && Decide(s2.rows, c, now) == Rotate && s2.login[c] == s.login[a]
    ensures var s3 := Step(Step(Step(s, Present(a, b, now), ttl), Present(a, c, now), ttl), Present(c, d, now), ttl);
            Decide(s3.rows, c, now) == Grace(d)
  {
    hide LinksTrue, OneLive;
  }

  /** After a grace answer every token the login had before is dead. */
  lemma GraceEndsTheRest(s: System, h: Hash, newHash: Hash, now: Time, ttl: int, k: Hash)
    requires Valid(s) && newHash !in s.rows && Decide(s.rows, h, now).Grace?
    requires k in s.rows && s.login[k] == s.login[h]
    ensures var t := Step(s, Present(h, newHash, now), ttl);
            Valid(t) && Budget(t.rows, k) == 0
  {
    hide LinksTrue;
    var e := Present(h, newHash, now);
    StepKeepsValid(s, e, ttl);
    var t := Step(s, e, ttl);
    LinksAt(s, h);
    LinksAt(s, k);
    if t.rows[k].rotatedTo.Some? {
      LinksAt(t, k);
    }
  }

  lemma LinksAt(s: System, h: Hash)
    requires Valid(s) && h in s.rows
    ensures LinkTrue(s, h)
  {
    hide OneLive;
  }

  /** A hash longer than all those in use. */
  lemma {:induction false} UnusedHash(used: set<Hash>) returns (x: Hash)
    ensures forall h :: h in used ==> |h| < |x|
  {
    if h :| h in used {
      var y := UnusedHash(used - {h});
      x := y + h + "x";
      forall k | k in used ensures |k| < |x| {
        assert k == h || k in used - {h};
      }
    } else {
      x := "x";
    }
  }

  /** Some later run answers the token. */
  ghost predicate Answerable(s: System, ttl: int, k: Hash)
    requires Valid(s)
  {
    exists run: seq<Event> :: LegalRun(s, run, ttl) && Answers(s, run, ttl, k) > 0
  }

  lemma OneEvent(s: System, e: Event, ttl: int, k: Hash)
    requires Valid(s) && Legal(s, e)
    ensures LegalRun(s, [e], ttl) && Answers(s, [e], ttl, k) == if Answered(s, e, k) then 1 else 0
  {
    hide LinksTrue, OneLive, Step, Legal, Answered;
    StepKeepsValid(s, e, ttl);
    var t := Step(s, e, ttl);
    assert [e][1..] == [];
    assert LegalRun(t, [], ttl) && Answers(t, [], ttl, k) == 0;
  }

  lemma {:induction false} LiveIsAnswerable(s: System, ttl: int, k: Hash, now: Time)
    requires Valid(s) && Decide(s.rows, k, now) == Rotate
    ensures Answerable(s, ttl, k)
  {
    hide LinksTrue, OneLive, Refreshed;
    var x := UnusedHash(s.rows.Keys);
    var e := Present(k, x, now);
    assert Legal(s, e);
    StepKeepsValid(s, e, ttl);
    var run := [e];
    OneEvent(s, e, ttl, k);
    assert LegalRun(s, run, ttl) && Answers(s, run, ttl, k) > 0;
  }

  /** After a grace answer the tokens of the login that can ever be answered are exactly the one it issued. */
  lemma GraceLeavesOneToken(s: System, h: Hash, newHash: Hash, now: Time, ttl: int, k: Hash)
    requires Valid(s) && newHash !in s.rows && Decide(s.rows, h, now).Grace? && ttl >= 0
    ensures var t := Step(s, Present(h, newHash, now), ttl);
            Valid(t) && (k in t.rows && t.login[k] == s.login[h] ==> (Answerable(t, ttl, k) <==> k == newHash))
  {
    hide LinksTrue, OneLive;
    StepKeepsValid(s, Present(h, newHash, now), ttl);
    var t := Step(s, Present(h, newHash, now), ttl);
    LinksAt(s, h);
    if k == newHash {
      LiveIsAnswerable(t, ttl, k, now);
    } else if k in t.rows && t.login[k] == s.login[h] {
      GraceEndsTheRest(s, h, newHash, now, ttl, k);
      forall run: seq<Event> | LegalRun(t, run, ttl) ensures Answers(t, run, ttl, k) == 0 {
        AnswersWithinBudget(t, run, ttl, k);
      }
    }
  }

  /** The grace works: a retry in time, before the successor is used, is answered. */
  lemma RetryIsAnswered(s: System, h: Hash, newHash: Hash, now: Time, later: Time, ttl: int)
    requires Valid(s) && Decide(s.rows, h, now) == Rotate && newHash !in s.rows
    requires now <= later <= now + GRACE_SECONDS && later <= s.rows[h].expires
    ensures Decide(Step(s, Present(h, newHash, now), ttl).rows, h, later) == Grace(newHash)
  {
  }
}
