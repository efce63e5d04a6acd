/** How long client refresh tokens are answered: expiry and the grace period, over whole runs. */
module ClientLifetimes {
  import opened Outcome
  import opened ClientTokens

  /** A live token is answered up to and including its expiry. */
  lemma RotateIff(rows: Rows, h: Hash, now: Time)
    ensures Decide(rows, h, now) == Rotate <==> h in rows && !rows[h].revoked && now <= rows[h].expires
  {
  }

  /** A rotated one up to 120 seconds later as well, while its successor is unused. */
  lemma GraceIff(rows: Rows, h: Hash, now: Time, next: Hash)
    ensures Decide(rows, h, now) == Grace(next) <==>
              && h in rows && rows[h].revoked && now <= rows[h].expires
              && rows[h].rotatedTo == Some(next) && next in rows && !rows[next].revoked
              && exists at :: rows[h].revokedAt == Some(at) && now <= at + 120
  {
  }

  /** What an answer leaves: a fresh token for the same user, and the spent row revoked. */
  lemma AnswerRows(rows: Rows, h: Hash, newHash: Hash, expires: Time, now: Time, spent: Hash)
    requires newHash !in rows
    requires Decide(rows, h, now) == (if spent == h then Rotate else Grace(spent))
    ensures var after := Refreshed(rows, h, newHash, expires, now);
            && h in rows && spent in rows && after.Keys == rows.Keys + {newHash}
            && after[newHash] == Row(rows[h].user, expires, false, None, None)
            && after[spent].revoked && after[spent].revokedAt == Some(now)
            && after[spent].rotatedTo == (if spent == h then Some(newHash) else None)
            && after[spent].user == rows[spent].user && after[spent].expires == rows[spent].expires
            && (forall k :: k in rows && k != spent ==> after[k] == rows[k])
  {
  }

  // ---- expiry ---------------------------------------------------------------------------------

  /** No step moves the expiry of a token. */
  lemma StepKeepsExpiry(s: System, e: Event, ttl: int, h: Hash)
    requires Valid(s) && Legal(s, e) && h in s.rows
    ensures h in Step(s, e, ttl).rows && Step(s, e, ttl).rows[h].expires == s.rows[h].expires
  {
    hide LinksTrue, OneLive;
  }

  /** The run presents the token only after that instant. */
  ghost predicate PresentedAfter(run: seq<Event>, h: Hash, at: Time) {
    forall i :: 0 <= i < |run| && run[i].Present? && run[i].hash == h ==> at < run[i].now
  }

  lemma PresentedRest(run: seq<Event>, h: Hash, at: Time)
    requires run != [] && PresentedAfter(run, h, at)
    ensures PresentedAfter(run[1..], h, at)
    ensures run[0].Present? && run[0].hash == h ==> at < run[0].now
  {
    forall i | 0 <= i < |run[1..]| && run[1..][i].Present? && run[1..][i].hash == h ensures at < run[1..][i].now {
      assert run[1..][i] == run[i + 1];
    }
  }

  /** In no run is a token answered after its expiry. */
  lemma {:induction false} ExpiredNeverAnswered(s: System, run: seq<Event>, ttl: int, h: Hash)
    requires Valid(s) && LegalRun(s, run, ttl) && h in s.rows && PresentedAfter(run, h, s.rows[h].expires)
    ensures Answers(s, run, ttl, h) == 0
    decreases |run|
  {
    hide LinksTrue, OneLive, Legal, Step, PresentedAfter;
    if run != [] {
      var e := run[0];
      PresentedRest(run, h, s.rows[h].expires);
      StepKeepsValid(s, e, ttl);
      StepKeepsExpiry(s, e, ttl, h);
      ExpiredNeverAnswered(Step(s, e, ttl), run[1..], ttl, h);
    }
  }

  /** The token an event issues, if it issues one. */
  predicate Issues(s: System, e: Event, h: Hash) {
    || (e.Login? && e.newHash == h)
    || (e.Present? && e.newHash == h && !Decide(s.rows, e.hash, e.now).Refuse?)
  }

  /** So a token is answered in no run later than its lifetime after it was issued. */
  lemma Lifetime(s: System, e: Event, run: seq<Event>, ttl: int, h: Hash)
    requires Valid(s) && Legal(s, e) && Issues(s, e, h) && PresentedAfter(run, h, e.now + ttl)
    ensures Valid(Step(s, e, ttl))
    ensures LegalRun(Step(s, e, ttl), run, ttl) ==> Answers(Step(s, e, ttl), run, ttl, h) == 0
  {
    hide Answers, LegalRun, LinksTrue, OneLive, PresentedAfter;
    StepKeepsValid(s, e, ttl);
    var t := Step(s, e, ttl);
    assert h in t.rows && t.rows[h].expires == e.now + ttl;
    if LegalRun(t, run, ttl) {
      ExpiredNeverAnswered(t, run, ttl, h);
    }
  }

  // ---- grace ----------------------------------------------------------------------------------------

  /** The token is spent, and its grace ends at that instant at the latest. */
  predicate GraceEnds(rows: Rows, h: Hash, at: Time) {
    && h in rows && rows[h].revoked
    && (rows[h].rotatedTo.Some? && rows[h].revokedAt.Some? ==> rows[h].revokedAt.value + 120 <= at)
  }

  lemma StepKeepsGrace(s: System, e: Event, ttl: int, h: Hash, at: Time)
    requires Valid(s) && Legal(s, e) && GraceEnds(s.rows, h, at)
    ensures GraceEnds(Step(s, e, ttl).rows, h, at)
  {
    hide LinksTrue, OneLive;
  }

  lemma {:induction false} GraceEndsForGood(s: System, run: seq<Event>, ttl: int, h: Hash, at: Time)
    requires Valid(s) && LegalRun(s, run, ttl) && GraceEnds(s.rows, h, at) && PresentedAfter(run, h, at)
    ensures Answers(s, run, ttl, h) == 0
    decreases |run|
  {
    hide LinksTrue, OneLive, Legal, Step, PresentedAfter;
    if run != [] {
      var e := run[0];
      PresentedRest(run, h, at);
      StepKeepsValid(s, e, ttl);
      StepKeepsGrace(s, e, ttl, h, at);
      GraceEndsForGood(Step(s, e, ttl), run[1..], ttl, h, at);
    }
  }

  /** A token rotated at one instant is answered in no run more than 120 seconds later. */
  lemma LateRetryNeverAnswered(s: System, h: Hash, newHash: Hash, now: Time, run: seq<Event>, ttl: int)
    requires Valid(s) && Decide(s.rows, h, now) == Rotate && newHash !in s.rows && PresentedAfter(run, h, now + 120)
    ensures Valid(Step(s, Present(h, newHash, now), ttl))
    ensures var t := Step(s, Present(h, newHash, now), ttl);
            LegalRun(t, run, ttl) ==> Answers(t, run, ttl, h) == 0
  {
    hide Answers, LegalRun, LinksTrue, OneLive, PresentedAfter;
    StepKeepsValid(s, Present(h, newHash, now), ttl);
    var t := Step(s, Present(h, newHash, now), ttl);
    if LegalRun(t, run, ttl) {
      GraceEndsForGood(t, run, ttl, h, now + 120);
    }
  }
}
