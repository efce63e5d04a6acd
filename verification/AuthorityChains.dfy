/** Refresh-token families: one live token, and one chain of rotations each. */
module AuthorityChains {
  import opened Outcome
  import opened AuthorityTables
  import opened AuthoritySteps

  predicate SameFamily(t: Token, u: Token) {
    t.family.Some? && t.family == u.family
  }

  ghost predicate SerialsBelow(tokens: Tokens, serial: nat) {
    forall h :: h in tokens ==> tokens[h].serial < serial
  }

  ghost predicate OneLive(tokens: Tokens) {
    forall h, k :: h in tokens && k in tokens && h != k && SameFamily(tokens[h], tokens[k]) ==>
      tokens[h].revoked || tokens[k].revoked
  }

  ghost predicate OneRoot(tokens: Tokens) {
    forall h, k :: h in tokens && k in tokens && h != k && SameFamily(tokens[h], tokens[k]) ==>
      tokens[h].parent.Some? || tokens[k].parent.Some?
  }

  /** The parent of `h`, if any, is an older token of the family and points back. */
  predicate ParentLinked(tokens: Tokens, h: Hash)
    requires h in tokens
  {
    tokens[h].family.Some? && tokens[h].parent.Some? ==>
      var p := tokens[h].parent.value;
      && p in tokens
      && tokens[p].rotatedTo == Some(h)
      && tokens[p].family == tokens[h].family
      && tokens[p].serial < tokens[h].serial
  }

  /** The successor of `h`, if any, is a token of the family and points back; `h` is then dead. */
  predicate SuccessorLinked(tokens: Tokens, h: Hash)
    requires h in tokens
  {
    tokens[h].family.Some? && tokens[h].rotatedTo.Some? ==>
      var n := tokens[h].rotatedTo.value;
      && tokens[h].revoked
      && n in tokens
      && tokens[n].parent == Some(h)
      && tokens[n].family == tokens[h].family
  }

  ghost predicate ParentsLinked(tokens: Tokens) {
    forall h :: h in tokens ==> ParentLinked(tokens, h)
  }

  ghost predicate SuccessorsLinked(tokens: Tokens) {
    forall h :: h in tokens ==> SuccessorLinked(tokens, h)
  }

  ghost predicate Linked(tokens: Tokens, serial: nat) {
    && SerialsBelow(tokens, serial)
    && OneLive(tokens)
    && OneRoot(tokens)
    && ParentsLinked(tokens)
    && SuccessorsLinked(tokens)
  }

  // ---- the three ways the table changes ------------------------------------------------

  lemma RevokedRow(tokens: Tokens, which: set<Hash>)
    ensures RevokeTokens(tokens, which).Keys == tokens.Keys
    ensures forall h :: h in tokens ==>
              var t := RevokeTokens(tokens, which)[h];
              t == tokens[h].(revoked := t.revoked) && (tokens[h].revoked ==> t.revoked) && (h in which ==> t.revoked)
  {
  }

  lemma RevokeKeepsLinks(tokens: Tokens, serial: nat, which: set<Hash>)
    requires Linked(tokens, serial)
    ensures Linked(RevokeTokens(tokens, which), serial)
  {
    hide RevokeTokens;
    RevokedRow(tokens, which);
    var after := RevokeTokens(tokens, which);
    assert SerialsBelow(after, serial);
    assert OneLive(after);
    assert OneRoot(after);
    forall h | h in after ensures ParentLinked(after, h) && SuccessorLinked(after, h) {
      assert ParentLinked(tokens, h) && SuccessorLinked(tokens, h);
    }
  }

  /** Adding the first token of a family nobody has used. */
  lemma InitialKeepsLinks(tokens: Tokens, serial: nat, hash: Hash, t: Token)
    requires Linked(tokens, serial) && hash !in tokens
    requires forall h :: h in tokens ==> tokens[h].family != t.family
    requires t.parent.None? && t.rotatedTo.None? && t.serial == serial
    ensures Linked(tokens[hash := t], serial + 1)
  {
    hide ParentLinked, SuccessorLinked, OneLive, OneRoot;
    var after := tokens[hash := t];
    InitialPairs(tokens, hash, t);
    forall h | h in after ensures ParentLinked(after, h) && SuccessorLinked(after, h) {
      InitialRow(tokens, hash, t, h);
    }
  }

  lemma InitialPairs(tokens: Tokens, hash: Hash, t: Token)
    requires OneLive(tokens) && OneRoot(tokens)
    requires forall h :: h in tokens ==> tokens[h].family != t.family
    ensures OneLive(tokens[hash := t]) && OneRoot(tokens[hash := t])
  {
  }

  lemma InitialRow(tokens: Tokens, hash: Hash, t: Token, h: Hash)
    requires hash !in tokens && t.parent.None? && t.rotatedTo.None?
    requires h in tokens ==> ParentLinked(tokens, h) && SuccessorLinked(tokens, h)
    requires h in tokens || h == hash
    ensures ParentLinked(tokens[hash := t], h) && SuccessorLinked(tokens[hash := t], h)
  {
  }

  /** A claimed token and its successor. */
  ghost predicate Extends(tokens: Tokens, hash: Hash, newHash: Hash, claimed: Token, next: Token) {
    && hash in tokens && newHash !in tokens
    && !tokens[hash].revoked && tokens[hash].family.Some?
    && claimed == tokens[hash].(revoked := true, rotatedTo := Some(newHash))
    && next.family == tokens[hash].family
    && next.parent == Some(hash) && next.rotatedTo.None?
  }

  lemma RotateKeepsLinks(tokens: Tokens, serial: nat, hash: Hash, newHash: Hash, claimed: Token, next: Token)
    requires Linked(tokens, serial) && Extends(tokens, hash, newHash, claimed, next) && next.serial == serial
    ensures Linked(tokens[hash := claimed][newHash := next], serial + 1)
  {
    hide ParentLinked, SuccessorLinked, OneLive, OneRoot;
    var after := tokens[hash := claimed][newHash := next];
    assert SerialsBelow(after, serial + 1);
    RotatedPairs(tokens, hash, newHash, claimed, next);
    forall h | h in after ensures ParentLinked(after, h) && SuccessorLinked(after, h) {
      RotatedRow(tokens, serial, hash, newHash, claimed, next, h);
    }
  }

  lemma RotatedPairs(tokens: Tokens, hash: Hash, newHash: Hash, claimed: Token, next: Token)
    requires OneLive(tokens) && OneRoot(tokens) && Extends(tokens, hash, newHash, claimed, next)
    ensures OneLive(tokens[hash := claimed][newHash := next]) && OneRoot(tokens[hash := claimed][newHash := next])
  {
    var after := tokens[hash := claimed][newHash := next];
    forall h, k | h in after && k in after && h != k && SameFamily(after[h], after[k])
      ensures (after[h].revoked || after[k].revoked) && (after[h].parent.Some? || after[k].parent.Some?)
    {
      var a := if h == newHash then hash else h;
      var b := if k == newHash then hash else k;
      assert a == b || SameFamily(tokens[a], tokens[b]);
    }
  }

  lemma RotatedRow(tokens: Tokens, serial: nat, hash: Hash, newHash: Hash, claimed: Token, next: Token, h: Hash)
    requires Linked(tokens, serial) && Extends(tokens, hash, newHash, claimed, next) && next.serial == serial
    requires h in tokens || h == newHash
    ensures ParentLinked(tokens[hash := claimed][newHash := next], h)
    ensures SuccessorLinked(tokens[hash := claimed][newHash := next], h)
  {
    hide OneLive, OneRoot;
    if h in tokens {
      assert ParentLinked(tokens, h) && SuccessorLinked(tokens, h);
    }
    assert SuccessorLinked(tokens, hash);
  }

  // ---- a family is one chain --------------------------------------------------------------

  /** The first token of the family of `h`, found by walking parents. */
  ghost function Root(tokens: Tokens, h: Hash): (r: Hash)
    requires ParentsLinked(tokens) && h in tokens && tokens[h].family.Some?
    ensures r in tokens && tokens[r].family == tokens[h].family && tokens[r].parent.None?
    decreases tokens[h].serial
  {
    assert ParentLinked(tokens, h);
    if tokens[h].parent.None? then h else Root(tokens, tokens[h].parent.value)
  }

  /** How many rotations separate `h` from the root. */
  ghost function Depth(tokens: Tokens, h: Hash): (n: nat)
    requires ParentsLinked(tokens) && h in tokens && tokens[h].family.Some?
    decreases tokens[h].serial
  {
    assert ParentLinked(tokens, h);
    if tokens[h].parent.None? then 0 else Depth(tokens, tokens[h].parent.value) + 1
  }

  /** Follows `rotated_to` `n` times. */
  ghost function Follow(tokens: Tokens, h: Hash, n: nat): Option<Hash> {
    if n == 0 then Some(h)
    else
      match Follow(tokens, h, n - 1)
      case Some(k) => if k in tokens then tokens[k].rotatedTo else None
      case None => None
  }

  lemma {:induction false} FollowFromRoot(tokens: Tokens, h: Hash)
    requires ParentsLinked(tokens) && h in tokens && tokens[h].family.Some?
    ensures Follow(tokens, Root(tokens, h), Depth(tokens, h)) == Some(h)
    decreases tokens[h].serial
  {
    assert ParentLinked(tokens, h);
    if tokens[h].parent.Some? {
      FollowFromRoot(tokens, tokens[h].parent.value);
    }
  }

  lemma {:induction false} FollowAdds(tokens: Tokens, h: Hash, m: nat, n: nat)
    requires Follow(tokens, h, m).Some?
    ensures Follow(tokens, h, m + n) == Follow(tokens, Follow(tokens, h, m).value, n)
  {
    if n > 0 {
      FollowAdds(tokens, h, m, n - 1);
    }
  }

  lemma SameRoot(tokens: Tokens, h: Hash, k: Hash)
    requires ParentsLinked(tokens) && OneRoot(tokens)
    requires h in tokens && k in tokens && SameFamily(tokens[h], tokens[k])
    ensures Root(tokens, h) == Root(tokens, k)
  {
    hide ParentsLinked;
    var r, q := Root(tokens, h), Root(tokens, k);
    assert SameFamily(tokens[r], tokens[q]);
  }

  lemma ChainOrder(tokens: Tokens, h: Hash, k: Hash)
    requires ParentsLinked(tokens)
    requires h in tokens && k in tokens && SameFamily(tokens[h], tokens[k]) && Root(tokens, h) == Root(tokens, k)
    requires Depth(tokens, h) <= Depth(tokens, k)
    ensures Follow(tokens, h, Depth(tokens, k) - Depth(tokens, h)) == Some(k)
    ensures Depth(tokens, h) == Depth(tokens, k) ==> h == k
  {
    hide ParentsLinked, Root, Depth;
    FollowFromRoot(tokens, h);
    FollowFromRoot(tokens, k);
    FollowAdds(tokens, Root(tokens, h), Depth(tokens, h), Depth(tokens, k) - Depth(tokens, h));
  }

  /** Any two tokens of a family lie on one chain of rotations. */
  lemma FamilyIsOneChain(tokens: Tokens, serial: nat, h: Hash, k: Hash)
    requires Linked(tokens, serial)
    requires h in tokens && k in tokens && SameFamily(tokens[h], tokens[k])
    ensures Root(tokens, h) == Root(tokens, k)
    ensures Depth(tokens, h) <= Depth(tokens, k) ==>
              Follow(tokens, h, Depth(tokens, k) - Depth(tokens, h)) == Some(k)
    ensures Depth(tokens, h) == Depth(tokens, k) ==> h == k
  {
    hide OneLive, OneRoot, ParentsLinked, SuccessorsLinked, SerialsBelow;
    SameRoot(tokens, h, k);
    if Depth(tokens, h) <= Depth(tokens, k) {
      ChainOrder(tokens, h, k);
    }
  }

  /** Following rotations stays in the family and moves to strictly newer tokens: there is no cycle. */
  lemma {:induction false} ChainIsAcyclic(tokens: Tokens, serial: nat, h: Hash, n: nat)
    requires Linked(tokens, serial) && h in tokens && tokens[h].family.Some?
    requires Follow(tokens, h, n).Some?
    ensures var k := Follow(tokens, h, n).value;
            && k in tokens
            && SameFamily(tokens[h], tokens[k])
            && (n > 0 ==> tokens[h].serial < tokens[k].serial && tokens[h].revoked)
            && (k == h <==> n == 0)
  {
    if n > 0 {
      ChainIsAcyclic(tokens, serial, h, n - 1);
      var j := Follow(tokens, h, n - 1).value;
      assert SuccessorLinked(tokens, j);
      var k := Follow(tokens, h, n).value;
      assert ParentLinked(tokens, k);
    }
  }

  /** A token has one parent and one child at most, and the live one is the last of its chain. */
  lemma ChildIsUnique(tokens: Tokens, serial: nat, h: Hash, k: Hash, p: Hash)
    requires Linked(tokens, serial)
    requires h in tokens && k in tokens && tokens[h].family.Some? && tokens[k].family.Some?
    requires tokens[h].parent == Some(p) && tokens[k].parent == Some(p)
    ensures h == k
    ensures p in tokens && tokens[p].revoked
  {
    assert ParentLinked(tokens, h) && ParentLinked(tokens, k);
    assert SuccessorLinked(tokens, p);
  }

  lemma LiveTokenIsLast(tokens: Tokens, serial: nat, h: Hash, k: Hash)
    requires Linked(tokens, serial)
    requires h in tokens && k in tokens && SameFamily(tokens[h], tokens[k]) && !tokens[h].revoked
    ensures Depth(tokens, k) <= Depth(tokens, h)
    ensures k != h ==> tokens[k].revoked
  {
    if Depth(tokens, h) < Depth(tokens, k) {
      FamilyIsOneChain(tokens, serial, h, k);
      ChainIsAcyclic(tokens, serial, h, Depth(tokens, k) - Depth(tokens, h));
      assert false;
    }
  }
}
