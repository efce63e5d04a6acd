/** Consolidation renames inbounds without changing who reaches them. */
module ConsolidationAccess {
  import opened Outcome
  import opened Decimals
  import opened Consolidation

  ghost predicate DistinctTags(entries: seq<Entry>) {
    forall i, j :: 0 <= i < j < |entries| ==> TagOf(entries[i]) != TagOf(entries[j])
  }

  /** No merged core brings the same tag twice, and only merged cores bring entries. */
  ghost predicate DistinctOrigins(incoming: seq<Incoming>) {
    && (forall i :: 0 <= i < |incoming| ==> MergedCore(incoming[i].core))
    && (forall i, j :: 0 <= i < j < |incoming| && incoming[i].core == incoming[j].core ==>
          TagOf(incoming[i].entry) != TagOf(incoming[j].entry))
  }

  /** A placed tag is new to the existing tags and to those placed before. */
  lemma PlacedIsNew(existing: seq<Entry>, incoming: seq<Incoming>, placed: seq<Entry>, i: nat)
    requires AllPlaced(existing, incoming, placed) && i < |placed|
    ensures forall j :: 0 <= j < |existing| ==> TagOf(existing[j]) != TagOf(placed[i])
    ensures forall j :: 0 <= j < i ==> TagOf(placed[j]) != TagOf(placed[i])
  {
    assert PlacedAt(existing, incoming, placed, i);
    forall j | 0 <= j < i ensures TagOf(placed[j]) in Tags(placed[..i]) {
      assert TagOf(placed[..i][j]) == TagOf(placed[j]);
    }
  }

  /** With unique existing tags, all tags of the merged document are unique. */
  lemma MergedTagsDistinct(existing: seq<Entry>, incoming: seq<Incoming>, placed: seq<Entry>)
    requires DistinctTags(existing) && AllPlaced(existing, incoming, placed)
    ensures DistinctTags(existing + placed)
  {
    var all := existing + placed;
    forall i, j | 0 <= i < j < |all| ensures TagOf(all[i]) != TagOf(all[j]) {
      if j >= |existing| {
        PlacedIsNew(existing, incoming, placed, j - |existing|);
      }
    }
  }

  // ---- the rename map is exact ----------------------------------------------------------------

  lemma CoreHasNoColon(core: string)
    requires MergedCore(core) || core == TARGET_CORE
    ensures NoColon(core)
  {
  }

  lemma RenameKeyInjective(core: string, tag: string, core': string, tag': string)
    requires NoColon(core) && NoColon(core') && RenameKey(core, tag) == RenameKey(core', tag')
    ensures core == core' && tag == tag'
  {
    PrefixDetermined(core, core', tag, tag');
  }

  /** The entry an origin tag was brought by. */
  ghost predicate Brought(incoming: seq<Incoming>, core: string, tag: string, i: nat) {
    i < |incoming| && incoming[i].core == core && TagOf(incoming[i].entry) == tag
  }

  lemma {:induction false} RenameOfBrought(incoming: seq<Incoming>, placed: seq<Entry>, core: string, tag: string, i: nat)
    requires |placed| == |incoming| && DistinctOrigins(incoming) && Brought(incoming, core, tag, i)
    ensures Renamed(RenameMap(incoming, placed), core, tag) == TagOf(placed[i])
  {
    var n := |incoming| - 1;
    CoreHasNoColon(core);
    CoreHasNoColon(incoming[n].core);
    if RenameKey(core, tag) == RenameKey(incoming[n].core, TagOf(incoming[n].entry)) {
      RenameKeyInjective(core, tag, incoming[n].core, TagOf(incoming[n].entry));
      assert i == n;
      RenameOfStranger(incoming[..n], placed[..n], core, tag);
    } else {
      assert i < n;
      RenameOfBrought(incoming[..n], placed[..n], core, tag, i);
    }
  }

  /** Tags nobody brought keep their name. */
  lemma {:induction false} RenameOfStranger(incoming: seq<Incoming>, placed: seq<Entry>, core: string, tag: string)
    requires |placed| == |incoming| && NoColon(core)
    requires forall i :: 0 <= i < |incoming| ==> MergedCore(incoming[i].core) && !Brought(incoming, core, tag, i)
    ensures RenameKey(core, tag) !in RenameMap(incoming, placed)
    ensures Renamed(RenameMap(incoming, placed), core, tag) == tag
  {
    if incoming != [] {
      var n := |incoming| - 1;
      assert !Brought(incoming, core, tag, n);
      forall i | 0 <= i < n ensures MergedCore(incoming[..n][i].core) && !Brought(incoming[..n], core, tag, i) {
        assert !Brought(incoming, core, tag, i);
      }
      RenameOfStranger(incoming[..n], placed[..n], core, tag);
      CoreHasNoColon(incoming[n].core);
      if RenameKey(core, tag) == RenameKey(incoming[n].core, TagOf(incoming[n].entry)) {
        RenameKeyInjective(core, tag, incoming[n].core, TagOf(incoming[n].entry));
        assert false;
      }
    }
  }

  // ---- what a re-pointed mapping grants ------------------------------------------------------------

  ghost predicate Reaches(access: Access, core: string, tag: string) {
    exists i :: 0 <= i < |access| && access[i].core == core && tag in Listed(access[i])
  }

  ghost predicate ReachesAfter(out: map<string, seq<string>>, core: string, tag: string) {
    core in out && tag in out[core]
  }

  ghost predicate FromTag(core: string, tags: seq<string>, renames: map<string, string>, tag: string) {
    exists k :: 0 <= k < |tags| && Renamed(renames, core, tags[k]) == tag
  }

  lemma {:induction false} AddedTags(bucket: seq<string>, core: string, tags: seq<string>, renames: map<string, string>,
                                     tag: string)
    ensures tag in AddTags(bucket, core, tags, renames) <==> tag in bucket || FromTag(core, tags, renames, tag)
  {
    if tags != [] {
      var n := |tags| - 1;
      AddedTags(bucket, core, tags[..n], renames, tag);
      if FromTag(core, tags, renames, tag) {
        var k :| 0 <= k < |tags| && Renamed(renames, core, tags[k]) == tag;
        assert k < n ==> Renamed(renames, core, tags[..n][k]) == tag;
      }
      if FromTag(core, tags[..n], renames, tag) {
        var k :| 0 <= k < n && Renamed(renames, core, tags[..n][k]) == tag;
        assert Renamed(renames, core, tags[k]) == tag;
      }
    }
  }

  /** Item `i` of the mapping yields `tag` on core `t`. */
  ghost predicate Yields(access: Access, renames: map<string, string>, t: string, tag: string, i: nat) {
    i < |access| && Target(access[i].core) == t && FromTag(access[i].core, Listed(access[i]), renames, tag)
  }

  lemma {:induction false} BucketTags(access: Access, renames: map<string, string>, t: string, tag: string)
    ensures tag in Bucket(access, renames, t) <==> exists i: nat :: Yields(access, renames, t, tag, i)
  {
    hide FromTag, Target;
    if access != [] {
      var n := |access| - 1;
      BucketTags(access[..n], renames, t, tag);
      AddedTags(Bucket(access[..n], renames, t), access[n].core, Listed(access[n]), renames, tag);
      forall i: nat | i < n ensures Yields(access[..n], renames, t, tag, i) == Yields(access, renames, t, tag, i) {
      }
      if exists i: nat :: Yields(access, renames, t, tag, i) {
        var i: nat :| Yields(access, renames, t, tag, i);
        assert i < n ==> Yields(access[..n], renames, t, tag, i);
      }
      var last := Target(access[n].core) == t && FromTag(access[n].core, Listed(access[n]), renames, tag);
      assert Yields(access, renames, t, tag, n) == last;
    }
  }

  lemma GrantedAfter(access: Access, renames: map<string, string>, t: string, tag: string)
    ensures ReachesAfter(Repointed(access, renames), t, tag) <==> exists i: nat :: Yields(access, renames, t, tag, i)
  {
    hide FromTag, Target, Bucket;
    BucketTags(access, renames, t, tag);
    if i: nat :| Yields(access, renames, t, tag, i) {
      assert Target(access[i].core) in Targets(access);
    }
  }

  ghost predicate NoRepeats(tags: seq<string>) {
    forall i, j :: 0 <= i < j < |tags| ==> tags[i] != tags[j]
  }

  lemma {:induction false} AddTagsDistinct(bucket: seq<string>, core: string, tags: seq<string>, renames: map<string, string>)
    requires NoRepeats(bucket)
    ensures NoRepeats(AddTags(bucket, core, tags, renames))
  {
    if tags != [] {
      AddTagsDistinct(bucket, core, tags[..|tags| - 1], renames);
      var rest := AddTags(bucket, core, tags[..|tags| - 1], renames);
      var tag := Renamed(renames, core, tags[|tags| - 1]);
      var all := rest + [tag];
      if tag !in rest {
        forall i, j | 0 <= i < j < |all| ensures all[i] != all[j] {
          assert all[i] in rest;
        }
      }
    }
  }

  /** No re-pointed list names a tag twice. */
  lemma {:induction false} BucketDistinct(access: Access, renames: map<string, string>, t: string)
    ensures NoRepeats(Bucket(access, renames, t))
  {
    if access != [] {
      var n := |access| - 1;
      BucketDistinct(access[..n], renames, t);
      AddTagsDistinct(Bucket(access[..n], renames, t), access[n].core, Listed(access[n]), renames);
    }
  }

  // ---- access is preserved ----------------------------------------------------------------------------

  /** A grant on a merged core or on sing-box that names no inbound of it. */
  ghost predicate Stray(existing: seq<Entry>, incoming: seq<Incoming>, core: string, tag: string) {
    if MergedCore(core) then forall i: nat :: !Brought(incoming, core, tag, i)
    else core == TARGET_CORE && tag !in Tags(existing)
  }

  /** The mapping holds a dangling grant of this tag. */
  ghost predicate Dangles(access: Access, existing: seq<Entry>, incoming: seq<Incoming>, tag: string) {
    exists core :: Reaches(access, core, tag) && Stray(existing, incoming, core, tag)
  }

  lemma StrayKeepsName(existing: seq<Entry>, incoming: seq<Incoming>, placed: seq<Entry>, core: string, tag: string)
    requires |placed| == |incoming| && DistinctOrigins(incoming) && Stray(existing, incoming, core, tag)
    ensures Target(core) == TARGET_CORE && Renamed(RenameMap(incoming, placed), core, tag) == tag
  {
    hide RenameMap, Tags, Renamed;
    CoreHasNoColon(core);
    RenameOfStranger(incoming, placed, core, tag);
  }

  lemma YieldsReaches(access: Access, renames: map<string, string>, core: string, tag: string)
    requires Reaches(access, core, tag)
    ensures exists i: nat :: Yields(access, renames, Target(core), Renamed(renames, core, tag), i)
  {
    var i :| 0 <= i < |access| && access[i].core == core && tag in Listed(access[i]);
    var k :| 0 <= k < |Listed(access[i])| && Listed(access[i])[k] == tag;
    assert FromTag(core, Listed(access[i]), renames, Renamed(renames, core, tag));
    assert Yields(access, renames, Target(core), Renamed(renames, core, tag), i);
  }

  lemma YieldedBy(access: Access, renames: map<string, string>, t: string, tag: string, i: nat)
    returns (core: string, origin: string)
    requires Yields(access, renames, t, tag, i)
    ensures Reaches(access, core, origin) && Target(core) == t && Renamed(renames, core, origin) == tag
  {
    core := access[i].core;
    var k :| 0 <= k < |Listed(access[i])| && Renamed(renames, core, Listed(access[i])[k]) == tag;
    origin := Listed(access[i])[k];
  }

  /** A dangling grant reaches whatever inbound has its tag afterwards. */
  lemma DanglingReaches(existing: seq<Entry>, incoming: seq<Incoming>, placed: seq<Entry>, access: Access, tag: string)
    requires |placed| == |incoming| && DistinctOrigins(incoming) && Dangles(access, existing, incoming, tag)
    ensures ReachesAfter(Repointed(access, RenameMap(incoming, placed)), TARGET_CORE, tag)
  {
    hide Reaches, Repointed, RenameMap, Renamed, Stray, Yields;
    var core :| Reaches(access, core, tag) && Stray(existing, incoming, core, tag);
    StrayKeepsName(existing, incoming, placed, core, tag);
    YieldsReaches(access, RenameMap(incoming, placed), core, tag);
    GrantedAfter(access, RenameMap(incoming, placed), TARGET_CORE, tag);
  }

  /** A user reaches a merged inbound exactly when they reached its origin or hold a dangling grant of its new tag. */
  lemma MergedAccess(existing: seq<Entry>, incoming: seq<Incoming>, placed: seq<Entry>, access: Access, i: nat)
    requires DistinctOrigins(incoming) && AllPlaced(existing, incoming, placed) && i < |incoming|
    ensures ReachesAfter(Repointed(access, RenameMap(incoming, placed)), TARGET_CORE, TagOf(placed[i]))
            <==> (|| Reaches(access, incoming[i].core, TagOf(incoming[i].entry))
                  || Dangles(access, existing, incoming, TagOf(placed[i])))
  {
    hide Reaches, Yields, Repointed, PlacedAt, RenameMap, Renamed, Listed, TagOf, DistinctOrigins, Stray;
    var renames := RenameMap(incoming, placed);
    var core, tag := incoming[i].core, TagOf(incoming[i].entry);
    FromMergedCore(incoming, i);
    GrantedAfter(access, renames, TARGET_CORE, TagOf(placed[i]));
    assert Brought(incoming, core, tag, i);
    RenameOfBrought(incoming, placed, core, tag, i);
    if Reaches(access, core, tag) {
      YieldsReaches(access, renames, core, tag);
    }
    if Dangles(access, existing, incoming, TagOf(placed[i])) {
      DanglingReaches(existing, incoming, placed, access, TagOf(placed[i]));
    }
    if j: nat :| Yields(access, renames, TARGET_CORE, TagOf(placed[i]), j) {
      var from, origin := YieldedBy(access, renames, TARGET_CORE, TagOf(placed[i]), j);
      OriginOf(existing, incoming, placed, from, origin, i);
    }
  }

  lemma FromMergedCore(incoming: seq<Incoming>, i: nat)
    requires DistinctOrigins(incoming) && i < |incoming|
    ensures Target(incoming[i].core) == TARGET_CORE
  {
  }

  /** Whatever yields the tag of entry `i` is the origin of entry `i`, or dangles. */
  lemma OriginOf(existing: seq<Entry>, incoming: seq<Incoming>, placed: seq<Entry>, core: string, tag: string, i: nat)
    requires DistinctOrigins(incoming) && AllPlaced(existing, incoming, placed) && i < |incoming|
    requires Target(core) == TARGET_CORE && Renamed(RenameMap(incoming, placed), core, tag) == TagOf(placed[i])
    ensures Brought(incoming, core, tag, i) || (tag == TagOf(placed[i]) && Stray(existing, incoming, core, tag))
  {
    hide RenameMap, Renamed, PlacedAt, TagOf;
    if j: nat :| Brought(incoming, core, tag, j) {
      RenameOfBrought(incoming, placed, core, tag, j);
      SamePlace(existing, incoming, placed, i, j);
    } else {
      CoreHasNoColon(core);
      RenameOfStranger(incoming, placed, core, tag);
      PlacedIsNew(existing, incoming, placed, i);
    }
  }

  lemma SamePlace(existing: seq<Entry>, incoming: seq<Incoming>, placed: seq<Entry>, i: nat, j: nat)
    requires AllPlaced(existing, incoming, placed) && i < |placed| && j < |placed| && TagOf(placed[i]) == TagOf(placed[j])
    ensures i == j
  {
    hide PlacedAt, TagOf;
    PlacedIsNew(existing, incoming, placed, i);
    PlacedIsNew(existing, incoming, placed, j);
  }

  /** They reach an inbound sing-box already had exactly when they did before or hold a dangling grant of its tag. */
  lemma ExistingAccess(existing: seq<Entry>, incoming: seq<Incoming>, placed: seq<Entry>, access: Access, e: nat)
    requires DistinctOrigins(incoming) && AllPlaced(existing, incoming, placed) && e < |existing|
    ensures ReachesAfter(Repointed(access, RenameMap(incoming, placed)), TARGET_CORE, TagOf(existing[e]))
            <==> (|| Reaches(access, TARGET_CORE, TagOf(existing[e]))
                  || Dangles(access, existing, incoming, TagOf(existing[e])))
  {
    hide Reaches, Yields, Repointed, RenameMap, Renamed, Listed, TagOf, PlacedAt;
    var renames := RenameMap(incoming, placed);
    var tag := TagOf(existing[e]);
    GrantedAfter(access, renames, TARGET_CORE, tag);
    CoreHasNoColon(TARGET_CORE);
    if Reaches(access, TARGET_CORE, tag) {
      RenameOfStranger(incoming, placed, TARGET_CORE, tag);
      YieldsReaches(access, renames, TARGET_CORE, tag);
    }
    if Dangles(access, existing, incoming, tag) {
      DanglingReaches(existing, incoming, placed, access, tag);
    }
    if j: nat :| Yields(access, renames, TARGET_CORE, tag, j) {
      var from, origin := YieldedBy(access, renames, TARGET_CORE, tag, j);
      ExistingOrigin(existing, incoming, placed, from, origin, e);
    }
  }

  lemma ExistingOrigin(existing: seq<Entry>, incoming: seq<Incoming>, placed: seq<Entry>, core: string, tag: string, e: nat)
    requires DistinctOrigins(incoming) && AllPlaced(existing, incoming, placed) && e < |existing|
    requires Target(core) == TARGET_CORE && Renamed(RenameMap(incoming, placed), core, tag) == TagOf(existing[e])
    ensures tag == TagOf(existing[e]) && (core == TARGET_CORE || Stray(existing, incoming, core, tag))
  {
    hide RenameMap, Renamed, PlacedAt, TagOf;
    if i: nat :| Brought(incoming, core, tag, i) {
      RenameOfBrought(incoming, placed, core, tag, i);
      PlacedIsNew(existing, incoming, placed, i);
      assert false;
    } else {
      CoreHasNoColon(core);
      RenameOfStranger(incoming, placed, core, tag);
    }
  }

  /** Without dangling grants access is preserved on both kinds of inbound. */
  lemma NothingDangles(existing: seq<Entry>, incoming: seq<Incoming>, placed: seq<Entry>, access: Access, i: nat, e: nat)
    requires DistinctOrigins(incoming) && AllPlaced(existing, incoming, placed) && i < |incoming| && e < |existing|
    requires forall core, tag :: Reaches(access, core, tag) ==> !Stray(existing, incoming, core, tag)
    ensures var out := Repointed(access, RenameMap(incoming, placed));
            && (ReachesAfter(out, TARGET_CORE, TagOf(placed[i]))
                <==> Reaches(access, incoming[i].core, TagOf(incoming[i].entry)))
            && (ReachesAfter(out, TARGET_CORE, TagOf(existing[e])) <==> Reaches(access, TARGET_CORE, TagOf(existing[e])))
  {
    hide Reaches, Repointed, RenameMap, TagOf, PlacedAt, Stray, ReachesAfter;
    MergedAccess(existing, incoming, placed, access, i);
    ExistingAccess(existing, incoming, placed, access, e);
  }

  // ---- other cores ---------------------------------------------------------------------------------------

  /** Who reaches what on a core is the same before and after, whatever the grants. */
  ghost predicate Undisturbed(renames: map<string, string>, core: string) {
    forall access: Access, tag: string :: SameReach(renames, core, access, tag)
  }

  ghost predicate SameReach(renames: map<string, string>, core: string, access: Access, tag: string) {
    ReachesAfter(Repointed(access, renames), core, tag) <==> Reaches(access, core, tag)
  }

  /** No rename key reads as this core followed by a colon and a tag. */
  ghost predicate Unclaimed(renames: map<string, string>, core: string) {
    forall tag :: RenameKey(core, tag) !in renames
  }

  lemma UnclaimedIsUndisturbed(renames: map<string, string>, access: Access, core: string, tag: string)
    requires !MergedCore(core) && core != TARGET_CORE && Unclaimed(renames, core)
    ensures SameReach(renames, core, access, tag)
  {
    hide Reaches, Yields, Repointed, Listed;
    GrantedAfter(access, renames, core, tag);
    if Reaches(access, core, tag) {
      assert Renamed(renames, core, tag) == tag;
      YieldsReaches(access, renames, core, tag);
    }
    if j: nat :| Yields(access, renames, core, tag, j) {
      var from, origin := YieldedBy(access, renames, core, tag, j);
      assert Renamed(renames, core, origin) == origin;
    }
  }

  /** The entry behind a rename: its new tag is longer than its old one. */
  lemma {:induction false} RenameOrigin(existing: seq<Entry>, incoming: seq<Incoming>, placed: seq<Entry>, key: string)
    returns (i: nat)
    requires AllPlaced(existing, incoming, placed) && key in RenameMap(incoming, placed)
    ensures i < |incoming| && key == RenameKey(incoming[i].core, TagOf(incoming[i].entry))
    ensures |RenameMap(incoming, placed)[key]| > |TagOf(incoming[i].entry)|
  {
    hide PlacedAt, TagOf;
    var n := |incoming| - 1;
    if TagOf(incoming[n].entry) != TagOf(placed[n]) && key == RenameKey(incoming[n].core, TagOf(incoming[n].entry)) {
      i := n;
      LongerTag(existing, incoming, placed, n);
    } else {
      PlacedBefore(existing, incoming, placed, n);
      i := RenameOrigin(existing, incoming[..n], placed[..n], key);
    }
  }

  lemma PlacedBefore(existing: seq<Entry>, incoming: seq<Incoming>, placed: seq<Entry>, n: nat)
    requires AllPlaced(existing, incoming, placed) && n <= |incoming|
    ensures AllPlaced(existing, incoming[..n], placed[..n])
  {
    hide Placed, TagOf;
    forall i | 0 <= i < n ensures PlacedAt(existing, incoming[..n], placed[..n], i) {
      assert PlacedAt(existing, incoming, placed, i);
      assert placed[..n][..i] == placed[..i];
    }
  }

  lemma LongerTag(existing: seq<Entry>, incoming: seq<Incoming>, placed: seq<Entry>, i: nat)
    requires AllPlaced(existing, incoming, placed) && i < |incoming| && TagOf(incoming[i].entry) != TagOf(placed[i])
    ensures |TagOf(placed[i])| > |TagOf(incoming[i].entry)|
  {
    hide TagOf, Tags;
    assert PlacedAt(existing, incoming, placed, i);
  }

  lemma ClaimedIsDisturbed(existing: seq<Entry>, incoming: seq<Incoming>, placed: seq<Entry>, core: string, tag: string)
    requires AllPlaced(existing, incoming, placed) && DistinctOrigins(incoming)
    requires !MergedCore(core) && core != TARGET_CORE && RenameKey(core, tag) in RenameMap(incoming, placed)
    ensures !SameReach(RenameMap(incoming, placed), core, [Grant(core, Some([tag]))], tag)
  {
    hide PlacedAt, RenameMap, Repointed, MergedCore;
    var renames := RenameMap(incoming, placed);
    var access := [Grant(core, Some([tag]))];
    var i := RenameOrigin(existing, incoming, placed, RenameKey(core, tag));
    CoreHasNoColon(incoming[i].core);
    KeyTail(incoming[i].core, TagOf(incoming[i].entry), core, tag);
    assert |Renamed(renames, core, tag)| > |tag|;
    assert Reaches(access, core, tag) by {
      assert access[0].core == core && tag in Listed(access[0]);
    }
    GrantedAfter(access, renames, core, tag);
    if j: nat :| Yields(access, renames, core, tag, j) {
      var from, origin := YieldedBy(access, renames, core, tag, j);
      OnlyGrant(core, tag, from, origin);
      assert false;
    }
  }

  lemma OnlyGrant(core: string, tag: string, from: string, origin: string)
    requires Reaches([Grant(core, Some([tag]))], from, origin)
    ensures from == core && origin == tag
  {
  }

  /** Of two splits of a key at a colon, the one with a colon-free core has the longer tag. */
  lemma KeyTail(core: string, tag: string, core': string, tag': string)
    requires NoColon(core) && RenameKey(core, tag) == RenameKey(core', tag')
    ensures |tag'| <= |tag|
  {
    var key, other := RenameKey(core, tag), RenameKey(core', tag');
    assert other[|core'|] == ':';
    assert forall i :: 0 <= i < |core| ==> key[i] == core[i];
    assert |core'| >= |core|;
  }

  /** A core outside the merge keeps its grants exactly when no rename key can be read as one of its own. */
  lemma OtherAccessIff(existing: seq<Entry>, incoming: seq<Incoming>, placed: seq<Entry>, core: string)
    requires AllPlaced(existing, incoming, placed) && DistinctOrigins(incoming)
    requires !MergedCore(core) && core != TARGET_CORE
    ensures Undisturbed(RenameMap(incoming, placed), core) <==> Unclaimed(RenameMap(incoming, placed), core)
  {
    hide PlacedAt, RenameMap, SameReach, MergedCore, DistinctOrigins, RenameKey;
    var renames := RenameMap(incoming, placed);
    if Unclaimed(renames, core) {
      forall access: Access, tag: string ensures SameReach(renames, core, access, tag) {
        UnclaimedIsUndisturbed(renames, access, core, tag);
      }
    }
    if tag :| RenameKey(core, tag) in renames {
      ClaimedIsDisturbed(existing, incoming, placed, core, tag);
    }
  }

  /** In particular every core whose id has no colon keeps its grants. */
  lemma PlainCoreUnclaimed(incoming: seq<Incoming>, placed: seq<Entry>, core: string)
    requires |placed| == |incoming| && DistinctOrigins(incoming) && !MergedCore(core) && NoColon(core)
    ensures Unclaimed(RenameMap(incoming, placed), core)
  {
    hide RenameMap, MergedCore;
    forall tag ensures RenameKey(core, tag) !in RenameMap(incoming, placed) {
      forall i | 0 <= i < |incoming| ensures MergedCore(incoming[i].core) && !Brought(incoming, core, tag, i) {
      }
      RenameOfStranger(incoming, placed, core, tag);
    }
  }

  /** A core id with a colon can be disturbed: a grant on `tuic:a` follows the rename of `a:b` on `tuic`. */
  lemma ColonCoreDisturbed()
    ensures var e := Entry(Some("a:b"), "");
            var placed := [Entry(Some("a:b-from-tuic"), "")];
            AllPlaced([e], [Incoming("tuic", e)], placed)
            && !Undisturbed(RenameMap([Incoming("tuic", e)], placed), "tuic:a")
  {
    var e := Entry(Some("a:b"), "");
    var incoming, placed := [Incoming("tuic", e)], [Entry(Some("a:b-from-tuic"), "")];
    assert e.tag.value != "";
    assert Candidate(Base("tuic", "a:b"), 1) == "a:b-from-tuic";
    assert TagOf([e][0]) == "a:b";
    assert "a:b" in Tags([e]);
    assert placed[..0] == [] && Tags([]) == {};
    assert |"a:b-from-tuic"| == 13 && |"a:b"| == 3;
    assert AllUsed(Tags([e]) + Tags(placed[..0]), Base("tuic", "a:b"), 1);
    assert PlacedAt([e], incoming, placed, 0);
    assert incoming[..0] == [];
    assert RenameKey("tuic", "a:b") == "tuic:a:b" == RenameKey("tuic:a", "b");
    ClaimedIsDisturbed([e], incoming, placed, "tuic:a", "b");
  }
}
