/** Folding standalone cores into sing-box: `app/cores/consolidation.py`. */
module Consolidation {
  import opened Basics
  import opened Outcome
  import opened Decimals

  /** An inbound; `body` stands for every field but the tag. */
  datatype Entry = Entry(tag: Option<string>, body: string)

  datatype Incoming = Incoming(core: string, entry: Entry)

  const TARGET_CORE: string := "sing-box"

  predicate MergedCore(core: string) {
    core == "hysteria2" || core == "tuic"
  }

  /** `str(entry.get("tag"))` */
  function TagOf(e: Entry): string {
    if e.tag.Some? then e.tag.value else "None"
  }

  function Tags(entries: seq<Entry>): (r: set<string>)
    ensures forall t :: t in r <==> exists i :: 0 <= i < |entries| && TagOf(entries[i]) == t
  {
    set i | 0 <= i < |entries| :: TagOf(entries[i])
  }

  predicate Tagged(i: Incoming) {
    i.entry.tag.Some? && i.entry.tag.value != ""
  }

  // ---- free names ------------------------------------------------------------------------

  function Base(core: string, tag: string): string {
    tag + "-from-" + core
  }

  /** The candidates in the order they are tried, counted from 1. */
  function Candidate(base: string, n: nat): string {
    if n <= 1 then base else base + "-" + Digits(n)
  }

  lemma CandidatesDiffer(base: string, m: nat, n: nat)
    requires 1 <= m < n
    ensures Candidate(base, m) != Candidate(base, n)
  {
    hide Digits;
    if Candidate(base, m) == Candidate(base, n) {
      var a, b := Candidate(base, m), Candidate(base, n);
      assert |b| > |base| && a[|base|..] == b[|base|..];
      assert b[|base|..] == "-" + Digits(n);
      assert b[|base|..][1..] == Digits(n);
      if m > 1 {
        assert a[|base|..] == "-" + Digits(m);
        assert a[|base|..][1..] == Digits(m);
        DigitsInjective(m, n);
      }
      assert false;
    }
  }

  /** The first `n` candidates, as a set of that size. */
  ghost function Tried(base: string, n: nat): (r: set<string>)
    ensures |r| == n
    ensures forall c :: c in r <==> exists m :: 1 <= m <= n && c == Candidate(base, m)
  {
    if n == 0 then {}
    else
      var rest := Tried(base, n - 1);
      assert Candidate(base, n) !in rest by {
        forall m | 1 <= m <= n - 1 ensures Candidate(base, m) != Candidate(base, n) {
          CandidatesDiffer(base, m, n);
        }
      }
      rest + {Candidate(base, n)}
  }

  lemma TriedFits(base: string, n: nat, used: set<string>)
    requires forall m :: 1 <= m <= n ==> Candidate(base, m) in used
    ensures n <= |used|
  {
    assert Tried(base, n) <= used;
    SubsetSize(Tried(base, n), used);
  }

  /** The chosen name is the first candidate not in use. */
  ghost predicate FirstFree(used: set<string>, base: string, name: string) {
    name !in used && exists n: nat :: n >= 1 && name == Candidate(base, n) && AllUsed(used, base, n)
  }

  /** The names tried: tag and core joined by `-from-`, then the same with `-2`, `-3` and so on. */
  lemma CandidateNames(core: string, tag: string, n: nat)
    ensures Candidate(Base(core, tag), 1) == tag + "-from-" + core
    ensures n >= 2 ==>
              var c := Candidate(Base(core, tag), n);
              var k := |tag| + 7 + |core|;
              && |c| > k && c[..k] == tag + "-from-" + core + "-"
              && (forall i :: 0 <= i < |c[k..]| ==> '0' <= c[k..][i] <= '9') && Spelled(c[k..]) == n
  {
    hide Digits, Spelled;
    DigitsSpell(n);
    if n >= 2 {
      var c := Candidate(Base(core, tag), n);
      var k := |tag| + 7 + |core|;
      assert c == tag + "-from-" + core + "-" + Digits(n);
      assert c[k..] == Digits(n);
    }
  }

  /** Every candidate before the `n`th is taken. */
  ghost predicate AllUsed(used: set<string>, base: string, n: nat) {
    forall m :: 1 <= m < n ==> Candidate(base, m) in used
  }

  /** The suffix search ends: it can fail at most once per name in use. */
  method FreeName(used: set<string>, core: string, tag: string) returns (candidate: string)
    ensures FirstFree(used, Base(core, tag), candidate)
  {
    hide Digits, Base;
    var base := Base(core, tag);
    candidate := base;
    var suffix := 2;
    ghost var n: nat := 1;
    while candidate in used
      invariant n >= 1 && suffix == n + 1 && candidate == Candidate(base, n)
      invariant AllUsed(used, base, n)
      decreases |used| + 1 - n
    {
      TriedFits(base, n, used);
      candidate := base + "-" + Digits(suffix);
      suffix := suffix + 1;
      n := n + 1;
    }
  }

  // ---- merging the documents ------------------------------------------------------------------

  /** The tag an incoming entry gets when `used` are taken. */
  ghost predicate Placed(used: set<string>, i: Incoming, tag: string) {
    if TagOf(i.entry) in used then FirstFree(used, Base(i.core, TagOf(i.entry)), tag) else tag == TagOf(i.entry)
  }

  function RenameKey(core: string, tag: string): string {
    core + ":" + tag
  }

  function RenameMap(incoming: seq<Incoming>, placed: seq<Entry>): map<string, string>
    requires |placed| == |incoming|
  {
    if incoming == [] then map[]
    else
      var n := |incoming| - 1;
      var rest := RenameMap(incoming[..n], placed[..n]);
      var was, now := TagOf(incoming[n].entry), TagOf(placed[n]);
      if was == now then rest else rest[RenameKey(incoming[n].core, was) := now]
  }

  ghost predicate PlacedAt(existing: seq<Entry>, incoming: seq<Incoming>, placed: seq<Entry>, i: nat)
    requires i < |incoming| && |placed| == |incoming|
  {
    && Tagged(incoming[i])
    && placed[i] == incoming[i].entry.(tag := Some(TagOf(placed[i])))
    && Placed(Tags(existing) + Tags(placed[..i]), incoming[i], TagOf(placed[i]))
  }

  /** Every incoming entry follows, in order, with its own fields and the tag its turn gives it. */
  ghost predicate AllPlaced(existing: seq<Entry>, incoming: seq<Incoming>, placed: seq<Entry>) {
    |placed| == |incoming| && forall i :: 0 <= i < |incoming| ==> PlacedAt(existing, incoming, placed, i)
  }

  lemma TagsAppend(entries: seq<Entry>, e: Entry)
    ensures Tags(entries + [e]) == Tags(entries) + {TagOf(e)}
  {
    var all := entries + [e];
    forall t | t in Tags(entries) + {TagOf(e)} ensures t in Tags(all) {
      if t in Tags(entries) {
        var i :| 0 <= i < |entries| && TagOf(entries[i]) == t;
        assert TagOf(all[i]) == t;
      } else {
        assert TagOf(all[|entries|]) == t;
      }
    }
    forall t | t in Tags(all) ensures t in Tags(entries) + {TagOf(e)} {
      var i :| 0 <= i < |all| && TagOf(all[i]) == t;
    }
  }

  lemma PlaceNext(existing: seq<Entry>, incoming: seq<Incoming>, placed: seq<Entry>, next: Incoming, e: Entry)
    requires AllPlaced(existing, incoming, placed) && Tagged(next)
    requires e == next.entry.(tag := Some(TagOf(e)))
    requires Placed(Tags(existing) + Tags(placed), next, TagOf(e))
    ensures AllPlaced(existing, incoming + [next], placed + [e])
  {
    hide Placed, Tags;
    var ins, outs := incoming + [next], placed + [e];
    forall i | 0 <= i < |ins| ensures PlacedAt(existing, ins, outs, i) {
      if i < |incoming| {
        assert PlacedAt(existing, incoming, placed, i);
        assert outs[..i] == placed[..i];
      } else {
        assert outs[..i] == placed;
      }
    }
  }

  predicate FirstUntagged(incoming: seq<Incoming>, i: nat)
    requires i < |incoming|
  {
    !Tagged(incoming[i]) && forall k :: 0 <= k < i ==> Tagged(incoming[k])
  }

  /** Fails exactly when an incoming entry has no tag; the error names its core. */
  method MergeInboundEntries(existing: seq<Entry>, incoming: seq<Incoming>)
    returns (r: Result<(seq<Entry>, map<string, string>), string>, ghost placed: seq<Entry>)
    ensures r.Ok? <==> forall i :: 0 <= i < |incoming| ==> Tagged(incoming[i])
    ensures r.Err? ==> exists i :: 0 <= i < |incoming| && FirstUntagged(incoming, i) && r.error == incoming[i].core
    ensures r.Ok? ==> AllPlaced(existing, incoming, placed)
    ensures r.Ok? ==> r.value == (existing + placed, RenameMap(incoming, placed))
  {
    hide Placed, FirstFree, Tags, Base, AllPlaced, RenameMap, TagOf;
    var merged, used := existing, Tags(existing);
    var renames: map<string, string> := map[];
    placed := [];
    NothingPlaced(existing);
    for i := 0 to |incoming|
      invariant forall k :: 0 <= k < i ==> Tagged(incoming[k])
      invariant |placed| == i && AllPlaced(existing, incoming[..i], placed)
      invariant merged == existing + placed && used == Tags(existing) + Tags(placed)
      invariant renames == RenameMap(incoming[..i], placed)
    {
      var next := incoming[i];
      if !Tagged(next) {
        return Err(next.core), [];
      }
      var tag := TagOf(next.entry);
      var item := next.entry;
      if tag in used {
        var candidate := FreeName(used, next.core, tag);
        renames := renames[RenameKey(next.core, tag) := candidate];
        item := item.(tag := Some(candidate));
        TagOfNew(item, candidate);
      }
      TagPlaced(used, next, tag, item);
      PlaceNext(existing, incoming[..i], placed, next, item);
      TagsAppend(placed, item);
      RenameNext(incoming[..i], placed, next, item);
      assert incoming[..i + 1] == incoming[..i] + [next];
      used := used + {TagOf(item)};
      merged := merged + [item];
      placed := placed + [item];
    }
    assert incoming[..|incoming|] == incoming;
    r := Ok((merged, renames));
  }

  lemma TagOfNew(e: Entry, tag: string)
    requires e.tag == Some(tag)
    ensures TagOf(e) == tag
  {
  }

  lemma NothingPlaced(existing: seq<Entry>)
    ensures AllPlaced(existing, [], []) && RenameMap([], []) == map[]
    ensures Tags([]) == {}
  {
  }

  lemma RenameNext(incoming: seq<Incoming>, placed: seq<Entry>, next: Incoming, e: Entry)
    requires |placed| == |incoming|
    ensures RenameMap(incoming + [next], placed + [e])
            == if TagOf(next.entry) == TagOf(e) then RenameMap(incoming, placed)
               else RenameMap(incoming, placed)[RenameKey(next.core, TagOf(next.entry)) := TagOf(e)]
  {
    assert (incoming + [next])[..|incoming|] == incoming && (placed + [e])[..|placed|] == placed;
  }

  lemma TagPlaced(used: set<string>, next: Incoming, tag: string, item: Entry)
    requires tag == TagOf(next.entry)
    requires item == next.entry.(tag := item.tag) && Tagged(next) && item.tag.Some?
    requires if tag in used then FirstFree(used, Base(next.core, tag), TagOf(item)) else TagOf(item) == tag
    ensures Placed(used, next, TagOf(item))
    ensures tag in used <==> TagOf(item) != tag
    ensures item == next.entry.(tag := Some(TagOf(item)))
  {
  }

  // ---- re-pointing grants --------------------------------------------------------------------

  /** One item of a `core_access` mapping; the tag list may be null. */
  datatype Grant = Grant(core: string, tags: Option<seq<string>>)

  type Access = seq<Grant>

  function Listed(g: Grant): seq<string> {
    if g.tags.Some? then g.tags.value else []
  }

  function Target(core: string): string {
    if MergedCore(core) then TARGET_CORE else core
  }

  /** Grants on the two folded cores move to sing-box; grants on any other core stay. */
  lemma Targeted(core: string)
    ensures Target(core) == if core in ["hysteria2", "tuic"] then "sing-box" else core
  {
  }

  function Renamed(renames: map<string, string>, core: string, tag: string): string {
    var key := RenameKey(core, tag);
    if key in renames then renames[key] else tag
  }

  /** Adds the renamed tags that are not there yet. */
  function AddTags(bucket: seq<string>, core: string, tags: seq<string>, renames: map<string, string>): seq<string> {
    if tags == [] then bucket
    else
      var rest := AddTags(bucket, core, tags[..|tags| - 1], renames);
      var tag := Renamed(renames, core, tags[|tags| - 1]);
      if tag in rest then rest else rest + [tag]
  }

  /** The tags granted on core `t` after the items seen. */
  function Bucket(access: Access, renames: map<string, string>, t: string): seq<string> {
    if access == [] then []
    else
      var rest, last := Bucket(access[..|access| - 1], renames, t), access[|access| - 1];
      if Target(last.core) == t then AddTags(rest, last.core, Listed(last), renames) else rest
  }

  function Targets(access: Access): set<string> {
    set i | 0 <= i < |access| :: Target(access[i].core)
  }

  function Repointed(access: Access, renames: map<string, string>): map<string, seq<string>> {
    map t | t in Targets(access) :: Bucket(access, renames, t)
  }

  lemma RepointNext(access: Access, renames: map<string, string>, g: Grant)
    ensures Repointed(access + [g], renames)
            == Repointed(access, renames)[Target(g.core) :=
                 AddTags(Bucket(access, renames, Target(g.core)), g.core, Listed(g), renames)]
  {
    var all := access + [g];
    assert all[..|access|] == access;
    assert Targets(all) == Targets(access) + {Target(g.core)} by {
      assert all[|access|] == g;
      forall t | t in Targets(access) ensures t in Targets(all) {
        var i :| 0 <= i < |access| && Target(access[i].core) == t;
        assert all[i] == access[i];
      }
    }
  }

  lemma {:induction false} UntargetedIsEmpty(access: Access, renames: map<string, string>, t: string)
    requires t !in Targets(access)
    ensures Bucket(access, renames, t) == []
  {
    if access != [] {
      var n := |access| - 1;
      assert Target(access[n].core) in Targets(access);
      forall u | u in Targets(access[..n]) ensures u in Targets(access) {
        var i :| 0 <= i < n && Target(access[..n][i].core) == u;
        assert access[i] == access[..n][i];
      }
      UntargetedIsEmpty(access[..n], renames, t);
    }
  }

  method MergeCoreAccess(access: Option<Access>, renames: map<string, string>)
    returns (out: Option<map<string, seq<string>>>)
    ensures out.None? <==> access.None?
    ensures access.Some? ==> out == Some(Repointed(access.value, renames))
  {
    hide Bucket, AddTags, Targets, Repointed, Renamed;
    if access.None? {
      return None;
    }
    var items := access.value;
    var result: map<string, seq<string>> := map[];
    NothingRepointed(renames);
    for i := 0 to |items|
      invariant result == Repointed(items[..i], renames)
    {
      var core := items[i].core;
      var target := if MergedCore(core) then TARGET_CORE else core;
      var bucket := BucketSoFar(result, items[..i], renames, target);
      var tags := Listed(items[i]);
      bucket := Extend(bucket, core, tags, renames);
      result := result[target := bucket];
      RepointNext(items[..i], renames, items[i]);
      assert items[..i + 1] == items[..i] + [items[i]];
    }
    assert items[..|items|] == items;
    out := Some(result);
  }

  /** `setdefault(target, [])` */
  method BucketSoFar(result: map<string, seq<string>>, ghost items: Access, ghost renames: map<string, string>, t: string)
    returns (bucket: seq<string>)
    requires result == Repointed(items, renames)
    ensures bucket == Bucket(items, renames, t)
  {
    if t in result {
      bucket := result[t];
    } else {
      bucket := [];
      UntargetedIsEmpty(items, renames, t);
    }
  }

  method Extend(bucket: seq<string>, core: string, tags: seq<string>, renames: map<string, string>)
    returns (r: seq<string>)
    ensures r == AddTags(bucket, core, tags, renames)
  {
    r := bucket;
    for i := 0 to |tags|
      invariant r == AddTags(bucket, core, tags[..i], renames)
    {
      assert tags[..i + 1][..i] == tags[..i];
      var renamed := Renamed(renames, core, tags[i]);
      if renamed !in r {
        r := r + [renamed];
      }
    }
    assert tags[..|tags|] == tags;
  }

  lemma NothingRepointed(renames: map<string, string>)
    ensures Repointed([], renames) == map[]
  {
  }
}
