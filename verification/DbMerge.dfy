/** The one-time merge of the legacy database, under crashes at any step: `app/dbmerge.py`. */
module DbMerge {
  import opened Outcome

  type Row = string
  type Database = map<string, seq<Row>>

  const MARKER_VERSION: nat := 2
  const CHUNK: nat := 1000

  /** The tables of the legacy models under their names in the main database, and the kind of legacy database. */
  datatype Config = Config(tables: seq<string>, sqlite: bool)

  /** The name a table has in the legacy database. */
  function Source(t: string): string {
    match t
    case "legacy_users" => "users"
    case "legacy_admins" => "admins"
    case "legacy_nodes" => "nodes"
    case "legacy_next_plans" => "next_plans"
    case _ => t
  }

  /** Four names clash with the panel's own tables and carry a prefix in main; all others are the same in both. */
  lemma SourceNames(t: string)
    ensures Source(t) == if t in ["legacy_users", "legacy_admins", "legacy_nodes", "legacy_next_plans"] then t[7..] else t
  {
    if t in ["legacy_users", "legacy_admins", "legacy_nodes", "legacy_next_plans"] {
      assert "legacy_users"[7..] == "users" && "legacy_admins"[7..] == "admins";
      assert "legacy_nodes"[7..] == "nodes" && "legacy_next_plans"[7..] == "next_plans";
    }
  }

  /**
    * What survives a crash. `legacy` is absent when its sqlite file is. `live` and `commit` are
    * history: the legacy content as the panel last left it, and main as committed with the marker.
    */
  datatype Disk = Disk(main: Database, marker: nat, legacy: Option<Database>, live: Option<Database>,
                       commit: Option<Database>)

  /** Where a boot stands; the copy works on an uncommitted image of main. */
  datatype Stage =
    | Idle
    | Provision(next: nat, retire: bool)
    | Mark(retire: bool)
    | Dropping(next: nat)
    | Creating(next: nat)
    | Copying(next: nat, rows: nat, image: Database)
    | Retire

  datatype System = System(disk: Disk, stage: Stage)

  predicate Merged(d: Disk) {
    d.marker >= MARKER_VERSION
  }

  /** The first decisions of `main`, up to the first effect. */
  function Begin(cfg: Config, d: Disk, reachable: bool): Stage {
    if Merged(d) then
      if (if cfg.sqlite then d.legacy.Some? else reachable) then Retire else Idle
    else if cfg.sqlite && d.legacy.None? then Provision(0, false)
    else if !cfg.sqlite && !reachable then Idle
    else if d.legacy.None? || d.legacy.value == map[] then Provision(0, true)
    else Dropping(0)
  }

  function Rows(db: Database, t: string): seq<Row> {
    if t in db then db[t] else []
  }

  /** Sets the marker together with everything else in the transaction. */
  function Commit(d: Disk, image: Database): Disk {
    d.(main := image, marker := MARKER_VERSION, commit := Some(image))
  }

  /** A sqlite file is renamed away; in a server database the tables are dropped. */
  function Retired(cfg: Config, d: Disk): Disk {
    d.(legacy := if cfg.sqlite || d.legacy.None? then None else Some(map[]))
  }

  /** One effect of the boot. */
  function Advance(cfg: Config, s: System): System {
    var d, n := s.disk, |cfg.tables|;
    match s.stage
    case Idle => s
    case Provision(i, retire) =>
      if i >= n then System(d, Mark(retire))
      else
        var t := cfg.tables[i];
        System(if t in d.main then d else d.(main := d.main[t := []]), Provision(i + 1, retire))
    case Mark(retire) => System(Commit(d, d.main), if retire then Retire else Idle)
    case Dropping(i) =>
      if i >= n then System(d, Creating(0))
      else System(d.(main := d.main - {cfg.tables[i]}), Dropping(i + 1))
    case Creating(i) =>
      if i >= n then System(d, Copying(0, 0, d.main))
      else
        var t := cfg.tables[i];
        System(if t in d.main then d else d.(main := d.main[t := []]), Creating(i + 1))
    case Copying(i, k, image) =>
      if i >= n then System(Commit(d, image), Retire)
      else
        var t := cfg.tables[i];
        if d.legacy.None? || Source(t) !in d.legacy.value || k >= |d.legacy.value[Source(t)]| then
          System(d, Copying(i + 1, 0, image))
        else
          var source := d.legacy.value[Source(t)];
          var upTo := if k + CHUNK <= |source| then k + CHUNK else |source|;
          System(d, Copying(i, upTo, image[t := Rows(image, t) + source[k..upTo]]))
    case Retire => System(Retired(cfg, d), Idle)
  }

  datatype Event =
    | Boot(reachable: bool)
    | Work
    | Crash
    | Panel(main: Database, legacy: Database)

  /** A panel runs between boots only; until the merge it lives in the legacy database. */
  function Step(cfg: Config, s: System, e: Event): System {
    match e
    case Boot(reachable) => if s.stage.Idle? then System(s.disk, Begin(cfg, s.disk, reachable)) else s
    case Work => Advance(cfg, s)
    case Crash => System(s.disk, Idle)
    case Panel(main, legacy) =>
      if !s.stage.Idle? then s
      else if Merged(s.disk) then s.(disk := s.disk.(main := main))
      else s.(disk := s.disk.(main := main, legacy := Some(legacy), live := Some(legacy)))
  }

  // ---- no row is lost ---------------------------------------------------------------------

  ghost predicate Sane(cfg: Config) {
    && (forall i, j :: 0 <= i < j < |cfg.tables| ==> cfg.tables[i] != cfg.tables[j])
  }

  /** Every modelled table of the legacy database was in main when the marker was committed. */
  ghost predicate CopiedAll(cfg: Config, live: Option<Database>, commit: Option<Database>) {
    && commit.Some?
    && (live.Some? ==> forall i :: 0 <= i < |cfg.tables| && Source(cfg.tables[i]) in live.value ==>
          Rows(commit.value, cfg.tables[i]) == live.value[Source(cfg.tables[i])])
  }

  /** Before the marker the legacy database is untouched; after it everything was copied. */
  ghost predicate Kept(cfg: Config, d: Disk) {
    && (!Merged(d) ==> d.legacy == d.live)
    && (Merged(d) ==> CopiedAll(cfg, d.live, d.commit))
  }

  /** What the copy has put into its image so far. */
  ghost predicate Imaged(cfg: Config, legacy: Database, image: Database, i: nat, k: nat) {
    forall j :: 0 <= j < |cfg.tables| ==> TableImaged(cfg, legacy, image, i, k, j)
  }

  predicate TableImaged(cfg: Config, legacy: Database, image: Database, i: nat, k: nat, j: nat)
    requires j < |cfg.tables|
  {
    var t := cfg.tables[j];
    if j > i then Rows(image, t) == []
    else if Source(t) !in legacy then Rows(image, t) == [] && (j == i ==> k == 0)
    else if j < i then Rows(image, t) == legacy[Source(t)]
    else k <= |legacy[Source(t)]| && Rows(image, t) == legacy[Source(t)][..k]
  }

  ghost predicate Cleared(cfg: Config, main: Database, upTo: nat) {
    forall j :: 0 <= j < upTo && j < |cfg.tables| ==> Rows(main, cfg.tables[j]) == []
  }

  ghost predicate StageTrue(cfg: Config, d: Disk, stage: Stage) {
    match stage
    case Idle => true
    case Provision(_, _) => !Merged(d) && (d.legacy.Some? ==> d.legacy.value == map[])
    case Mark(_) => !Merged(d) && (d.legacy.Some? ==> d.legacy.value == map[])
    case Dropping(i) => !Merged(d) && d.legacy.Some? && Cleared(cfg, d.main, i)
    case Creating(i) => !Merged(d) && d.legacy.Some? && Cleared(cfg, d.main, |cfg.tables|)
    case Copying(i, k, image) =>
      && !Merged(d) && d.legacy.Some? && Imaged(cfg, d.legacy.value, image, i, k)
      && (i >= |cfg.tables| ==> k == 0)
    case Retire => Merged(d)
  }

  ghost predicate Valid(cfg: Config, s: System) {
    Kept(cfg, s.disk) && StageTrue(cfg, s.disk, s.stage)
  }

  lemma DropNext(cfg: Config, main: Database, i: nat)
    requires Cleared(cfg, main, i) && i < |cfg.tables|
    ensures Cleared(cfg, main - {cfg.tables[i]}, i + 1)
  {
  }

  lemma CreateNext(cfg: Config, main: Database, t: string)
    requires Cleared(cfg, main, |cfg.tables|)
    ensures t !in main ==> Cleared(cfg, main[t := []], |cfg.tables|)
  {
  }

  lemma CopyStarts(cfg: Config, legacy: Database, main: Database)
    requires Cleared(cfg, main, |cfg.tables|)
    ensures Imaged(cfg, legacy, main, 0, 0)
  {
    forall j | 0 <= j < |cfg.tables| ensures TableImaged(cfg, legacy, main, 0, 0, j) {
      assert Rows(main, cfg.tables[j]) == [];
    }
  }

  lemma CopyNextTable(cfg: Config, legacy: Database, image: Database, i: nat, k: nat)
    requires Imaged(cfg, legacy, image, i, k) && i < |cfg.tables|
    requires Source(cfg.tables[i]) !in legacy || k >= |legacy[Source(cfg.tables[i])]|
    ensures Imaged(cfg, legacy, image, i + 1, 0)
  {
    var next := i + 1;
    forall j | 0 <= j < |cfg.tables| ensures TableImaged(cfg, legacy, image, next, 0, j) {
      assert TableImaged(cfg, legacy, image, i, k, j);
    }
  }

  lemma CopyChunk(cfg: Config, legacy: Database, image: Database, i: nat, k: nat, upTo: nat)
    requires Sane(cfg) && Imaged(cfg, legacy, image, i, k) && i < |cfg.tables|
    requires Source(cfg.tables[i]) in legacy && k <= upTo <= |legacy[Source(cfg.tables[i])]|
    ensures var t := cfg.tables[i];
            Imaged(cfg, legacy, image[t := Rows(image, t) + legacy[Source(t)][k..upTo]], i, upTo)
  {
    hide Source;
    var t := cfg.tables[i];
    var source := legacy[Source(t)];
    var more := image[t := Rows(image, t) + source[k..upTo]];
    assert source[..k] + source[k..upTo] == source[..upTo];
    forall j | 0 <= j < |cfg.tables| ensures TableImaged(cfg, legacy, more, i, upTo, j) {
      assert TableImaged(cfg, legacy, image, i, k, j);
      assert j != i ==> cfg.tables[j] != t;
    }
  }

  lemma CopyEnds(cfg: Config, legacy: Database, image: Database, i: nat)
    requires Imaged(cfg, legacy, image, i, 0) && i >= |cfg.tables|
    ensures CopiedAll(cfg, Some(legacy), Some(image))
  {
    forall j | 0 <= j < |cfg.tables| && Source(cfg.tables[j]) in legacy
      ensures Rows(image, cfg.tables[j]) == legacy[Source(cfg.tables[j])]
    {
      assert TableImaged(cfg, legacy, image, i, 0, j);
    }
  }

  lemma WorkKeepsValid(cfg: Config, s: System)
    requires Sane(cfg) && Valid(cfg, s)
    ensures Valid(cfg, Advance(cfg, s))
  {
    hide Source, Imaged, Cleared, Rows, CopiedAll;
    var d := s.disk;
    match s.stage
    case Idle =>
    case Provision(_, _) =>
    case Mark(_) => NothingToCopy(cfg, d);
    case Dropping(i) =>
      if i < |cfg.tables| {
        DropNext(cfg, d.main, i);
      } else {
        ClearedBeyond(cfg, d.main, i);
      }
    case Creating(i) =>
      if i < |cfg.tables| {
        CreateNext(cfg, d.main, cfg.tables[i]);
      } else {
        CopyStarts(cfg, d.legacy.value, d.main);
      }
    case Copying(i, k, image) =>
      if i >= |cfg.tables| {
        CopyEnds(cfg, d.legacy.value, image, i);
      } else {
        var t := cfg.tables[i];
        if Source(t) !in d.legacy.value || k >= |d.legacy.value[Source(t)]| {
          CopyNextTable(cfg, d.legacy.value, image, i, k);
        } else {
          var source := d.legacy.value[Source(t)];
          CopyChunk(cfg, d.legacy.value, image, i, k, if k + CHUNK <= |source| then k + CHUNK else |source|);
        }
      }
    case Retire =>
  }

  lemma NothingToCopy(cfg: Config, d: Disk)
    requires d.legacy == d.live && (d.legacy.Some? ==> d.legacy.value == map[])
    ensures CopiedAll(cfg, d.live, Some(d.main))
  {
  }

  lemma ClearedBeyond(cfg: Config, main: Database, i: nat)
    requires Cleared(cfg, main, i) && i >= |cfg.tables|
    ensures Cleared(cfg, main, |cfg.tables|)
  {
  }

  /** Whatever happens next, no legacy row is lost and no database is retired before the marker. */
  lemma StepKeepsValid(cfg: Config, s: System, e: Event)
    requires Sane(cfg) && Valid(cfg, s)
    ensures Valid(cfg, Step(cfg, s, e))
  {
    hide Advance, CopiedAll, Imaged;
    if e.Work? {
      WorkKeepsValid(cfg, s);
    }
  }

  function Exec(cfg: Config, s: System, run: seq<Event>): System
    decreases |run|
  {
    if run == [] then s else Exec(cfg, Step(cfg, s, run[0]), run[1..])
  }

  lemma {:induction false} RunKeepsValid(cfg: Config, s: System, run: seq<Event>)
    requires Sane(cfg) && Valid(cfg, s)
    ensures Valid(cfg, Exec(cfg, s, run))
    decreases |run|
  {
    hide Valid, Step, Sane;
    if run != [] {
      StepKeepsValid(cfg, s, run[0]);
      RunKeepsValid(cfg, Step(cfg, s, run[0]), run[1..]);
    }
  }

  /** Over boots, crashes and panel runs, every row the panel left is in the legacy database or was copied with the marker. */
  lemma NoRowLost(cfg: Config, main: Database, oldMarker: nat, legacy: Option<Database>, run: seq<Event>, j: nat, r: Row)
    requires Sane(cfg) && oldMarker < MARKER_VERSION && j < |cfg.tables|
    requires var end := Exec(cfg, System(Disk(main, oldMarker, legacy, legacy, None), Idle), run).disk;
             end.live.Some? && r in Rows(end.live.value, Source(cfg.tables[j]))
    ensures var end := Exec(cfg, System(Disk(main, oldMarker, legacy, legacy, None), Idle), run).disk;
            || (end.legacy.Some? && r in Rows(end.legacy.value, Source(cfg.tables[j])))
            || (Merged(end) && end.commit.Some? && r in Rows(end.commit.value, cfg.tables[j]))
  {
    hide Exec, Source;
    var s := System(Disk(main, oldMarker, legacy, legacy, None), Idle);
    RunKeepsValid(cfg, s, run);
  }

  /** The legacy database shrinks only once the marker is committed. */
  lemma RetirementFollowsMarker(cfg: Config, s: System, e: Event)
    requires Sane(cfg) && Valid(cfg, s) && !e.Panel?
    requires Step(cfg, s, e).disk.legacy != s.disk.legacy
    ensures Merged(s.disk) && CopiedAll(cfg, s.disk.live, s.disk.commit) && s.stage == Retire
  {
    hide CopiedAll, Imaged, Source, Rows;
  }

  // ---- boots of a merged layout ---------------------------------------------------------------

  ghost predicate Quiet(s: System) {
    Merged(s.disk) && (s.stage.Idle? || s.stage.Retire?)
  }

  /** After the marker only the panel changes main; boots, work and crashes leave it alone, and it stays merged. */
  lemma {:induction false} MergedBootsChangeNothing(cfg: Config, s: System, run: seq<Event>)
    requires Quiet(s) && forall i :: 0 <= i < |run| ==> !run[i].Panel?
    ensures Quiet(Exec(cfg, s, run))
    ensures Exec(cfg, s, run).disk.main == s.disk.main && Exec(cfg, s, run).disk.marker == s.disk.marker
    decreases |run|
  {
    if run != [] {
      MergedBootsChangeNothing(cfg, Step(cfg, s, run[0]), run[1..]);
    }
  }

  // ---- an uninterrupted boot ---------------------------------------------------------------------

  function Works(cfg: Config, s: System, n: nat): System
    decreases n
  {
    if n == 0 then s else Works(cfg, Advance(cfg, s), n - 1)
  }

  function Rank(stage: Stage): nat {
    match stage
    case Idle => 0
    case Retire => 1
    case Mark(_) => 2
    case Copying(_, _, _) => 3
    case Provision(_, _) => 4
    case Creating(_) => 5
    case Dropping(_) => 6
  }

  function TablesLeft(cfg: Config, stage: Stage): nat {
    if (stage.Provision? || stage.Dropping? || stage.Creating? || stage.Copying?) && stage.next < |cfg.tables|
    then |cfg.tables| - stage.next else 0
  }

  function RowsLeft(cfg: Config, s: System): nat {
    if s.stage.Copying? && s.stage.next < |cfg.tables| && s.disk.legacy.Some?
       && |Rows(s.disk.legacy.value, Source(cfg.tables[s.stage.next]))| > s.stage.rows
    then |Rows(s.disk.legacy.value, Source(cfg.tables[s.stage.next]))| - s.stage.rows else 0
  }

  /** From any stage, finitely many steps end the boot, with the marker committed. */
  lemma Finishes(cfg: Config, s: System) returns (n: nat)
    requires s.stage.Retire? ==> Merged(s.disk)
    ensures Works(cfg, s, n).stage == Idle
    ensures !s.stage.Idle? ==> Merged(Works(cfg, s, n).disk)
    decreases Rank(s.stage), TablesLeft(cfg, s.stage), RowsLeft(cfg, s)
  {
    hide Source;
    if s.stage.Idle? {
      n := 0;
    } else {
      var next := Advance(cfg, s);
      if next.stage.Idle? {
        n := 1;
        assert Works(cfg, s, 1) == Works(cfg, next, 0);
      } else {
        var rest := Finishes(cfg, next);
        n := rest + 1;
      }
    }
  }

  /** What a full merge leaves in main: modelled tables hold the legacy rows, other tables are as before. */
  ghost predicate FullCopy(cfg: Config, legacy: Database, before: Database, after: Database) {
    && (forall t :: t in cfg.tables ==> t in after && after[t] == Rows(legacy, Source(t)))
    && (forall t :: t !in cfg.tables ==> (t in after <==> t in before) && Rows(after, t) == Rows(before, t))
  }

  /** What provisioning leaves in main: missing modelled tables appear empty, nothing else changes. */
  ghost predicate Provisioned(cfg: Config, before: Database, after: Database) {
    && after.Keys == before.Keys + (set t | t in cfg.tables)
    && (forall t :: Rows(after, t) == Rows(before, t))
  }

  lemma FullCopyUnique(cfg: Config, legacy: Database, before: Database, a: Database, b: Database)
    requires FullCopy(cfg, legacy, before, a) && FullCopy(cfg, legacy, before, b)
    ensures a == b
  {
    hide Source;
    SameDatabase(a, b);
  }

  lemma ProvisionedUnique(cfg: Config, before: Database, a: Database, b: Database)
    requires Provisioned(cfg, before, a) && Provisioned(cfg, before, b)
    ensures a == b
  {
    SameDatabase(a, b);
  }

  lemma SameDatabase(a: Database, b: Database)
    requires forall t :: (t in a <==> t in b) && Rows(a, t) == Rows(b, t)
    ensures a == b
  {
    forall t | t in a ensures t in b && a[t] == b[t] {
      assert Rows(a, t) == Rows(b, t);
    }
    assert a.Keys == b.Keys;
  }

  /** The first tables are gone and the rest of main is as before. */
  ghost predicate Dropped(tables: seq<string>, before: Database, main: Database) {
    && (forall t :: t in tables ==> t !in main)
    && (forall t :: t !in tables ==> (t in main <==> t in before) && Rows(main, t) == Rows(before, t))
  }

  /** Of the dropped tables the first ones are back, empty. */
  ghost predicate Rebuilt(tables: seq<string>, all: seq<string>, before: Database, main: Database) {
    && (forall t :: t in tables ==> t in main && main[t] == [])
    && (forall t :: t in all && t !in tables ==> t !in main)
    && (forall t :: t !in all ==> (t in main <==> t in before) && Rows(main, t) == Rows(before, t))
  }

  ghost predicate Created(tables: seq<string>, before: Database, main: Database) {
    && main.Keys == before.Keys + (set t | t in tables)
    && (forall t :: Rows(main, t) == Rows(before, t))
  }

  /** Marker, history and contents of main once the merge is committed. */
  ghost predicate Settled(cfg: Config, start: Disk, d: Disk) {
    && d.marker == MARKER_VERSION && d.live == start.live && d.commit == Some(d.main)
    && (if start.legacy.Some? && start.legacy.value != map[]
        then FullCopy(cfg, start.legacy.value, start.main, d.main)
        else Provisioned(cfg, start.main, d.main))
  }

  /** Every state of a boot that began on an unmerged disk, in terms of that disk. */
  ghost predicate Along(cfg: Config, start: Disk, s: System) {
    var d, n := s.disk, |cfg.tables|;
    match s.stage
    case Provision(i, retire) =>
      && i <= n && d == start.(main := d.main) && (start.legacy.Some? ==> start.legacy.value == map[])
      && (retire <==> start.legacy.Some? || !cfg.sqlite) && Created(cfg.tables[..i], start.main, d.main)
    case Mark(retire) =>
      && d == start.(main := d.main) && (start.legacy.Some? ==> start.legacy.value == map[])
      && (retire <==> start.legacy.Some? || !cfg.sqlite) && Created(cfg.tables, start.main, d.main)
    case Dropping(i) =>
      && i <= n && d == start.(main := d.main) && start.legacy.Some? && start.legacy.value != map[]
      && Dropped(cfg.tables[..i], start.main, d.main)
    case Creating(i) =>
      && i <= n && d == start.(main := d.main) && start.legacy.Some? && start.legacy.value != map[]
      && Rebuilt(cfg.tables[..i], cfg.tables, start.main, d.main)
    case Copying(i, k, image) =>
      && i <= n && d == start.(main := d.main) && start.legacy.Some? && start.legacy.value != map[]
      && (i == n ==> k == 0) && Imaged(cfg, start.legacy.value, image, i, k)
      && Framed(cfg.tables, start.main, image)
    case Retire => Settled(cfg, start, d) && d.legacy == start.legacy
    case Idle => Settled(cfg, start, d) && d.legacy == Retired(cfg, start).legacy
  }

  lemma MoreTables(tables: seq<string>, i: nat)
    requires i < |tables|
    ensures forall t :: t in tables[..i + 1] <==> t in tables[..i] || t == tables[i]
    ensures tables[i] in tables
  {
    assert tables[..i + 1] == tables[..i] + [tables[i]];
  }

  lemma CreatedNext(tables: seq<string>, i: nat, before: Database, main: Database)
    requires i < |tables| && Created(tables[..i], before, main)
    ensures tables[i] in main ==> Created(tables[..i + 1], before, main)
    ensures tables[i] !in main ==> Created(tables[..i + 1], before, main[tables[i] := []])
  {
    MoreTables(tables, i);
  }

  lemma DroppedNext(tables: seq<string>, i: nat, before: Database, main: Database)
    requires i < |tables| && Dropped(tables[..i], before, main)
    ensures Dropped(tables[..i + 1], before, main - {tables[i]})
  {
    MoreTables(tables, i);
  }

  lemma RebuiltNext(tables: seq<string>, i: nat, before: Database, main: Database)
    requires i < |tables| && Rebuilt(tables[..i], tables, before, main)
    ensures tables[i] in main ==> Rebuilt(tables[..i + 1], tables, before, main)
    ensures tables[i] !in main ==> Rebuilt(tables[..i + 1], tables, before, main[tables[i] := []])
  {
    MoreTables(tables, i);
  }

  lemma RebuiltIsCleared(cfg: Config, before: Database, main: Database)
    requires Rebuilt(cfg.tables, cfg.tables, before, main)
    ensures Cleared(cfg, main, |cfg.tables|) && Framed(cfg.tables, before, main)
  {
    forall j | 0 <= j < |cfg.tables| ensures Rows(main, cfg.tables[j]) == [] {
      assert cfg.tables[j] in cfg.tables;
    }
  }

  /** Tables outside the model are in the image as they were in main, and the modelled ones exist. */
  ghost predicate Framed(tables: seq<string>, before: Database, image: Database) {
    && (forall t :: t in tables ==> t in image)
    && (forall t :: t !in tables ==> (t in image <==> t in before) && Rows(image, t) == Rows(before, t))
  }

  lemma FramedNext(tables: seq<string>, before: Database, image: Database, t: string, rows: seq<Row>)
    requires Framed(tables, before, image) && t in tables
    ensures Framed(tables, before, image[t := rows])
  {
  }

  lemma CopyIsFull(cfg: Config, legacy: Database, before: Database, image: Database, i: nat)
    requires Imaged(cfg, legacy, image, i, 0) && i == |cfg.tables| && Framed(cfg.tables, before, image)
    ensures FullCopy(cfg, legacy, before, image)
  {
    hide Source;
    forall t | t in cfg.tables ensures t in image && image[t] == Rows(legacy, Source(t)) {
      var j :| 0 <= j < |cfg.tables| && cfg.tables[j] == t;
      assert TableImaged(cfg, legacy, image, i, 0, j);
      assert Rows(image, t) == image[t];
    }
  }

  lemma AdvanceAlong(cfg: Config, start: Disk, s: System)
    requires Sane(cfg) && Along(cfg, start, s) && !s.stage.Idle?
    ensures Along(cfg, start, Advance(cfg, s))
  {
    hide Source, Imaged, Rows, Created, Dropped, Rebuilt, Framed, FullCopy, Provisioned, Cleared, Sane;
    var d, n := s.disk, |cfg.tables|;
    assert cfg.tables[..n] == cfg.tables;
    match s.stage
    case Provision(i, _) =>
      if i < n {
        CreatedNext(cfg.tables, i, start.main, d.main);
      }
    case Mark(_) => CreatedAll(cfg, start.main, d.main);
    case Dropping(i) =>
      if i < n {
        DroppedNext(cfg.tables, i, start.main, d.main);
      } else {
        DroppedAll(cfg.tables, start.main, d.main);
      }
    case Creating(i) =>
      if i < n {
        RebuiltNext(cfg.tables, i, start.main, d.main);
      } else {
        RebuiltIsCleared(cfg, start.main, d.main);
        CopyStarts(cfg, start.legacy.value, d.main);
      }
    case Copying(i, k, image) =>
      if i >= n {
        CopyIsFull(cfg, start.legacy.value, start.main, image, i);
      } else {
        var t := cfg.tables[i];
        MoreTables(cfg.tables, i);
        if Source(t) !in d.legacy.value || k >= |d.legacy.value[Source(t)]| {
          CopyNextTable(cfg, d.legacy.value, image, i, k);
        } else {
          var source := d.legacy.value[Source(t)];
          var upTo := if k + CHUNK <= |source| then k + CHUNK else |source|;
          CopyChunk(cfg, d.legacy.value, image, i, k, upTo);
          FramedNext(cfg.tables, start.main, image, t, Rows(image, t) + source[k..upTo]);
        }
      }
    case Retire =>
  }

  lemma CreatedAll(cfg: Config, before: Database, main: Database)
    requires Created(cfg.tables, before, main)
    ensures Provisioned(cfg, before, main)
  {
  }

  lemma DroppedAll(tables: seq<string>, before: Database, main: Database)
    requires Dropped(tables, before, main)
    ensures Rebuilt(tables[..0], tables, before, main)
  {
  }

  lemma BeginAlong(cfg: Config, d: Disk, reachable: bool)
    requires !Merged(d) && (cfg.sqlite || reachable)
    ensures Along(cfg, d, System(d, Begin(cfg, d, reachable)))
  {
    assert cfg.tables[..0] == [];
  }

  /** From any of those states the boot ends, on a disk that is settled and retired. */
  lemma EndsAlong(cfg: Config, start: Disk, s: System) returns (n: nat)
    requires Sane(cfg) && Along(cfg, start, s)
    ensures Works(cfg, s, n).stage == Idle && Along(cfg, start, Works(cfg, s, n))
    decreases Rank(s.stage), TablesLeft(cfg, s.stage), RowsLeft(cfg, s)
  {
    hide Source, Along, Sane;
    if s.stage.Idle? {
      n := 0;
    } else {
      AdvanceAlong(cfg, start, s);
      var rest := EndsAlong(cfg, start, Advance(cfg, s));
      n := rest + 1;
    }
  }

  /** The contents of the three stores. */
  ghost predicate Holds(d: Disk, main: Database, marker: nat, legacy: Option<Database>) {
    d.main == main && d.marker == marker && d.legacy == legacy
  }

  /** Working through the boot's effects one by one ends with these contents. */
  ghost predicate BootsTo(cfg: Config, start: Disk, reachable: bool, main: Database, marker: nat, legacy: Option<Database>) {
    exists n: nat :: EndsWith(cfg, start, reachable, n, main, marker, legacy)
  }

  ghost predicate EndsWith(cfg: Config, start: Disk, reachable: bool, n: nat, main: Database, marker: nat,
                           legacy: Option<Database>) {
    var end := Works(cfg, System(start, Begin(cfg, start, reachable)), n);
    end.stage == Idle && Holds(end.disk, main, marker, legacy)
  }

  /** The single effects of a boot on an unmerged disk lead to the contents that a settled disk has. */
  lemma UnmergedBoot(cfg: Config, start: Disk, reachable: bool, main: Database)
    requires Sane(cfg) && !Merged(start) && (cfg.sqlite || reachable)
    requires if start.legacy.Some? && start.legacy.value != map[] then FullCopy(cfg, start.legacy.value, start.main, main)
             else Provisioned(cfg, start.main, main)
    ensures BootsTo(cfg, start, reachable, main, MARKER_VERSION, Retired(cfg, start).legacy)
  {
    hide FullCopy, Provisioned, Works, Begin, Sane;
    BeginAlong(cfg, start, reachable);
    var n := EndsAlong(cfg, start, System(start, Begin(cfg, start, reachable)));
    var end := Works(cfg, System(start, Begin(cfg, start, reachable)), n).disk;
    if start.legacy.Some? && start.legacy.value != map[] {
      FullCopyUnique(cfg, start.legacy.value, start.main, end.main, main);
    } else {
      ProvisionedUnique(cfg, start.main, end.main, main);
    }
    assert EndsWith(cfg, start, reachable, n, main, MARKER_VERSION, Retired(cfg, start).legacy);
  }

  /** On a merged disk the boot at most retires the legacy database; an unreachable server ends it at once. */
  lemma ShortBoot(cfg: Config, start: Disk, reachable: bool)
    requires Merged(start) || (!cfg.sqlite && !reachable)
    ensures var retires := Merged(start) && (if cfg.sqlite then start.legacy.Some? else reachable);
            BootsTo(cfg, start, reachable, start.main, start.marker,
                    if retires then Retired(cfg, start).legacy else start.legacy)
  {
    var s := System(start, Begin(cfg, start, reachable));
    if s.stage.Idle? {
      assert Works(cfg, s, 0) == s;
      assert EndsWith(cfg, start, reachable, 0, start.main, start.marker, start.legacy);
    } else {
      assert Works(cfg, s, 1) == Works(cfg, Advance(cfg, s), 0);
      assert EndsWith(cfg, start, reachable, 1, start.main, start.marker, Retired(cfg, start).legacy);
    }
  }

  /** These tables hold the rows of their sources, all others are as at the start. */
  ghost predicate Transferred(tables: seq<string>, from: Database, start: Database, image: Database) {
    && (forall t :: t in tables ==> t in image && image[t] == Rows(from, Source(t)))
    && (forall t :: t !in tables ==> (t in image <==> t in start) && Rows(image, t) == Rows(start, t))
  }

  lemma NothingTransferred(tables: seq<string>, from: Database, start: Database)
    ensures Transferred(tables[..0], from, start, start)
  {
  }

  lemma TransferNext(tables: seq<string>, i: nat, from: Database, start: Database, image: Database)
    requires i < |tables| && tables[i] !in tables[..i] && tables[i] in start && start[tables[i]] == []
    requires Transferred(tables[..i], from, start, image)
    ensures var t := tables[i];
            && t in image && image[t] == []
            && (Source(t) !in from ==> Transferred(tables[..i + 1], from, start, image))
            && (Source(t) in from ==> Transferred(tables[..i + 1], from, start, image[t := image[t] + from[Source(t)]]))
  {
    hide Source;
    MoreTables(tables, i);
    assert Rows(image, tables[i]) == image[tables[i]];
  }

  lemma TransferEnds(tables: seq<string>, from: Database, start: Database, image: Database)
    requires Transferred(tables, from, start, image)
    ensures forall t :: t in tables ==> t in image && image[t] == Rows(from, Source(t))
    ensures forall t :: t !in tables ==> (t in image <==> t in start) && Rows(image, t) == Rows(start, t)
  {
  }

  class PanelDatabases {
    var main: Database
    var marker: nat
    var legacy: Option<Database>

    constructor (main: Database, marker: nat, legacy: Option<Database>)
      ensures this.main == main && this.marker == marker && this.legacy == legacy
    {
      this.main, this.marker, this.legacy := main, marker, legacy;
    }

    method ProvisionLegacyIntoMain(tables: seq<string>)
      modifies this`main
      ensures main.Keys == old(main).Keys + (set t | t in tables)
      ensures forall t :: Rows(main, t) == Rows(old(main), t)
    {
      for i := 0 to |tables|
        invariant main.Keys == old(main).Keys + (set t | t in tables[..i])
        invariant forall t :: Rows(main, t) == Rows(old(main), t)
      {
        assert tables[..i + 1] == tables[..i] + [tables[i]];
        if tables[i] !in main {
          main := main[tables[i] := []];
        }
      }
      assert tables[..|tables|] == tables;
    }

    /** `drop_all` and `create_all`: every modelled table is there and empty. */
    method RebuildTables(tables: seq<string>)
      modifies this`main
      ensures forall t :: t in tables ==> t in main && main[t] == []
      ensures forall t :: t !in tables ==> (t in main <==> t in old(main)) && Rows(main, t) == Rows(old(main), t)
    {
      for i := 0 to |tables|
        invariant forall t :: t in tables[..i] ==> t !in main
        invariant forall t :: t !in tables[..i] ==> (t in main <==> t in old(main)) && Rows(main, t) == Rows(old(main), t)
      {
        assert tables[..i + 1] == tables[..i] + [tables[i]];
        main := main - {tables[i]};
      }
      assert tables[..|tables|] == tables;
      for i := 0 to |tables|
        invariant forall t :: t in tables[..i] ==> t in main && main[t] == []
        invariant forall t :: t in tables && t !in tables[..i] ==> t !in main
        invariant forall t :: t !in tables ==> (t in main <==> t in old(main)) && Rows(main, t) == Rows(old(main), t)
      {
        assert tables[..i + 1] == tables[..i] + [tables[i]];
        if tables[i] !in main {
          main := main[tables[i] := []];
        }
      }
    }

    /** Reads the source in chunks of a thousand rows. */
    static method CopyRows(source: seq<Row>) returns (rows: seq<Row>)
      ensures rows == source
    {
      rows := [];
      var k := 0;
      while k < |source|
        invariant 0 <= k <= |source| && rows == source[..k]
      {
        var upTo := if k + CHUNK <= |source| then k + CHUNK else |source|;
        assert source[..upTo] == source[..k] + source[k..upTo];
        rows := rows + source[k..upTo];
        k := upTo;
      }
    }

    /** Copies into an uncommitted image of main. */
    static method CopyTables(tables: seq<string>, from: Database, start: Database) returns (image: Database)
      requires forall t :: t in tables ==> t in start && start[t] == []
      requires forall i, j :: 0 <= i < j < |tables| ==> tables[i] != tables[j]
      ensures forall t :: t in tables ==> t in image && image[t] == Rows(from, Source(t))
      ensures forall t :: t !in tables ==> (t in image <==> t in start) && Rows(image, t) == Rows(start, t)
    {
      hide Source, Transferred;
      image := start;
      NothingTransferred(tables, from, start);
      for i := 0 to |tables|
        invariant Transferred(tables[..i], from, start, image)
      {
        var t := tables[i];
        TransferNext(tables, i, from, start, image);
        if Source(t) in from {
          var rows := CopyRows(from[Source(t)]);
          image := image[t := image[t] + rows];
        }
      }
      assert tables[..|tables|] == tables;
      TransferEnds(tables, from, start, image);
    }

    method RemoveLegacySource(sqlite: bool)
      modifies this`legacy
      ensures legacy == if sqlite || old(legacy).None? then None else Some(map[])
    {
      legacy := if sqlite || legacy.None? then None else Some(map[]);
    }

    /** `main()` when nothing interrupts it; the result is its exit code. */
    method MergeAtBoot(cfg: Config, reachable: bool) returns (code: int)
      requires Sane(cfg)
      modifies this
      ensures old(marker) >= MARKER_VERSION ==> code == 0 && main == old(main) && marker == old(marker)
      ensures old(marker) >= MARKER_VERSION ==>
                legacy == (if cfg.sqlite then None else if reachable && old(legacy).Some? then Some(map[]) else old(legacy))
      ensures old(marker) < MARKER_VERSION && !cfg.sqlite && !reachable ==>
                code == 1 && main == old(main) && marker == old(marker) && legacy == old(legacy)
      ensures old(marker) < MARKER_VERSION && (cfg.sqlite || reachable) ==>
                && code == 0 && marker == MARKER_VERSION
                && legacy == (if cfg.sqlite || old(legacy).None? then None else Some(map[]))
                && (if old(legacy).Some? && old(legacy).value != map[]
                    then FullCopy(cfg, old(legacy).value, old(main), main)
                    else Provisioned(cfg, old(main), main))
      ensures BootsTo(cfg, Disk(old(main), old(marker), old(legacy), old(legacy), None), reachable, main, marker, legacy)
    {
      hide Source, Rows, BootsTo;
      ghost var start := Disk(main, marker, legacy, legacy, None);
      if marker >= MARKER_VERSION {
        var present := if cfg.sqlite then legacy.Some? else reachable;
        if present {
          RemoveLegacySource(cfg.sqlite);
        }
        ShortBoot(cfg, start, reachable);
        return 0;
      }
      if cfg.sqlite && legacy.None? {
        ProvisionLegacyIntoMain(cfg.tables);
        marker := MARKER_VERSION;
        UnmergedBoot(cfg, start, reachable, main);
        return 0;
      }
      if !cfg.sqlite && !reachable {
        ShortBoot(cfg, start, reachable);
        return 1;
      }
      if legacy.None? || legacy.value == map[] {
        ProvisionLegacyIntoMain(cfg.tables);
        marker := MARKER_VERSION;
        RemoveLegacySource(cfg.sqlite);
        UnmergedBoot(cfg, start, reachable, main);
        return 0;
      }
      RebuildTables(cfg.tables);
      var image := CopyTables(cfg.tables, legacy.value, main);
      main, marker := image, MARKER_VERSION;
      RemoveLegacySource(cfg.sqlite);
      UnmergedBoot(cfg, start, reachable, main);
      return 0;
    }
  }
}
