/** Builds, their per-platform jobs and their artifacts: `app/builder/repository.py`. */
module Builds {
  import opened Basics
  import opened Outcome

  datatype Target = Target(platform: string, arch: string, artifact: string)

  datatype JobStatus = Queued | Running | Success | Failed | Cancelled

  /** `token` holds the hash of the job token that was issued last. */
  datatype Job = Job(target: Target, status: JobStatus, token: Option<string>, tokenValid: bool,
                     worker: Option<string>, queue: Option<string>, code: Option<string>)

  datatype Artifact = Artifact(target: Target, filename: string)

  /** One build row with the job and artifact rows that reference it. */
  datatype Build = Build(status: JobStatus, progress: nat, jobs: seq<Job>, artifacts: seq<Artifact>, code: Option<string>)

  datatype Problem = NotFound | Conflict | AuthFailed | UnknownPlatform | NumberTaken

  predicate Terminal(s: JobStatus) {
    s == Success || s == Failed || s == Cancelled
  }

  // ---- progress and aggregation -----------------------------------------------------------

  function TerminalCount(jobs: seq<Job>): (n: nat)
    ensures n <= |jobs|
  {
    if jobs == [] then 0
    else TerminalCount(jobs[..|jobs| - 1]) + (if Terminal(jobs[|jobs| - 1].status) then 1 else 0)
  }

  function ProgressOf(jobs: seq<Job>): (p: nat)
    ensures p <= 100
  {
    if jobs == [] then 0 else Percent(TerminalCount(jobs), |jobs|)
  }

  function Percent(done: nat, all: nat): (p: nat)
    requires 0 < all
    ensures p <= 100
  {
    if done * 100 / all < 100 then done * 100 / all else 100
  }

  ghost predicate AllTerminal(jobs: seq<Job>) {
    forall i :: 0 <= i < |jobs| ==> Terminal(jobs[i].status)
  }

  predicate AnyWith(jobs: seq<Job>, s: JobStatus) {
    exists i :: 0 <= i < |jobs| && jobs[i].status == s
  }

  function WithStatus(jobs: seq<Job>, s: JobStatus): (r: seq<Job>)
    ensures forall i :: 0 <= i < |r| ==> r[i] in jobs && r[i].status == s
    ensures r != [] <==> AnyWith(jobs, s)
  {
    if jobs == [] then []
    else
      var last := jobs[|jobs| - 1];
      assert jobs == jobs[..|jobs| - 1] + [last];
      WithStatus(jobs[..|jobs| - 1], s) + (if last.status == s then [last] else [])
  }

  function OrElse(code: Option<string>, fallback: string): string {
    if code.Some? && code.value != "" then code.value else fallback
  }

  /** The status and failure code that the job rows give a build. */
  function Aggregated(b: Build): Build {
    var jobs := b.jobs;
    var b := b.(progress := ProgressOf(jobs));
    if jobs == [] || TerminalCount(jobs) < |jobs| then
      b.(status := if b.status == Queued then Running else b.status)
    else
      var failed, cancelled := WithStatus(jobs, Failed), WithStatus(jobs, Cancelled);
      if failed != [] then b.(status := Failed, code := Some(OrElse(failed[0].code, "worker_error")))
      else if cancelled != [] && |cancelled| == |jobs| then b.(status := Cancelled, code := Some("cancelled"))
      else if cancelled != [] then b.(status := Failed, code := Some("cancelled"))
      else b.(status := Success, code := None)
  }

  // ---- transactions ------------------------------------------------------------------------

  predicate Distinct(targets: seq<Target>) {
    forall i, j :: 0 <= i < j < |targets| ==> targets[i] != targets[j]
  }

  function NewJob(t: Target): Job {
    Job(t, Queued, None, false, None, None, None)
  }

  /** The queue that serves a platform. */
  function QueueFor(platform: string): Option<string> {
    match platform
    case "android" => Some("builder:linux")
    case "ios" => Some("builder:macos")
    case "windows" => Some("builder:windows")
    case "linux" => Some("builder:linux")
    case "macos" => Some("builder:macos")
    case _ => None
  }

  predicate AllQueued(targets: seq<Target>) {
    forall i :: 0 <= i < |targets| ==> QueueFor(targets[i].platform).Some?
  }

  function Create(targets: seq<Target>): Result<Build, Problem> {
    if !AllQueued(targets) then Err(UnknownPlatform)
    else if !Distinct(targets) then Err(Conflict)
    else Ok(Build(Queued, 0, seq(|targets|, i requires 0 <= i < |targets| => NewJob(targets[i])), [], None))
  }

  function Find(jobs: seq<Job>, t: Target): (i: nat)
    ensures i <= |jobs|
    ensures i < |jobs| ==> jobs[i].target == t
    ensures forall j :: 0 <= j < i ==> jobs[j].target != t
  {
    if jobs == [] || jobs[0].target == t then 0 else 1 + Find(jobs[1..], t)
  }

  function Attach(b: Build, t: Target, queue: string): Result<Build, Problem> {
    var i := Find(b.jobs, t);
    if i == |b.jobs| then Err(NotFound)
    else Ok(b.(jobs := b.jobs[i := b.jobs[i].(queue := Some(queue))]))
  }

  function IssueToken(b: Build, t: Target, hash: string): Result<Build, Problem> {
    var i := Find(b.jobs, t);
    if i == |b.jobs| then Err(NotFound)
    else if Terminal(b.jobs[i].status) then Err(Conflict)
    else Ok(b.(jobs := b.jobs[i := b.jobs[i].(token := Some(hash), tokenValid := true)]))
  }

  predicate Accepts(j: Job, hash: string) {
    j.tokenValid && j.token == Some(hash)
  }

  function Claim(b: Build, t: Target, hash: string, worker: string): Result<Build, Problem> {
    var i := Find(b.jobs, t);
    if i == |b.jobs| then Err(NotFound)
    else
      var job := b.jobs[i];
      if !Accepts(job, hash) then Err(AuthFailed)
      else if Terminal(job.status) then Err(AuthFailed)
      else if job.status == Running && job.worker != Some(worker) then Err(Conflict)
      else
        var jobs := b.jobs[i := job.(status := Running, worker := Some(worker))];
        Ok(b.(jobs := jobs, status := if b.status == Queued then Running else b.status, progress := ProgressOf(jobs)))
  }

  predicate Produced(artifacts: seq<Artifact>, t: Target) {
    exists k :: 0 <= k < |artifacts| && artifacts[k].target == t
  }

  const ALLOWED_CODES: set<string> :=
    {"clone_failed", "checkout_failed", "config_invalid", "toolchain_missing", "build_failed", "artifact_invalid",
     "artifact_upload_failed", "no_artifacts", "worker_error", "cancelled", "timeout", "panel_error",
     "credential_revoked", "resources_insufficient", "provision_failed", "provision_unsupported"}

  /** The characters that `str.strip` removes. */
  predicate IsSpace(c: char) {
    var n := c as int;
    || 0x09 <= n <= 0x0D || 0x1C <= n <= 0x20 || n == 0x85 || n == 0xA0 || n == 0x1680 || 0x2000 <= n <= 0x200A
    || n == 0x2028 || n == 0x2029 || n == 0x202F || n == 0x205F || n == 0x3000
  }

  function StripLeft(s: string): string {
    if s != "" && IsSpace(s[0]) then StripLeft(s[1..]) else s
  }

  function StripRight(s: string): string {
    if s != "" && IsSpace(s[|s| - 1]) then StripRight(s[..|s| - 1]) else s
  }

  /** What is stored of the failure code a worker sends: stripped, cut, and one of the known codes. */
  function NormalCode(raw: Option<string>): (code: Option<string>)
    ensures code.Some? ==> code.value in ALLOWED_CODES
  {
    var stripped := StripRight(StripLeft(if raw.Some? then raw.value else ""));
    var cut := if |stripped| <= 64 then stripped else stripped[..64];
    if cut == "" then None else if cut in ALLOWED_CODES then Some(cut) else Some("worker_error")
  }

  /** A success without an uploaded artifact counts as a failure. */
  function Reported(b: Build, job: Job, success: bool, code: Option<string>): (r: Job)
    ensures r.code.Some? ==> r.code.value in ALLOWED_CODES
    ensures r.code.None? <==> r.status == Success
  {
    if success && Produced(b.artifacts, job.target)
    then job.(status := Success, code := None, tokenValid := false, token := None)
    else job.(status := Failed, tokenValid := false, token := None,
              code := Some(if success then "no_artifacts" else OrElse(NormalCode(code), "worker_error")))
  }

  function Report(b: Build, t: Target, hash: string, success: bool, code: Option<string>): Result<Build, Problem> {
    var i := Find(b.jobs, t);
    if i == |b.jobs| then Err(NotFound)
    else if !Accepts(b.jobs[i], hash) then Err(AuthFailed)
    else if Terminal(b.jobs[i].status) then Err(Conflict)
    else Ok(Aggregated(b.(jobs := b.jobs[i := Reported(b, b.jobs[i], success, code)])))
  }

  /** Ends a job that has not ended yet. */
  function Close(j: Job, s: JobStatus, code: string): Job {
    if Terminal(j.status) then j else j.(status := s, code := Some(code), tokenValid := false, token := None)
  }

  function CloseAll(jobs: seq<Job>, s: JobStatus, code: string): (r: seq<Job>)
    ensures |r| == |jobs|
    ensures forall i :: 0 <= i < |jobs| ==> r[i] == Close(jobs[i], s, code)
  {
    seq(|jobs|, i requires 0 <= i < |jobs| => Close(jobs[i], s, code))
  }

  function QueueName(j: Job): string {
    match QueueFor(j.target.platform)
    case Some(name) => name
    case None => ""
  }

  /** Queue and queue id of the jobs that were still live, in job order. */
  function LiveQueue(jobs: seq<Job>): (r: seq<(string, string)>)
  {
    if jobs == [] then []
    else
      var last := jobs[|jobs| - 1];
      LiveQueue(jobs[..|jobs| - 1])
      + (if !Terminal(last.status) && OrElse(last.queue, "") != "" then [(QueueName(last), last.queue.value)] else [])
  }

  function Cancel(b: Build): Result<Build, Problem> {
    if Terminal(b.status) then Err(Conflict)
    else
      var jobs := CloseAll(b.jobs, Cancelled, "cancelled");
      Ok(b.(jobs := jobs, status := Cancelled, progress := ProgressOf(jobs)))
  }

  function PanelCode(code: string): string {
    if code == "" then "panel_error" else if |code| <= 64 then code else code[..64]
  }

  function Fail(b: Build, code: string): Result<Build, Problem> {
    if Terminal(b.status) then Err(Conflict)
    else
      Ok(Aggregated(b.(jobs := CloseAll(b.jobs, Failed, PanelCode(code)))).(code := Some(PanelCode(code))))
  }

  /** The unique constraint ignores the artifact kind. */
  predicate Recorded(artifacts: seq<Artifact>, t: Target, filename: string) {
    exists k :: 0 <= k < |artifacts| && artifacts[k].filename == filename
      && artifacts[k].target.platform == t.platform && artifacts[k].target.arch == t.arch
  }

  function Record(b: Build, t: Target, filename: string): Result<Build, Problem> {
    var i := Find(b.jobs, t);
    if i == |b.jobs| then Err(NotFound)
    else if b.jobs[i].status != Running then Err(Conflict)
    else if Recorded(b.artifacts, t, filename) then Err(Conflict)
    else Ok(b.(artifacts := b.artifacts + [Artifact(t, filename)]))
  }

  // ---- the invariant ----------------------------------------------------------------------------

  predicate JobSound(artifacts: seq<Artifact>, j: Job) {
    && (j.tokenValid ==> !Terminal(j.status))
    && (j.status == Success ==> Produced(artifacts, j.target))
  }

  ghost predicate JobsSound(b: Build) {
    forall i :: 0 <= i < |b.jobs| ==> JobSound(b.artifacts, b.jobs[i])
  }

  /** A build ends exactly when its jobs have, and how it ended is how they did. */
  ghost predicate Settled(b: Build) {
    && b.progress == ProgressOf(b.jobs)
    && (Terminal(b.status) <==> AllTerminal(b.jobs))
    && (b.status == Cancelled <==> AnyWith(b.jobs, Cancelled))
    && (b.status == Failed <==> AllTerminal(b.jobs) && AnyWith(b.jobs, Failed) && !AnyWith(b.jobs, Cancelled))
  }

  ghost predicate Good(b: Build) {
    b.jobs != [] && JobsSound(b) && Settled(b)
  }

  lemma {:induction false} CountAllTerminal(jobs: seq<Job>)
    ensures TerminalCount(jobs) == |jobs| <==> AllTerminal(jobs)
  {
    if jobs != [] {
      CountAllTerminal(jobs[..|jobs| - 1]);
      assert jobs == jobs[..|jobs| - 1] + [jobs[|jobs| - 1]];
    }
  }

  lemma DivBelow(x: nat, n: nat, k: nat)
    requires 0 < n && x < n * k
    ensures x / n < k
  {
    assert x == n * (x / n) + x % n;
    if x / n >= k {
      MulGrows(n, k, x / n);
      assert false;
    }
  }

  lemma DivGrows(x: nat, y: nat, n: nat)
    requires 0 < n && x <= y
    ensures x / n <= y / n
  {
    assert y == n * (y / n) + y % n;
    assert n * (y / n + 1) == n * (y / n) + n;
    DivBelow(x, n, y / n + 1);
  }

  lemma FullPercent(done: nat, all: nat)
    requires 0 < all && done <= all
    ensures Percent(done, all) == 100 <==> done == all
  {
    if done < all {
      DivBelow(done * 100, all, 100);
    } else {
      AllOver(all);
    }
  }

  lemma AllOver(all: nat)
    requires 0 < all
    ensures all * 100 / all >= 100
  {
    var q := all * 100 / all;
    assert all * 100 == all * q + (all * 100) % all;
    assert all * (q + 1) == all * q + all;
    if q + 1 <= 100 {
      MulGrows(all, q + 1, 100);
    }
  }

  /** Progress is 100 exactly when the build has ended. */
  lemma FullProgress(b: Build)
    requires Good(b)
    ensures b.progress == 100 <==> Terminal(b.status)
    ensures b.progress == 100 <==> AllTerminal(b.jobs)
  {
    CountAllTerminal(b.jobs);
    FullPercent(TerminalCount(b.jobs), |b.jobs|);
  }

  /** A successful build has every job successful, with an artifact each. */
  lemma SuccessMeansArtifacts(b: Build, i: nat)
    requires Good(b) && b.status == Success && i < |b.jobs|
    ensures b.jobs[i].status == Success && Produced(b.artifacts, b.jobs[i].target)
  {
    assert JobSound(b.artifacts, b.jobs[i]);
    assert b.jobs[i].status != Failed;
  }

  /** A valid token belongs to a job that has not ended. */
  lemma ValidTokenIsLive(b: Build, i: nat, hash: string)
    requires Good(b) && i < |b.jobs| && Accepts(b.jobs[i], hash)
    ensures !Terminal(b.jobs[i].status) && !Terminal(b.status)
  {
    assert JobSound(b.artifacts, b.jobs[i]);
  }

  // ---- aggregation of jobs none of which was cancelled ----------------------------------------------

  lemma AggregateSettles(b: Build)
    requires b.jobs != [] && JobsSound(b) && !Terminal(b.status) && !AnyWith(b.jobs, Cancelled)
    ensures Good(Aggregated(b))
  {
    CountAllTerminal(b.jobs);
    var after := Aggregated(b);
    assert after.jobs == b.jobs && after.artifacts == b.artifacts;
  }

  lemma NoneCancelled(b: Build, i: nat, j: Job)
    requires Good(b) && !Terminal(b.status) && i < |b.jobs| && j.status != Cancelled
    ensures !AnyWith(b.jobs[i := j], Cancelled)
  {
    var jobs := b.jobs[i := j];
    forall k | 0 <= k < |jobs| ensures jobs[k].status != Cancelled {
      assert b.jobs[k].status != Cancelled;
    }
  }

  lemma FailLeavesNoneCancelled(b: Build, code: string)
    requires Good(b) && !Terminal(b.status)
    ensures !AnyWith(CloseAll(b.jobs, Failed, code), Cancelled)
  {
    var jobs := CloseAll(b.jobs, Failed, code);
    forall k | 0 <= k < |jobs| ensures jobs[k].status != Cancelled {
      assert b.jobs[k].status != Cancelled;
    }
  }

  /** The branches of the aggregation for partly cancelled builds are never taken. */
  lemma MixedCancelUnreachable(b: Build, t: Target, hash: string, success: bool, code: Option<string>, panel: string)
    requires Good(b)
    ensures Report(b, t, hash, success, code).Ok? ==>
              WithStatus(Report(b, t, hash, success, code).value.jobs, Cancelled) == []
    ensures Fail(b, panel).Ok? ==> WithStatus(Fail(b, panel).value.jobs, Cancelled) == []
  {
    hide WithStatus, ProgressOf, AnyWith, Close, Produced;
    if Report(b, t, hash, success, code).Ok? {
      var i := Find(b.jobs, t);
      ValidTokenIsLive(b, i, hash);
      NoneCancelled(b, i, Reported(b, b.jobs[i], success, code));
    }
    if Fail(b, panel).Ok? {
      FailLeavesNoneCancelled(b, PanelCode(panel));
    }
  }

  // ---- every transaction ---------------------------------------------------------------------------

  datatype Event =
    | AttachQueue(target: Target, queue: string)
    | IssueJobToken(target: Target, hash: string)
    | ClaimJob(target: Target, hash: string, worker: string)
    | ReportJob(target: Target, hash: string, success: bool, code: Option<string>)
    | CancelBuild
    | FailBuild(panel: string)
    | RecordArtifact(target: Target, filename: string)

  function Attempt(b: Build, e: Event): Result<Build, Problem> {
    match e
    case AttachQueue(t, queue) => Attach(b, t, queue)
    case IssueJobToken(t, hash) => IssueToken(b, t, hash)
    case ClaimJob(t, hash, worker) => Claim(b, t, hash, worker)
    case ReportJob(t, hash, success, code) => Report(b, t, hash, success, code)
    case CancelBuild => Cancel(b)
    case FailBuild(panel) => Fail(b, panel)
    case RecordArtifact(t, filename) => Record(b, t, filename)
  }

  /** A transaction that raises is rolled back. */
  function Step(b: Build, e: Event): Build {
    var r := Attempt(b, e);
    if r.Ok? then r.value else b
  }

  /** Jobs that have ended keep everything but their queue id. */
  predicate JobNext(j: Job, k: Job) {
    k.target == j.target && (Terminal(j.status) ==> k == j.(queue := k.queue))
  }

  ghost predicate JobsNext(before: seq<Job>, after: seq<Job>) {
    |after| == |before| && forall i :: 0 <= i < |before| ==> JobNext(before[i], after[i])
  }

  ghost predicate Later(before: Build, after: Build) {
    && JobsNext(before.jobs, after.jobs)
    && before.artifacts <= after.artifacts
    && before.progress <= after.progress
    && (Terminal(before.status) ==> after.status == before.status)
  }

  lemma {:induction false} CountGrows(before: seq<Job>, after: seq<Job>)
    requires JobsNext(before, after)
    ensures TerminalCount(before) <= TerminalCount(after)
  {
    if before != [] {
      var n := |before| - 1;
      forall i | 0 <= i < n ensures JobNext(before[..n][i], after[..n][i]) {
        assert JobNext(before[i], after[i]);
      }
      CountGrows(before[..n], after[..n]);
      assert JobNext(before[n], after[n]);
    }
  }

  lemma ProgressGrows(before: seq<Job>, after: seq<Job>)
    requires JobsNext(before, after)
    ensures ProgressOf(before) <= ProgressOf(after)
  {
    CountGrows(before, after);
    if before != [] {
      DivGrows(TerminalCount(before) * 100, TerminalCount(after) * 100, |before|);
    }
  }

  /** One job changes without ending. */
  lemma LiveChange(b: Build, i: nat, j: Job, status: JobStatus)
    requires Good(b) && i < |b.jobs| && !Terminal(b.jobs[i].status)
    requires j.target == b.jobs[i].target && !Terminal(j.status) && !Terminal(status)
    ensures var jobs := b.jobs[i := j];
            var after := b.(jobs := jobs, status := status, progress := ProgressOf(jobs));
            Good(after) && Later(b, after)
  {
    hide ProgressOf, Produced;
    var jobs := b.jobs[i := j];
    var after := b.(jobs := jobs, status := status, progress := ProgressOf(jobs));
    assert !AllTerminal(b.jobs);
    assert !AllTerminal(jobs) by { assert !Terminal(jobs[i].status); }
    NoneCancelled(b, i, j);
    ProgressGrows(b.jobs, jobs);
    forall k | 0 <= k < |jobs| ensures JobSound(after.artifacts, jobs[k]) {
      assert JobSound(b.artifacts, b.jobs[k]);
    }
  }

  /** Jobs end, none of them by cancellation. */
  lemma Endings(b: Build, jobs: seq<Job>)
    requires Good(b) && !Terminal(b.status) && JobsNext(b.jobs, jobs) && !AnyWith(jobs, Cancelled)
    requires forall i :: 0 <= i < |jobs| ==> JobSound(b.artifacts, jobs[i])
    ensures Good(Aggregated(b.(jobs := jobs))) && Later(b, Aggregated(b.(jobs := jobs)))
  {
    hide WithStatus, ProgressOf, AnyWith, JobSound;
    var c := b.(jobs := jobs);
    AggregateSettles(c);
    ProgressGrows(b.jobs, jobs);
  }

  lemma ReportKeeps(b: Build, t: Target, hash: string, success: bool, code: Option<string>)
    requires Good(b) && Report(b, t, hash, success, code).Ok?
    ensures Good(Report(b, t, hash, success, code).value) && Later(b, Report(b, t, hash, success, code).value)
  {
    hide Aggregated, Settled, Produced, Later;
    var i := Find(b.jobs, t);
    var j := Reported(b, b.jobs[i], success, code);
    var jobs := b.jobs[i := j];
    ValidTokenIsLive(b, i, hash);
    NoneCancelled(b, i, j);
    forall k | 0 <= k < |jobs| ensures JobSound(b.artifacts, jobs[k]) && JobNext(b.jobs[k], jobs[k]) {
      assert JobSound(b.artifacts, b.jobs[k]);
    }
    Endings(b, jobs);
  }

  lemma ClosedJobs(b: Build, s: JobStatus, code: string)
    requires JobsSound(b) && (s == Failed || s == Cancelled)
    ensures var jobs := CloseAll(b.jobs, s, code);
            && JobsNext(b.jobs, jobs) && AllTerminal(jobs)
            && (forall i :: 0 <= i < |jobs| ==> JobSound(b.artifacts, jobs[i]))
  {
    hide Produced;
    var jobs := CloseAll(b.jobs, s, code);
    forall k | 0 <= k < |jobs| ensures JobSound(b.artifacts, jobs[k]) && JobNext(b.jobs[k], jobs[k]) {
      assert JobSound(b.artifacts, b.jobs[k]);
    }
  }

  lemma FailKeeps(b: Build, panel: string)
    requires Good(b) && Fail(b, panel).Ok?
    ensures Good(Fail(b, panel).value) && Later(b, Fail(b, panel).value)
  {
    hide Aggregated, AnyWith, JobSound, CloseAll;
    ClosedJobs(b, Failed, PanelCode(panel));
    FailLeavesNoneCancelled(b, PanelCode(panel));
    Endings(b, CloseAll(b.jobs, Failed, PanelCode(panel)));
  }

  lemma CancelKeeps(b: Build)
    requires Good(b) && Cancel(b).Ok?
    ensures Good(Cancel(b).value) && Later(b, Cancel(b).value)
  {
    hide ProgressOf, CloseAll, JobSound;
    var jobs := CloseAll(b.jobs, Cancelled, "cancelled");
    ClosedJobs(b, Cancelled, "cancelled");
    ProgressGrows(b.jobs, jobs);
    var i :| 0 <= i < |b.jobs| && !Terminal(b.jobs[i].status);
    assert jobs[i].status == Cancelled;
  }

  lemma TokenKeeps(b: Build, t: Target, hash: string)
    requires Good(b) && IssueToken(b, t, hash).Ok?
    ensures Good(IssueToken(b, t, hash).value) && Later(b, IssueToken(b, t, hash).value)
  {
    hide ProgressOf, Good, Later;
    var i := Find(b.jobs, t);
    var j := b.jobs[i].(token := Some(hash), tokenValid := true);
    SameProgress(b, i, j);
    LiveBuild(b, i);
    LiveChange(b, i, j, b.status);
  }

  lemma LiveBuild(b: Build, i: nat)
    requires Good(b) && i < |b.jobs| && !Terminal(b.jobs[i].status)
    ensures !Terminal(b.status)
  {
  }

  /** Progress depends on the statuses alone. */
  lemma SameProgress(b: Build, i: nat, j: Job)
    requires Good(b) && i < |b.jobs| && j.status == b.jobs[i].status
    ensures ProgressOf(b.jobs[i := j]) == b.progress
  {
    SameCount(b.jobs, b.jobs[i := j]);
  }

  lemma {:induction false} SameCount(a: seq<Job>, b: seq<Job>)
    requires |a| == |b| && forall i :: 0 <= i < |a| ==> a[i].status == b[i].status
    ensures TerminalCount(a) == TerminalCount(b)
  {
    if a != [] {
      SameCount(a[..|a| - 1], b[..|b| - 1]);
    }
  }

  lemma AttachKeeps(b: Build, t: Target, queue: string)
    requires Good(b) && Attach(b, t, queue).Ok?
    ensures Good(Attach(b, t, queue).value) && Later(b, Attach(b, t, queue).value)
  {
    hide ProgressOf, Produced;
    var i := Find(b.jobs, t);
    var j := b.jobs[i].(queue := Some(queue));
    var jobs := b.jobs[i := j];
    SameProgress(b, i, j);
    forall k | 0 <= k < |jobs|
      ensures JobSound(b.artifacts, jobs[k]) && JobNext(b.jobs[k], jobs[k]) && jobs[k].status == b.jobs[k].status
    {
      assert JobSound(b.artifacts, b.jobs[k]);
    }
    SameStatuses(b.jobs, jobs);
  }

  lemma SameStatuses(a: seq<Job>, b: seq<Job>)
    requires |a| == |b| && forall i :: 0 <= i < |a| ==> a[i].status == b[i].status
    ensures AllTerminal(a) <==> AllTerminal(b)
    ensures forall s :: AnyWith(a, s) <==> AnyWith(b, s)
  {
    assert forall s :: AnyWith(a, s) ==> AnyWith(b, s);
  }

  lemma ClaimKeeps(b: Build, t: Target, hash: string, worker: string)
    requires Good(b) && Claim(b, t, hash, worker).Ok?
    ensures Good(Claim(b, t, hash, worker).value) && Later(b, Claim(b, t, hash, worker).value)
  {
    hide ProgressOf, Good, Later;
    var i := Find(b.jobs, t);
    LiveBuild(b, i);
    LiveChange(b, i, b.jobs[i].(status := Running, worker := Some(worker)), if b.status == Queued then Running else b.status);
  }

  lemma RecordKeeps(b: Build, t: Target, filename: string)
    requires Good(b) && Record(b, t, filename).Ok?
    ensures Good(Record(b, t, filename).value) && Later(b, Record(b, t, filename).value)
  {
    hide ProgressOf, Recorded;
    var after := Record(b, t, filename).value;
    forall k | 0 <= k < |after.jobs| ensures JobSound(after.artifacts, after.jobs[k]) {
      assert JobSound(b.artifacts, b.jobs[k]);
      if Produced(b.artifacts, b.jobs[k].target) {
        var a :| 0 <= a < |b.artifacts| && b.artifacts[a].target == b.jobs[k].target;
        assert after.artifacts[a].target == b.jobs[k].target;
      }
    }
  }

  /** Every transaction keeps the invariant and moves the build forward. */
  lemma StepKeeps(b: Build, e: Event)
    requires Good(b)
    ensures Good(Step(b, e)) && Later(b, Step(b, e))
  {
    hide Attach, IssueToken, Claim, Report, Cancel, Fail, Record, Good, Later;
    LaterReflexive(b);
    if Attempt(b, e).Ok? {
      match e
      case AttachQueue(t, queue) => AttachKeeps(b, t, queue);
      case IssueJobToken(t, hash) => TokenKeeps(b, t, hash);
      case ClaimJob(t, hash, worker) => ClaimKeeps(b, t, hash, worker);
      case ReportJob(t, hash, success, code) => ReportKeeps(b, t, hash, success, code);
      case CancelBuild => CancelKeeps(b);
      case FailBuild(panel) => FailKeeps(b, panel);
      case RecordArtifact(t, filename) => RecordKeeps(b, t, filename);
    }
  }

  lemma LaterReflexive(b: Build)
    ensures Later(b, b)
  {
  }

  lemma LaterTransitive(a: Build, b: Build, c: Build)
    requires Later(a, b) && Later(b, c)
    ensures Later(a, c)
  {
    forall i | 0 <= i < |a.jobs| ensures JobNext(a.jobs[i], c.jobs[i]) {
      assert JobNext(a.jobs[i], b.jobs[i]) && JobNext(b.jobs[i], c.jobs[i]);
    }
  }

  // ---- every run ---------------------------------------------------------------------------------------

  function Exec(b: Build, run: seq<Event>): Build
    decreases |run|
  {
    if run == [] then b else Exec(Step(b, run[0]), run[1..])
  }

  /** Over any run ended jobs stay as they are, progress never falls, and the invariant holds throughout. */
  lemma {:induction false} RunKeeps(b: Build, run: seq<Event>)
    requires Good(b)
    ensures Good(Exec(b, run)) && Later(b, Exec(b, run))
    decreases |run|
  {
    hide Good, Later, Step;
    LaterReflexive(b);
    if run != [] {
      StepKeeps(b, run[0]);
      RunKeeps(Step(b, run[0]), run[1..]);
      LaterTransitive(b, Step(b, run[0]), Exec(b, run));
    }
  }

  lemma CreatedIsGood(targets: seq<Target>)
    requires Create(targets).Ok? && targets != []
    ensures Good(Create(targets).value)
  {
    var b := Create(targets).value;
    NoneEnded(b.jobs);
    assert !Terminal(b.jobs[0].status);
  }

  lemma {:induction false} NoneEnded(jobs: seq<Job>)
    requires forall i :: 0 <= i < |jobs| ==> !Terminal(jobs[i].status)
    ensures TerminalCount(jobs) == 0
  {
    if jobs != [] {
      NoneEnded(jobs[..|jobs| - 1]);
    }
  }

  /** Progress is 100 exactly when the build has ended, which is exactly when all its jobs have. */
  ghost predicate EndsTogether(b: Build) {
    && (b.progress == 100 <==> Terminal(b.status))
    && (b.progress == 100 <==> AllTerminal(b.jobs))
    && (b.status == Cancelled <==> AnyWith(b.jobs, Cancelled))
  }

  /** That holds in every run exactly for builds with a target; an empty build can be cancelled at progress 0. */
  lemma EndsTogetherIffTargets(targets: seq<Target>)
    requires Create(targets).Ok?
    ensures (forall run :: EndsTogether(Exec(Create(targets).value, run))) <==> targets != []
  {
    var b := Create(targets).value;
    if targets == [] {
      var run := [CancelBuild];
      assert Exec(b, run) == Exec(Step(b, run[0]), []);
      assert !EndsTogether(Exec(b, run));
    } else {
      CreatedIsGood(targets);
      forall run ensures EndsTogether(Exec(b, run)) {
        RunKeeps(b, run);
        FullProgress(Exec(b, run));
      }
    }
  }
}
