/** The transactions of `app/builder/repository.py` as they update the rows of one build in place. */
module BuildRecords {
  import opened Outcome
  import opened Builds
  import opened BuildRows

  /** The effect of a transaction: its new rows, or its exception and the old rows. */
  predicate Did(want: Result<Build, Problem>, raised: Option<Problem>, before: Build, after: Build) {
    match want
    case Ok(b) => raised == None && after == b
    case Err(p) => raised == Some(p) && after == before
  }

  /** What a report does to the job of that target. */
  ghost predicate ReportMeans(b: Build, t: Target, hash: string, success: bool, reason: Option<string>, i: nat)
    requires JobAt(b.jobs, t, i)
  {
    var r := Report(b, t, hash, success, reason);
    && (r.Ok? <==> b.jobs[i].tokenValid && b.jobs[i].token == Some(hash) && Open(b.jobs[i].status))
    && (r.Ok? ==> |r.value.jobs| == |b.jobs| && ReportedCode(b.artifacts, t, success, reason, r.value.jobs[i]))
  }

  lemma ReportMeaning(b: Build, t: Target, hash: string, success: bool, reason: Option<string>)
    ensures forall i :: JobAt(b.jobs, t, i) ==> ReportMeans(b, t, hash, success, reason, i)
  {
    hide Report, ReportedCode;
    forall i | JobAt(b.jobs, t, i) ensures ReportMeans(b, t, hash, success, reason, i) {
      ReportOutcome(b, t, hash, success, reason, i);
    }
  }

  class BuildRecord {
    var status: JobStatus
    var progress: nat
    var jobs: seq<Job>
    var artifacts: seq<Artifact>
    var code: Option<string>

    function Value(): Build
      reads this
    {
      Build(status, progress, jobs, artifacts, code)
    }

    /** `create_build` once the insert has passed the unique constraint. */
    constructor (targets: seq<Target>)
      requires AllQueued(targets) && Distinct(targets)
      ensures Create(targets) == Ok(Value())
    {
      status, progress, artifacts, code := Queued, 0, [], None;
      jobs := [];
      new;
      for i := 0 to |targets|
        invariant |jobs| == i && forall k :: 0 <= k < i ==> jobs[k] == NewJob(targets[k])
        invariant status == Queued && progress == 0 && artifacts == [] && code == None
      {
        jobs := jobs + [NewJob(targets[i])];
      }
      assert jobs == Create(targets).value.jobs;
    }

    method RecomputeProgress()
      modifies this`progress
      ensures progress == ProgressOf(jobs)
    {
      if jobs == [] {
        progress := 0;
        return;
      }
      var terminal := 0;
      for i := 0 to |jobs|
        invariant terminal == TerminalCount(jobs[..i])
      {
        assert jobs[..i + 1][..i] == jobs[..i];
        if Terminal(jobs[i].status) {
          terminal := terminal + 1;
        }
      }
      assert jobs[..|jobs|] == jobs;
      progress := Percent(terminal, |jobs|);
    }

    method AggregateBuild()
      modifies this`progress, this`status, this`code
      ensures Value() == Aggregated(old(Value()))
    {
      RecomputeProgress();
      var live := false;
      var failed, cancelled: seq<Job> := [], [];
      for i := 0 to |jobs|
        invariant live <==> TerminalCount(jobs[..i]) < i
        invariant failed == WithStatus(jobs[..i], Failed)
        invariant cancelled == WithStatus(jobs[..i], Cancelled)
      {
        assert jobs[..i + 1][..i] == jobs[..i];
        if !Terminal(jobs[i].status) {
          live := true;
        }
        if jobs[i].status == Failed {
          failed := failed + [jobs[i]];
        }
        if jobs[i].status == Cancelled {
          cancelled := cancelled + [jobs[i]];
        }
      }
      assert jobs[..|jobs|] == jobs;
      if jobs == [] || live {
        if status == Queued {
          status := Running;
        }
        return;
      }
      if failed != [] {
        status, code := Failed, Some(OrElse(failed[0].code, "worker_error"));
      } else if cancelled != [] && |cancelled| == |jobs| {
        status, code := Cancelled, Some("cancelled");
      } else if cancelled != [] {
        status, code := Failed, Some("cancelled");
      } else {
        status, code := Success, None;
      }
    }

    method FindJob(t: Target) returns (i: nat)
      ensures i == Find(jobs, t)
    {
      hide Find;
      i := 0;
      while i < |jobs| && jobs[i].target != t
        invariant i <= |jobs|
        invariant forall k :: 0 <= k < i ==> jobs[k].target != t
      {
        i := i + 1;
      }
      var j := Find(jobs, t);
      assert i == j;
    }

    method AttachQueueJob(t: Target, queue: string) returns (raised: Option<Problem>)
      modifies this`jobs
      ensures Did(Attach(old(Value()), t, queue), raised, old(Value()), Value())
    {
      var i := FindJob(t);
      if i == |jobs| {
        return Some(NotFound);
      }
      jobs := jobs[i := jobs[i].(queue := Some(queue))];
      raised := None;
    }

    method IssueJobToken(t: Target, hash: string) returns (raised: Option<Problem>)
      modifies this`jobs
      ensures Did(IssueToken(old(Value()), t, hash), raised, old(Value()), Value())
    {
      var i := FindJob(t);
      if i == |jobs| {
        return Some(NotFound);
      }
      if Terminal(jobs[i].status) {
        return Some(Conflict);
      }
      jobs := jobs[i := jobs[i].(token := Some(hash))];
      jobs := jobs[i := jobs[i].(tokenValid := true)];
      raised := None;
    }

    method ClaimJob(t: Target, hash: string, worker: string) returns (raised: Option<Problem>)
      modifies this`jobs, this`status, this`progress
      ensures Did(Claim(old(Value()), t, hash, worker), raised, old(Value()), Value())
    {
      hide ProgressOf;
      var i := FindJob(t);
      if i == |jobs| {
        return Some(NotFound);
      }
      if !Accepts(jobs[i], hash) || Terminal(jobs[i].status) {
        return Some(AuthFailed);
      }
      if jobs[i].status == Running && jobs[i].worker != Some(worker) {
        return Some(Conflict);
      }
      jobs := jobs[i := jobs[i].(status := Running)];
      jobs := jobs[i := jobs[i].(worker := Some(worker))];
      assert jobs == old(jobs)[i := old(jobs)[i].(status := Running, worker := Some(worker))];
      if status == Queued {
        status := Running;
      }
      RecomputeProgress();
      raised := None;
    }

    method ReportJob(t: Target, hash: string, success: bool, reason: Option<string>) returns (raised: Option<Problem>)
      modifies this`jobs, this`status, this`progress, this`code
      ensures Did(Report(old(Value()), t, hash, success, reason), raised, old(Value()), Value())
      ensures forall i: nat :: JobAt(old(jobs), t, i) ==> |jobs| == |old(jobs)|
      ensures forall i: nat :: JobAt(old(jobs), t, i) && raised == None ==>
                ReportedCode(old(artifacts), t, success, reason, jobs[i])
      ensures forall i: nat :: JobAt(old(jobs), t, i) ==>
                (raised == None <==>
                 old(jobs)[i].tokenValid && old(jobs)[i].token == Some(hash) && Open(old(jobs)[i].status))
    {
      hide Aggregated, Produced, NormalCode, ALLOWED_CODES, ReportedCode;
      ReportMeaning(Value(), t, hash, success, reason);
      var i := FindJob(t);
      if i == |jobs| {
        return Some(NotFound);
      }
      if !Accepts(jobs[i], hash) {
        return Some(AuthFailed);
      }
      if Terminal(jobs[i].status) || (jobs[i].status != Queued && jobs[i].status != Running) {
        return Some(Conflict);
      }
      var ok, why := success, NormalCode(reason);
      if success && !Produced(artifacts, t) {
        ok, why := false, Some("no_artifacts");
      }
      var job := jobs[i];
      job := job.(status := if ok then Success else Failed);
      job := job.(code := if ok then None else Some(OrElse(why, "worker_error")));
      job := job.(tokenValid := false, token := None);
      ghost var next := Value().(jobs := jobs[i := Reported(Value(), jobs[i], success, reason)]);
      jobs := jobs[i := job];
      assert Value() == next;
      AggregateBuild();
      raised := None;
    }

    /** Also returns the queue entries the caller has to drop. */
    method CancelBuild() returns (raised: Option<Problem>, live: seq<(string, string)>)
      modifies this`jobs, this`status, this`progress
      ensures Did(Cancel(old(Value())), raised, old(Value()), Value())
      ensures live == if raised.None? then LiveQueue(old(jobs)) else []
    {
      hide ProgressOf;
      live := [];
      if Terminal(status) {
        return Some(Conflict), [];
      }
      for i := 0 to |jobs|
        invariant |jobs| == |old(jobs)|
        invariant live == LiveQueue(old(jobs)[..i])
        invariant forall k :: 0 <= k < i ==> jobs[k] == Close(old(jobs)[k], Cancelled, "cancelled")
        invariant forall k :: i <= k < |jobs| ==> jobs[k] == old(jobs)[k]
      {
        assert old(jobs)[..i + 1][..i] == old(jobs)[..i];
        if Terminal(jobs[i].status) {
          continue;
        }
        if jobs[i].queue.Some? && jobs[i].queue.value != "" {
          live := live + [(QueueName(jobs[i]), jobs[i].queue.value)];
        }
        jobs := jobs[i := jobs[i].(status := Cancelled, code := Some("cancelled"))];
        jobs := jobs[i := jobs[i].(tokenValid := false, token := None)];
      }
      assert old(jobs)[..|jobs|] == old(jobs);
      assert jobs == CloseAll(old(jobs), Cancelled, "cancelled");
      status := Cancelled;
      RecomputeProgress();
      raised := None;
    }

    method FailBuild(panel: string) returns (raised: Option<Problem>)
      modifies this`jobs, this`status, this`progress, this`code
      ensures Did(Fail(old(Value()), panel), raised, old(Value()), Value())
    {
      hide Aggregated;
      if Terminal(status) {
        return Some(Conflict);
      }
      for i := 0 to |jobs|
        modifies this`jobs
        invariant |jobs| == |old(jobs)|
        invariant forall k :: 0 <= k < i ==> jobs[k] == Close(old(jobs)[k], Failed, PanelCode(panel))
        invariant forall k :: i <= k < |jobs| ==> jobs[k] == old(jobs)[k]
      {
        if Terminal(jobs[i].status) {
          continue;
        }
        jobs := jobs[i := jobs[i].(status := Failed, code := Some(PanelCode(panel)))];
        jobs := jobs[i := jobs[i].(tokenValid := false, token := None)];
      }
      assert jobs == CloseAll(old(jobs), Failed, PanelCode(panel));
      assert Value() == old(Value()).(jobs := CloseAll(old(jobs), Failed, PanelCode(panel)));
      AggregateBuild();
      code := Some(PanelCode(panel));
      raised := None;
    }

    method RecordArtifact(t: Target, filename: string) returns (raised: Option<Problem>)
      modifies this`artifacts
      ensures Did(Record(old(Value()), t, filename), raised, old(Value()), Value())
    {
      var i := FindJob(t);
      if i == |jobs| {
        return Some(NotFound);
      }
      if jobs[i].status != Running || Recorded(artifacts, t, filename) {
        return Some(Conflict);
      }
      artifacts := artifacts + [Artifact(t, filename)];
      raised := None;
    }
  }

  /** The largest number in use, or 0. */
  method Peak(numbers: set<nat>) returns (peak: nat)
    ensures forall n :: n in numbers ==> n <= peak
    ensures peak == 0 || peak in numbers
  {
    peak := 0;
    var left := numbers;
    while exists n :: n in left
      invariant left <= numbers
      invariant forall n :: n in numbers && n !in left ==> n <= peak
      invariant peak == 0 || peak in numbers
      decreases |left|
    {
      var n :| n in left;
      if n > peak {
        peak := n;
      }
      left := left - {n};
    }
  }

  /**
    * `create_build`: `seen` are the build numbers the peak was read from, `taken` those committed when the
    * build row is flushed. A number taken meanwhile fails at the flush, before the handler that reports
    * conflicts, so the database error itself escapes (`NumberTaken`); then come unknown platforms and, at
    * the commit, repeated targets. None of them stores anything.
    */
  method CreateBuild(targets: seq<Target>, seen: set<nat>, taken: set<nat>)
    returns (r: Result<BuildRecord, Problem>, number: nat)
    ensures forall n :: n in seen ==> n < number
    ensures number - 1 in seen || number == 1
    ensures r == Err(NumberTaken) <==> number in taken
    ensures r == Err(UnknownPlatform) <==> number !in taken && !AllQueued(targets)
    ensures r == Err(Conflict) <==> number !in taken && AllQueued(targets) && !Distinct(targets)
    ensures r.Ok? <==> number !in taken && AllQueued(targets) && Distinct(targets)
    ensures r.Ok? ==> Create(targets) == Ok(r.value.Value())
    ensures taken <= seen ==> r != Err(NumberTaken)
  {
    var peak := Peak(seen);
    number := peak + 1;
    if number in taken {
      return Err(NumberTaken), number;
    }
    if !AllQueued(targets) {
      return Err(UnknownPlatform), number;
    }
    if !Distinct(targets) {
      return Err(Conflict), number;
    }
    var b := new BuildRecord(targets);
    r := Ok(b);
  }
}
