/** When each build transaction succeeds, and what it leaves in the job and build rows. */
module BuildRows {
  import opened Outcome
  import opened Builds

  // ---- failure codes ------------------------------------------------------------------------

  const KNOWN: seq<string> := [
    "clone_failed", "checkout_failed", "config_invalid", "toolchain_missing", "build_failed", "artifact_invalid",
    "artifact_upload_failed", "no_artifacts", "worker_error", "cancelled", "timeout", "panel_error",
    "credential_revoked", "resources_insufficient", "provision_failed", "provision_unsupported"]

  predicate Blank(s: string) {
    forall i :: 0 <= i < |s| ==> IsSpace(s[i])
  }

  /** No white space at either end. */
  predicate Trimmed(s: string) {
    s != "" ==> !IsSpace(s[0]) && !IsSpace(s[|s| - 1])
  }

  /** Below 128, white space is the blank, tab to carriage return, and the four separators. */
  lemma AsciiSpaces(c: char)
    requires c as int < 128
    ensures IsSpace(c) <==> c == ' ' || '\t' <= c <= '\r' || 28 <= c as int <= 31
  {
  }

  lemma {:induction false} StripLeftIs(left: string, s: string)
    requires Blank(left) && (s != "" ==> !IsSpace(s[0]))
    ensures StripLeft(left + s) == s
  {
    hide IsSpace;
    if left == "" {
      assert left + s == s;
    } else {
      assert (left + s)[0] == left[0] && (left + s)[1..] == left[1..] + s;
      StripLeftIs(left[1..], s);
    }
  }

  lemma {:induction false} StripRightIs(s: string, right: string)
    requires Blank(right) && (s != "" ==> !IsSpace(s[|s| - 1]))
    ensures StripRight(s + right) == s
  {
    hide IsSpace;
    if right == "" {
      assert s + right == s;
    } else {
      var rest, c := right[..|right| - 1], right[|right| - 1];
      assert right == rest + [c];
      assert s + right == (s + rest) + [c];
      StripRightOne(s + rest, c);
      StripRightIs(s, rest);
    }
  }

  lemma StripRightOne(s: string, c: char)
    requires IsSpace(c)
    ensures StripRight(s + [c]) == StripRight(s)
  {
    hide IsSpace;
    assert (s + [c])[..|s|] == s;
  }

  lemma {:induction false} StripRightBlank(right: string)
    requires Blank(right)
    ensures StripRight(right) == ""
  {
    StripRightIs("", right);
    assert "" + right == right;
  }

  lemma {:induction false} StripLeftBlank(left: string)
    requires Blank(left)
    ensures StripLeft(left) == ""
  {
    StripLeftIs(left, "");
    assert left + "" == left;
  }

  lemma StripIs(left: string, text: string, right: string)
    requires Blank(left) && Trimmed(text) && Blank(right)
    ensures StripRight(StripLeft(left + text + right)) == text
  {
    hide IsSpace, StripLeft, StripRight;
    if text == "" {
      assert left + text + right == left + right;
      StripLeftBlank(left + right);
      StripRightBlank("");
    } else {
      assert left + text + right == left + (text + right);
      assert (text + right)[0] == text[0];
      StripLeftIs(left, text + right);
      StripRightIs(text, right);
    }
  }

  /** Every text is a trimmed text between white space. */
  lemma {:induction false} Surrounded(raw: string) returns (left: string, text: string, right: string)
    ensures raw == left + text + right && Blank(left) && Trimmed(text) && Blank(right)
  {
    hide IsSpace;
    if raw == "" {
      left, text, right := "", "", "";
    } else if IsSpace(raw[0]) {
      left, text, right := Surrounded(raw[1..]);
      left := [raw[0]] + left;
    } else if IsSpace(raw[|raw| - 1]) {
      var n := |raw| - 1;
      left, text, right := Surrounded(raw[..n]);
      assert raw == raw[..n] + [raw[n]];
      right := right + [raw[n]];
    } else {
      left, text, right := "", raw, "";
    }
  }

  lemma KnownCodes(c: string)
    ensures c in KNOWN <==> c in ALLOWED_CODES
  {
  }

  lemma KnownShort(c: string)
    requires c in KNOWN
    ensures 0 < |c| < 64
  {
  }

  /** What is stored of a failure code: nothing when blank, the code itself when known, `worker_error` for any other. */
  lemma StoredCode(left: string, text: string, right: string)
    requires Blank(left) && Trimmed(text) && Blank(right)
    ensures NormalCode(Some(left + text + right))
            == if text == "" then None else if text in KNOWN then Some(text) else Some("worker_error")
    ensures NormalCode(None) == None
  {
    hide IsSpace, StripLeft, StripRight, ALLOWED_CODES, KNOWN;
    StripIs(left, text, right);
    StripIs("", "", "");
    assert "" + "" + "" == "";
    KnownCodes(text);
    var cut := if |text| <= 64 then text else text[..64];
    KnownCodes(cut);
    if text in KNOWN {
      KnownShort(text);
    }
    if cut in KNOWN {
      KnownShort(cut);
    }
  }

  lemma KnownIsTrimmed(c: string)
    requires c in KNOWN
    ensures Trimmed(c) && c != ""
  {
  }

  /** So every known code is kept as it is, whatever white space surrounds it. */
  lemma KnownIsKept(left: string, c: string, right: string)
    requires Blank(left) && c in KNOWN && Blank(right)
    ensures NormalCode(Some(left + c + right)) == Some(c) && NormalCode(Some(c)) == Some(c)
  {
    hide IsSpace, NormalCode, KNOWN;
    KnownIsTrimmed(c);
    StoredCode(left, c, right);
    StoredCode("", c, "");
    assert "" + c + "" == c;
  }

  // ---- one job of a build -----------------------------------------------------------------------

  /** Row i is the job of that target. */
  ghost predicate JobAt(jobs: seq<Job>, t: Target, i: nat) {
    i < |jobs| && jobs[i].target == t && forall j :: 0 <= j < i ==> jobs[j].target != t
  }

  lemma FindIs(jobs: seq<Job>, t: Target, i: nat)
    ensures JobAt(jobs, t, i) ==> Find(jobs, t) == i
    ensures Find(jobs, t) < |jobs| <==> exists j :: 0 <= j < |jobs| && jobs[j].target == t
  {
    hide Find;
    var k := Find(jobs, t);
  }

  predicate Open(s: JobStatus) {
    s == Queued || s == Running
  }

  /** The first failed job, by position. */
  lemma {:induction false} FirstWith(jobs: seq<Job>, s: JobStatus, i: nat)
    requires i < |jobs| && jobs[i].status == s && forall j :: 0 <= j < i ==> jobs[j].status != s
    ensures WithStatus(jobs, s) != [] && WithStatus(jobs, s)[0] == jobs[i]
  {
    var n := |jobs| - 1;
    if i < n {
      FirstWith(jobs[..n], s, i);
    } else {
      assert !AnyWith(jobs[..n], s);
    }
  }

  /** When all jobs have ended and one failed, the build fails with the code of the first that did. */
  lemma FirstFailureNamesBuild(b: Build, i: nat)
    requires forall j :: 0 <= j < |b.jobs| ==> !Open(b.jobs[j].status)
    requires i < |b.jobs| && b.jobs[i].status == Failed && forall j :: 0 <= j < i ==> b.jobs[j].status != Failed
    ensures Aggregated(b).status == Failed
    ensures forall c :: b.jobs[i].code == Some(c) && c != "" ==> Aggregated(b).code == Some(c)
  {
    hide WithStatus, ProgressOf;
    FirstWith(b.jobs, Failed, i);
    CountAllTerminal(b.jobs);
  }

  /** While a job is open the build keeps its code, and runs if it was queued. */
  lemma OpenJobKeepsBuild(b: Build, i: nat)
    requires i < |b.jobs| && Open(b.jobs[i].status)
    ensures Aggregated(b).code == b.code
    ensures Aggregated(b).status == if b.status == Queued then Running else b.status
  {
    hide WithStatus, ProgressOf;
    CountAllTerminal(b.jobs);
  }

  lemma {:induction false} EndedJobs(jobs: seq<Job>)
    ensures TerminalCount(jobs) == |set i | 0 <= i < |jobs| && !Open(jobs[i].status)|
  {
    if jobs != [] {
      var n := |jobs| - 1;
      EndedJobs(jobs[..n]);
      var before := set i | 0 <= i < n && !Open(jobs[..n][i].status);
      var all := set i | 0 <= i < |jobs| && !Open(jobs[i].status);
      assert n !in before;
      assert all == if Open(jobs[n].status) then before else before + {n};
    }
  }

  /** Progress is the share of jobs that have ended, in whole percent rounded down. */
  lemma ProgressIsShare(jobs: seq<Job>)
    requires jobs != []
    ensures ProgressOf(jobs) == |set i | 0 <= i < |jobs| && !Open(jobs[i].status)| * 100 / |jobs|
  {
    hide TerminalCount;
    EndedJobs(jobs);
    ShareFits(TerminalCount(jobs), |jobs|);
  }

  lemma ShareFits(done: nat, all: nat)
    requires 0 < all && done <= all
    ensures done * 100 / all <= 100
  {
    DivGrows(done * 100, all * 100, all);
    assert all * 100 / all == 100;
  }

  // ---- exact outcomes ------------------------------------------------------------------------------

  /** A token is issued for any open job, and replaces the one before. */
  lemma IssueOutcome(b: Build, t: Target, hash: string, i: nat)
    requires JobAt(b.jobs, t, i)
    ensures IssueToken(b, t, hash).Ok? <==> Open(b.jobs[i].status)
    ensures !Open(b.jobs[i].status) ==> IssueToken(b, t, hash) == Err(Conflict)
    ensures IssueToken(b, t, hash).Ok? ==>
              var r := IssueToken(b, t, hash).value;
              && |r.jobs| == |b.jobs| && r.jobs[i].tokenValid && r.jobs[i].token == Some(hash)
              && r.(jobs := b.jobs) == b
              && (forall j :: 0 <= j < |b.jobs| && j != i ==> r.jobs[j] == b.jobs[j])
  {
    hide Find;
    FindIs(b.jobs, t, i);
  }

  /** A claim needs the valid token of an open job that no other worker is running. */
  lemma ClaimOutcome(b: Build, t: Target, hash: string, worker: string, i: nat)
    requires JobAt(b.jobs, t, i)
    ensures var job := b.jobs[i];
            && (Claim(b, t, hash, worker).Ok? <==>
                  job.tokenValid && job.token == Some(hash)
                  && (job.status == Queued || (job.status == Running && job.worker == Some(worker))))
            && (Claim(b, t, hash, worker) == Err(Conflict) <==>
                  job.tokenValid && job.token == Some(hash) && job.status == Running && job.worker != Some(worker))
    ensures Claim(b, t, hash, worker).Ok? ==>
              var r := Claim(b, t, hash, worker).value;
              && |r.jobs| == |b.jobs| && r.jobs[i].status == Running && r.jobs[i].worker == Some(worker)
              && r.jobs[i].token == Some(hash) && r.jobs[i].tokenValid
              && r.status == (if b.status == Queued then Running else b.status)
              && r.artifacts == b.artifacts && r.code == b.code
              && (forall j :: 0 <= j < |b.jobs| && j != i ==> r.jobs[j] == b.jobs[j])
  {
    hide Find, ProgressOf;
    FindIs(b.jobs, t, i);
  }

  /** The code a report leaves on the job. */
  ghost predicate ReportedCode(artifacts: seq<Artifact>, t: Target, success: bool, sent: Option<string>, r: Job) {
    && r.target == t && !r.tokenValid && r.token == None
    && (success && (exists k :: 0 <= k < |artifacts| && artifacts[k].target == t) ==>
          r.status == Success && r.code == None)
    && (success && (forall k :: 0 <= k < |artifacts| ==> artifacts[k].target != t) ==>
          r.status == Failed && r.code == Some("no_artifacts"))
    && (!success ==> r.status == Failed)
    && (!success && sent == None ==> r.code == Some("worker_error"))
    && (forall left, text, right ::
          !success && Blank(left) && Trimmed(text) && Blank(right) && sent == Some(left + text + right) ==>
            r.code == Some(if text in KNOWN then text else "worker_error"))
  }

  lemma ReportedIs(b: Build, job: Job, success: bool, sent: Option<string>)
    ensures ReportedCode(b.artifacts, job.target, success, sent, Reported(b, job, success, sent))
  {
    hide NormalCode, Blank, Trimmed, KNOWN, ALLOWED_CODES;
    StoredCodeOf(sent);
    forall left, text, right
      | !success && Blank(left) && Trimmed(text) && Blank(right) && sent == Some(left + text + right)
      ensures Reported(b, job, success, sent).code == Some(if text in KNOWN then text else "worker_error")
    {
      StoredCode(left, text, right);
      if text in KNOWN {
        KnownShort(text);
      }
    }
  }

  lemma StoredCodeOf(sent: Option<string>)
    ensures sent == None ==> NormalCode(sent) == None
  {
    hide IsSpace, ALLOWED_CODES, KNOWN;
    StoredCode("", "", "");
  }

  /** A report needs the valid token of an open job. */
  lemma ReportOutcome(b: Build, t: Target, hash: string, success: bool, sent: Option<string>, i: nat)
    requires JobAt(b.jobs, t, i)
    ensures var job := b.jobs[i];
            var r := Report(b, t, hash, success, sent);
            && (r.Ok? <==> job.tokenValid && job.token == Some(hash) && Open(job.status))
            && (r == Err(AuthFailed) <==> !(job.tokenValid && job.token == Some(hash)))
            && (r == Err(Conflict) <==> job.tokenValid && job.token == Some(hash) && !Open(job.status))
    ensures Report(b, t, hash, success, sent).Ok? ==>
              var r := Report(b, t, hash, success, sent).value;
              && |r.jobs| == |b.jobs| && ReportedCode(b.artifacts, t, success, sent, r.jobs[i])
              && r.artifacts == b.artifacts
              && (forall j :: 0 <= j < |b.jobs| && j != i ==> r.jobs[j] == b.jobs[j])
  {
    hide Find, ReportedCode, NormalCode, ALLOWED_CODES, Produced, ProgressOf, WithStatus;
    FindIs(b.jobs, t, i);
    ReportedIs(b, b.jobs[i], success, sent);
  }

  /** An unknown target is refused by each of them. */
  lemma UnknownTarget(b: Build, t: Target, hash: string, worker: string, success: bool, sent: Option<string>, name: string)
    requires forall j :: 0 <= j < |b.jobs| ==> b.jobs[j].target != t
    ensures Attach(b, t, name) == IssueToken(b, t, hash) == Claim(b, t, hash, worker) == Err(NotFound)
    ensures Report(b, t, hash, success, sent) == Record(b, t, name) == Err(NotFound)
  {
    hide Find, NormalCode, ALLOWED_CODES, ProgressOf, WithStatus;
    FindIs(b.jobs, t, 0);
  }

  /** The last report of a build: with every other job ended and none before it failed, its code becomes the build's. */
  lemma LastReportNamesBuild(b: Build, t: Target, hash: string, left: string, c: string, right: string, i: nat)
    requires JobAt(b.jobs, t, i) && Blank(left) && c in KNOWN && Blank(right)
    requires Report(b, t, hash, false, Some(left + c + right)).Ok?
    requires forall j :: 0 <= j < |b.jobs| && j != i ==> !Open(b.jobs[j].status)
    requires forall j :: 0 <= j < i ==> b.jobs[j].status != Failed
    ensures var r := Report(b, t, hash, false, Some(left + c + right)).value;
            r.status == Failed && r.code == Some(c) && |r.jobs| == |b.jobs| && r.jobs[i].code == Some(c)
  {
    hide Find, NormalCode, ALLOWED_CODES, KNOWN, Produced, Aggregated, Blank, Trimmed;
    FindIs(b.jobs, t, i);
    KnownIsKept(left, c, right);
    KnownShort(c);
    var next := b.(jobs := b.jobs[i := Reported(b, b.jobs[i], false, Some(left + c + right))]);
    FirstFailureNamesBuild(next, i);
    AggregateKeepsJobs(next);
  }

  lemma AggregateKeepsJobs(b: Build)
    ensures Aggregated(b).jobs == b.jobs && Aggregated(b).artifacts == b.artifacts
  {
    hide WithStatus, ProgressOf;
  }

  /** A file is recorded for a running job unless one of that name exists for the same platform and architecture. */
  lemma RecordOutcome(b: Build, t: Target, filename: string, i: nat)
    requires JobAt(b.jobs, t, i)
    ensures Record(b, t, filename).Ok? <==>
              b.jobs[i].status == Running
              && forall k :: 0 <= k < |b.artifacts| ==>
                   b.artifacts[k].filename != filename || b.artifacts[k].target.platform != t.platform
                   || b.artifacts[k].target.arch != t.arch
    ensures Record(b, t, filename).Ok? ==>
              Record(b, t, filename).value == b.(artifacts := b.artifacts + [Artifact(t, filename)])
    ensures !Record(b, t, filename).Ok? ==> Record(b, t, filename) == Err(Conflict)
  {
    hide Find;
    FindIs(b.jobs, t, i);
  }

  /** Cancelling or failing a build ends every open job with that code and no token, and no ended one. */
  lemma ClosedRows(b: Build, panel: string, i: nat)
    requires i < |b.jobs|
    ensures Cancel(b).Ok? <==> Open(b.status)
    ensures Fail(b, panel).Ok? <==> Open(b.status)
    ensures Open(b.status) ==>
              var c, f := Cancel(b).value, Fail(b, panel).value;
              && |c.jobs| == |f.jobs| == |b.jobs| && c.status == Cancelled && c.code == b.code
              && (!Open(b.jobs[i].status) ==> c.jobs[i] == f.jobs[i] == b.jobs[i])
              && (Open(b.jobs[i].status) ==>
                    && c.jobs[i].status == Cancelled && c.jobs[i].code == Some("cancelled")
                    && !c.jobs[i].tokenValid && c.jobs[i].token == None
                    && f.jobs[i].status == Failed && !f.jobs[i].tokenValid && f.jobs[i].token == None
                    && f.jobs[i].code == f.code)
              && (panel == "" ==> f.code == Some("panel_error"))
              && (0 < |panel| <= 64 ==> f.code == Some(panel))
              && (64 < |panel| ==> f.code == Some(panel[..64]))
  {
    hide ProgressOf, Aggregated;
    AggregateKeepsJobs(b.(jobs := CloseAll(b.jobs, Failed, PanelCode(panel))));
  }

  /** The queues of the known platforms; no other platform has one. */
  lemma Queues(platform: string)
    ensures QueueFor(platform) == if platform in ["android", "linux"] then Some("builder:linux")
                                  else if platform in ["ios", "macos"] then Some("builder:macos")
                                  else if platform == "windows" then Some("builder:windows")
                                  else None
  {
  }
}
