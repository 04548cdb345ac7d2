/**
 * The retirement run (the `__main__` block of main.py, lines 179-239).
 *
 * The run lists the projects and then, per project, either counts and pages
 * through the project's executions (by-project mode) or lists the project's
 * jobs and counts and pages through each job's executions (by-job mode),
 * deleting every fetched page.  The two modes fail differently: by-project
 * mode ends the run with exit status 1 on the first list, count or fetch
 * that fails (a failed delete is never read); by-job mode stops a job's pages
 * at the first empty or failed page, and a failed job list or count crashes
 * the run with a TypeError.
 *
 * `RunSpec` states the whole observable behaviour, the trace of requests and
 * the way the run ends, as functions; `Run` is the loop that the source runs,
 * proved to produce exactly that.
 */
module Retire {
  import Base
  import opened Api

  /** How the run ends: exit(0), exit(1), or an uncaught TypeError. */
  datatype Status = Done | Fatal | Crashed

  /** The process exit status; Python exits with 1 on an uncaught exception. */
  function ExitCode(s: Status): int {
    match s
    case Done => 0
    case Fatal => 1
    case Crashed => 1
  }

  datatype Outcome = Outcome(trace: seq<Event>, status: Status)

  /** The events of one project's or one job's pages, and whether the run was aborted there. */
  datatype Segment = Segment(trace: seq<Event>, aborted: bool)

  /** The number of pages range(page, total + 1) walks. */
  function PagesLeft(page: int, total: int): nat {
    if page <= total then total + 1 - page else 0
  }

  // ---------------------------------------------------------------------
  // The run as functions
  // ---------------------------------------------------------------------

  function RunSpec(env: Env): Outcome
    requires env.configs.deleteSize > 0
  {
    var projects := AllProjects(env, [], true);
    var h := [ProjectsEvent(env, [])];
    if projects.NoneValue? then Outcome(h, Fatal)
    else
      var names := KeysOf(projects.value);
      if env.configs.execsByProject then ByProject(env, names, 0, h) else ByJob(env, names, 0, h)
  }

  /** By-project mode from project i on. */
  function ByProject(env: Env, names: seq<string>, i: nat, h: seq<Event>): Outcome
    requires env.configs.deleteSize > 0
    requires i <= |names|
    decreases |names| - i
  {
    if i == |names| then Outcome(h, Done)
    else
      var seg := ProjectStep(env, names[i], h);
      if seg.aborted then Outcome(seg.trace, Fatal) else ByProject(env, names, i + 1, seg.trace)
  }

  /** By-project mode, one project: count its old executions, then walk its pages; aborted means exit(1). */
  function ProjectStep(env: Env, project: string, h: seq<Event>): Segment
    requires env.configs.deleteSize > 0
  {
    var count := ExecutionsTotal(env, h, project, false);
    var h1 := h + [CountEvent(env, h, project, false)];
    if count.NoneValue? then Segment(h1, true)
    else ProjectPages(env, project, 0, Base.GetNumPages(count.value, env.configs.deleteSize), h1)
  }

  /** By-project mode, one project's pages from `page` to `total`: fetch, then delete what was fetched. */
  function ProjectPages(env: Env, project: string, page: int, total: int, h: seq<Event>): Segment
    decreases PagesLeft(page, total)
  {
    if page > total then Segment(h, false)
    else
      var executions := Executions(env, h, project, page, false, true);
      var h1 := h + [FetchEvent(env, h, project, page, false)];
      if executions.NoneValue? then Segment(h1, true)
      else ProjectPages(env, project, page + 1, total, h1 + [DeleteEvent(env, h1, executions.value)])
  }

  /** By-job mode from project i on. */
  function ByJob(env: Env, names: seq<string>, i: nat, h: seq<Event>): Outcome
    requires env.configs.deleteSize > 0
    requires i <= |names|
    decreases |names| - i
  {
    if i == |names| then Outcome(h, Done)
    else
      var seg := JobsStep(env, names[i], h);
      if seg.aborted then Outcome(seg.trace, Crashed) else ByJob(env, names, i + 1, seg.trace)
  }

  /** By-job mode, one project: list its jobs, then walk them; aborted means a TypeError. */
  function JobsStep(env: Env, project: string, h: seq<Event>): Segment
    requires env.configs.deleteSize > 0
  {
    var jobs := JobsByProject(env, h, project, true);
    var h1 := h + [JobsEvent(env, h, project)];
    if !jobs.Value? then Segment(h1, true) else ProjectJobs(env, KeysOf(jobs.value), 0, h1)
  }

  /** By-job mode, one project's jobs from job j on; aborted means a count failed (a TypeError). */
  function ProjectJobs(env: Env, jobs: seq<string>, j: nat, h: seq<Event>): Segment
    requires env.configs.deleteSize > 0
    requires j <= |jobs|
    decreases |jobs| - j
  {
    if j == |jobs| then Segment(h, false)
    else
      var seg := JobStep(env, jobs[j], h);
      if seg.aborted then seg else ProjectJobs(env, jobs, j + 1, seg.trace)
  }

  /** By-job mode, one job: count its old executions, then walk its pages. */
  function JobStep(env: Env, job: string, h: seq<Event>): Segment
    requires env.configs.deleteSize > 0
  {
    var count := ExecutionsTotal(env, h, job, true);
    var h1 := h + [CountEvent(env, h, job, true)];
    if !count.Value? then Segment(h1, true)
    else Segment(JobPages(env, job, 0, Base.GetNumPages(count.value, env.configs.deleteSize), h1), false)
  }

  /** By-job mode, one job's pages from `page` to `total`, up to the first empty or failed page. */
  function JobPages(env: Env, job: string, page: int, total: int, h: seq<Event>): seq<Event>
    decreases PagesLeft(page, total)
  {
    if page > total then h
    else
      var executions := Executions(env, h, job, page, true, true);
      var h1 := h + [FetchEvent(env, h, job, page, true)];
      if executions.Value? && executions.value != []
      then JobPages(env, job, page + 1, total, h1 + [DeleteEvent(env, h1, executions.value)])
      else h1
  }

  // ---------------------------------------------------------------------
  // The run as the source runs it
  // ---------------------------------------------------------------------

  /**
   * The control loop: list the projects, exit(1) when that fails, and run
   * the mode's loop over them.  It produces exactly the trace and the ending
   * that RunSpec states.
   */
  method Run(env: Env) returns (status: Status, trace: seq<Event>)
    requires env.configs.deleteSize > 0
    ensures Outcome(trace, status) == RunSpec(env)
  {
    var projects, h := GetAllProjects(env, []);
    if projects.NoneValue? {
      return Fatal, h;
    }
    if env.configs.execsByProject {
      status, trace := RunByProject(env, projects.value, h);
    } else {
      status, trace := RunByJob(env, projects.value, h);
    }
  }

  /** By-project mode: every failed request ends the run with exit(1). */
  method RunByProject(env: Env, entries: seq<Entry<string, ProjectRecord>>, h0: seq<Event>)
    returns (status: Status, trace: seq<Event>)
    requires env.configs.deleteSize > 0
    requires forall k :: 0 <= k < |entries| ==> entries[k].Key?
    ensures Outcome(trace, status) == ByProject(env, KeysOf(entries), 0, h0)
  {
    ghost var names := KeysOf(entries);
    KeysOfKeyEntries(entries);
    var h := h0;
    var i := 0;
    while i < |entries|
      invariant 0 <= i <= |entries|
      invariant ByProject(env, names, i, h) == ByProject(env, names, 0, h0)
      decreases |entries| - i
    {
      var aborted;
      aborted, h := RunProjectStep(env, entries[i].key, h);
      if aborted {
        return Fatal, h;
      }
      i := i + 1;
    }
    return Done, h;
  }

  /** By-project mode, one project: count, then fetch and delete page after page; aborted means exit(1). */
  method RunProjectStep(env: Env, project: string, h0: seq<Event>) returns (aborted: bool, h: seq<Event>)
    requires env.configs.deleteSize > 0
    ensures Segment(h, aborted) == ProjectStep(env, project, h0)
  {
    var count;
    count, h := GetExecutionsTotal(env, h0, project, false);
    if count.NoneValue? {
      return true, h;
    }
    var totalPages := Base.GetNumPages(count.value, env.configs.deleteSize);
    ghost var h1 := h;
    var page := 0;
    while page <= totalPages
      invariant ProjectPages(env, project, page, totalPages, h) == ProjectPages(env, project, 0, totalPages, h1)
      decreases PagesLeft(page, totalPages)
    {
      var executions;
      executions, h := GetExecutions(env, h, project, page, false);
      if executions.NoneValue? {
        return true, h;
      }
      var success;
      success, h := DeleteExecutionsCall(env, h, executions.value);
      page := page + 1;
    }
    return false, h;
  }

  /**
   * By-job mode: a job's pages stop at the first empty or failed page and
   * the run goes on with the next job.
   */
  method RunByJob(env: Env, entries: seq<Entry<string, ProjectRecord>>, h0: seq<Event>)
    returns (status: Status, trace: seq<Event>)
    requires env.configs.deleteSize > 0
    requires forall k :: 0 <= k < |entries| ==> entries[k].Key?
    ensures Outcome(trace, status) == ByJob(env, KeysOf(entries), 0, h0)
  {
    ghost var names := KeysOf(entries);
    KeysOfKeyEntries(entries);
    var h := h0;
    var i := 0;
    while i < |entries|
      invariant 0 <= i <= |entries|
      invariant ByJob(env, names, i, h) == ByJob(env, names, 0, h0)
      decreases |entries| - i
    {
      var aborted;
      aborted, h := RunJobsStep(env, entries[i].key, h);
      if aborted {
        return Crashed, h;
      }
      i := i + 1;
    }
    return Done, h;
  }

  /** By-job mode, one project: list its jobs and walk them; aborted when that raises a TypeError. */
  method RunJobsStep(env: Env, project: string, h0: seq<Event>) returns (aborted: bool, h: seq<Event>)
    requires env.configs.deleteSize > 0
    ensures Segment(h, aborted) == JobsStep(env, project, h0)
  {
    var jobs;
    jobs, h := GetJobsByProject(env, h0, project);
    if !jobs.Value? {
      // `for job in False` raises a TypeError
      return true, h;
    }
    aborted, h := RunProjectJobs(env, jobs.value, h);
  }

  /** One project's job loop; aborted when a count failed, which crashes the run. */
  method RunProjectJobs(env: Env, jobEntries: seq<Entry<string, JobRecord>>, h0: seq<Event>)
    returns (aborted: bool, h: seq<Event>)
    requires env.configs.deleteSize > 0
    requires forall k :: 0 <= k < |jobEntries| ==> jobEntries[k].Key?
    ensures Segment(h, aborted) == ProjectJobs(env, KeysOf(jobEntries), 0, h0)
  {
    ghost var jobIds := KeysOf(jobEntries);
    KeysOfKeyEntries(jobEntries);
    h := h0;
    var j := 0;
    while j < |jobEntries|
      invariant 0 <= j <= |jobEntries|
      invariant ProjectJobs(env, jobIds, j, h) == ProjectJobs(env, jobIds, 0, h0)
      decreases |jobEntries| - j
    {
      var job := jobEntries[j].key;
      var count;
      count, h := GetExecutionsTotal(env, h, job);
      if !count.Value? {
        // get_num_pages(None, ...) raises a TypeError
        return true, h;
      }
      var totalPages := Base.GetNumPages(count.value, env.configs.deleteSize);
      h := RunJobPages(env, job, totalPages, h);
      j := j + 1;
    }
    return false, h;
  }

  /**
   * One job's page loop: fetch page after page, delete each non-empty page,
   * and break at the first page that is empty or failed.
   */
  method RunJobPages(env: Env, job: string, totalPages: int, h0: seq<Event>) returns (h: seq<Event>)
    ensures h == JobPages(env, job, 0, totalPages, h0)
  {
    h := h0;
    var page := 0;
    while page <= totalPages
      invariant JobPages(env, job, page, totalPages, h) == JobPages(env, job, 0, totalPages, h0)
      decreases PagesLeft(page, totalPages)
    {
      var executions;
      executions, h := GetExecutions(env, h, job, page);
      if executions.Value? && executions.value != [] {
        var success;
        success, h := DeleteExecutionsCall(env, h, executions.value);
      } else {
        // `not executions` holds, so `success` is never read
        break;
      }
      page := page + 1;
    }
  }

  // ---------------------------------------------------------------------
  // What the run does: counts, pages and failures
  // ---------------------------------------------------------------------

  /** The requests of the calls of one kind in a trace, in order. */
  function Calls(t: seq<Event>, call: Call): seq<Request>
    decreases |t|
  {
    if t == [] then [] else Calls(t[..|t| - 1], call) + if t[|t| - 1].call == call then [t[|t| - 1].request] else []
  }

  lemma CallsSnoc(t: seq<Event>, e: Event, call: Call)
    ensures Calls(t + [e], call) == Calls(t, call) + if e.call == call then [e.request] else []
  {
    assert (t + [e])[..|t|] == t;
  }

  /** The number of calls of one kind after one more event. */
  lemma CallCountSnoc(t: seq<Event>, e: Event, call: Call)
    ensures |Calls(t + [e], call)| == |Calls(t, call)| + if e.call == call then 1 else 0
  {
    CallsSnoc(t, e, call);
  }

  /**
   * A failed request that ends the run in its mode.  In by-project mode
   * that is every request but a delete, whose failure only makes it return
   * False; in by-job mode it is the project list (exit(1)), a job list or a
   * count (a TypeError), while a failed fetch only ends that job's pages.
   */
  predicate Failed(e: Event, byProject: bool) {
    && !e.answered
    && if byProject then e.call != BulkDelete
       else e.call == ListProjects || e.call == ListJobs || e.call == CountExecutions
  }

  /**
   * By-project mode, one project's pages: when no fetch fails,
   * range(page, total + 1) is walked in full with one fetch and one delete
   * per page; a failed fetch aborts at once, so there is one delete fewer
   * than fetches.
   */
  lemma {:induction false} ProjectPagesCounts(env: Env, project: string, page: int, total: int, h: seq<Event>)
    ensures var seg := ProjectPages(env, project, page, total, h);
      var f := |Calls(seg.trace, FetchExecutions)| - |Calls(h, FetchExecutions)|;
      var d := |Calls(seg.trace, BulkDelete)| - |Calls(h, BulkDelete)|;
      && 0 <= d
      && f <= PagesLeft(page, total)
      && (!seg.aborted ==> f == PagesLeft(page, total) && d == f)
      && (seg.aborted ==> d + 1 == f)
    decreases PagesLeft(page, total)
  {
    if page <= total {
      var fetch := FetchEvent(env, h, project, page, false);
      var h1 := h + [fetch];
      CallCountSnoc(h, fetch, FetchExecutions);
      CallCountSnoc(h, fetch, BulkDelete);
      var executions := Executions(env, h, project, page, false, true);
      if !executions.NoneValue? {
        var del := DeleteEvent(env, h1, executions.value);
        var h2 := h1 + [del];
        CallCountSnoc(h1, del, FetchExecutions);
        CallCountSnoc(h1, del, BulkDelete);
        assert ProjectPages(env, project, page, total, h) == ProjectPages(env, project, page + 1, total, h2);
        ProjectPagesCounts(env, project, page + 1, total, h2);
      }
    }
  }

  /**
   * By-project mode, one project whose count answered n >= 0: when no fetch
   * fails it fetches and deletes GetNumPages(n) + 1 pages; the extra page
   * is the range(0, total_pages + 1) of the source.
   */
  lemma ProjectStepCounts(env: Env, project: string, h: seq<Event>, n: int)
    requires env.configs.deleteSize > 0
    requires ExecutionsTotal(env, h, project, false) == Value(n) && n >= 0
    ensures var seg := ProjectStep(env, project, h);
      var f := |Calls(seg.trace, FetchExecutions)| - |Calls(h, FetchExecutions)|;
      var d := |Calls(seg.trace, BulkDelete)| - |Calls(h, BulkDelete)|;
      && f <= Base.GetNumPages(n, env.configs.deleteSize) + 1
      && (!seg.aborted ==> f == d == Base.GetNumPages(n, env.configs.deleteSize) + 1)
      && (seg.aborted ==> f == d + 1)
  {
    var countEvent := CountEvent(env, h, project, false);
    var h1 := h + [countEvent];
    CallCountSnoc(h, countEvent, FetchExecutions);
    CallCountSnoc(h, countEvent, BulkDelete);
    var total := Base.GetNumPages(n, env.configs.deleteSize);
    Base.NumPagesNonNegative(n, env.configs.deleteSize);
    ProjectPagesCounts(env, project, 0, total, h1);
  }

  /** No old executions still cost one fetch and one delete; 450 of them at 200 a page cost four of each. */
  lemma ProjectStepExamples(env: Env, project: string, h: seq<Event>)
    requires env.configs.deleteSize == 200
    ensures var seg := ProjectStep(env, project, h);
      var f := |Calls(seg.trace, FetchExecutions)| - |Calls(h, FetchExecutions)|;
      var d := |Calls(seg.trace, BulkDelete)| - |Calls(h, BulkDelete)|;
      && (ExecutionsTotal(env, h, project, false) == Value(0) && !seg.aborted ==> f == d == 1)
      && (ExecutionsTotal(env, h, project, false) == Value(450) && !seg.aborted ==> f == d == 4)
  {
    Base.NumPagesExamples();
    if ExecutionsTotal(env, h, project, false) == Value(0) {
      ProjectStepCounts(env, project, h, 0);
    } else if ExecutionsTotal(env, h, project, false) == Value(450) {
      ProjectStepCounts(env, project, h, 450);
    }
  }

  /** The number of failed requests in a trace. */
  function FailedCount(t: seq<Event>, byProject: bool): nat
    decreases |t|
  {
    if t == [] then 0 else FailedCount(t[..|t| - 1], byProject) + if Failed(t[|t| - 1], byProject) then 1 else 0
  }

  lemma FailedCountSnoc(t: seq<Event>, e: Event, byProject: bool)
    ensures FailedCount(t + [e], byProject) == FailedCount(t, byProject) + if Failed(e, byProject) then 1 else 0
  {
    assert (t + [e])[..|t|] == t;
  }

  /** No request failed exactly when the failure count is zero. */
  lemma {:induction false} FailedCountZero(t: seq<Event>, byProject: bool)
    ensures FailedCount(t, byProject) == 0 <==> forall k :: 0 <= k < |t| ==> !Failed(t[k], byProject)
    decreases |t|
  {
    if t != [] {
      var init := t[..|t| - 1];
      FailedCountZero(init, byProject);
      assert forall k :: 0 <= k < |init| ==> init[k] == t[k];
    }
  }

  /** The last element of a non-empty trace. */
  function Last(t: seq<Event>): Event
    requires |t| > 0
  {
    t[|t| - 1]
  }

  /**
   * By-project mode, one project's pages add one failed request when they
   * are aborted, and it is their last event, and none otherwise.
   */
  lemma {:induction false} ProjectPagesFailures(env: Env, project: string, page: int, total: int, h: seq<Event>)
    ensures var seg := ProjectPages(env, project, page, total, h);
      && FailedCount(seg.trace, true) == FailedCount(h, true) + (if seg.aborted then 1 else 0)
      && (seg.aborted ==> |seg.trace| > 0 && Failed(Last(seg.trace), true))
      && |seg.trace| >= |h|
    decreases PagesLeft(page, total)
  {
    if page <= total {
      var fetch := FetchEvent(env, h, project, page, false);
      var h1 := h + [fetch];
      FailedCountSnoc(h, fetch, true);
      var executions := Executions(env, h, project, page, false, true);
      if !executions.NoneValue? {
        assert fetch.answered;
        var del := DeleteEvent(env, h1, executions.value);
        var h2 := h1 + [del];
        FailedCountSnoc(h1, del, true);
        assert ProjectPages(env, project, page, total, h) == ProjectPages(env, project, page + 1, total, h2);
        ProjectPagesFailures(env, project, page + 1, total, h2);
      }
    }
  }

  /** By-project mode, one project: the same as for its pages, its count included. */
  lemma ProjectStepFailures(env: Env, project: string, h: seq<Event>)
    requires env.configs.deleteSize > 0
    ensures var seg := ProjectStep(env, project, h);
      && FailedCount(seg.trace, true) == FailedCount(h, true) + (if seg.aborted then 1 else 0)
      && (seg.aborted ==> |seg.trace| > 0 && Failed(Last(seg.trace), true))
      && |seg.trace| > |h|
  {
    var count := ExecutionsTotal(env, h, project, false);
    var countEvent := CountEvent(env, h, project, false);
    var h1 := h + [countEvent];
    FailedCountSnoc(h, countEvent, true);
    if !count.NoneValue? {
      assert countEvent.answered;
      ProjectPagesFailures(env, project, 0, Base.GetNumPages(count.value, env.configs.deleteSize), h1);
    }
  }

  /**
   * By-project mode from project i on: the run never crashes, and it adds
   * one failed request when it ends with exit(1), its last one, and none
   * otherwise.
   */
  lemma {:induction false} ByProjectFailFast(env: Env, names: seq<string>, i: nat, h: seq<Event>)
    requires env.configs.deleteSize > 0
    requires i <= |names|
    ensures var o := ByProject(env, names, i, h);
      && o.status != Crashed
      && FailedCount(o.trace, true) == FailedCount(h, true) + (if o.status == Fatal then 1 else 0)
      && (o.status == Fatal ==> |o.trace| > 0 && Failed(Last(o.trace), true))
      && |o.trace| >= |h|
    decreases |names| - i
  {
    if i < |names| {
      ProjectStepFailures(env, names[i], h);
      var seg := ProjectStep(env, names[i], h);
      if !seg.aborted {
        ByProjectFailFast(env, names, i + 1, seg.trace);
      }
    }
  }

  /** A trace with at most one failed request, which is then its last one, fails only at its end. */
  lemma FailsOnlyLast(t: seq<Event>, byProject: bool, failed: bool)
    requires |t| > 0
    requires FailedCount(t, byProject) == if failed then 1 else 0
    requires failed ==> Failed(Last(t), byProject)
    ensures failed <==> Failed(Last(t), byProject)
    ensures forall k :: 0 <= k < |t| - 1 ==> !Failed(t[k], byProject)
  {
    var init := t[..|t| - 1];
    FailedCountZero(init, byProject);
    assert forall k :: 0 <= k < |init| ==> init[k] == t[k];
  }

  /**
   * The whole run in by-project mode is fail-fast: it never crashes, it
   * exits with 1 exactly when its last request is a failed list, count or
   * fetch, and no list, count or fetch before the last one failed (a failed
   * delete is not read, so it is not a failure here).
   */
  lemma ProjectModeFailFast(env: Env)
    requires env.configs.deleteSize > 0
    requires env.configs.execsByProject
    ensures var o := RunSpec(env);
      && |o.trace| > 0
      && o.status != Crashed
      && (o.status == Fatal <==> Failed(Last(o.trace), true))
      && (forall k :: 0 <= k < |o.trace| - 1 ==> !Failed(o.trace[k], true))
  {
    var projects := AllProjects(env, [], true);
    var first := ProjectsEvent(env, []);
    var h := [first];
    var o := RunSpec(env);
    FailedCountSnoc([], first, true);
    assert [] + [first] == h;
    if !projects.NoneValue? {
      assert first.answered;
      ByProjectFailFast(env, KeysOf(projects.value), 0, h);
    }
    FailsOnlyLast(o.trace, true, o.status == Fatal);
  }

  // ---------------------------------------------------------------------
  // By-job mode
  // ---------------------------------------------------------------------

  /** The fetches of n consecutive pages of a job's executions, from `page` on. */
  function JobPageRequests(c: Configs, job: string, page: int, n: nat): (rs: seq<Request>)
    ensures |rs| == n
    ensures forall i :: 0 <= i < n ==> rs[i] == ExecutionsRequest(c, job, page + i, true)
    decreases n
  {
    if n == 0 then [] else [ExecutionsRequest(c, job, page, true)] + JobPageRequests(c, job, page + 1, n - 1)
  }

  /**
   * By-job mode, one job's pages, counts only: at most range(page, total + 1)
   * fetches, as many deletes or one fewer, and every page fetched when every
   * fetch has its delete.  The order of the events is JobPagesPaired.
   */
  lemma {:induction false} JobPagesCounts(env: Env, job: string, page: int, total: int, h: seq<Event>)
    ensures var t := JobPages(env, job, page, total, h);
      var f := |Calls(t, FetchExecutions)| - |Calls(h, FetchExecutions)|;
      var d := |Calls(t, BulkDelete)| - |Calls(h, BulkDelete)|;
      && 0 <= d <= f <= PagesLeft(page, total)
      && (f == d || f == d + 1)
      && (f == d ==> f == PagesLeft(page, total))
    decreases PagesLeft(page, total)
  {
    if page <= total {
      var fetch := FetchEvent(env, h, job, page, true);
      var h1 := h + [fetch];
      CallCountSnoc(h, fetch, FetchExecutions);
      CallCountSnoc(h, fetch, BulkDelete);
      var executions := Executions(env, h, job, page, true, true);
      if executions.Value? && executions.value != [] {
        var del := DeleteEvent(env, h1, executions.value);
        var h2 := h1 + [del];
        CallCountSnoc(h1, del, FetchExecutions);
        CallCountSnoc(h1, del, BulkDelete);
        assert JobPages(env, job, page, total, h) == JobPages(env, job, page + 1, total, h2);
        JobPagesCounts(env, job, page + 1, total, h2);
      } else {
        assert JobPages(env, job, page, total, h) == h1;
      }
    }
  }

  /** By-job mode, one job's pages: the fetches ask for consecutive pages from `page` on. */
  lemma {:induction false} JobPagesFetches(env: Env, job: string, page: int, total: int, h: seq<Event>)
    ensures var t := JobPages(env, job, page, total, h);
      && |Calls(t, FetchExecutions)| >= |Calls(h, FetchExecutions)|
      && Calls(t, FetchExecutions) == Calls(h, FetchExecutions)
           + JobPageRequests(env.configs, job, page, |Calls(t, FetchExecutions)| - |Calls(h, FetchExecutions)|)
    decreases PagesLeft(page, total)
  {
    if page <= total {
      var fetch := FetchEvent(env, h, job, page, true);
      var h1 := h + [fetch];
      CallsSnoc(h, fetch, FetchExecutions);
      var executions := Executions(env, h, job, page, true, true);
      if executions.Value? && executions.value != [] {
        var del := DeleteEvent(env, h1, executions.value);
        var h2 := h1 + [del];
        CallsSnoc(h1, del, FetchExecutions);
        assert JobPages(env, job, page, total, h) == JobPages(env, job, page + 1, total, h2);
        JobPagesFetches(env, job, page + 1, total, h2);
        var t := JobPages(env, job, page + 1, total, h2);
        var f := |Calls(t, FetchExecutions)| - |Calls(h2, FetchExecutions)|;
        assert JobPageRequests(env.configs, job, page, f + 1)
            == [fetch.request] + JobPageRequests(env.configs, job, page + 1, f);
      } else {
        assert JobPages(env, job, page, total, h) == h1;
        assert JobPageRequests(env.configs, job, page, 1) == [fetch.request];
      }
    }
  }

  /** The number of deletes of an empty list in a trace. */
  function EmptyDeletes(t: seq<Event>): nat
    decreases |t|
  {
    if t == [] then 0
    else
      var e := t[|t| - 1];
      EmptyDeletes(t[..|t| - 1]) + if e.call == BulkDelete && e.request.Post? && e.request.executions == [] then 1 else 0
  }

  /** By-job mode, one job's pages never delete an empty list. */
  lemma {:induction false} JobPagesNoEmptyDelete(env: Env, job: string, page: int, total: int, h: seq<Event>)
    ensures EmptyDeletes(JobPages(env, job, page, total, h)) == EmptyDeletes(h)
    decreases PagesLeft(page, total)
  {
    if page <= total {
      var h1 := h + [FetchEvent(env, h, job, page, true)];
      assert h1[..|h|] == h;
      var executions := Executions(env, h, job, page, true, true);
      if executions.Value? && executions.value != [] {
        var h2 := h1 + [DeleteEvent(env, h1, executions.value)];
        assert h2[..|h1|] == h1;
        assert JobPages(env, job, page, total, h) == JobPages(env, job, page + 1, total, h2);
        JobPagesNoEmptyDelete(env, job, page + 1, total, h2);
      }
    }
  }

  /** The last event of t is a fetch that returned None or an empty list. */
  predicate EndsWithEmptyFetch(env: Env, t: seq<Event>) {
    && |t| > 0
    && Last(t).call == FetchExecutions
    && var reply := env.server.executions(Sent(t[..|t| - 1]), Last(t).request);
       !(reply.Answer? && ExecutionEntries(reply.body.executions, true) != [])
  }

  /**
   * By-job mode, one job's pages: when they stop with a fetch that has no
   * delete after it, that fetch (the last event) returned None or an empty
   * list.
   */
  lemma {:induction false} JobPagesStop(env: Env, job: string, page: int, total: int, h: seq<Event>)
    ensures var t := JobPages(env, job, page, total, h);
      |Calls(t, FetchExecutions)| - |Calls(h, FetchExecutions)| == |Calls(t, BulkDelete)| - |Calls(h, BulkDelete)| + 1
      ==> EndsWithEmptyFetch(env, t)
    decreases PagesLeft(page, total)
  {
    if page <= total {
      var fetch := FetchEvent(env, h, job, page, true);
      var h1 := h + [fetch];
      CallCountSnoc(h, fetch, FetchExecutions);
      CallCountSnoc(h, fetch, BulkDelete);
      var executions := Executions(env, h, job, page, true, true);
      if executions.Value? && executions.value != [] {
        var del := DeleteEvent(env, h1, executions.value);
        var h2 := h1 + [del];
        CallCountSnoc(h1, del, FetchExecutions);
        CallCountSnoc(h1, del, BulkDelete);
        assert JobPages(env, job, page, total, h) == JobPages(env, job, page + 1, total, h2);
        JobPagesStop(env, job, page + 1, total, h2);
      } else {
        assert h1[..|h1| - 1] == h;
      }
    }
  }

  /**
   * By-job mode, one job whose count answered: it goes on to the next job,
   * makes at most GetNumPages(total) + 1 fetches, and when every fetched
   * page was deleted, it fetched every page.
   */
  lemma JobStepCounts(env: Env, job: string, h: seq<Event>)
    requires env.configs.deleteSize > 0
    requires ExecutionsTotal(env, h, job, true).Value?
    ensures var seg := JobStep(env, job, h);
      var pages := PagesLeft(0, Base.GetNumPages(ExecutionsTotal(env, h, job, true).value, env.configs.deleteSize));
      var f := |Calls(seg.trace, FetchExecutions)| - |Calls(h, FetchExecutions)|;
      var d := |Calls(seg.trace, BulkDelete)| - |Calls(h, BulkDelete)|;
      && !seg.aborted
      && 0 <= d <= f <= pages
      && (f == d ==> f == pages)
  {
    var countEvent := CountEvent(env, h, job, true);
    var h1 := h + [countEvent];
    CallCountSnoc(h, countEvent, FetchExecutions);
    CallCountSnoc(h, countEvent, BulkDelete);
    var total := Base.GetNumPages(ExecutionsTotal(env, h, job, true).value, env.configs.deleteSize);
    assert JobStep(env, job, h) == Segment(JobPages(env, job, 0, total, h1), false);
    JobPagesCounts(env, job, 0, total, h1);
  }

  /** By-job mode, one job whose count answered: its fetches ask for pages 0, 1, ... in order. */
  lemma JobStepFetches(env: Env, job: string, h: seq<Event>)
    requires env.configs.deleteSize > 0
    requires ExecutionsTotal(env, h, job, true).Value?
    ensures var t := JobStep(env, job, h).trace;
      && |Calls(t, FetchExecutions)| >= |Calls(h, FetchExecutions)|
      && Calls(t, FetchExecutions) == Calls(h, FetchExecutions)
           + JobPageRequests(env.configs, job, 0, |Calls(t, FetchExecutions)| - |Calls(h, FetchExecutions)|)
  {
    var countEvent := CountEvent(env, h, job, true);
    var h1 := h + [countEvent];
    CallsSnoc(h, countEvent, FetchExecutions);
    assert Calls(h1, FetchExecutions) == Calls(h, FetchExecutions);
    var total := Base.GetNumPages(ExecutionsTotal(env, h, job, true).value, env.configs.deleteSize);
    assert JobStep(env, job, h).trace == JobPages(env, job, 0, total, h1);
    JobPagesFetches(env, job, 0, total, h1);
  }

  /**
   * By-job mode, one job: it never deletes an empty list, and when a fetch
   * has no delete after it, that fetch is its last event and returned
   * None or an empty list.
   */
  lemma JobStepStops(env: Env, job: string, h: seq<Event>)
    requires env.configs.deleteSize > 0
    requires ExecutionsTotal(env, h, job, true).Value?
    ensures var t := JobStep(env, job, h).trace;
      && EmptyDeletes(t) == EmptyDeletes(h)
      && (|Calls(t, FetchExecutions)| - |Calls(h, FetchExecutions)| == |Calls(t, BulkDelete)| - |Calls(h, BulkDelete)| + 1
          ==> EndsWithEmptyFetch(env, t))
  {
    var countEvent := CountEvent(env, h, job, true);
    var h1 := h + [countEvent];
    CallCountSnoc(h, countEvent, FetchExecutions);
    CallCountSnoc(h, countEvent, BulkDelete);
    assert EmptyDeletes(h1) == EmptyDeletes(h) by {
      assert h1[..|h|] == h;
    }
    var total := Base.GetNumPages(ExecutionsTotal(env, h, job, true).value, env.configs.deleteSize);
    JobPagesStop(env, job, 0, total, h1);
    JobPagesNoEmptyDelete(env, job, 0, total, h1);
  }

  /** By-job mode, one job's pages add no failure that ends the run: a failed fetch only stops them. */
  lemma {:induction false} JobPagesFailures(env: Env, job: string, page: int, total: int, h: seq<Event>)
    ensures var t := JobPages(env, job, page, total, h);
      FailedCount(t, false) == FailedCount(h, false) && |t| >= |h|
    decreases PagesLeft(page, total)
  {
    if page <= total {
      var fetch := FetchEvent(env, h, job, page, true);
      var h1 := h + [fetch];
      FailedCountSnoc(h, fetch, false);
      var executions := Executions(env, h, job, page, true, true);
      if executions.Value? && executions.value != [] {
        var del := DeleteEvent(env, h1, executions.value);
        FailedCountSnoc(h1, del, false);
        JobPagesFailures(env, job, page + 1, total, h1 + [del]);
      }
    }
  }

  /** By-job mode, one job: a failed count is the one failure it adds and its last event. */
  lemma JobStepFailures(env: Env, job: string, h: seq<Event>)
    requires env.configs.deleteSize > 0
    ensures var seg := JobStep(env, job, h);
      && FailedCount(seg.trace, false) == FailedCount(h, false) + (if seg.aborted then 1 else 0)
      && (seg.aborted ==> |seg.trace| > 0 && Failed(Last(seg.trace), false))
      && |seg.trace| > |h|
  {
    var count := ExecutionsTotal(env, h, job, true);
    var countEvent := CountEvent(env, h, job, true);
    var h1 := h + [countEvent];
    FailedCountSnoc(h, countEvent, false);
    if count.Value? {
      assert countEvent.answered;
      JobPagesFailures(env, job, 0, Base.GetNumPages(count.value, env.configs.deleteSize), h1);
    }
  }

  /** By-job mode, one project's jobs from job j on: aborted exactly by a failed count, its last event. */
  lemma {:induction false} ProjectJobsFailures(env: Env, jobs: seq<string>, j: nat, h: seq<Event>)
    requires env.configs.deleteSize > 0
    requires j <= |jobs|
    ensures var seg := ProjectJobs(env, jobs, j, h);
      && FailedCount(seg.trace, false) == FailedCount(h, false) + (if seg.aborted then 1 else 0)
      && (seg.aborted ==> |seg.trace| > 0 && Failed(Last(seg.trace), false))
      && |seg.trace| >= |h|
    decreases |jobs| - j
  {
    if j < |jobs| {
      JobStepFailures(env, jobs[j], h);
      var seg := JobStep(env, jobs[j], h);
      if !seg.aborted {
        ProjectJobsFailures(env, jobs, j + 1, seg.trace);
      }
    }
  }

  /** By-job mode, one project: a failed job list or count is the one failure it adds and its last event. */
  lemma JobsStepFailures(env: Env, project: string, h: seq<Event>)
    requires env.configs.deleteSize > 0
    ensures var seg := JobsStep(env, project, h);
      && FailedCount(seg.trace, false) == FailedCount(h, false) + (if seg.aborted then 1 else 0)
      && (seg.aborted ==> |seg.trace| > 0 && Failed(Last(seg.trace), false))
      && |seg.trace| > |h|
  {
    var jobs := JobsByProject(env, h, project, true);
    var jobsEvent := JobsEvent(env, h, project);
    var h1 := h + [jobsEvent];
    FailedCountSnoc(h, jobsEvent, false);
    if jobs.Value? {
      assert jobsEvent.answered;
      ProjectJobsFailures(env, KeysOf(jobs.value), 0, h1);
    }
  }

  /**
   * By-job mode from project i on: it never reaches exit(1) (Fatal); it adds
   * one failure that ends the run when it crashes with a TypeError (which
   * also makes Python exit with 1), its last one, and none otherwise.
   */
  lemma {:induction false} ByJobFailSoft(env: Env, names: seq<string>, i: nat, h: seq<Event>)
    requires env.configs.deleteSize > 0
    requires i <= |names|
    ensures var o := ByJob(env, names, i, h);
      && o.status != Fatal
      && FailedCount(o.trace, false) == FailedCount(h, false) + (if o.status == Crashed then 1 else 0)
      && (o.status == Crashed ==> |o.trace| > 0 && Failed(Last(o.trace), false))
      && |o.trace| >= |h|
    decreases |names| - i
  {
    if i < |names| {
      JobsStepFailures(env, names[i], h);
      var seg := JobsStep(env, names[i], h);
      if !seg.aborted {
        ByJobFailSoft(env, names, i + 1, seg.trace);
      }
    }
  }

  /**
   * The whole run in by-job mode is fail-soft: a failed fetch only ends its
   * job's pages.  It reaches exit(1) (Fatal) exactly when the project list
   * failed, and then that is its only request; otherwise it crashes (a
   * TypeError, exit status 1 as well) exactly when its last request is a
   * failed job list or count; no earlier request of those kinds failed; and
   * it exits with 0 in every other case.
   */
  lemma JobModeFailSoft(env: Env)
    requires env.configs.deleteSize > 0
    requires !env.configs.execsByProject
    ensures var o := RunSpec(env);
      && |o.trace| > 0
      && (o.status == Fatal <==> ProjectsReply(env, []).RequestError?)
      && (o.status == Fatal ==> o.trace == [ProjectsEvent(env, [])])
      && (o.status != Done <==> Failed(Last(o.trace), false))
      && (forall k :: 0 <= k < |o.trace| - 1 ==> !Failed(o.trace[k], false))
      && (ExitCode(o.status) == 0 <==> o.status == Done)
  {
    var projects := AllProjects(env, [], true);
    var first := ProjectsEvent(env, []);
    var h := [first];
    var o := RunSpec(env);
    FailedCountSnoc([], first, false);
    assert [] + [first] == h;
    if !projects.NoneValue? {
      assert first.answered;
      ByJobFailSoft(env, KeysOf(projects.value), 0, h);
    }
    FailsOnlyLast(o.trace, false, o.status != Done);
  }

  // ---------------------------------------------------------------------
  // Each delete posts what the fetch before it returned
  // ---------------------------------------------------------------------

  /** What the server answered to the request at t[k], given the requests sent before it. */
  function FetchReply(env: Env, t: seq<Event>, k: nat): Reply<ExecutionsBody>
    requires k < |t|
  {
    env.server.executions(Sent(t[..k]), t[k].request)
  }

  /** The list get_executions built from that answer; empty when there was none. */
  function FetchedEntries(env: Env, t: seq<Event>, k: nat): seq<Entry<int, ExecutionRecord>>
    requires k < |t|
  {
    var reply := FetchReply(env, t, k);
    if reply.Answer? then ExecutionEntries(reply.body.executions, true) else []
  }

  /**
   * Whether the page loop deletes after the fetch at t[k]: by project after
   * every answered fetch, by job only after a non-empty list.
   */
  predicate Proceeds(env: Env, t: seq<Event>, k: nat, byProject: bool)
    requires k < |t|
  {
    FetchReply(env, t, k).Answer? && (byProject || FetchedEntries(env, t, k) != [])
  }

  /** The event at t[k] is the delete of the list that the fetch right before it returned. */
  predicate DeleteOfFetch(env: Env, t: seq<Event>, k: nat)
    requires 0 < k < |t|
  {
    && t[k - 1].call == FetchExecutions
    && FetchReply(env, t, k - 1).Answer?
    && t[k] == DeleteEvent(env, t[..k], FetchedEntries(env, t, k - 1))
  }

  /**
   * Position k of a page loop that started at `from`: only fetches and
   * deletes; a fetch the loop goes on from is followed at once by a delete,
   * any other fetch is the loop's last event; and every delete is the
   * delete of the fetch right before it.
   */
  predicate PairedAt(env: Env, t: seq<Event>, from: nat, k: nat, byProject: bool)
    requires from <= k < |t|
  {
    && (t[k].call == FetchExecutions || t[k].call == BulkDelete)
    && (t[k].call == FetchExecutions ==>
          if Proceeds(env, t, k, byProject) then k + 1 < |t| && t[k + 1].call == BulkDelete else k + 1 == |t|)
    && (t[k].call == BulkDelete ==> from < k && DeleteOfFetch(env, t, k))
  }

  /** The answer to a request appended after h is the server's answer to it given h. */
  lemma FetchReplyAfter(env: Env, t: seq<Event>, h: seq<Event>, e: Event)
    requires h + [e] <= t
    ensures FetchReply(env, t, |h|) == env.server.executions(Sent(h), e.request)
  {
    assert t[..|h| + 1] == h + [e];
    assert t[..|h|] == (h + [e])[..|h|] == h;
  }

  /**
   * By-project mode, one project's pages: each answered fetch is followed
   * by the delete of the list it returned, and a failed fetch is the last
   * event.
   */
  lemma {:induction false} ProjectPagesPaired(env: Env, project: string, page: int, total: int, h: seq<Event>)
    ensures var t := ProjectPages(env, project, page, total, h).trace;
      && h <= t
      && forall k :: |h| <= k < |t| ==> PairedAt(env, t, |h|, k, true)
    decreases PagesLeft(page, total)
  {
    if page <= total {
      var fetch := FetchEvent(env, h, project, page, false);
      var h1 := h + [fetch];
      var executions := Executions(env, h, project, page, false, true);
      if executions.NoneValue? {
        assert ProjectPages(env, project, page, total, h).trace == h1;
        FetchReplyAfter(env, h1, h, fetch);
        assert PairedAt(env, h1, |h|, |h|, true);
      } else {
        var del := DeleteEvent(env, h1, executions.value);
        var h2 := h1 + [del];
        assert ProjectPages(env, project, page, total, h) == ProjectPages(env, project, page + 1, total, h2);
        ProjectPagesPaired(env, project, page + 1, total, h2);
        var t := ProjectPages(env, project, page + 1, total, h2).trace;
        assert t[..|h2|] == h2;
        assert h1 <= t && h <= t;
        FetchReplyAfter(env, t, h, fetch);
        assert t[|h|] == fetch && t[|h1|] == del && t[..|h1|] == h1;
        forall k | |h| <= k < |t|
          ensures PairedAt(env, t, |h|, k, true)
        {
          if k >= |h2| {
            assert PairedAt(env, t, |h2|, k, true);
          }
        }
      }
    }
  }

  /**
   * By-job mode, one job's pages: each fetch of a non-empty list is
   * followed by the delete of that list, and the first fetch that failed or
   * returned an empty list is the last event.
   */
  lemma {:induction false} JobPagesPaired(env: Env, job: string, page: int, total: int, h: seq<Event>)
    ensures var t := JobPages(env, job, page, total, h);
      && h <= t
      && forall k :: |h| <= k < |t| ==> PairedAt(env, t, |h|, k, false)
    decreases PagesLeft(page, total)
  {
    if page <= total {
      var fetch := FetchEvent(env, h, job, page, true);
      var h1 := h + [fetch];
      var executions := Executions(env, h, job, page, true, true);
      if !(executions.Value? && executions.value != []) {
        assert JobPages(env, job, page, total, h) == h1;
        FetchReplyAfter(env, h1, h, fetch);
        assert PairedAt(env, h1, |h|, |h|, false);
      } else {
        var del := DeleteEvent(env, h1, executions.value);
        var h2 := h1 + [del];
        assert JobPages(env, job, page, total, h) == JobPages(env, job, page + 1, total, h2);
        JobPagesPaired(env, job, page + 1, total, h2);
        var t := JobPages(env, job, page + 1, total, h2);
        assert t[..|h2|] == h2;
        assert h1 <= t && h <= t;
        FetchReplyAfter(env, t, h, fetch);
        assert t[|h|] == fetch && t[|h1|] == del && t[..|h1|] == h1;
        forall k | |h| <= k < |t|
          ensures PairedAt(env, t, |h|, k, false)
        {
          if k >= |h2| {
            assert PairedAt(env, t, |h2|, k, false);
          }
        }
      }
    }
  }

  /** Every delete from position `from` on is the delete of the fetch right before it. */
  predicate DeletesFollowFetches(env: Env, t: seq<Event>, from: nat) {
    forall k :: from <= k < |t| && t[k].call == BulkDelete ==> 0 < k && DeleteOfFetch(env, t, k)
  }

  /** What holds of a delete in a trace holds of it in every extension of that trace. */
  lemma DeleteOfFetchExtends(env: Env, t: seq<Event>, t': seq<Event>, k: nat)
    requires t <= t' && 0 < k < |t|
    requires DeleteOfFetch(env, t, k)
    ensures DeleteOfFetch(env, t', k)
  {
    assert t'[..k] == t[..k];
    assert t'[..k - 1] == t[..k - 1];
  }

  lemma DeletesExtend(env: Env, t: seq<Event>, t': seq<Event>, from: nat)
    requires t <= t' && from <= |t|
    requires DeletesFollowFetches(env, t, from) && DeletesFollowFetches(env, t', |t|)
    ensures DeletesFollowFetches(env, t', from)
  {
    forall k | from <= k < |t'| && t'[k].call == BulkDelete
      ensures 0 < k && DeleteOfFetch(env, t', k)
    {
      if k < |t| {
        assert t[k] == t'[k];
        DeleteOfFetchExtends(env, t, t', k);
      }
    }
  }

  /** Deletes of a page loop started after h, read from its pairing. */
  lemma PairedDeletes(env: Env, t: seq<Event>, from: nat, byProject: bool)
    requires from <= |t|
    requires forall k :: from <= k < |t| ==> PairedAt(env, t, from, k, byProject)
    ensures DeletesFollowFetches(env, t, from)
  {
    forall k | from <= k < |t| && t[k].call == BulkDelete
      ensures 0 < k && DeleteOfFetch(env, t, k)
    {
      assert PairedAt(env, t, from, k, byProject);
    }
  }

  lemma ProjectStepDeletes(env: Env, project: string, h: seq<Event>)
    requires env.configs.deleteSize > 0
    ensures var t := ProjectStep(env, project, h).trace;
      h <= t && DeletesFollowFetches(env, t, |h|)
  {
    var countEvent := CountEvent(env, h, project, false);
    var h1 := h + [countEvent];
    var count := ExecutionsTotal(env, h, project, false);
    if !count.NoneValue? {
      var total := Base.GetNumPages(count.value, env.configs.deleteSize);
      ProjectPagesPaired(env, project, 0, total, h1);
      var t := ProjectPages(env, project, 0, total, h1).trace;
      PairedDeletes(env, t, |h1|, true);
      assert t[..|h1|] == h1 && t[|h|] == countEvent;
      assert h <= t;
    }
  }

  lemma {:induction false} ByProjectDeletes(env: Env, names: seq<string>, i: nat, h: seq<Event>)
    requires env.configs.deleteSize > 0
    requires i <= |names|
    ensures var t := ByProject(env, names, i, h).trace;
      h <= t && DeletesFollowFetches(env, t, |h|)
    decreases |names| - i
  {
    if i < |names| {
      ProjectStepDeletes(env, names[i], h);
      var seg := ProjectStep(env, names[i], h);
      if seg.aborted {
        assert ByProject(env, names, i, h).trace == seg.trace;
      } else {
        assert ByProject(env, names, i, h) == ByProject(env, names, i + 1, seg.trace);
        ByProjectDeletes(env, names, i + 1, seg.trace);
        var t := ByProject(env, names, i + 1, seg.trace).trace;
        DeletesExtend(env, seg.trace, t, |h|);
        assert t[..|h|] == seg.trace[..|h|];
      }
    }
  }

  lemma JobStepDeletes(env: Env, job: string, h: seq<Event>)
    requires env.configs.deleteSize > 0
    ensures var t := JobStep(env, job, h).trace;
      h <= t && DeletesFollowFetches(env, t, |h|)
  {
    var countEvent := CountEvent(env, h, job, true);
    var h1 := h + [countEvent];
    var count := ExecutionsTotal(env, h, job, true);
    if count.Value? {
      var total := Base.GetNumPages(count.value, env.configs.deleteSize);
      JobPagesPaired(env, job, 0, total, h1);
      var t := JobPages(env, job, 0, total, h1);
      PairedDeletes(env, t, |h1|, false);
      assert t[..|h1|] == h1 && t[|h|] == countEvent;
      assert h <= t;
    }
  }

  lemma {:induction false} ProjectJobsDeletes(env: Env, jobs: seq<string>, j: nat, h: seq<Event>)
    requires env.configs.deleteSize > 0
    requires j <= |jobs|
    ensures var t := ProjectJobs(env, jobs, j, h).trace;
      h <= t && DeletesFollowFetches(env, t, |h|)
    decreases |jobs| - j
  {
    if j < |jobs| {
      JobStepDeletes(env, jobs[j], h);
      var seg := JobStep(env, jobs[j], h);
      if seg.aborted {
        assert ProjectJobs(env, jobs, j, h).trace == seg.trace;
      } else {
        assert ProjectJobs(env, jobs, j, h) == ProjectJobs(env, jobs, j + 1, seg.trace);
        ProjectJobsDeletes(env, jobs, j + 1, seg.trace);
        var t := ProjectJobs(env, jobs, j + 1, seg.trace).trace;
        DeletesExtend(env, seg.trace, t, |h|);
        assert t[..|h|] == seg.trace[..|h|];
      }
    }
  }

  lemma JobsStepDeletes(env: Env, project: string, h: seq<Event>)
    requires env.configs.deleteSize > 0
    ensures var t := JobsStep(env, project, h).trace;
      h <= t && DeletesFollowFetches(env, t, |h|)
  {
    var jobsEvent := JobsEvent(env, h, project);
    var h1 := h + [jobsEvent];
    var jobs := JobsByProject(env, h, project, true);
    if jobs.Value? {
      ProjectJobsDeletes(env, KeysOf(jobs.value), 0, h1);
      var t := ProjectJobs(env, KeysOf(jobs.value), 0, h1).trace;
      assert t[..|h1|] == h1 && t[|h|] == jobsEvent;
      assert h <= t;
    }
  }

  lemma {:induction false} ByJobDeletes(env: Env, names: seq<string>, i: nat, h: seq<Event>)
    requires env.configs.deleteSize > 0
    requires i <= |names|
    ensures var t := ByJob(env, names, i, h).trace;
      h <= t && DeletesFollowFetches(env, t, |h|)
    decreases |names| - i
  {
    if i < |names| {
      JobsStepDeletes(env, names[i], h);
      var seg := JobsStep(env, names[i], h);
      if seg.aborted {
        assert ByJob(env, names, i, h).trace == seg.trace;
      } else {
        assert ByJob(env, names, i, h) == ByJob(env, names, i + 1, seg.trace);
        ByJobDeletes(env, names, i + 1, seg.trace);
        var t := ByJob(env, names, i + 1, seg.trace).trace;
        DeletesExtend(env, seg.trace, t, |h|);
        assert t[..|h|] == seg.trace[..|h|];
      }
    }
  }

  /** In either mode, every delete of the run posts the list that the fetch right before it returned. */
  lemma RunDeletesFollowFetches(env: Env)
    requires env.configs.deleteSize > 0
    ensures DeletesFollowFetches(env, RunSpec(env).trace, 0)
  {
    var projects := AllProjects(env, [], true);
    var h := [ProjectsEvent(env, [])];
    if !projects.NoneValue? {
      var names := KeysOf(projects.value);
      if env.configs.execsByProject {
        ByProjectDeletes(env, names, 0, h);
      } else {
        ByJobDeletes(env, names, 0, h);
      }
    }
  }

  /**
   * The run never deletes a running execution: a delete posts, in order,
   * the ids of the executions of the page just fetched that are not
   * running, and each of them only once per listing.
   */
  lemma RunDeletesNoRunning(env: Env, k: nat)
    requires env.configs.deleteSize > 0
    requires k < |RunSpec(env).trace| && RunSpec(env).trace[k].call == BulkDelete
    ensures var t := RunSpec(env).trace;
      && 0 < k && t[k - 1].call == FetchExecutions && FetchReply(env, t, k - 1).Answer? && t[k].request.Post?
      && var kept := Retained(FetchReply(env, t, k - 1).body.executions);
         var posted := t[k].request.executions;
         && |posted| == |kept|
         && forall i :: 0 <= i < |posted| ==> posted[i] == Key(kept[i].id) && !IsRunning(kept[i])
  {
    var t := RunSpec(env).trace;
    RunDeletesFollowFetches(env);
    assert 0 < k && DeleteOfFetch(env, t, k);
    ExecutionEntriesOfRetained(FetchReply(env, t, k - 1).body.executions, true);
  }

  /** With distinct ids on the page, an execution's id is posted exactly when it is not running. */
  lemma RunNeverDeletesRunning(env: Env, k: nat, j: nat)
    requires env.configs.deleteSize > 0
    requires k < |RunSpec(env).trace| && RunSpec(env).trace[k].call == BulkDelete
    ensures var t := RunSpec(env).trace;
      && 0 < k && FetchReply(env, t, k - 1).Answer? && t[k].request.Post?
      && var execs := FetchReply(env, t, k - 1).body.executions;
         (j < |execs| && forall a, b :: 0 <= a < b < |execs| ==> execs[a].id != execs[b].id) ==>
           (Key(execs[j].id) in t[k].request.executions <==> !IsRunning(execs[j]))
  {
    var t := RunSpec(env).trace;
    RunDeletesFollowFetches(env);
    assert 0 < k && DeleteOfFetch(env, t, k);
    var execs := FetchReply(env, t, k - 1).body.executions;
    if j < |execs| && forall a, b :: 0 <= a < b < |execs| ==> execs[a].id != execs[b].id {
      ExecutionIdsExcludeRunning(execs, j);
    }
  }

  // ---------------------------------------------------------------------
  // The answer to a delete is never read
  // ---------------------------------------------------------------------

  /** Two environments that differ at most in how the server answers deletes. */
  ghost predicate SameButDeletes(env1: Env, env2: Env) {
    && env1.configs == env2.configs
    && (forall sent, request :: env1.server.projects(sent, request) == env2.server.projects(sent, request))
    && (forall sent, request :: env1.server.jobs(sent, request) == env2.server.jobs(sent, request))
    && (forall sent, request :: env1.server.executions(sent, request) == env2.server.executions(sent, request))
  }

  lemma SentSnoc(h: seq<Event>, e: Event)
    ensures Sent(h + [e]) == Sent(h) + [e.request]
  {
    assert (h + [e])[..|h|] == h;
  }

  lemma {:induction false} ProjectPagesIgnoreDeletes(env1: Env, env2: Env, project: string, page: int, total: int,
                                                      h1: seq<Event>, h2: seq<Event>)
    requires SameButDeletes(env1, env2) && Sent(h1) == Sent(h2)
    ensures var s1 := ProjectPages(env1, project, page, total, h1);
      var s2 := ProjectPages(env2, project, page, total, h2);
      Sent(s1.trace) == Sent(s2.trace) && s1.aborted == s2.aborted
    decreases PagesLeft(page, total)
  {
    if page <= total {
      var fetch := FetchEvent(env1, h1, project, page, false);
      assert FetchEvent(env2, h2, project, page, false) == fetch;
      SentSnoc(h1, fetch);
      SentSnoc(h2, fetch);
      var executions := Executions(env1, h1, project, page, false, true);
      assert Executions(env2, h2, project, page, false, true) == executions;
      if !executions.NoneValue? {
        var g1 := h1 + [fetch];
        var g2 := h2 + [fetch];
        var del1 := DeleteEvent(env1, g1, executions.value);
        var del2 := DeleteEvent(env2, g2, executions.value);
        SentSnoc(g1, del1);
        SentSnoc(g2, del2);
        assert ProjectPages(env1, project, page, total, h1) == ProjectPages(env1, project, page + 1, total, g1 + [del1]);
        assert ProjectPages(env2, project, page, total, h2) == ProjectPages(env2, project, page + 1, total, g2 + [del2]);
        ProjectPagesIgnoreDeletes(env1, env2, project, page + 1, total, g1 + [del1], g2 + [del2]);
      }
    }
  }

  lemma ProjectStepIgnoresDeletes(env1: Env, env2: Env, project: string, h1: seq<Event>, h2: seq<Event>)
    requires env1.configs.deleteSize > 0
    requires SameButDeletes(env1, env2) && Sent(h1) == Sent(h2)
    ensures var s1 := ProjectStep(env1, project, h1);
      var s2 := ProjectStep(env2, project, h2);
      Sent(s1.trace) == Sent(s2.trace) && s1.aborted == s2.aborted
  {
    var countEvent := CountEvent(env1, h1, project, false);
    assert CountEvent(env2, h2, project, false) == countEvent;
    SentSnoc(h1, countEvent);
    SentSnoc(h2, countEvent);
    var count := ExecutionsTotal(env1, h1, project, false);
    assert ExecutionsTotal(env2, h2, project, false) == count;
    if !count.NoneValue? {
      ProjectPagesIgnoreDeletes(env1, env2, project, 0, Base.GetNumPages(count.value, env1.configs.deleteSize),
                                h1 + [countEvent], h2 + [countEvent]);
    }
  }

  lemma {:induction false} ByProjectIgnoresDeletes(env1: Env, env2: Env, names: seq<string>, i: nat,
                                                    h1: seq<Event>, h2: seq<Event>)
    requires env1.configs.deleteSize > 0 && i <= |names|
    requires SameButDeletes(env1, env2) && Sent(h1) == Sent(h2)
    ensures var o1 := ByProject(env1, names, i, h1);
      var o2 := ByProject(env2, names, i, h2);
      Sent(o1.trace) == Sent(o2.trace) && o1.status == o2.status
    decreases |names| - i
  {
    if i < |names| {
      ProjectStepIgnoresDeletes(env1, env2, names[i], h1, h2);
      var s1 := ProjectStep(env1, names[i], h1);
      var s2 := ProjectStep(env2, names[i], h2);
      if !s1.aborted {
        ByProjectIgnoresDeletes(env1, env2, names, i + 1, s1.trace, s2.trace);
      }
    }
  }

  lemma {:induction false} JobPagesIgnoreDeletes(env1: Env, env2: Env, job: string, page: int, total: int,
                                                  h1: seq<Event>, h2: seq<Event>)
    requires SameButDeletes(env1, env2) && Sent(h1) == Sent(h2)
    ensures Sent(JobPages(env1, job, page, total, h1)) == Sent(JobPages(env2, job, page, total, h2))
    decreases PagesLeft(page, total)
  {
    if page <= total {
      var fetch := FetchEvent(env1, h1, job, page, true);
      assert FetchEvent(env2, h2, job, page, true) == fetch;
      SentSnoc(h1, fetch);
      SentSnoc(h2, fetch);
      var executions := Executions(env1, h1, job, page, true, true);
      assert Executions(env2, h2, job, page, true, true) == executions;
      if executions.Value? && executions.value != [] {
        var g1 := h1 + [fetch];
        var g2 := h2 + [fetch];
        var del1 := DeleteEvent(env1, g1, executions.value);
        var del2 := DeleteEvent(env2, g2, executions.value);
        SentSnoc(g1, del1);
        SentSnoc(g2, del2);
        assert JobPages(env1, job, page, total, h1) == JobPages(env1, job, page + 1, total, g1 + [del1]);
        assert JobPages(env2, job, page, total, h2) == JobPages(env2, job, page + 1, total, g2 + [del2]);
        JobPagesIgnoreDeletes(env1, env2, job, page + 1, total, g1 + [del1], g2 + [del2]);
      }
    }
  }

  lemma JobStepIgnoresDeletes(env1: Env, env2: Env, job: string, h1: seq<Event>, h2: seq<Event>)
    requires env1.configs.deleteSize > 0
    requires SameButDeletes(env1, env2) && Sent(h1) == Sent(h2)
    ensures var s1 := JobStep(env1, job, h1);
      var s2 := JobStep(env2, job, h2);
      Sent(s1.trace) == Sent(s2.trace) && s1.aborted == s2.aborted
  {
    var countEvent := CountEvent(env1, h1, job, true);
    assert CountEvent(env2, h2, job, true) == countEvent;
    SentSnoc(h1, countEvent);
    SentSnoc(h2, countEvent);
    var count := ExecutionsTotal(env1, h1, job, true);
    assert ExecutionsTotal(env2, h2, job, true) == count;
    if count.Value? {
      JobPagesIgnoreDeletes(env1, env2, job, 0, Base.GetNumPages(count.value, env1.configs.deleteSize),
                            h1 + [countEvent], h2 + [countEvent]);
    }
  }

  lemma {:induction false} ProjectJobsIgnoreDeletes(env1: Env, env2: Env, jobs: seq<string>, j: nat,
                                                     h1: seq<Event>, h2: seq<Event>)
    requires env1.configs.deleteSize > 0 && j <= |jobs|
    requires SameButDeletes(env1, env2) && Sent(h1) == Sent(h2)
    ensures var s1 := ProjectJobs(env1, jobs, j, h1);
      var s2 := ProjectJobs(env2, jobs, j, h2);
      Sent(s1.trace) == Sent(s2.trace) && s1.aborted == s2.aborted
    decreases |jobs| - j
  {
    if j < |jobs| {
      JobStepIgnoresDeletes(env1, env2, jobs[j], h1, h2);
      var s1 := JobStep(env1, jobs[j], h1);
      var s2 := JobStep(env2, jobs[j], h2);
      if !s1.aborted {
        ProjectJobsIgnoreDeletes(env1, env2, jobs, j + 1, s1.trace, s2.trace);
      }
    }
  }

  lemma JobsStepIgnoresDeletes(env1: Env, env2: Env, project: string, h1: seq<Event>, h2: seq<Event>)
    requires env1.configs.deleteSize > 0
    requires SameButDeletes(env1, env2) && Sent(h1) == Sent(h2)
    ensures var s1 := JobsStep(env1, project, h1);
      var s2 := JobsStep(env2, project, h2);
      Sent(s1.trace) == Sent(s2.trace) && s1.aborted == s2.aborted
  {
    var jobsEvent := JobsEvent(env1, h1, project);
    assert JobsEvent(env2, h2, project) == jobsEvent;
    SentSnoc(h1, jobsEvent);
    SentSnoc(h2, jobsEvent);
    var jobs := JobsByProject(env1, h1, project, true);
    assert JobsByProject(env2, h2, project, true) == jobs;
    if jobs.Value? {
      ProjectJobsIgnoreDeletes(env1, env2, KeysOf(jobs.value), 0, h1 + [jobsEvent], h2 + [jobsEvent]);
    }
  }

  lemma {:induction false} ByJobIgnoresDeletes(env1: Env, env2: Env, names: seq<string>, i: nat,
                                                h1: seq<Event>, h2: seq<Event>)
    requires env1.configs.deleteSize > 0 && i <= |names|
    requires SameButDeletes(env1, env2) && Sent(h1) == Sent(h2)
    ensures var o1 := ByJob(env1, names, i, h1);
      var o2 := ByJob(env2, names, i, h2);
      Sent(o1.trace) == Sent(o2.trace) && o1.status == o2.status
    decreases |names| - i
  {
    if i < |names| {
      JobsStepIgnoresDeletes(env1, env2, names[i], h1, h2);
      var s1 := JobsStep(env1, names[i], h1);
      var s2 := JobsStep(env2, names[i], h2);
      if !s1.aborted {
        ByJobIgnoresDeletes(env1, env2, names, i + 1, s1.trace, s2.trace);
      }
    }
  }

  /**
   * The run never reads what delete_executions returns: two servers that
   * answer everything but the deletes alike receive the same requests, in
   * the same order, and the run ends the same way, in either mode, whether
   * the deletes succeed, report failures or raise.
   */
  lemma DeleteOutcomeIgnored(env1: Env, env2: Env)
    requires env1.configs.deleteSize > 0
    requires SameButDeletes(env1, env2)
    ensures Sent(RunSpec(env1).trace) == Sent(RunSpec(env2).trace)
    ensures RunSpec(env1).status == RunSpec(env2).status
  {
    var first := ProjectsEvent(env1, []);
    assert ProjectsEvent(env2, []) == first;
    var projects := AllProjects(env1, [], true);
    assert AllProjects(env2, [], true) == projects;
    if !projects.NoneValue? {
      var names := KeysOf(projects.value);
      if env1.configs.execsByProject {
        ByProjectIgnoresDeletes(env1, env2, names, 0, [first], [first]);
      } else {
        ByJobIgnoresDeletes(env1, env2, names, 0, [first], [first]);
      }
    }
  }
}
