/**
 * The REST side of the retirement tool (main.py, lines 12-151 and 165-177):
 * how the base URL, every endpoint and the query parameters are built, and
 * how each fetch function turns a server reply into the value it returns.
 *
 * The HTTP transport is not modelled.  A `Server` stands for it: for each
 * kind of call it is an arbitrary function from the requests sent so far and
 * the request being sent to a reply, which is either a decoded body or the
 * transport failure that the source catches as a RequestException.
 */
module Api {
  import Base

  datatype Option<T> = None | Some(value: T)

  // ---------------------------------------------------------------------
  // Decimal rendering (Python's str() and format() of an int)
  // ---------------------------------------------------------------------

  function DigitChar(d: int): (c: char)
    requires 0 <= d < 10
  {
    ('0' as int + d) as char
  }

  function DigitValue(c: char): int {
    c as int - '0' as int
  }

  /** The decimal digits of n, most significant first, without leading zeros. */
  function NatToDecimal(n: nat): (s: string)
    ensures |s| >= 1
    ensures forall i :: 0 <= i < |s| ==> Base.IsDigit(s[i])
    decreases n
  {
    if n < 10 then [DigitChar(n)] else NatToDecimal(n / 10) + [DigitChar(n % 10)]
  }

  /** The value of a string of decimal digits. */
  function DecimalValue(s: string): int
    decreases |s|
  {
    if s == [] then 0 else DecimalValue(s[..|s| - 1]) * 10 + DigitValue(s[|s| - 1])
  }

  /** Python's str(i): an optional minus sign and the digits of |i|. */
  function IntToDecimal(i: int): string {
    if i < 0 then "-" + NatToDecimal(-i) else NatToDecimal(i)
  }

  function ParseInt(s: string): int {
    if s != [] && s[0] == '-' then -DecimalValue(s[1..]) else DecimalValue(s)
  }

  /** Reading the digits back gives the number: the rendering loses nothing. */
  lemma {:induction false} NatToDecimalRoundTrip(n: nat)
    ensures DecimalValue(NatToDecimal(n)) == n
    decreases n
  {
    if n >= 10 {
      NatToDecimalRoundTrip(n / 10);
      var s := NatToDecimal(n);
      assert s[..|s| - 1] == NatToDecimal(n / 10);
      assert DigitValue(s[|s| - 1]) == n % 10;
      assert n == (n / 10) * 10 + n % 10;
    }
  }

  lemma IntToDecimalRoundTrip(i: int)
    ensures ParseInt(IntToDecimal(i)) == i
  {
    if i < 0 {
      var digits := NatToDecimal(-i);
      var s := "-" + digits;
      assert s[0] == '-' && s[1..] == digits;
      NatToDecimalRoundTrip(-i);
      assert ParseInt(s) == -DecimalValue(digits);
    } else {
      var s := NatToDecimal(i);
      assert Base.IsDigit(s[0]);
      NatToDecimalRoundTrip(i);
      assert ParseInt(s) == DecimalValue(s);
    }
  }

  // ---------------------------------------------------------------------
  // Configuration, URL and endpoints
  // ---------------------------------------------------------------------

  /** The fields of CONFIGS that the REST calls read. */
  datatype Configs = Configs(
    overSsl: bool,
    hostname: string,
    port: int,
    apiVersion: int,
    token: string,
    searchTime: int,
    deleteTime: int,
    keepingDays: string,
    deleteSize: int,
    execsByProject: bool)

  function Scheme(overSsl: bool): string {
    if overSsl then "https" else "http"
  }

  /** URL: proto://hostname:port/api/api_version/ */
  function BaseUrl(c: Configs): (url: string)
    ensures |url| >= 8
    ensures c.overSsl <==> url[..8] == "https://"
    ensures !c.overSsl ==> url[..7] == "http://"
    ensures url[|url| - 1] == '/'
  {
    var url := Scheme(c.overSsl) + "://" + c.hostname + ":" + IntToDecimal(c.port)
               + "/api/" + IntToDecimal(c.apiVersion) + "/";
    assert url[..|Scheme(c.overSsl)| + 3] == Scheme(c.overSsl) + "://";
    assert !c.overSsl ==> url[4] == ':';
    url
  }

  /** str() of an integer uses only digits and a leading minus sign. */
  lemma IntToDecimalChars(i: int)
    ensures forall k :: 0 <= k < |IntToDecimal(i)| ==> IntToDecimal(i)[k] == '-' || Base.IsDigit(IntToDecimal(i)[k])
  {
    if i < 0 {
      var digits := NatToDecimal(-i);
      assert forall k :: 1 <= k < |"-" + digits| ==> ("-" + digits)[k] == digits[k - 1];
    }
  }

  /** Distinct integers have distinct renderings. */
  lemma IntToDecimalInjective(i: int, j: int)
    requires IntToDecimal(i) == IntToDecimal(j)
    ensures i == j
  {
    IntToDecimalRoundTrip(i);
    IntToDecimalRoundTrip(j);
  }

  /**
   * A string split at the last occurrence of `c` splits one way only: when
   * neither tail holds `c`, the heads and the tails agree.
   */
  lemma SplitAtLast(a1: string, b1: string, a2: string, b2: string, c: char)
    requires a1 + [c] + b1 == a2 + [c] + b2
    requires c !in b1 && c !in b2
    ensures a1 == a2 && b1 == b2
  {
    var s := a1 + [c] + b1;
    assert s[|a1|] == c && s[|a2|] == c;
    assert a1 == s[..|a1|] && a2 == s[..|a2|];
    assert b1 == s[|a1| + 1..] && b2 == s[|a2| + 1..];
  }

  /** The rendering of an integer holds neither '/' nor ':'. */
  lemma NoSeparatorInDecimal(i: int)
    ensures '/' !in IntToDecimal(i) && ':' !in IntToDecimal(i)
  {
    IntToDecimalChars(i);
  }

  /**
   * URL names its configuration: two configurations give the same URL
   * exactly when they agree on the scheme, the hostname, the port and the
   * API version.  Read from the right, the final '/' ends the version, the
   * last '/' before it starts the version, and the last ':' before "/api"
   * starts the port, whatever the hostname holds.
   */
  lemma BaseUrlInjective(c1: Configs, c2: Configs)
    ensures BaseUrl(c1) == BaseUrl(c2) <==>
              c1.overSsl == c2.overSsl && c1.hostname == c2.hostname
              && c1.port == c2.port && c1.apiVersion == c2.apiVersion
  {
    if BaseUrl(c1) == BaseUrl(c2) {
      var s1, s2 := Scheme(c1.overSsl), Scheme(c2.overSsl);
      var a1, a2 := s1 + "://" + c1.hostname, s2 + "://" + c2.hostname;
      var p1, p2 := IntToDecimal(c1.port), IntToDecimal(c2.port);
      var v1, v2 := IntToDecimal(c1.apiVersion), IntToDecimal(c2.apiVersion);
      var b1, b2 := a1 + [':'] + p1 + "/api", a2 + [':'] + p2 + "/api";
      assert BaseUrl(c1) == b1 + ['/'] + v1 + "/";
      assert BaseUrl(c2) == b2 + ['/'] + v2 + "/";
      NoSeparatorInDecimal(c1.port);
      NoSeparatorInDecimal(c2.port);
      NoSeparatorInDecimal(c1.apiVersion);
      NoSeparatorInDecimal(c2.apiVersion);
      var w := BaseUrl(c1)[..|BaseUrl(c1)| - 1];
      assert w == b1 + ['/'] + v1 && w == b2 + ['/'] + v2;
      SplitAtLast(b1, v1, b2, v2, '/');
      IntToDecimalInjective(c1.apiVersion, c2.apiVersion);
      assert a1 + [':'] + p1 == b1[..|b1| - 4];
      assert a2 + [':'] + p2 == b2[..|b2| - 4];
      SplitAtLast(a1, p1, a2, p2, ':');
      IntToDecimalInjective(c1.port, c2.port);
      SchemeHostInjective(c1.overSsl, c1.hostname, c2.overSsl, c2.hostname);
    }
  }

  /** "proto://hostname" names its scheme and its hostname. */
  lemma SchemeHostInjective(overSsl1: bool, hostname1: string, overSsl2: bool, hostname2: string)
    requires Scheme(overSsl1) + "://" + hostname1 == Scheme(overSsl2) + "://" + hostname2
    ensures overSsl1 == overSsl2 && hostname1 == hostname2
  {
    var a1 := Scheme(overSsl1) + "://" + hostname1;
    var a2 := Scheme(overSsl2) + "://" + hostname2;
    assert a1[4] == (if overSsl1 then 's' else ':');
    assert a2[4] == (if overSsl2 then 's' else ':');
    assert hostname1 == a1[|Scheme(overSsl1)| + 3..];
    assert hostname2 == a2[|Scheme(overSsl2)| + 3..];
  }

  /** The HEADERS every request carries. */
  function Headers(c: Configs): map<string, string> {
    map["Content-Type" := "application/json",
        "X-Rundeck-Auth-Token" := c.token,
        "Accept" := "application/json"]
  }

  datatype Endpoint =
    | Projects
    | ProjectJobs(project: string)
    | JobExecutions(job: string)
    | ProjectExecutions(project: string)
    | DeleteExecutions

  /** The fixed suffix each function appends to URL. */
  function Path(e: Endpoint): string {
    match e
    case Projects => "projects"
    case ProjectJobs(project) => "project/" + project + "/jobs"
    case JobExecutions(job) => "job/" + job + "/executions"
    case ProjectExecutions(project) => "project/" + project + "/executions"
    case DeleteExecutions => "executions/delete"
  }

  function EndpointUrl(c: Configs, e: Endpoint): string {
    BaseUrl(c) + Path(e)
  }

  /** The executions endpoint of a job (job_filter) or of a project. */
  function ScopeEndpoint(identifier: string, jobFilter: bool): Endpoint {
    if jobFilter then JobExecutions(identifier) else ProjectExecutions(identifier)
  }

  predicate NoSlash(s: string) {
    forall i :: 0 <= i < |s| ==> s[i] != '/'
  }

  /** Names that keep an endpoint's path unambiguous: they contain no '/'. */
  predicate Addressable(e: Endpoint) {
    match e
    case ProjectJobs(project) => NoSlash(project)
    case JobExecutions(job) => NoSlash(job)
    case ProjectExecutions(project) => NoSlash(project)
    case _ => true
  }

  /** Position of the first '/' in s, or |s| when there is none. */
  function IndexOfSlash(s: string): (k: nat)
    ensures k <= |s|
    ensures k < |s| ==> s[k] == '/'
    ensures forall i :: 0 <= i < k ==> s[i] != '/'
  {
    if s == [] then 0 else if s[0] == '/' then 0 else 1 + IndexOfSlash(s[1..])
  }

  /** Splits "<name>/<rest>" at its first slash. */
  function SplitName(s: string): (string, string) {
    var k := IndexOfSlash(s);
    (s[..k], s[k..])
  }

  /** Reads an endpoint back from the text after URL. */
  function ParsePath(p: string): Option<Endpoint> {
    if p == "projects" then Some(Projects)
    else if p == "executions/delete" then Some(DeleteExecutions)
    else if |p| >= 8 && p[..8] == "project/" then
      var (name, rest) := SplitName(p[8..]);
      if rest == "/jobs" then Some(ProjectJobs(name))
      else if rest == "/executions" then Some(ProjectExecutions(name))
      else None
    else if |p| >= 4 && p[..4] == "job/" then
      var (name, rest) := SplitName(p[4..]);
      if rest == "/executions" then Some(JobExecutions(name)) else None
    else None
  }

  lemma SplitNameOf(name: string, rest: string)
    requires NoSlash(name)
    requires rest != [] && rest[0] == '/'
    ensures SplitName(name + rest) == (name, rest)
  {
    var s := name + rest;
    assert s[|name|] == '/';
    assert forall i :: 0 <= i < |name| ==> s[i] == name[i];
    assert IndexOfSlash(s) == |name|;
    assert s[..|name|] == name && s[|name|..] == rest;
  }

  lemma ProjectJobsPathParses(project: string)
    requires NoSlash(project)
    ensures ParsePath(Path(ProjectJobs(project))) == Some(ProjectJobs(project))
  {
    var p := Path(ProjectJobs(project));
    assert p[..8] == "project/";
    assert p[8..] == project + "/jobs";
    SplitNameOf(project, "/jobs");
    assert p != "projects" by { assert p[7] == '/'; }
    assert p != "executions/delete" by { assert p[0] == 'p'; }
  }

  lemma ProjectExecutionsPathParses(project: string)
    requires NoSlash(project)
    ensures ParsePath(Path(ProjectExecutions(project))) == Some(ProjectExecutions(project))
  {
    var p := Path(ProjectExecutions(project));
    assert p[..8] == "project/";
    assert p[8..] == project + "/executions";
    SplitNameOf(project, "/executions");
    assert p != "projects" by { assert p[7] == '/'; }
    assert p != "executions/delete" by { assert p[0] == 'p'; }
  }

  lemma JobExecutionsPathParses(job: string)
    requires NoSlash(job)
    ensures ParsePath(Path(JobExecutions(job))) == Some(JobExecutions(job))
  {
    var p := Path(JobExecutions(job));
    assert p[..4] == "job/";
    assert p[4..] == job + "/executions";
    SplitNameOf(job, "/executions");
    assert p != "projects" && p != "executions/delete" by { assert p[0] == 'j'; }
    assert !(|p| >= 8 && p[..8] == "project/") by { assert p[0] == 'j'; }
  }

  /** Every endpoint's path reads back as that endpoint, for names without '/'. */
  lemma ParsePathRoundTrip(e: Endpoint)
    requires Addressable(e)
    ensures ParsePath(Path(e)) == Some(e)
  {
    match e
    case Projects =>
    case DeleteExecutions =>
    case ProjectJobs(project) => ProjectJobsPathParses(project);
    case ProjectExecutions(project) => ProjectExecutionsPathParses(project);
    case JobExecutions(job) => JobExecutionsPathParses(job);
  }

  /**
   * What tells paths apart, whatever the names hold: the first character,
   * the length of "projects", the second-to-last character, and the name
   * between the fixed prefix and suffix.
   */
  lemma PathShape(e: Endpoint)
    ensures var p := Path(e);
      && |p| >= 8
      && p[0] == (if e.JobExecutions? then 'j' else if e.DeleteExecutions? then 'e' else 'p')
      && (e.Projects? <==> p[0] == 'p' && |p| == 8)
      && p[|p| - 2] == (if e.ProjectJobs? then 'b' else if e.Projects? || e.DeleteExecutions? then 't' else 'n')
      && (e.ProjectJobs? ==> p[8..|p| - 5] == e.project)
      && (e.ProjectExecutions? ==> p[8..|p| - 11] == e.project)
      && (e.JobExecutions? ==> p[4..|p| - 11] == e.job)
  {
  }

  /** Distinct endpoints are distinct paths, names with '/' included. */
  lemma PathInjective(e1: Endpoint, e2: Endpoint)
    requires Path(e1) == Path(e2)
    ensures e1 == e2
  {
    PathShape(e1);
    PathShape(e2);
  }

  /** Distinct endpoints are distinct URLs. */
  lemma EndpointUrlInjective(c: Configs, e1: Endpoint, e2: Endpoint)
    requires EndpointUrl(c, e1) == EndpointUrl(c, e2)
    ensures e1 == e2
  {
    var base := BaseUrl(c);
    assert Path(e1) == EndpointUrl(c, e1)[|base|..];
    assert Path(e2) == EndpointUrl(c, e2)[|base|..];
    PathInjective(e1, e2);
  }

  // ---------------------------------------------------------------------
  // Requests
  // ---------------------------------------------------------------------

  /** A query-parameter value: requests renders both kinds with str(). */
  datatype Param = Num(n: int) | Text(s: string)

  datatype Request =
    | Get(url: string, params: map<string, Param>, headers: map<string, string>, timeout: int)
    | Post(url: string, executions: seq<Entry<int, ExecutionRecord>>, headers: map<string, string>, timeout: int)

  function ProjectsRequest(c: Configs): Request {
    Get(EndpointUrl(c, Projects), map[], Headers(c), c.searchTime)
  }

  function JobsRequest(c: Configs, project: string): Request {
    Get(EndpointUrl(c, ProjectJobs(project)), map[], Headers(c), c.searchTime)
  }

  /** The page parameters of get_executions: by job an offset window, by project the retention filter. */
  function ExecutionsParams(c: Configs, page: int, jobFilter: bool): map<string, Param> {
    if jobFilter then map["max" := Num(c.deleteSize), "offset" := Num(page * c.deleteSize)]
    else map["max" := Num(c.deleteSize), "olderFilter" := Text(c.keepingDays)]
  }

  function ExecutionsRequest(c: Configs, identifier: string, page: int, jobFilter: bool): Request {
    Get(EndpointUrl(c, ScopeEndpoint(identifier, jobFilter)), ExecutionsParams(c, page, jobFilter),
        Headers(c), c.searchTime)
  }

  /** The parameters of get_executions_total: a single-item page, filtered by retention. */
  function CountParams(c: Configs): map<string, Param> {
    map["olderFilter" := Text(c.keepingDays), "max" := Num(1)]
  }

  function CountRequest(c: Configs, identifier: string, jobFilter: bool): Request {
    Get(EndpointUrl(c, ScopeEndpoint(identifier, jobFilter)), CountParams(c), Headers(c), c.searchTime)
  }

  /** The POST of delete_executions; its body is json.dumps of the list get_executions returned. */
  function DeleteRequest(c: Configs, executions: seq<Entry<int, ExecutionRecord>>): Request {
    Post(EndpointUrl(c, DeleteExecutions), executions, Headers(c), c.deleteTime)
  }

  /**
   * The parameters are fixed by mode: a job page asks for `max` items from
   * offset page * max and carries no retention filter; a project page asks
   * for `max` items older than the retention and carries no offset; a count
   * asks for one item older than the retention.
   */
  lemma RequestParameters(c: Configs, identifier: string, page: int)
    ensures var p := ExecutionsRequest(c, identifier, page, true).params;
      p.Keys == {"max", "offset"} && p["max"] == Num(c.deleteSize) && p["offset"] == Num(page * c.deleteSize)
    ensures var p := ExecutionsRequest(c, identifier, page, false).params;
      p.Keys == {"max", "olderFilter"} && p["max"] == Num(c.deleteSize) && p["olderFilter"] == Text(c.keepingDays)
    ensures forall jobFilter: bool :: var p := CountRequest(c, identifier, jobFilter).params;
      p.Keys == {"max", "olderFilter"} && p["max"] == Num(1) && p["olderFilter"] == Text(c.keepingDays)
  {
  }

  /**
   * Job page windows cover a fixed listing: consecutive pages are adjacent
   * windows of `max` items, and the offset windows of pages
   * 0 .. GetNumPages(count) cover indices 0 .. count - 1.  This is about one
   * listing that does not change; in the run, each delete shrinks the
   * listing before the next offset is applied, and the page fetch carries no
   * olderFilter, so the windows do not tile what the run deletes.
   */
  lemma JobPagesCoverCount(c: Configs, job: string, count: int, i: int)
    requires c.deleteSize > 0
    requires 0 <= i < count
    ensures var page := i / c.deleteSize;
      var p := ExecutionsRequest(c, job, page, true).params;
      0 <= page <= Base.GetNumPages(count, c.deleteSize)
      && p["offset"].n <= i < p["offset"].n + p["max"].n
  {
    Base.PageOfItem(count, c.deleteSize, i);
  }

  // ---------------------------------------------------------------------
  // Replies and the abstract server
  // ---------------------------------------------------------------------

  /** A decoded reply, or the RequestException the source catches. */
  datatype Reply<T> = Answer(body: T) | RequestError

  datatype ProjectRecord = ProjectRecord(name: string, description: string)
  datatype JobRecord = JobRecord(id: string, name: string)
  /** An execution as listed: its id and its `status`, which may be absent. */
  datatype ExecutionRecord = ExecutionRecord(id: int, status: Option<string>)
  /** The body of an executions listing: `paging.total` and the page's executions. */
  datatype ExecutionsBody = ExecutionsBody(total: int, executions: seq<ExecutionRecord>)
  datatype DeleteBody = DeleteBody(allsuccessful: bool, successCount: int, failedCount: int, requestCount: int)

  /**
   * The server, one oracle per kind of call.  Each sees every request sent
   * before, so earlier deletions may change what later listings return.
   */
  datatype Server = Server(
    projects: (seq<Request>, Request) -> Reply<seq<ProjectRecord>>,
    jobs: (seq<Request>, Request) -> Reply<seq<JobRecord>>,
    executions: (seq<Request>, Request) -> Reply<ExecutionsBody>,
    deletion: (seq<Request>, Request) -> Reply<DeleteBody>)

  datatype Env = Env(configs: Configs, server: Server)

  /** Which function issued a request. */
  datatype Call = ListProjects | ListJobs | CountExecutions | FetchExecutions | BulkDelete

  /** One request, and whether it was answered (false: a RequestException). */
  datatype Event = Event(call: Call, request: Request, answered: bool)

  /** The requests of a trace, in order: what the server has seen. */
  function Sent(h: seq<Event>): seq<Request>
    decreases |h|
  {
    if h == [] then [] else Sent(h[..|h| - 1]) + [h[|h| - 1].request]
  }

  // ---------------------------------------------------------------------
  // Decoded values
  // ---------------------------------------------------------------------

  /** An item of a fetched list: only its key (only_names / only_ids) or the whole record. */
  datatype Entry<K, R> = Key(key: K) | Whole(record: R)

  /** What a fetch function returns: a value, Python's None or Python's False. */
  datatype Returned<T> = Value(value: T) | NoneValue | FalseValue

  /** The list get_all_projects builds from the projects of a reply. */
  function ProjectEntries(records: seq<ProjectRecord>, onlyNames: bool): (entries: seq<Entry<string, ProjectRecord>>)
    ensures |entries| == |records|
    ensures forall i :: 0 <= i < |records| ==>
              entries[i] == if onlyNames then Key(records[i].name) else Whole(records[i])
    decreases |records|
  {
    if records == [] then []
    else
      var last := records[|records| - 1];
      ProjectEntries(records[..|records| - 1], onlyNames) + [if onlyNames then Key(last.name) else Whole(last)]
  }

  /** The list get_jobs_by_project builds from the jobs of a reply. */
  function JobEntries(records: seq<JobRecord>, onlyIds: bool): (entries: seq<Entry<string, JobRecord>>)
    ensures |entries| == |records|
    ensures forall i :: 0 <= i < |records| ==>
              entries[i] == if onlyIds then Key(records[i].id) else Whole(records[i])
    decreases |records|
  {
    if records == [] then []
    else
      var last := records[|records| - 1];
      JobEntries(records[..|records| - 1], onlyIds) + [if onlyIds then Key(last.id) else Whole(last)]
  }

  predicate IsRunning(e: ExecutionRecord) {
    e.status == Some("running")
  }

  /** The executions that are not running, in server order. */
  function Retained(execs: seq<ExecutionRecord>): (kept: seq<ExecutionRecord>)
    ensures |kept| <= |execs|
    ensures forall i :: 0 <= i < |kept| ==> !IsRunning(kept[i])
    decreases |execs|
  {
    if execs == [] then []
    else
      var last := execs[|execs| - 1];
      Retained(execs[..|execs| - 1]) + if IsRunning(last) then [] else [last]
  }

  /** Filtering commutes with concatenation: relative order is kept. */
  lemma {:induction false} RetainedAppend(a: seq<ExecutionRecord>, b: seq<ExecutionRecord>)
    ensures Retained(a + b) == Retained(a) + Retained(b)
    decreases |b|
  {
    if b != [] {
      var b' := b[..|b| - 1];
      assert (a + b)[..|a + b| - 1] == a + b';
      RetainedAppend(a, b');
    } else {
      assert a + b == a;
    }
  }

  /** An execution is kept iff it was listed and is not running. */
  lemma {:induction false} RetainedMembers(execs: seq<ExecutionRecord>)
    ensures forall e :: e in Retained(execs) <==> e in execs && !IsRunning(e)
    decreases |execs|
  {
    if execs != [] {
      var init := execs[..|execs| - 1];
      RetainedMembers(init);
      assert execs == init + [execs[|execs| - 1]];
    }
  }

  /** Every non-running execution is kept as often as it was listed; running ones never. */
  lemma {:induction false} RetainedMultiset(execs: seq<ExecutionRecord>)
    ensures forall e :: multiset(Retained(execs))[e] == if IsRunning(e) then 0 else multiset(execs)[e]
    decreases |execs|
  {
    if execs != [] {
      var init := execs[..|execs| - 1];
      RetainedMultiset(init);
      assert execs == init + [execs[|execs| - 1]];
    }
  }

  /** Nothing running is left to filter: a list without running executions is kept whole. */
  lemma {:induction false} RetainedNoneRunning(execs: seq<ExecutionRecord>)
    requires forall i :: 0 <= i < |execs| ==> !IsRunning(execs[i])
    ensures Retained(execs) == execs
    decreases |execs|
  {
    if execs != [] {
      RetainedNoneRunning(execs[..|execs| - 1]);
    }
  }

  lemma RetainedIdempotent(execs: seq<ExecutionRecord>)
    ensures Retained(Retained(execs)) == Retained(execs)
  {
    RetainedNoneRunning(Retained(execs));
  }

  /** The list get_executions builds from the executions of a reply. */
  function ExecutionEntries(execs: seq<ExecutionRecord>, onlyIds: bool): seq<Entry<int, ExecutionRecord>>
    decreases |execs|
  {
    if execs == [] then []
    else
      var last := execs[|execs| - 1];
      ExecutionEntries(execs[..|execs| - 1], onlyIds)
      + if IsRunning(last) then [] else [if onlyIds then Key(last.id) else Whole(last)]
  }

  /** The list holds one entry per retained execution, in server order: its id, or the whole record. */
  lemma {:induction false} ExecutionEntriesOfRetained(execs: seq<ExecutionRecord>, onlyIds: bool)
    ensures var entries := ExecutionEntries(execs, onlyIds);
      && |entries| == |Retained(execs)|
      && forall i :: 0 <= i < |entries| ==>
           entries[i] == if onlyIds then Key(Retained(execs)[i].id) else Whole(Retained(execs)[i])
    decreases |execs|
  {
    if execs != [] {
      var init := execs[..|execs| - 1];
      ExecutionEntriesOfRetained(init, onlyIds);
    }
  }

  /** With distinct ids, no id of a running execution is returned, and every other id is. */
  lemma ExecutionIdsExcludeRunning(execs: seq<ExecutionRecord>, k: int)
    requires forall i, j :: 0 <= i < j < |execs| ==> execs[i].id != execs[j].id
    requires 0 <= k < |execs|
    ensures Key(execs[k].id) in ExecutionEntries(execs, true) <==> !IsRunning(execs[k])
  {
    var kept := Retained(execs);
    var entries := ExecutionEntries(execs, true);
    ExecutionEntriesOfRetained(execs, true);
    RetainedMembers(execs);
    if IsRunning(execs[k]) {
      forall i | 0 <= i < |entries|
        ensures entries[i] != Key(execs[k].id)
      {
        assert kept[i] in execs;
        var j :| 0 <= j < |execs| && execs[j] == kept[i];
        assert j != k;
      }
    } else {
      assert execs[k] in kept;
      var i :| 0 <= i < |kept| && kept[i] == execs[k];
      assert entries[i] == Key(execs[k].id);
    }
  }

  /** The keys of the key entries of a list, in order (whole records have none). */
  function KeysOf<K, R>(entries: seq<Entry<K, R>>): (keys: seq<K>)
    ensures |keys| <= |entries|
    decreases |entries|
  {
    if entries == [] then []
    else
      var last := entries[|entries| - 1];
      KeysOf(entries[..|entries| - 1]) + if last.Key? then [last.key] else []
  }

  /** A list of key entries (only_names / only_ids) has exactly its keys, one per entry. */
  lemma {:induction false} KeysOfKeyEntries<K, R>(entries: seq<Entry<K, R>>)
    requires forall i :: 0 <= i < |entries| ==> entries[i].Key?
    ensures |KeysOf(entries)| == |entries|
    ensures forall i :: 0 <= i < |entries| ==> KeysOf(entries)[i] == entries[i].key
    decreases |entries|
  {
    if entries != [] {
      KeysOfKeyEntries(entries[..|entries| - 1]);
    }
  }

  // ---------------------------------------------------------------------
  // The five fetch functions: replies and results
  // ---------------------------------------------------------------------

  function ProjectsReply(env: Env, h: seq<Event>): Reply<seq<ProjectRecord>> {
    env.server.projects(Sent(h), ProjectsRequest(env.configs))
  }

  function JobsReply(env: Env, h: seq<Event>, project: string): Reply<seq<JobRecord>> {
    env.server.jobs(Sent(h), JobsRequest(env.configs, project))
  }

  function ExecutionsReply(env: Env, h: seq<Event>, identifier: string, page: int, jobFilter: bool): Reply<ExecutionsBody> {
    env.server.executions(Sent(h), ExecutionsRequest(env.configs, identifier, page, jobFilter))
  }

  function CountReply(env: Env, h: seq<Event>, identifier: string, jobFilter: bool): Reply<ExecutionsBody> {
    env.server.executions(Sent(h), CountRequest(env.configs, identifier, jobFilter))
  }

  function DeleteReply(env: Env, h: seq<Event>, executions: seq<Entry<int, ExecutionRecord>>): Reply<DeleteBody> {
    env.server.deletion(Sent(h), DeleteRequest(env.configs, executions))
  }

  /** The trace entry each call leaves: which call, the request, and whether it was answered. */
  function ProjectsEvent(env: Env, h: seq<Event>): Event {
    Event(ListProjects, ProjectsRequest(env.configs), ProjectsReply(env, h).Answer?)
  }

  function JobsEvent(env: Env, h: seq<Event>, project: string): Event {
    Event(ListJobs, JobsRequest(env.configs, project), JobsReply(env, h, project).Answer?)
  }

  function FetchEvent(env: Env, h: seq<Event>, identifier: string, page: int, jobFilter: bool): Event {
    Event(FetchExecutions, ExecutionsRequest(env.configs, identifier, page, jobFilter),
          ExecutionsReply(env, h, identifier, page, jobFilter).Answer?)
  }

  function CountEvent(env: Env, h: seq<Event>, identifier: string, jobFilter: bool): Event {
    Event(CountExecutions, CountRequest(env.configs, identifier, jobFilter),
          CountReply(env, h, identifier, jobFilter).Answer?)
  }

  function DeleteEvent(env: Env, h: seq<Event>, executions: seq<Entry<int, ExecutionRecord>>): Event {
    Event(BulkDelete, DeleteRequest(env.configs, executions), DeleteReply(env, h, executions).Answer?)
  }

  /** get_all_projects: the entries, or None on a request exception. */
  function AllProjects(env: Env, h: seq<Event>, onlyNames: bool): Returned<seq<Entry<string, ProjectRecord>>> {
    match ProjectsReply(env, h)
    case RequestError => NoneValue
    case Answer(records) => Value(ProjectEntries(records, onlyNames))
  }

  /** get_jobs_by_project: the entries, or False on a request exception. */
  function JobsByProject(env: Env, h: seq<Event>, project: string, onlyIds: bool): Returned<seq<Entry<string, JobRecord>>> {
    match JobsReply(env, h, project)
    case RequestError => FalseValue
    case Answer(records) => Value(JobEntries(records, onlyIds))
  }

  /** get_executions: the entries of the non-running executions, or None on a request exception. */
  function Executions(env: Env, h: seq<Event>, identifier: string, page: int, jobFilter: bool, onlyIds: bool)
    : Returned<seq<Entry<int, ExecutionRecord>>>
  {
    match ExecutionsReply(env, h, identifier, page, jobFilter)
    case RequestError => NoneValue
    case Answer(body) => Value(ExecutionEntries(body.executions, onlyIds))
  }

  /** get_executions_total: paging.total, or None on a request exception. */
  function ExecutionsTotal(env: Env, h: seq<Event>, identifier: string, jobFilter: bool): Returned<int> {
    match CountReply(env, h, identifier, jobFilter)
    case RequestError => NoneValue
    case Answer(body) => Value(body.total)
  }

  /** delete_executions: allsuccessful, and False on a request exception. */
  function Deleted(env: Env, h: seq<Event>, executions: seq<Entry<int, ExecutionRecord>>): bool {
    match DeleteReply(env, h, executions)
    case RequestError => false
    case Answer(body) => body.allsuccessful
  }

  /**
   * Each fetch fails with its own value: get_all_projects, get_executions
   * and get_executions_total with None, get_jobs_by_project with False, and
   * none of them fails in another way.  delete_executions is True exactly
   * when the server answered with allsuccessful set.
   */
  lemma FailureValues(env: Env, h: seq<Event>, name: string, page: int, jobFilter: bool, only: bool,
                      ids: seq<Entry<int, ExecutionRecord>>)
    ensures AllProjects(env, h, only).NoneValue? <==> ProjectsReply(env, h).RequestError?
    ensures !AllProjects(env, h, only).FalseValue?
    ensures JobsByProject(env, h, name, only).FalseValue? <==> JobsReply(env, h, name).RequestError?
    ensures !JobsByProject(env, h, name, only).NoneValue?
    ensures Executions(env, h, name, page, jobFilter, only).NoneValue? <==>
              ExecutionsReply(env, h, name, page, jobFilter).RequestError?
    ensures !Executions(env, h, name, page, jobFilter, only).FalseValue?
    ensures ExecutionsTotal(env, h, name, jobFilter).NoneValue? <==> CountReply(env, h, name, jobFilter).RequestError?
    ensures !ExecutionsTotal(env, h, name, jobFilter).FalseValue?
    ensures Deleted(env, h, ids) <==> DeleteReply(env, h, ids).Answer? && DeleteReply(env, h, ids).body.allsuccessful
  {
  }

  // ---------------------------------------------------------------------
  // The fetch functions as the source runs them
  // ---------------------------------------------------------------------

  /** get_all_projects: one GET of `projects`, then the list built item by item. */
  method GetAllProjects(env: Env, h: seq<Event>, onlyNames: bool := true)
    returns (projects: Returned<seq<Entry<string, ProjectRecord>>>, h': seq<Event>)
    ensures projects == AllProjects(env, h, onlyNames)
    ensures h' == h + [ProjectsEvent(env, h)]
  {
    var request := ProjectsRequest(env.configs);
    var reply := env.server.projects(Sent(h), request);
    h' := h + [Event(ListProjects, request, reply.Answer?)];
    match reply
    case RequestError =>
      projects := NoneValue;
    case Answer(records) =>
      var info: seq<Entry<string, ProjectRecord>> := [];
      var i := 0;
      while i < |records|
        invariant 0 <= i <= |records|
        invariant info == ProjectEntries(records[..i], onlyNames)
      {
        if onlyNames {
          info := info + [Key(records[i].name)];
        } else {
          info := info + [Whole(records[i])];
        }
        assert records[..i + 1][..i] == records[..i];
        assert ProjectEntries(records[..i + 1], onlyNames) == ProjectEntries(records[..i], onlyNames) + [info[i]];
        i := i + 1;
      }
      assert records[..|records|] == records;
      projects := Value(info);
  }

  /** get_jobs_by_project: one GET of `project/<name>/jobs`, then the list of job ids. */
  method GetJobsByProject(env: Env, h: seq<Event>, project: string, onlyIds: bool := true)
    returns (jobs: Returned<seq<Entry<string, JobRecord>>>, h': seq<Event>)
    ensures jobs == JobsByProject(env, h, project, onlyIds)
    ensures h' == h + [JobsEvent(env, h, project)]
  {
    var request := JobsRequest(env.configs, project);
    var reply := env.server.jobs(Sent(h), request);
    h' := h + [Event(ListJobs, request, reply.Answer?)];
    match reply
    case RequestError =>
      jobs := FalseValue;
    case Answer(records) =>
      var info: seq<Entry<string, JobRecord>> := [];
      var i := 0;
      while i < |records|
        invariant 0 <= i <= |records|
        invariant info == JobEntries(records[..i], onlyIds)
      {
        if onlyIds {
          info := info + [Key(records[i].id)];
        } else {
          info := info + [Whole(records[i])];
        }
        assert records[..i + 1][..i] == records[..i];
        assert JobEntries(records[..i + 1], onlyIds) == JobEntries(records[..i], onlyIds) + [info[i]];
        i := i + 1;
      }
      assert records[..|records|] == records;
      jobs := Value(info);
  }

  /**
   * get_executions: one GET of a page of a job's or a project's executions,
   * then the list of those whose status is not "running".
   */
  method GetExecutions(env: Env, h: seq<Event>, identifier: string, page: int, jobFilter: bool := true,
                       onlyIds: bool := true)
    returns (executions: Returned<seq<Entry<int, ExecutionRecord>>>, h': seq<Event>)
    ensures executions == Executions(env, h, identifier, page, jobFilter, onlyIds)
    ensures h' == h + [FetchEvent(env, h, identifier, page, jobFilter)]
  {
    var request := ExecutionsRequest(env.configs, identifier, page, jobFilter);
    var reply := env.server.executions(Sent(h), request);
    h' := h + [Event(FetchExecutions, request, reply.Answer?)];
    match reply
    case RequestError =>
      executions := NoneValue;
    case Answer(body) =>
      var records := body.executions;
      var info: seq<Entry<int, ExecutionRecord>> := [];
      var i := 0;
      while i < |records|
        invariant 0 <= i <= |records|
        invariant info == ExecutionEntries(records[..i], onlyIds)
      {
        var status := records[i].status;
        if status != Some("running") {
          if onlyIds {
            info := info + [Key(records[i].id)];
          } else {
            info := info + [Whole(records[i])];
          }
        }
        assert records[..i + 1][..i] == records[..i];
        i := i + 1;
      }
      assert records[..|records|] == records;
      executions := Value(info);
  }

  /** get_executions_total: one GET of a one-item page, returning paging.total. */
  method GetExecutionsTotal(env: Env, h: seq<Event>, identifier: string, jobFilter: bool := true)
    returns (count: Returned<int>, h': seq<Event>)
    ensures count == ExecutionsTotal(env, h, identifier, jobFilter)
    ensures h' == h + [CountEvent(env, h, identifier, jobFilter)]
  {
    var request := CountRequest(env.configs, identifier, jobFilter);
    var reply := env.server.executions(Sent(h), request);
    h' := h + [Event(CountExecutions, request, reply.Answer?)];
    match reply
    case RequestError =>
      count := NoneValue;
    case Answer(body) =>
      count := Value(body.total);
  }

  /** delete_executions: one POST of the ids, True iff the server reports allsuccessful. */
  method DeleteExecutionsCall(env: Env, h: seq<Event>, ids: seq<Entry<int, ExecutionRecord>>)
    returns (success: bool, h': seq<Event>)
    ensures success <==> DeleteReply(env, h, ids).Answer? && DeleteReply(env, h, ids).body.allsuccessful
    ensures h' == h + [DeleteEvent(env, h, ids)]
  {
    var request := DeleteRequest(env.configs, ids);
    var reply := env.server.deletion(Sent(h), request);
    h' := h + [Event(BulkDelete, request, reply.Answer?)];
    match reply
    case RequestError =>
      success := false;
    case Answer(body) =>
      success := body.allsuccessful;
  }
}
