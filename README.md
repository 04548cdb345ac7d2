# Rundeck executions retirement, modelled in Dafny

The tool talks to a Rundeck server over its REST API and deletes old
execution records. It lists the projects. Then, for each project, it works
in one of two modes:

- **by project**: it counts the project's executions older than the
  retention time. It then fetches and bulk-deletes pages of them,
  `GetNumPages(count) + 1` times.
- **by job**: it lists the project's jobs. For each job it counts the
  executions and walks the job's pages by offset, deleting each non-empty
  page. It stops a job at its first empty or failed page.

Helpers in `app/modules/base.py` compute page counts, validate the
configuration and split a duration into hours, minutes and seconds.

The project has three modules:

- `Base` (`base.dfy`): `get_num_pages`, `validate_configs` and
  `get_formatted_time`, as pure functions.
- `Api` (`api.dfy`):
  - the base URL, the endpoints and the query parameters;
  - the five fetch functions, as methods whose loops build the result
    list, proved equal to specification functions;
  - properties of the lists they return.
- `Retire` (`retire.dfy`): the control loop of `main.py`.
  - `Run` is the imperative loop.
  - It is proved to produce the trace and the ending that the function
    `RunSpec` gives.
  - The lemmas state what that run does in each mode.

The HTTP server is abstract. `Server` has one function per kind of call.
Each function takes the requests sent so far and the request now being
sent, and gives either a decoded body or `RequestError`. `RequestError`
stands for the `RequestException` the source catches. The server can
therefore answer anything, and later answers can depend on earlier
deletes. A run is the sequence of `Event(call, request, answered)` it
produces, plus how it ends:

- `Done`: `exit(0)`;
- `Fatal`: `exit(1)`;
- `Crashed`: an uncaught `TypeError`, which also makes Python exit with 1.

Python's `None` and `False` results are the `NoneValue` and `FalseValue`
cases of `Returned<T>`.

Where the model departs from a literal reading, it follows the code:

- A failed job list (`False`) or a failed job count (`None`) in by-job mode
  is not handled by the source. `for job in False` and
  `get_num_pages(None, ...)` raise a `TypeError`, which the model records
  as `Crashed`.
- Every by-project page fetch sends the same request. It carries `max` and
  `olderFilter` but no `offset`, so the model's requests for different
  pages are identical.
- In by-job mode the page fetches carry `max` and `offset` but no
  `olderFilter`. The count that sets the number of pages does carry
  `olderFilter`.
- `elif not executions or not success: break` stops at every page that is
  empty or `None`. The `not success` half is never evaluated there, so
  what `delete_executions` returns is never read.
  `Retire.DeleteOutcomeIgnored` proves it.

## Model

| member | source | states |
|---|---|---|
| Base.GetNumPages | app/modules/base.py:61-64 | the page count is the ceiling of n / divider: pages * divider >= n and (pages - 1) * divider < n |
| Base.NumPagesIsLeast | app/modules/base.py:61-64 | every p with p * divider >= n is at least the page count, so the page count is the least such p |
| Base.NumPagesNonNegative | app/modules/base.py:61-64 | a count that is not negative gives a page count that is not negative, and zero pages exactly for zero items |
| Base.PageOfItem | app/modules/base.py:61-64 | every item index below the count is on page i / divider, below the page count, and that page's window contains it |
| Base.NumPagesExamples | app/modules/base.py:61-64 | 0 items need 0 pages and 450 items need 3 at the default divider 200; 400 need 2, 401 at 200 need 3, 5 at 1 need 5 |
| Base.SplitKeepTime | app/modules/base.py:85-86 | keep_time[:-1] and keep_time[-1:] concatenate back to keep_time; the unit slice has one character unless keep_time is empty |
| Base.KeepTimeAcceptedIsRetention | app/modules/base.py:85-89 | the slicing check accepts a keep time exactly when it is one or more digits followed by one of h, d, w, m, y |
| Base.KeepTimeOfParts | app/modules/base.py:85-89 | a number followed by one unit character passes exactly when the number is all digits and the unit one of h, d, w, m, y |
| Base.ValidateConfigs | app/modules/base.py:67-91 | the result is True exactly when every constraint holds; the message is empty exactly then; each message is returned exactly when its check is the first one that fails, in the order port, API version, search timeout, delete timeout, chunk size, keep time |
| Base.ValidateConfigsExamples | app/modules/base.py:67-91 | the defaults pass; "30x", "d" and "" fail on the keep time; API version 21 fails on the version; port 80 fails on the port, even when the version is also wrong |
| Base.GetFormattedTime | app/modules/base.py:103-109 | hours * 3600 + minutes * 60 + seconds equals the timedelta's seconds, with hours < 24 and minutes and seconds < 60 |
| Base.FormattedTimeUnique | app/modules/base.py:103-109 | any split with minutes and seconds below 60 is the one get_formatted_time returns |
| Api.NatToDecimal | main.py:171-172 | str() of a natural number: decimal digits only, at least one |
| Api.NatToDecimalRoundTrip | main.py:171-172 | reading back the digits str() gives for a natural number gives that number |
| Api.IntToDecimalRoundTrip | main.py:171-172 | str() of any integer, sign included, reads back as that integer |
| Api.BaseUrl | main.py:165-172 | URL starts with "https://" exactly when over_ssl is set, otherwise with "http://"; it ends with '/' |
| Api.BaseUrlInjective | main.py:165-172 | two configurations give the same URL exactly when they agree on the scheme, the hostname, the port and the API version, whatever the hostname holds |
| Api.SplitAtLast | main.py:171-172 | a string split at the last occurrence of a character splits one way only, which is how URL reads back from the right |
| Api.IntToDecimalInjective | main.py:171-172 | distinct integers render as distinct strings |
| Api.IntToDecimalChars | main.py:171-172 | str() of an integer holds only digits and a minus sign, so no '/' or ':' |
| Api.ProjectJobsPathParses | main.py:39 | "project/<name>/jobs" reads back as that project's jobs endpoint, for names without '/' |
| Api.ProjectExecutionsPathParses | main.py:73 | "project/<name>/executions" reads back as that project's executions endpoint, for names without '/' |
| Api.JobExecutionsPathParses | main.py:67 | "job/<id>/executions" reads back as that job's executions endpoint, for ids without '/' |
| Api.ParsePathRoundTrip | main.py:15-132 | every endpoint path the tool appends to URL reads back as its endpoint (names without '/') |
| Api.PathInjective | main.py:15-132 | two endpoints with the same path are the same endpoint, whatever the names hold, '/' included |
| Api.EndpointUrlInjective | main.py:15-132 | under one configuration, two endpoints with the same URL are the same endpoint, names with '/' included |
| Api.RequestParameters | main.py:66-114 | parameters by mode: a job page has exactly max = delete_size and offset = page * delete_size; a project page has exactly max = delete_size and olderFilter = keeping_days; a count has exactly olderFilter = keeping_days and max = 1 |
| Api.JobPagesCoverCount | main.py:66-71 | for one fixed listing, each item index below a job's count lies in the offset window of one of pages 0 .. GetNumPages(count) |
| Api.ProjectEntries | main.py:23-27 | the project list keeps the reply's length and order: entry i is project i's name, or the whole record when only_names is off |
| Api.JobEntries | main.py:47-52 | the job list keeps the reply's length and order: entry i is job i's id, or the whole record when only_ids is off |
| Api.Retained | main.py:84-87 | the kept executions are no more than the listed ones and none of them is running |
| Api.RetainedAppend | main.py:84-87 | filtering commutes with concatenation, so the kept executions stay in reply order |
| Api.RetainedMembers | main.py:84-87 | an execution is kept exactly when it was listed and is not running |
| Api.RetainedMultiset | main.py:84-87 | a non-running execution is kept as often as it was listed, a running one never |
| Api.RetainedNoneRunning | main.py:84-87 | a listing without running executions is kept whole |
| Api.RetainedIdempotent | main.py:84-87 | filtering twice is filtering once |
| Api.ExecutionEntriesOfRetained | main.py:84-92 | get_executions' list has one entry per kept execution, in reply order: its id, or the whole record when only_ids is off |
| Api.ExecutionIdsExcludeRunning | main.py:84-92 | with distinct ids, an execution's id is in the list exactly when that execution is not running |
| Api.FailureValues | main.py:12-151 | get_all_projects, get_executions and get_executions_total return None exactly on a request exception, get_jobs_by_project returns False exactly then, none fails any other way, and delete_executions is True exactly when the server answered with allsuccessful |
| Api.GetAllProjects | main.py:12-33 | one GET of URL + "projects"; None on a request exception, otherwise the list ProjectEntries gives of the reply |
| Api.GetJobsByProject | main.py:36-58 | one GET of the project's jobs; False on a request exception, otherwise the list JobEntries gives |
| Api.GetExecutions | main.py:61-98 | one GET of the page with the mode's parameters; None on a request exception, otherwise the entries of the non-running executions |
| Api.GetExecutionsTotal | main.py:101-126 | one GET with olderFilter and max 1; None on a request exception, otherwise paging.total |
| Api.DeleteExecutionsCall | main.py:129-151 | one POST of the list to executions/delete; True exactly when the server answered with allsuccessful, False on failures and on a request exception |
| Retire.Run | main.py:179-239 | the control loop produces exactly the trace and ending of RunSpec: exit(1) when the project list fails, then the mode's loop over the project names |
| Retire.RunByProject | main.py:185-214 | by-project loop over the projects, equal to ByProject; it ends with exit(1) at the first aborted project |
| Retire.RunProjectStep | main.py:188-214 | one project: count, then range(0, total_pages + 1) fetches each followed by a delete, aborting at the first failed count or fetch; equal to ProjectStep |
| Retire.RunByJob | main.py:185-237 | by-job loop over the projects, equal to ByJob; a TypeError ends the run |
| Retire.RunJobsStep | main.py:215-217 | one project's job list; a False list raises a TypeError; equal to JobsStep |
| Retire.RunProjectJobs | main.py:217-237 | one project's job loop: count each job and walk its pages; a None count raises a TypeError; equal to ProjectJobs |
| Retire.RunJobPages | main.py:231-237 | one job's page loop: delete each non-empty page, break at the first empty or None page; equal to JobPages |
| Retire.ProjectPagesPaired | main.py:207-214 | a project's pages extend the trace with fetches and deletes only; each answered fetch is followed at once by the delete of exactly the list it returned; a failed fetch is the last event; every delete directly follows its fetch |
| Retire.ProjectPagesCounts | main.py:207-214 | counts only: with no failed fetch, range(page, total + 1) gives as many fetches and as many deletes as it has pages; aborted, one delete fewer than fetches (the order is ProjectPagesPaired) |
| Retire.ProjectStepCounts | main.py:189-214 | counts only: a project whose count is n >= 0 makes at most GetNumPages(n) + 1 fetches; with no failure exactly that many fetches and as many deletes; aborted, one delete fewer than fetches |
| Retire.ProjectStepExamples | main.py:189-214 | at 200 a page and when no request fails, a count of 0 still costs one fetch and one delete, and a count of 450 costs four of each |
| Retire.ProjectPagesFailures | main.py:207-214 | a project's pages add a failed non-delete request exactly when they abort, and it is their last event |
| Retire.ProjectStepFailures | main.py:189-214 | the same for a whole project, its count included |
| Retire.ByProjectFailFast | main.py:185-214 | by-project mode never crashes; it adds one failed request when it exits with 1, as its last event, and none otherwise |
| Retire.ProjectModeFailFast | main.py:179-239 | the whole by-project run is fail-fast: it never crashes, it exits with 1 exactly when its last request is a failed list, count or fetch, and no earlier list, count or fetch failed |
| Retire.JobPagesCounts | main.py:231-237 | counts only: a job's pages make at most range(page, total + 1) fetches, as many deletes or one fewer, and when every fetch has its delete, every page was fetched (the order is JobPagesPaired) |
| Retire.JobPagesPaired | main.py:231-237 | a job's pages extend the trace with fetches and deletes only; each fetch of a non-empty list is followed at once by the delete of exactly that list; the first fetch that failed or returned an empty list is the last event, so every earlier fetch returned a non-empty list |
| Retire.JobPagesFetches | main.py:231-232 | a job's fetches ask for consecutive pages from `page` on, in order |
| Retire.JobPagesNoEmptyDelete | main.py:234-235 | a job's pages never delete an empty list |
| Retire.JobPagesStop | main.py:234-237 | when a job's last fetch has no delete after it, that fetch is the trace's last event and returned None or an empty list |
| Retire.JobStepCounts | main.py:218-237 | a job whose count answered does not abort; it makes at most GetNumPages(count) + 1 fetches, and when every fetched page was deleted, every page was fetched |
| Retire.JobStepFetches | main.py:218-232 | a job's fetches ask for pages 0, 1, 2, ... in order |
| Retire.JobStepStops | main.py:218-237 | a job never deletes an empty list, and when its fetches outnumber its deletes its last fetch returned None or an empty list |
| Retire.JobPagesFailures | main.py:231-237 | a failed page fetch never ends the run: a job's pages add no failed list or count request |
| Retire.JobStepFailures | main.py:218-237 | a job adds a run-ending failure exactly when its count failed, and then it is the last event |
| Retire.ProjectJobsFailures | main.py:217-237 | a project's job loop aborts exactly at a failed count, its last event |
| Retire.JobsStepFailures | main.py:215-237 | a project aborts exactly at a failed job list or count, its last event |
| Retire.ByJobFailSoft | main.py:185-237 | the by-job loop never reaches exit(1) (Fatal); it adds one run-ending failure when it crashes with a TypeError, as its last event, and none otherwise |
| Retire.JobModeFailSoft | main.py:179-239 | the whole by-job run reaches exit(1) (Fatal) exactly when the project list failed, and then that is its only request; it ends short of exit(0) exactly when its last request is a failed list or count, which is a TypeError and so also exits with 1; no earlier such request failed; it exits with 0 in every other case |
| Retire.ProjectPagesIgnoreDeletes | main.py:207-214 | a project's pages send the same requests and abort alike under servers that differ only in their delete replies |
| Retire.ProjectStepIgnoresDeletes | main.py:189-214 | the same for a whole project |
| Retire.ByProjectIgnoresDeletes | main.py:185-214 | the same for the whole by-project loop, ending included |
| Retire.JobPagesIgnoreDeletes | main.py:231-237 | a job's pages send the same requests under servers that differ only in their delete replies |
| Retire.JobStepIgnoresDeletes | main.py:218-237 | the same for a job, its count included |
| Retire.ProjectJobsIgnoreDeletes | main.py:217-237 | the same for a project's job loop |
| Retire.JobsStepIgnoresDeletes | main.py:215-237 | the same for a project, its job list included |
| Retire.ByJobIgnoresDeletes | main.py:185-237 | the same for the whole by-job loop, ending included |
| Retire.ProjectStepDeletes | main.py:189-214 | every delete of one project directly follows the fetch whose list it posts |
| Retire.ByProjectDeletes | main.py:185-214 | the same for the whole by-project loop |
| Retire.JobStepDeletes | main.py:218-237 | every delete of one job directly follows the fetch whose list it posts |
| Retire.ProjectJobsDeletes | main.py:217-237 | the same for a project's job loop |
| Retire.JobsStepDeletes | main.py:215-237 | the same for a project, its job list included |
| Retire.ByJobDeletes | main.py:185-237 | the same for the whole by-job loop |
| Retire.RunDeletesFollowFetches | main.py:179-239 | in either mode, every delete of the run directly follows a fetch that was answered and posts exactly the list that fetch returned |
| Retire.RunDeletesNoRunning | main.py:84-92 | every delete of the run posts, in order, the ids of the executions on the page just fetched that are not running, and nothing else |
| Retire.RunNeverDeletesRunning | main.py:84-92 | with distinct ids on that page, an execution's id is posted exactly when the execution is not running, so no run ever deletes a running execution |
| Retire.DeleteOutcomeIgnored | main.py:179-239 | what delete_executions returns never matters: in either mode, two servers that differ only in their delete replies get the same requests in the same order, and the run ends the same way |

## Left out

- HTTP transport, JSON decoding, `verify=False` and the SSL warning switch: the server is an abstract function from the requests sent so far to a decoded reply or a request exception.
- Headers and timeouts: they are part of each request value, but no property is stated about them beyond their presence.
- The `json.dumps` serialisation of the delete's body: the model's delete request carries the list of ids itself. What that list holds is stated by Retire.RunDeletesNoRunning (entry by entry, the ids of the just-fetched page's non-running executions) and Retire.RunDeletesFollowFetches (exactly the list the fetch before it returned).
- Logging, `print` and the verbose flag: they have no effect on the requests or the ending.
- `parse_args` and the argument parser, `sigint_handler` and the database options (`--db-*`, `--execution-mode`, `--retries`, `--filtered-*`, `--running`, `--unoptimized`, `--debug`): they are outside the retirement loop.
- Startup at main.py:157-163: `validate_keeping_time` is not defined in app/modules/base.py, and the argument namespace is indexed like a dictionary. The model starts from configurations as given, with `delete_size > 0`. `validate_configs` would guarantee that, but `main.py` never calls it.
- Base.GetNumPages: `int(ceil(n / float(divider)))` is modelled as the exact integer ceiling. Floating-point rounding for counts above 2^53 is not modelled.
- Base.IsDigitString: `str.isdigit` is modelled on ASCII digits; Unicode digits are not.
- Base.GetFormattedTime: it requires the timedelta's `seconds` to be normalised (`0 <= seconds < 86400`), as Python keeps it; the days part is not read by the source.
- Api.GetJobsByProject: `job_data.get('id')` can give `None` for a job without an id; the model's job records always have one.
- Api.GetExecutions: `execution_data.get('id')` can likewise give `None`; the model's execution records always have an id. A missing `status` is modelled and is kept.
- A missing key in a reply (`'name'`, `'executions'`, `'paging'`, `'allsuccessful'`) raises `KeyError` in the source; the model's decoded bodies always have those fields.
- `only_names`, `only_ids` and `job_filter` are modelled for every value in the fetch functions, but the control loop uses only the values `main.py` passes.
