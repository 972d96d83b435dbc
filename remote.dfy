/**
 * The remote generation API client: the task endpoint built from the
 * configured base address, the classification of one status reply, the
 * ordered probe for the result URL, and the polling loop under a deadline.
 * HTTP replies are given values; the clock is in milliseconds.
 */
module RemoteJob {
  import opened Wrappers
  import opened Text

  const ApiVersionSegment: string := "/api/v3"
  const TasksPath: string := "/contents/generations/tasks"

  /** `api_base.rstrip('/')`. */
  function NormalizeBase(apiBase: string): (base: string)
    ensures base <= apiBase
    ensures base == [] || base[|base| - 1] != '/'
    ensures forall i :: |base| <= i < |apiBase| ==> apiBase[i] == '/'
  {
    TrimEnd(apiBase, {'/'})
  }

  /** The task-creation endpoint: the version segment is inserted unless the base already has it. */
  function TasksEndpoint(apiBase: string): (url: string)
    ensures NormalizeBase(apiBase) <= url
    ensures EndsWith(url, TasksPath)
  {
    var base := NormalizeBase(apiBase);
    if IsSubstring(ApiVersionSegment, base) then base + TasksPath
    else base + ApiVersionSegment + TasksPath
  }

  /** The status endpoint of one task. */
  function TaskEndpoint(apiBase: string, taskId: string): (url: string)
    ensures TasksEndpoint(apiBase) + "/" <= url
    ensures EndsWith(url, taskId) && |url| == |TasksEndpoint(apiBase)| + 1 + |taskId|
  {
    TasksEndpoint(apiBase) + "/" + taskId
  }

  /**
   * The endpoint is the stripped base, then the version segment when the
   * base lacks one, then the tasks path; so it always names the version.
   */
  lemma TasksEndpointShape(apiBase: string)
    ensures var base, url := NormalizeBase(apiBase), TasksEndpoint(apiBase);
      && base <= url
      && EndsWith(url, TasksPath)
      && IsSubstring(ApiVersionSegment, url)
      && (IsSubstring(ApiVersionSegment, base) ==> |url| == |base| + |TasksPath|)
      && (!IsSubstring(ApiVersionSegment, base) ==> url[|base|..|base| + |ApiVersionSegment|] == ApiVersionSegment)
      && (!IsSubstring(ApiVersionSegment, base) ==> |url| == |base| + |ApiVersionSegment| + |TasksPath|)
  {
    var base := NormalizeBase(apiBase);
    var url := TasksEndpoint(apiBase);
    if IsSubstring(ApiVersionSegment, base) {
      SubstringOfPrefix(ApiVersionSegment, base, TasksPath);
    } else {
      assert (base + ApiVersionSegment + TasksPath)[|base|..|base| + |ApiVersionSegment|] == ApiVersionSegment;
      SubstringAt(ApiVersionSegment, url, |base|);
    }
  }

  lemma {:induction false} TrimEndIgnoresSlashes(s: string, k: nat)
    ensures TrimEnd(s + Repeat('/', k), {'/'}) == TrimEnd(s, {'/'})
    decreases k
  {
    if k > 0 {
      var t := s + Repeat('/', k);
      assert t[..|t| - 1] == s + Repeat('/', k - 1);
      TrimEndIgnoresSlashes(s, k - 1);
    } else {
      assert s + Repeat('/', k) == s;
    }
  }

  /** Trailing slashes on the configured base make no difference. */
  lemma TrailingSlashesIgnored(apiBase: string, k: nat)
    ensures TasksEndpoint(apiBase + Repeat('/', k)) == TasksEndpoint(apiBase)
  {
    TrimEndIgnoresSlashes(apiBase, k);
  }

  /**
   * The status endpoint polled for a task is the creation endpoint, a `/`
   * and the task id, whatever trailing slashes the base carries.
   */
  lemma StatusEndpointUnderTasks(apiBase: string, k: nat, taskId: string)
    ensures TaskEndpoint(apiBase + Repeat('/', k), taskId) == TasksEndpoint(apiBase) + "/" + taskId
    ensures IsSubstring(ApiVersionSegment, TaskEndpoint(apiBase + Repeat('/', k), taskId))
  {
    TrailingSlashesIgnored(apiBase, k);
    TasksEndpointShape(apiBase);
    SubstringOfPrefix(ApiVersionSegment, TasksEndpoint(apiBase), "/" + taskId);
    assert TasksEndpoint(apiBase) + "/" + taskId == TasksEndpoint(apiBase) + ("/" + taskId);
  }

  /** A base with the version segment and the same base without it name the same endpoint. */
  lemma VersionSegmentNotDuplicated(apiBase: string)
    requires !IsSubstring(ApiVersionSegment, NormalizeBase(apiBase))
    ensures TasksEndpoint(NormalizeBase(apiBase) + ApiVersionSegment) == TasksEndpoint(apiBase)
  {
    var base := NormalizeBase(apiBase);
    var versioned := base + ApiVersionSegment;
    assert versioned[|versioned| - 1] == '3';
    assert NormalizeBase(versioned) == versioned;
    assert versioned[|base|..|base| + |ApiVersionSegment|] == ApiVersionSegment;
    SubstringAt(ApiVersionSegment, versioned, |base|);
  }

  /** A member of the reply that the code calls `.get` on: missing, not an object, or an object. */
  datatype ObjectMember = Absent | NotAnObject | Object(members: map<string, string>)

  /** The decoded body of a status reply; string members are `""` when empty or missing. */
  datatype TaskBody = TaskBody(
    status: Option<string>,
    content: ObjectMember,
    error: ObjectMember,
    members: map<string, string>)

  /** One status query: an HTTP status with its body, or an exception. */
  datatype QueryReply = Answered(httpStatus: int, body: TaskBody) | Raised

  /** A query and the time it took beyond the sleep before it. */
  datatype Query = Query(reply: QueryReply, latencyMs: nat)

  /** Where a result URL may be found: inside `content`, or at the top level. */
  datatype LocatorPath = InContent(key: string) | AtTop(key: string)

  /** The probe order of the result URL. */
  const LocatorPaths: seq<LocatorPath> := [
    InContent("video_url"), InContent("url"), InContent("download_url"),
    AtTop("video_url"), AtTop("url"), AtTop("download_url")]

  /** The string at a path; `""` when missing (a missing `content` reads as `{}`). */
  function ValueAt(body: TaskBody, p: LocatorPath): string {
    match p
    case InContent(k) =>
      (match body.content
       case Object(m) => if k in m then m[k] else ""
       case _ => "")
    case AtTop(k) => if k in body.members then body.members[k] else ""
  }

  /** Path `i` is the first of `paths` whose value is non-empty. */
  predicate IsFirstNonEmpty(body: TaskBody, paths: seq<LocatorPath>, i: int) {
    0 <= i < |paths| && ValueAt(body, paths[i]) != ""
    && forall j :: 0 <= j < i ==> ValueAt(body, paths[j]) == ""
  }

  /** The `or` chain over extractors: the first non-empty value, if any. */
  function FirstNonEmpty(body: TaskBody, paths: seq<LocatorPath>): (r: Option<string>)
    ensures r.None? <==> forall i :: 0 <= i < |paths| ==> ValueAt(body, paths[i]) == ""
    ensures r.Some? ==> exists i :: IsFirstNonEmpty(body, paths, i) && ValueAt(body, paths[i]) == r.value
    decreases |paths|
  {
    if paths == [] then None
    else if ValueAt(body, paths[0]) != "" then
      assert IsFirstNonEmpty(body, paths, 0);
      Some(ValueAt(body, paths[0]))
    else
      var r := FirstNonEmpty(body, paths[1..]);
      assert forall i :: 1 <= i < |paths| ==> paths[i] == paths[1..][i - 1];
      if r.Some? then
        var i :| IsFirstNonEmpty(body, paths[1..], i) && ValueAt(body, paths[1..][i]) == r.value;
        assert IsFirstNonEmpty(body, paths, i + 1);
        r
      else r
  }

  /** The result URL of a succeeded reply. */
  function ProbeLocator(body: TaskBody): (u: Option<string>)
    ensures u.Some? ==> u.value != ""
    ensures u.None? <==> forall i :: 0 <= i < |LocatorPaths| ==> ValueAt(body, LocatorPaths[i]) == ""
    ensures ValueAt(body, InContent("video_url")) != "" ==> u == Some(ValueAt(body, InContent("video_url")))
  {
    FirstNonEmpty(body, LocatorPaths)
  }

  /** What one status query tells the loop: stop with this result, or keep polling. */
  datatype Step = Stop(url: Option<string>) | KeepPolling

  /**
   * The status switch. Exceptions and non-200 replies are logged and polling
   * goes on; so does `.get` on a `content` (on success) or `error` (on
   * failure) member that is not an object, which raises.
   */
  function Classify(reply: QueryReply): (step: Step)
    ensures step == KeepPolling <==>
      || reply.Raised?
      || (reply.Answered? && reply.httpStatus != 200)
      || (reply.Answered? && reply.body.status in {Some("queued"), Some("running")})
      || (reply.Answered? && reply.body.status == Some("succeeded") && reply.body.content.NotAnObject?)
      || (reply.Answered? && reply.body.status == Some("failed") && reply.body.error.NotAnObject?)
    ensures step.Stop? && step.url.Some? ==>
      reply.Answered? && reply.body.status == Some("succeeded") && step.url == ProbeLocator(reply.body)
  {
    match reply
    case Raised => KeepPolling
    case Answered(code, body) =>
      if code != 200 then KeepPolling
      else if body.status == Some("succeeded") then
        if body.content.NotAnObject? then KeepPolling else Stop(ProbeLocator(body))
      else if body.status == Some("failed") then
        if body.error.NotAnObject? then KeepPolling else Stop(None)
      else if body.status == Some("queued") || body.status == Some("running") then KeepPolling
      else Stop(None)
  }

  /**
   * A succeeded reply yields the first non-empty of the six locator fields,
   * and a failure when all six are empty: success without a URL is not retried.
   */
  lemma SucceededYieldsLocator(body: TaskBody)
    requires body.status == Some("succeeded") && !body.content.NotAnObject?
    ensures Classify(Answered(200, body)).Stop?
    ensures var u := Classify(Answered(200, body)).url;
      && (u.None? <==> forall i :: 0 <= i < 6 ==> ValueAt(body, LocatorPaths[i]) == "")
      && (u.Some? ==> exists i :: IsFirstNonEmpty(body, LocatorPaths, i) && ValueAt(body, LocatorPaths[i]) == u.value)
  {
  }

  /** Only a succeeded 200 reply stops with a URL, and that URL is non-empty. */
  lemma StopWithUrlOnlyOnSuccess(reply: QueryReply, u: string)
    requires Classify(reply) == Stop(Some(u))
    ensures reply.Answered? && reply.httpStatus == 200 && reply.body.status == Some("succeeded")
    ensures u != "" && ProbeLocator(reply.body) == Some(u)
  {
  }

  /** Any status other than succeeded, failed, queued and running stops with no URL. */
  lemma UnknownStatusStops(body: TaskBody)
    requires body.status !in {Some("succeeded"), Some("failed"), Some("queued"), Some("running")}
    ensures Classify(Answered(200, body)) == Stop(None)
  {
  }

  /** The outcome of the loop; `ScriptExhausted` when it needs more replies than were given. */
  datatype PollResult = Finished(url: Option<string>) | ScriptExhausted

  /** The loop's result and the number of status queries it made. */
  datatype PollRun = PollRun(result: PollResult, queriesMade: nat)

  /** `asyncio.sleep(poll_interval)` in milliseconds; a non-positive interval does not wait. */
  function SleepMs(pollInterval: int): nat {
    if pollInterval <= 0 then 0 else pollInterval * 1000
  }

  /**
   * The loop from `elapsed` ms after the start: while `elapsed` is below the
   * deadline, sleep, query, then stop on a terminal reply or go on.
   */
  function PollFrom(elapsed: int, maxWaitMs: int, sleepMs: nat, queries: seq<Query>): (run: PollRun)
    ensures run.queriesMade <= |queries|
    ensures elapsed >= maxWaitMs ==> run == PollRun(Finished(None), 0)
    ensures run.result == ScriptExhausted ==> run.queriesMade == |queries|
    decreases |queries|
  {
    if elapsed >= maxWaitMs then PollRun(Finished(None), 0)
    else if queries == [] then PollRun(ScriptExhausted, 0)
    else
      match Classify(queries[0].reply)
      case Stop(u) => PollRun(Finished(u), 1)
      case KeepPolling =>
        var rest := PollFrom(elapsed + sleepMs + queries[0].latencyMs, maxWaitMs, sleepMs, queries[1..]);
        PollRun(rest.result, rest.queriesMade + 1)
  }

  /** `_poll_task_status` with the deadline and interval in seconds, as configured. */
  function Poll(maxWaitTime: int, pollInterval: int, queries: seq<Query>): (run: PollRun)
    ensures run.queriesMade <= |queries|
    ensures maxWaitTime <= 0 ==> run == PollRun(Finished(None), 0)
  {
    PollFrom(0, maxWaitTime * 1000, SleepMs(pollInterval), queries)
  }

  /** The time, `n` queries after `elapsed`: each query follows a full sleep. */
  function ElapsedAfter(elapsed: int, sleepMs: nat, queries: seq<Query>, n: nat): int
    requires n <= |queries|
    decreases n
  {
    if n == 0 then elapsed
    else ElapsedAfter(elapsed + sleepMs + queries[0].latencyMs, sleepMs, queries[1..], n - 1)
  }

  /** Queries are spaced by at least one interval: the `n`-th ends no earlier than `n` sleeps in. */
  lemma {:induction false} ElapsedAtLeastSleeps(elapsed: int, sleepMs: nat, queries: seq<Query>, n: nat)
    requires n <= |queries|
    ensures ElapsedAfter(elapsed, sleepMs, queries, n) >= elapsed + n * sleepMs
    decreases n
  {
    if n > 0 {
      ElapsedAtLeastSleeps(elapsed + sleepMs + queries[0].latencyMs, sleepMs, queries[1..], n - 1);
    }
  }

  /**
   * What the loop did: every query it made was begun before the deadline,
   * all but the last said "keep polling", and the result is the last
   * query's verdict, a timeout, or the script running out.
   */
  lemma {:induction false} PollFromOutcome(elapsed: int, maxWaitMs: int, sleepMs: nat, queries: seq<Query>)
    ensures var run := PollFrom(elapsed, maxWaitMs, sleepMs, queries); var n := run.queriesMade;
      && n <= |queries|
      && (forall j :: 0 <= j < n ==> ElapsedAfter(elapsed, sleepMs, queries, j) < maxWaitMs)
      && (forall j :: 0 <= j < n - 1 ==> Classify(queries[j].reply) == KeepPolling)
      && (run.result == ScriptExhausted ==>
            n == |queries| && ElapsedAfter(elapsed, sleepMs, queries, n) < maxWaitMs
            && forall j :: 0 <= j < n ==> Classify(queries[j].reply) == KeepPolling)
      && (forall u :: run.result == Finished(Some(u)) ==>
            n > 0 && Classify(queries[n - 1].reply) == Stop(Some(u)))
      && (run.result == Finished(None) ==>
            (n > 0 && Classify(queries[n - 1].reply) == Stop(None))
            || ElapsedAfter(elapsed, sleepMs, queries, n) >= maxWaitMs)
    decreases |queries|
  {
    if elapsed < maxWaitMs && queries != [] && Classify(queries[0].reply) == KeepPolling {
      var next := elapsed + sleepMs + queries[0].latencyMs;
      PollFromOutcome(next, maxWaitMs, sleepMs, queries[1..]);
      var rest := PollFrom(next, maxWaitMs, sleepMs, queries[1..]);
      forall j | 1 <= j <= rest.queriesMade + 1 && j <= |queries|
        ensures ElapsedAfter(elapsed, sleepMs, queries, j) == ElapsedAfter(next, sleepMs, queries[1..], j - 1)
      {
      }
      forall j | 1 <= j < |queries| ensures queries[j] == queries[1..][j - 1] {
      }
    }
  }

  /**
   * A script of keep-polling replies ending in a terminal one, all begun
   * before the deadline, ends with that reply's verdict after exactly that
   * many queries.
   */
  lemma {:induction false} PollStopsAtFirstTerminal(elapsed: int, maxWaitMs: int, sleepMs: nat, queries: seq<Query>, n: nat)
    requires n < |queries|
    requires forall j :: 0 <= j < n ==> Classify(queries[j].reply) == KeepPolling
    requires Classify(queries[n].reply).Stop?
    requires ElapsedAfter(elapsed, sleepMs, queries, n) < maxWaitMs
    ensures PollFrom(elapsed, maxWaitMs, sleepMs, queries)
      == PollRun(Finished(Classify(queries[n].reply).url), n + 1)
    decreases n
  {
    ElapsedAtLeastSleeps(elapsed, sleepMs, queries, n);
    if n > 0 {
      forall j | 0 <= j < n - 1 ensures Classify(queries[1..][j].reply) == KeepPolling {
        assert queries[1..][j] == queries[j + 1];
      }
      assert queries[1..][n - 1] == queries[n];
      PollStopsAtFirstTerminal(elapsed + sleepMs + queries[0].latencyMs, maxWaitMs, sleepMs, queries[1..], n - 1);
      assert n * sleepMs >= 0;
    }
  }

  /** `_poll_task_status`: sleep first, query, then stop on a verdict or at the deadline. */
  method PollTaskStatus(maxWaitTime: int, pollInterval: int, queries: seq<Query>) returns (result: PollResult, made: nat)
    ensures PollRun(result, made) == Poll(maxWaitTime, pollInterval, queries)
  {
    var maxWaitMs := maxWaitTime * 1000;
    var sleepMs := SleepMs(pollInterval);
    var elapsed := 0;
    made := 0;
    while elapsed < maxWaitMs
      invariant made <= |queries|
      invariant Poll(maxWaitTime, pollInterval, queries).result
        == PollFrom(elapsed, maxWaitMs, sleepMs, queries[made..]).result
      invariant Poll(maxWaitTime, pollInterval, queries).queriesMade
        == made + PollFrom(elapsed, maxWaitMs, sleepMs, queries[made..]).queriesMade
      decreases |queries| - made
    {
      if made == |queries| {
        return ScriptExhausted, made;
      }
      elapsed := elapsed + sleepMs;
      var query := queries[made];
      assert queries[made..][1..] == queries[made + 1..];
      made := made + 1;
      elapsed := elapsed + query.latencyMs;
      var step := Classify(query.reply);
      if step.Stop? {
        return Finished(step.url), made;
      }
      if elapsed >= maxWaitMs {
        return Finished(None), made;
      }
    }
    return Finished(None), made;
  }

  function ReplyWith(status: string, content: ObjectMember): Query {
    Query(Answered(200, TaskBody(Some(status), content, Absent, map[])), 0)
  }

  /** queued, running, then succeeded with `content.video_url`: that URL, after three queries. */
  lemma QueuedRunningSucceeded(u: string)
    requires u != ""
    ensures Poll(600, 30, [ReplyWith("queued", Absent), ReplyWith("running", Absent),
                           ReplyWith("succeeded", Object(map["video_url" := u]))])
      == PollRun(Finished(Some(u)), 3)
  {
    var qs := [ReplyWith("queued", Absent), ReplyWith("running", Absent),
               ReplyWith("succeeded", Object(map["video_url" := u]))];
    var body := TaskBody(Some("succeeded"), Object(map["video_url" := u]), Absent, map[]);
    assert ValueAt(body, LocatorPaths[0]) == u;
    assert ProbeLocator(body) == Some(u);
    assert Classify(qs[2].reply) == Stop(Some(u));
    assert ElapsedAfter(0, 30000, qs, 2) == 60000 by {
      assert qs[1..][1..] == qs[2..];
    }
    PollStopsAtFirstTerminal(0, 600000, 30000, qs, 2);
  }

  /**
   * A deadline shorter than the interval still allows one query after the
   * first sleep; the deadline is checked only after it.
   */
  lemma ShortDeadlineQueriesOnce(first: Query, rest: seq<Query>)
    ensures Poll(5, 30, [first] + rest).queriesMade == 1
    ensures Poll(5, 30, [first] + rest).result
      == Finished(match Classify(first.reply) case Stop(u) => u case KeepPolling => None)
  {
    var qs := [first] + rest;
    assert qs[1..] == rest;
    var after := PollFrom(30000 + first.latencyMs, 5000, 30000, rest);
    assert after == PollRun(Finished(None), 0);
    assert Poll(5, 30, qs) == PollFrom(0, 5000, 30000, qs);
  }
}
