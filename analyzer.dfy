/**
 * The analysis side of `LogAnalyzer` (analyzer.py): the retry loop around
 * the language-model call of `analyze_with_ai`, the cache in front of it,
 * and the record shaping of `process_logs`.
 *
 * The HTTP call is a parameter: `api(attempt)` is what the call made on
 * that attempt (zero-based) ends in. The MD5 digest of a log text is the
 * parameter `hash`. Sleeps are not performed; the methods return the
 * sequence of sleeps, in seconds, that the loop asks for.
 */
module Analyzer {
  import opened Json
  import opened Seqs
  import opened AnalysisCache

  /** How one attempt's HTTP call ends. */
  datatype Response =
    | RateLimited             // status 429
    | Answer(result: Analysis) // 2xx with a JSON object in the first choice
    | Raised(error: string)   // any exception: connection, non-2xx status, unparsable content

  /** How the attempts end: with an analysis, or with the message of the error object. */
  datatype Outcome = Succeeded(result: Analysis) | Failed(message: string)

  /** The outcome, the sleeps requested between attempts, and the number of attempts made. */
  datatype RetryRun = RetryRun(outcome: Outcome, waits: seq<nat>, attempts: nat)

  /** `max_retries`'s default. */
  const DefaultMaxRetries: int := 3

  const MaxRetriesMessage: string := "Max retries exceeded"

  /** The sleep after a 429 on the given zero-based attempt: five seconds more each time, at most 30. */
  function Backoff(attempt: nat): (w: nat)
    ensures 5 <= w <= 30
    ensures w == 30 || w == 5 * (attempt + 1)
    ensures attempt < 6 ==> w == 5 * (attempt + 1)
  {
    if 5 * (attempt + 1) < 30 then 5 * (attempt + 1) else 30
  }

  /** The sleep the loop asks for after a failed attempt that is not the final one. */
  function SleepAfter(r: Response, attempt: nat): nat
  {
    if r.RateLimited? then Backoff(attempt) else 1
  }

  /** The attempt `i` is the last one the budget allows. */
  predicate LastAttempt(i: int, maxRetries: int)
  {
    i == maxRetries - 1
  }

  /**
   * The attempts from `attempt` on, out of `maxRetries`. An answer ends the
   * loop with success; an exception on the last attempt ends it with that
   * exception's message; running out of attempts otherwise ends it with
   * "Max retries exceeded".
   */
  function Retry(api: nat -> Response, attempt: nat, maxRetries: int): RetryRun
    decreases maxRetries - attempt
  {
    if attempt >= maxRetries then RetryRun(Failed(MaxRetriesMessage), [], 0)
    else
      match api(attempt)
      case Answer(result) => RetryRun(Succeeded(result), [], 1)
      case Raised(error) =>
        if LastAttempt(attempt, maxRetries) then RetryRun(Failed(error), [], 1)
        else
          var rest := Retry(api, attempt + 1, maxRetries);
          RetryRun(rest.outcome, [1] + rest.waits, rest.attempts + 1)
      case RateLimited =>
        var rest := Retry(api, attempt + 1, maxRetries);
        RetryRun(rest.outcome, [Backoff(attempt)] + rest.waits, rest.attempts + 1)
  }

  /**
   * The loop stops after the first answer, or after the last attempt the
   * budget allows; every attempt before the final one failed.
   */
  lemma {:induction false} RetryAttempts(api: nat -> Response, attempt: nat, maxRetries: int)
    ensures var run := Retry(api, attempt, maxRetries);
      && (attempt >= maxRetries ==> run == RetryRun(Failed(MaxRetriesMessage), [], 0))
      && (attempt < maxRetries ==> 1 <= run.attempts <= maxRetries - attempt)
      && (forall i :: attempt <= i < attempt + run.attempts - 1 ==> !api(i).Answer?)
      && (run.outcome.Failed? && attempt < maxRetries ==> attempt + run.attempts == maxRetries)
    decreases maxRetries - attempt
  {
    if attempt < maxRetries && !api(attempt).Answer? && !LastAttempt(attempt, maxRetries) {
      RetryAttempts(api, attempt + 1, maxRetries);
    }
  }

  /**
   * Success exactly when some attempt within the budget answers, with the
   * first such answer; a failure reports the last attempt's exception, or
   * "Max retries exceeded" when the last attempt was rate limited.
   */
  lemma {:induction false} RetryOutcome(api: nat -> Response, attempt: nat, maxRetries: int)
    ensures var run := Retry(api, attempt, maxRetries);
      && (run.outcome.Succeeded? <==> exists i :: attempt <= i < maxRetries && api(i).Answer?)
      && (run.outcome.Succeeded? ==> api(attempt + run.attempts - 1) == Answer(run.outcome.result))
      && (run.outcome.Failed? ==>
            run.outcome.message == if attempt < maxRetries && api(maxRetries - 1).Raised?
                                   then api(maxRetries - 1).error else MaxRetriesMessage)
    decreases maxRetries - attempt
  {
    if attempt < maxRetries && !api(attempt).Answer? && !LastAttempt(attempt, maxRetries) {
      RetryOutcome(api, attempt + 1, maxRetries);
      if exists i :: attempt <= i < maxRetries && api(i).Answer? {
        var i :| attempt <= i < maxRetries && api(i).Answer?;
        assert attempt + 1 <= i;
      }
    }
  }

  /** A failed attempt that is not the last one sleeps and hands over to the next attempt. */
  lemma RetryStep(api: nat -> Response, attempt: nat, maxRetries: int)
    requires attempt < maxRetries && !api(attempt).Answer? && !LastAttempt(attempt, maxRetries)
    ensures var rest := Retry(api, attempt + 1, maxRetries);
      Retry(api, attempt, maxRetries) ==
        RetryRun(rest.outcome, [SleepAfter(api(attempt), attempt)] + rest.waits, rest.attempts + 1)
  {
  }

  /** A sleep follows every failed attempt except a final exception. */
  lemma {:induction false} RetryWaitCount(api: nat -> Response, attempt: nat, maxRetries: int)
    ensures var run := Retry(api, attempt, maxRetries);
      |run.waits| == (if run.outcome.Succeeded? || (run.attempts > 0 && api(attempt + run.attempts - 1).Raised?)
                      then run.attempts - 1 else run.attempts)
    decreases maxRetries - attempt
  {
    if attempt < maxRetries && !api(attempt).Answer? && !LastAttempt(attempt, maxRetries) {
      RetryWaitCount(api, attempt + 1, maxRetries);
      RetryStep(api, attempt, maxRetries);
      var run, rest := Retry(api, attempt, maxRetries), Retry(api, attempt + 1, maxRetries);
      assert attempt + run.attempts - 1 == attempt + 1 + rest.attempts - 1;
    }
  }

  /** The sleep after attempt `k` is the back-off after a 429 and one second after any other exception. */
  lemma {:induction false} RetryWaitValues(api: nat -> Response, attempt: nat, maxRetries: int)
    ensures var run := Retry(api, attempt, maxRetries);
      forall k :: 0 <= k < |run.waits| ==> run.waits[k] == SleepAfter(api(attempt + k), attempt + k)
    decreases maxRetries - attempt
  {
    if attempt < maxRetries && !api(attempt).Answer? && !LastAttempt(attempt, maxRetries) {
      RetryWaitValues(api, attempt + 1, maxRetries);
      RetryStep(api, attempt, maxRetries);
      var run, rest := Retry(api, attempt, maxRetries), Retry(api, attempt + 1, maxRetries);
      forall k | 0 < k < |run.waits|
        ensures run.waits[k] == SleepAfter(api(attempt + k), attempt + k)
      {
        assert run.waits[k] == rest.waits[k - 1];
      }
    }
  }

  /** The object `analyze_with_ai` returns for a failure: `{"error": message}`. */
  function ErrorAnalysis(message: string): (a: Analysis)
    ensures "error" in a && a["error"] == Str(message)
  {
    map["error" := Str(message)]
  }

  function AnalysisOf(outcome: Outcome): Analysis
  {
    match outcome
    case Succeeded(result) => result
    case Failed(message) => ErrorAnalysis(message)
  }

  /** The cache key of a log text whose MD5 hex digest is `digest`. */
  function CacheKey(digest: string): string
  {
    "log_analysis_" + digest
  }

  /** Python truthiness of a dict: a cached `{}` counts as a miss. */
  predicate NonEmpty(a: Analysis)
  {
    |a| > 0
  }

  /** What one `analyze_with_ai` call returns, sleeps, and leaves in the cache. */
  datatype AnalyzeRun = AnalyzeRun(analysis: Analysis, waits: seq<nat>, attempts: nat, cache: Cache)

  /** `analyze_with_ai` for the cache key `key`, at moment `now`. */
  function Analyze(cache: Cache, key: string, api: nat -> Response, now: Time, maxRetries: int): AnalyzeRun
  {
    var look := Lookup(cache, key, now);
    if look.hit.Some? && NonEmpty(look.hit.value) then
      AnalyzeRun(look.hit.value, [], 0, look.cache)
    else
      var run := Retry(api, 0, maxRetries);
      match run.outcome
      case Succeeded(result) => AnalyzeRun(result, run.waits, run.attempts, Store(look.cache, key, result, now))
      case Failed(message) => AnalyzeRun(ErrorAnalysis(message), run.waits, run.attempts, look.cache)
  }

  /**
   * A non-empty fresh cached analysis is returned without calling the model;
   * otherwise the retry loop decides, and only its successful answer is
   * stored, under `key` and stamped `now`. No other key changes.
   */
  lemma AnalyzeSpec(cache: Cache, key: string, api: nat -> Response, now: Time, maxRetries: int)
    ensures var r, hit := Analyze(cache, key, api, now, maxRetries), Lookup(cache, key, now).hit;
      && (hit.Some? && NonEmpty(hit.value) ==> r.attempts == 0 && r.waits == [] && r.analysis == hit.value)
      && (!(hit.Some? && NonEmpty(hit.value)) ==>
            r.attempts == Retry(api, 0, maxRetries).attempts && r.analysis == AnalysisOf(Retry(api, 0, maxRetries).outcome))
      && (forall k :: k != key ==> (k in r.cache <==> k in cache) && (k in cache ==> r.cache[k] == cache[k]))
      && (key in r.cache && (key !in cache || r.cache[key] != cache[key]) ==>
            r.cache[key] == Entry(r.analysis, now) && r.attempts > 0 && api(r.attempts - 1) == Answer(r.analysis))
      && (r.attempts > 0 && !api(r.attempts - 1).Answer? ==> r.cache == Lookup(cache, key, now).cache)
  {
    RetryOutcome(api, 0, maxRetries);
    RetryAttempts(api, 0, maxRetries);
  }

  /** On a miss, `Analyze` is the retry loop, with its answer stored on success. */
  lemma AnalyzeMiss(cache: Cache, key: string, api: nat -> Response, now: Time, maxRetries: int)
    requires var hit := Lookup(cache, key, now).hit; !(hit.Some? && NonEmpty(hit.value))
    ensures var run, look := Retry(api, 0, maxRetries), Lookup(cache, key, now);
      Analyze(cache, key, api, now, maxRetries) ==
        AnalyzeRun(AnalysisOf(run.outcome), run.waits, run.attempts,
                   if run.outcome.Succeeded? then Store(look.cache, key, run.outcome.result, now) else look.cache)
  {
  }

  // ---------------------------------------------------------------------
  // process_logs

  /** One record of `process_logs`'s result. Absent fields of the log are `Null`. */
  datatype Record = Record(id: Value, raw: string, analysis: Analysis, source: Value, timestamp: Value, severity: Value)

  /** `log.get("message", {})`, or `None` where the following `.get` would raise because it is not an object. */
  function MessageOf(log: Dict): Option<Dict>
  {
    if "message" !in log then Some(map[])
    else match log["message"]
      case Obj(fields) => Some(fields)
      case _ => None
  }

  /** `msg.get("message", "")`, or `None` where hashing it would raise because it is not a string. */
  function TextOf(msg: Dict): Option<string>
  {
    if "message" !in msg then Some("")
    else match msg["message"]
      case Str(s) => Some(s)
      case _ => None
  }

  /** The log text, or `None` when processing the log raises. */
  function LogText(log: Dict): Option<string>
  {
    match MessageOf(log)
    case None => None
    case Some(msg) => TextOf(msg)
  }

  /** The record built for a log whose analysis has no "error" key. */
  function Shape(msg: Dict, text: string, analysis: Analysis): (r: Record)
    ensures r.raw == text && r.analysis == analysis
    ensures r.id == Get(msg, "_id", Null) && r.source == Get(msg, "source", Null) && r.timestamp == Get(msg, "timestamp", Null)
    ensures "severity" !in analysis ==> r.severity == Str("medium")
    ensures "severity" in analysis ==> r.severity == analysis["severity"]
  {
    Record(Get(msg, "_id", Null), text, analysis, Get(msg, "source", Null), Get(msg, "timestamp", Null),
           Get(analysis, "severity", Str("medium")))
  }

  /** The model calls made while analysing log `i`, by attempt. */
  function CallsFor(api: (nat, nat) -> Response, i: nat): nat -> Response
  {
    (k: nat) => api(i, k)
  }

  /**
   * `analyze_with_ai` as `process_logs` calls it for log number `i`: with the
   * default budget of three attempts, the model calls `api(i, _)`, at `now`.
   */
  function ModelAnalysis(api: (nat, nat) -> Response, now: Time): (Cache, string, nat) -> AnalyzeRun
  {
    (c: Cache, key: string, i: nat) => Analyze(c, key, CallsFor(api, i), now, DefaultMaxRetries)
  }

  /** The state of `process_logs` after some logs: records so far, the cache, the sleeps, and whether it raised. */
  datatype Progress = Progress(records: seq<Record>, cache: Cache, waits: seq<nat>, raised: bool)

  /**
   * One pass of the loop body of `process_logs` for log number `i`: a log
   * whose text cannot be read raises, otherwise its analysis is fetched and
   * a record is appended unless the analysis has an "error" key.
   */
  function Step(p: Progress, log: Dict, i: nat, hash: string -> string, analyze: (Cache, string, nat) -> AnalyzeRun): Progress
  {
    match LogText(log)
    case None => Progress(p.records, p.cache, p.waits, true)
    case Some(text) =>
      var r := analyze(p.cache, CacheKey(hash(text)), i);
      var records := if "error" in r.analysis then p.records else p.records + [Shape(MessageOf(log).value, text, r.analysis)];
      Progress(records, r.cache, p.waits + r.waits, false)
  }

  /**
   * `process_logs` after the first `n` of the fetched `logs`, where
   * `analyze(cache, key, i)` analyses log `i`. Once a log raises, the rest
   * are not looked at.
   */
  function Processed(logs: seq<Dict>, n: nat, cache: Cache, hash: string -> string,
                     analyze: (Cache, string, nat) -> AnalyzeRun): Progress
    requires n <= |logs|
    decreases n
  {
    if n == 0 then Progress([], cache, [], false)
    else
      var p := Processed(logs, n - 1, cache, hash, analyze);
      if p.raised then p else Step(p, logs[n - 1], n - 1, hash, analyze)
  }

  /** A step over a readable log, given what the analysis returned. */
  lemma StepOfRun(p: Progress, log: Dict, i: nat, hash: string -> string,
                  analyze: (Cache, string, nat) -> AnalyzeRun, run: AnalyzeRun)
    requires LogText(log).Some?
    requires var r := analyze(p.cache, CacheKey(hash(LogText(log).value)), i);
      r.analysis == run.analysis && r.waits == run.waits && r.cache == run.cache
    ensures Step(p, log, i, hash, analyze) ==
              Progress(if "error" in run.analysis then p.records
                       else p.records + [Shape(MessageOf(log).value, LogText(log).value, run.analysis)],
                       run.cache, p.waits + run.waits, false)
  {
  }

  lemma ProcessedNext(logs: seq<Dict>, n: nat, cache: Cache, hash: string -> string,
                      analyze: (Cache, string, nat) -> AnalyzeRun)
    requires n < |logs|
    ensures var p := Processed(logs, n, cache, hash, analyze);
      Processed(logs, n + 1, cache, hash, analyze) == if p.raised then p else Step(p, logs[n], n, hash, analyze)
  {
  }

  /** Processing raises exactly when one of the logs has a non-object message or a non-string text. */
  lemma {:induction false} ProcessedRaises(logs: seq<Dict>, n: nat, cache: Cache, hash: string -> string,
                                           analyze: (Cache, string, nat) -> AnalyzeRun)
    requires n <= |logs|
    ensures Processed(logs, n, cache, hash, analyze).raised <==> exists i :: 0 <= i < n && LogText(logs[i]).None?
    decreases n
  {
    if n > 0 {
      ProcessedRaises(logs, n - 1, cache, hash, analyze);
      ProcessedNext(logs, n - 1, cache, hash, analyze);
      StepRaises(Processed(logs, n - 1, cache, hash, analyze), logs[n - 1], n - 1, hash, analyze);
      if LogText(logs[n - 1]).None? {
        assert 0 <= n - 1 < n && LogText(logs[n - 1]).None?;
      }
    }
  }

  lemma StepRaises(p: Progress, log: Dict, i: nat, hash: string -> string, analyze: (Cache, string, nat) -> AnalyzeRun)
    ensures Step(p, log, i, hash, analyze).raised <==> LogText(log).None?
  {
  }

  /** The record was built from `log`: its text, its id, source and timestamp, an analysis without "error", and the severity rule. */
  predicate RecordOf(log: Dict, r: Record)
  {
    && LogText(log) == Some(r.raw)
    && MessageOf(log).Some?
    && r.id == Get(MessageOf(log).value, "_id", Null)
    && r.source == Get(MessageOf(log).value, "source", Null)
    && r.timestamp == Get(MessageOf(log).value, "timestamp", Null)
    && "error" !in r.analysis
    && r.severity == Get(r.analysis, "severity", Str("medium"))
  }

  lemma StepRecords(p: Progress, log: Dict, i: nat, hash: string -> string, analyze: (Cache, string, nat) -> AnalyzeRun)
    ensures var q := Step(p, log, i, hash, analyze);
      q.records == p.records || exists r :: q.records == p.records + [r] && RecordOf(log, r)
  {
    var q := Step(p, log, i, hash, analyze);
    if q.records != p.records {
      var text := LogText(log).value;
      assert q.records == p.records + [q.records[|p.records|]];
    }
  }

  /**
   * Each log yields at most one record, every record comes from one of the
   * logs with its fields, carries no error object, and has the analysis's
   * severity or "medium".
   */
  lemma {:induction false} ProcessedRecords(logs: seq<Dict>, n: nat, cache: Cache, hash: string -> string,
                                            analyze: (Cache, string, nat) -> AnalyzeRun)
    requires n <= |logs|
    ensures var p := Processed(logs, n, cache, hash, analyze);
      && |p.records| <= n
      && forall r :: r in p.records ==> exists i :: 0 <= i < n && RecordOf(logs[i], r)
    decreases n
  {
    if n > 0 {
      ProcessedRecords(logs, n - 1, cache, hash, analyze);
      var p := Processed(logs, n - 1, cache, hash, analyze);
      if !p.raised {
        StepRecords(p, logs[n - 1], n - 1, hash, analyze);
        RecordsGrow(logs, n, p.records, Step(p, logs[n - 1], n - 1, hash, analyze).records);
      }
    }
  }

  /** Appending at most one record of log `n - 1` keeps every record traced to one of the first `n` logs. */
  lemma RecordsGrow(logs: seq<Dict>, n: nat, before: seq<Record>, after: seq<Record>)
    requires 0 < n <= |logs|
    requires forall r :: r in before ==> exists i :: 0 <= i < n - 1 && RecordOf(logs[i], r)
    requires after == before || exists r :: after == before + [r] && RecordOf(logs[n - 1], r)
    ensures forall r :: r in after ==> exists i :: 0 <= i < n && RecordOf(logs[i], r)
  {
    forall r | r in after
      ensures exists i :: 0 <= i < n && RecordOf(logs[i], r)
    {
      if r in before {
        var i :| 0 <= i < n - 1 && RecordOf(logs[i], r);
        assert 0 <= i < n && RecordOf(logs[i], r);
      } else {
        assert RecordOf(logs[n - 1], r);
      }
    }
  }

  /** The analysis `process_logs` obtains for log `i`, starting from the cache the earlier logs left. */
  function RunOf(logs: seq<Dict>, i: nat, cache: Cache, hash: string -> string,
                 analyze: (Cache, string, nat) -> AnalyzeRun): AnalyzeRun
    requires i < |logs| && LogText(logs[i]).Some?
  {
    analyze(Processed(logs, i, cache, hash, analyze).cache, CacheKey(hash(LogText(logs[i]).value)), i)
  }

  /**
   * When no log raises, log `i` yields its record exactly when its analysis
   * has no "error" key: the record is then appended after those of the
   * earlier logs and stays at that position in the final result; otherwise
   * the log adds nothing.
   */
  lemma ProcessedYields(logs: seq<Dict>, n: nat, cache: Cache, hash: string -> string,
                        analyze: (Cache, string, nat) -> AnalyzeRun, i: nat)
    requires i < n <= |logs|
    requires forall j :: 0 <= j < n ==> LogText(logs[j]).Some?
    ensures var run := RunOf(logs, i, cache, hash, analyze);
      var before := Processed(logs, i, cache, hash, analyze).records;
      var after := Processed(logs, i + 1, cache, hash, analyze).records;
      var all := Processed(logs, n, cache, hash, analyze).records;
      var record := Shape(MessageOf(logs[i]).value, LogText(logs[i]).value, run.analysis);
      && ("error" in run.analysis ==> after == before)
      && ("error" !in run.analysis ==> after == before + [record] && |before| < |all| && all[|before|] == record)
  {
    ProcessedRaises(logs, i, cache, hash, analyze);
    ProcessedNext(logs, i, cache, hash, analyze);
    ProcessedInOrder(logs, i + 1, n, cache, hash, analyze);
    var before := Processed(logs, i, cache, hash, analyze).records;
    var after := Processed(logs, i + 1, cache, hash, analyze).records;
    var all := Processed(logs, n, cache, hash, analyze).records;
    if "error" !in RunOf(logs, i, cache, hash, analyze).analysis {
      assert all[|before|] == all[..|after|][|before|];
    }
  }

  /** The number of the first `n` logs whose analysis has an "error" key. */
  ghost function Dropped(logs: seq<Dict>, n: nat, cache: Cache, hash: string -> string,
                         analyze: (Cache, string, nat) -> AnalyzeRun): nat
    requires n <= |logs|
    requires forall j :: 0 <= j < n ==> LogText(logs[j]).Some?
    decreases n
  {
    if n == 0 then 0
    else Dropped(logs, n - 1, cache, hash, analyze) + if "error" in RunOf(logs, n - 1, cache, hash, analyze).analysis then 1 else 0
  }

  /** When no log raises, every log yields a record except those whose analysis failed. */
  lemma {:induction false} ProcessedCount(logs: seq<Dict>, n: nat, cache: Cache, hash: string -> string,
                                          analyze: (Cache, string, nat) -> AnalyzeRun)
    requires n <= |logs|
    requires forall j :: 0 <= j < n ==> LogText(logs[j]).Some?
    ensures |Processed(logs, n, cache, hash, analyze).records| + Dropped(logs, n, cache, hash, analyze) == n
    decreases n
  {
    if n > 0 {
      ProcessedCount(logs, n - 1, cache, hash, analyze);
      ProcessedRaises(logs, n - 1, cache, hash, analyze);
      StepCount(logs, n, cache, hash, analyze);
    }
  }

  lemma StepCount(logs: seq<Dict>, n: nat, cache: Cache, hash: string -> string,
                  analyze: (Cache, string, nat) -> AnalyzeRun)
    requires 0 < n <= |logs| && LogText(logs[n - 1]).Some?
    requires !Processed(logs, n - 1, cache, hash, analyze).raised
    ensures |Processed(logs, n, cache, hash, analyze).records| ==
              |Processed(logs, n - 1, cache, hash, analyze).records|
              + if "error" in RunOf(logs, n - 1, cache, hash, analyze).analysis then 0 else 1
  {
    ProcessedNext(logs, n - 1, cache, hash, analyze);
  }

  /**
   * Records keep the order of their logs: the records of the first `m` logs
   * are a prefix of those of the first `n`, and every record after that
   * prefix comes from one of the logs `m` to `n - 1`.
   */
  lemma {:induction false} ProcessedInOrder(logs: seq<Dict>, m: nat, n: nat, cache: Cache, hash: string -> string,
                                            analyze: (Cache, string, nat) -> AnalyzeRun)
    requires m <= n <= |logs|
    ensures var p, q := Processed(logs, m, cache, hash, analyze), Processed(logs, n, cache, hash, analyze);
      && |p.records| <= |q.records| && q.records[..|p.records|] == p.records
      && forall r :: r in q.records[|p.records|..] ==> exists i :: m <= i < n && RecordOf(logs[i], r)
    decreases n
  {
    if m < n {
      ProcessedInOrder(logs, m, n - 1, cache, hash, analyze);
      RecordsNext(logs, n, cache, hash, analyze);
      SuffixGrow(logs, m, n, Processed(logs, m, cache, hash, analyze).records,
                 Processed(logs, n - 1, cache, hash, analyze).records,
                 Processed(logs, n, cache, hash, analyze).records);
    }
  }

  /** Log `n - 1` adds at most one record, and that record is built from it. */
  lemma RecordsNext(logs: seq<Dict>, n: nat, cache: Cache, hash: string -> string,
                    analyze: (Cache, string, nat) -> AnalyzeRun)
    requires 0 < n <= |logs|
    ensures var before, after := Processed(logs, n - 1, cache, hash, analyze).records,
                                 Processed(logs, n, cache, hash, analyze).records;
      after == before || exists r :: after == before + [r] && RecordOf(logs[n - 1], r)
  {
    var mid := Processed(logs, n - 1, cache, hash, analyze);
    if !mid.raised {
      StepRecords(mid, logs[n - 1], n - 1, hash, analyze);
    }
  }

  /** Appending at most one record of log `n - 1` keeps the prefix and traces the rest to logs `m` to `n - 1`. */
  lemma SuffixGrow(logs: seq<Dict>, m: nat, n: nat, pre: seq<Record>, before: seq<Record>, after: seq<Record>)
    requires m < n <= |logs|
    requires |pre| <= |before| && before[..|pre|] == pre
    requires forall r :: r in before[|pre|..] ==> exists i :: m <= i < n - 1 && RecordOf(logs[i], r)
    requires after == before || exists r :: after == before + [r] && RecordOf(logs[n - 1], r)
    ensures |pre| <= |after| && after[..|pre|] == pre
    ensures forall r :: r in after[|pre|..] ==> exists i :: m <= i < n && RecordOf(logs[i], r)
  {
    if after == before {
      forall x | x in after[|pre|..]
        ensures exists i :: m <= i < n && RecordOf(logs[i], x)
      {
        var i :| m <= i < n - 1 && RecordOf(logs[i], x);
        assert m <= i < n && RecordOf(logs[i], x);
      }
    } else {
      var r :| after == before + [r] && RecordOf(logs[n - 1], r);
      assert after[..|pre|] == before[..|pre|];
      assert after[|pre|..] == before[|pre|..] + [r];
      forall x | x in after[|pre|..]
        ensures exists i :: m <= i < n && RecordOf(logs[i], x)
      {
        if x in before[|pre|..] {
          var i :| m <= i < n - 1 && RecordOf(logs[i], x);
          assert m <= i < n && RecordOf(logs[i], x);
        } else {
          assert x == r;
          assert m <= n - 1 < n && RecordOf(logs[n - 1], x);
        }
      }
    }
  }

  /**
   * An analysis without an "error" key is in the cache under its key and
   * fresh at `now`; a key that was fresh stays present and fresh.
   */
  lemma AnalyzeKeepsFresh(cache: Cache, key: string, api: nat -> Response, now: Time, maxRetries: int)
    ensures var r := Analyze(cache, key, api, now, maxRetries);
      && ("error" !in r.analysis ==> key in r.cache && r.cache[key].analysis == r.analysis && !Stale(r.cache[key], now))
      && (key in cache && !Stale(cache[key], now) ==> key in r.cache && !Stale(r.cache[key], now))
  {
  }

  /**
   * What `process_logs` relies on from `analyze_with_ai` for its cache: an
   * analysis without an "error" key is left fresh under its key, and entries
   * that were fresh stay fresh.
   */
  ghost predicate KeepsFresh(analyze: (Cache, string, nat) -> AnalyzeRun, now: Time)
  {
    forall c: Cache, key: string, i: nat ::
      && ("error" !in analyze(c, key, i).analysis ==>
            key in analyze(c, key, i).cache && !Stale(analyze(c, key, i).cache[key], now))
      && (forall k :: k in c && !Stale(c[k], now) ==> k in analyze(c, key, i).cache && !Stale(analyze(c, key, i).cache[k], now))
  }

  lemma ModelAnalysisApply(api: (nat, nat) -> Response, now: Time, c: Cache, key: string, i: nat)
    ensures ModelAnalysis(api, now)(c, key, i) == Analyze(c, key, CallsFor(api, i), now, DefaultMaxRetries)
  {
  }

  /** The analyzer `process_logs` uses keeps its cache entries fresh. */
  lemma ModelKeepsFresh(api: (nat, nat) -> Response, now: Time)
    ensures KeepsFresh(ModelAnalysis(api, now), now)
  {
    forall c: Cache, key: string, i: nat
      ensures var r := ModelAnalysis(api, now)(c, key, i);
        && ("error" !in r.analysis ==> key in r.cache && !Stale(r.cache[key], now))
        && (forall k :: k in c && !Stale(c[k], now) ==> k in r.cache && !Stale(r.cache[k], now))
    {
      ModelAnalysisApply(api, now, c, key, i);
      AnalyzeSpec(c, key, CallsFor(api, i), now, DefaultMaxRetries);
      AnalyzeKeepsFresh(c, key, CallsFor(api, i), now, DefaultMaxRetries);
    }
  }

  /** Every record's key is in the cache and fresh at `now`. */
  predicate AllCached(records: seq<Record>, cache: Cache, hash: string -> string, now: Time)
  {
    forall r :: r in records ==> CacheKey(hash(r.raw)) in cache && !Stale(cache[CacheKey(hash(r.raw))], now)
  }

  lemma StepCached(p: Progress, log: Dict, i: nat, hash: string -> string, analyze: (Cache, string, nat) -> AnalyzeRun, now: Time)
    requires KeepsFresh(analyze, now)
    requires AllCached(p.records, p.cache, hash, now)
    ensures var q := Step(p, log, i, hash, analyze);
      AllCached(q.records, q.cache, hash, now)
  {
    if LogText(log).Some? {
      var key := CacheKey(hash(LogText(log).value));
      var r := analyze(p.cache, key, i);
      assert forall k :: k in p.cache && !Stale(p.cache[k], now) ==> k in r.cache && !Stale(r.cache[k], now);
    }
  }

  /**
   * With an analyzer that keeps fresh entries fresh, every record's
   * analysis key is in the cache afterwards, with an entry that is fresh at
   * the moment of the run. The entry need not hold that record's analysis:
   * a later log with the same text may have stored another one under the key.
   */
  lemma {:induction false} ProcessedCached(logs: seq<Dict>, n: nat, cache: Cache, hash: string -> string,
                                           analyze: (Cache, string, nat) -> AnalyzeRun, now: Time)
    requires n <= |logs|
    requires KeepsFresh(analyze, now)
    ensures var p := Processed(logs, n, cache, hash, analyze);
      AllCached(p.records, p.cache, hash, now)
    decreases n
  {
    if n > 0 {
      ProcessedCached(logs, n - 1, cache, hash, analyze, now);
      var p := Processed(logs, n - 1, cache, hash, analyze);
      if !p.raised {
        StepCached(p, logs[n - 1], n - 1, hash, analyze, now);
      }
    }
  }

  /**
   * The analyzer object: its analysis cache is the state `process_logs`
   * and `analyze_with_ai` update in place.
   */
  class LogAnalyzer {
    /** `_analysis_cache`. */
    var cache: Cache

    constructor()
      ensures cache == map[]
    {
      cache := map[];
    }

    /** `cache_analysis`. */
    method CacheAnalysis(key: string, analysis: Analysis, now: Time)
      modifies this
      ensures cache == Store(old(cache), key, analysis, now)
    {
      cache := cache[key := Entry(analysis, now)];
    }

    /** `get_cached_analysis`. */
    method GetCachedAnalysis(key: string, now: Time) returns (hit: Option<Analysis>)
      modifies this
      ensures hit == Lookup(old(cache), key, now).hit
      ensures cache == Lookup(old(cache), key, now).cache
    {
      if key !in cache {
        return None;
      }
      var cached := cache[key];
      if now - cached.storedAt > Expiry {
        cache := cache - {key};
        return None;
      }
      return Some(cached.analysis);
    }

    /** `analyze_with_ai(message, max_retries)` with the model call `api`, at moment `now`. */
    method AnalyzeWithAi(message: string, hash: string -> string, api: nat -> Response, now: Time, maxRetries: int)
      returns (analysis: Analysis, waits: seq<nat>)
      modifies this
      ensures var run := Analyze(old(cache), CacheKey(hash(message)), api, now, maxRetries);
        analysis == run.analysis && waits == run.waits && cache == run.cache
    {
      var key := CacheKey(hash(message));
      var cached := GetCachedAnalysis(key, now);
      if cached.Some? && |cached.value| > 0 {
        return cached.value, [];
      }
      AnalyzeMiss(old(cache), key, api, now, maxRetries);
      analysis, waits := CallModel(key, api, now, maxRetries);
    }

    /**
     * The `for attempt in range(max_retries)` loop of `analyze_with_ai`:
     * what `Retry` describes, with a successful answer stored under `key`.
     */
    method CallModel(key: string, api: nat -> Response, now: Time, maxRetries: int)
      returns (analysis: Analysis, waits: seq<nat>)
      modifies this
      ensures var run := Retry(api, 0, maxRetries);
        && analysis == AnalysisOf(run.outcome) && waits == run.waits
        && cache == if run.outcome.Succeeded? then Store(old(cache), key, run.outcome.result, now) else old(cache)
    {
      ghost var full := Retry(api, 0, maxRetries);
      waits := [];
      var attempt: nat := 0;
      while attempt < maxRetries
        invariant cache == old(cache)
        invariant Retry(api, attempt, maxRetries).outcome == full.outcome
        invariant waits + Retry(api, attempt, maxRetries).waits == full.waits
        decreases maxRetries - attempt
      {
        var response := api(attempt);
        ghost var rest := Retry(api, attempt, maxRetries);
        if response.Answer? {
          assert rest == RetryRun(Succeeded(response.result), [], 1);
          CacheAnalysis(key, response.result, now);
          return response.result, waits;
        }
        if response.Raised? && attempt == maxRetries - 1 {
          assert rest == RetryRun(Failed(response.error), [], 1);
          return ErrorAnalysis(response.error), waits;
        }
        ghost var next := Retry(api, attempt + 1, maxRetries);
        var pause := if response.RateLimited? then Backoff(attempt) else 1;
        assert rest.waits == [pause] + next.waits && rest.outcome == next.outcome;
        assert (waits + [pause]) + next.waits == waits + ([pause] + next.waits);
        waits := waits + [pause];
        attempt := attempt + 1;
      }
      assert waits == full.waits;
      return ErrorAnalysis(MaxRetriesMessage), waits;
    }

    /**
     * `process_logs` over the fetched `logs`. `None` stands for the
     * exception that escapes when a log's message is not an object or its
     * text is not a string; the cache keeps what earlier logs stored.
     */
    method ProcessLogs(logs: seq<Dict>, hash: string -> string, api: (nat, nat) -> Response, now: Time)
      returns (results: Option<seq<Record>>, waits: seq<nat>)
      modifies this
      ensures var p := Processed(logs, |logs|, old(cache), hash, ModelAnalysis(api, now));
        && results == (if p.raised then None else Some(p.records))
        && waits == p.waits && cache == p.cache
    {
      var records: seq<Record> := [];
      waits := [];
      var i := 0;
      var raised := false;
      while i < |logs| && !raised
        invariant 0 <= i <= |logs|
        invariant Processed(logs, i, old(cache), hash, ModelAnalysis(api, now)) == Progress(records, cache, waits, raised)
      {
        records, waits, raised := ProcessLog(logs, i, old(cache), hash, api, now, records, waits);
        i := i + 1;
      }
      if raised {
        ProcessedTail(logs, i, old(cache), hash, ModelAnalysis(api, now));
        return None, waits;
      }
      return Some(records), waits;
    }

    /** One pass of the loop body of `process_logs`, for log number `i`. */
    method ProcessLog(logs: seq<Dict>, i: nat, ghost cache0: Cache, hash: string -> string, api: (nat, nat) -> Response, now: Time,
                      records: seq<Record>, waits: seq<nat>)
      returns (records': seq<Record>, waits': seq<nat>, raised: bool)
      requires i < |logs|
      requires Processed(logs, i, cache0, hash, ModelAnalysis(api, now)) == Progress(records, cache, waits, false)
      modifies this
      ensures Processed(logs, i + 1, cache0, hash, ModelAnalysis(api, now)) == Progress(records', cache, waits', raised)
    {
      ProcessedNext(logs, i, cache0, hash, ModelAnalysis(api, now));
      var log := logs[i];
      var msg := MessageOf(log);
      if msg.None? {
        return records, waits, true;
      }
      var text := TextOf(msg.value);
      if text.None? {
        return records, waits, true;
      }
      ghost var before := Progress(records, cache, waits, false);
      var analysis, w := AnalyzeWithAi(text.value, hash, CallsFor(api, i), now, DefaultMaxRetries);
      ModelAnalysisApply(api, now, before.cache, CacheKey(hash(text.value)), i);
      StepOfRun(before, log, i, hash, ModelAnalysis(api, now), AnalyzeRun(analysis, w, 0, cache));
      records' := records;
      if "error" !in analysis {
        records' := records + [Shape(msg.value, text.value, analysis)];
      }
      return records', waits + w, false;
    }
  }

  /** Once processing has raised, the remaining logs change nothing. */
  lemma {:induction false} ProcessedTail(logs: seq<Dict>, n: nat, cache: Cache, hash: string -> string,
                                         analyze: (Cache, string, nat) -> AnalyzeRun)
    requires n <= |logs| && Processed(logs, n, cache, hash, analyze).raised
    ensures Processed(logs, |logs|, cache, hash, analyze) == Processed(logs, n, cache, hash, analyze)
    decreases |logs| - n
  {
    if n < |logs| {
      ProcessedTail(logs, n + 1, cache, hash, analyze);
    }
  }
}
