/**
 * The `/api/get-analysis` endpoint of the Flask server (main.py): query
 * normalisation, the severity filter, the statistics block and the 500
 * response when processing raises.
 */
module Server {
  import opened Json
  import opened Seqs
  import opened AnalysisCache
  import opened Analyzer

  // ---------------------------------------------------------------------
  // Query normalisation

  /** The misspelling the endpoint corrects in queries. */
  const Typo: string := "sevverity"
  const Fixed: string := "severity"

  predicate TypoAt(s: string, i: nat)
  {
    i + |Typo| <= |s| && s[i..i + |Typo|] == Typo
  }

  /** `s` contains the misspelling nowhere. */
  predicate TypoFree(s: string)
  {
    forall i: nat | i <= |s| :: !TypoAt(s, i)
  }

  /**
   * `s.replace('sevverity', 'severity')`: occurrences are replaced from the
   * left, and scanning resumes after each replaced one.
   */
  function FixTypo(s: string): string
    decreases |s|
  {
    if |s| < |Typo| then s
    else if s[..|Typo|] == Typo then Fixed + FixTypo(s[|Typo|..])
    else [s[0]] + FixTypo(s[1..])
  }

  /** Up to the first 's', the corrected query is the query itself (every replacement starts with 's'). */
  lemma {:induction false} CopiesUpToFirstS(s: string, k: nat)
    requires k <= |s| && 's' !in s[..k]
    ensures k <= |FixTypo(s)| && FixTypo(s)[..k] == s[..k]
    ensures k < |s| && s[k] == 's' ==> k < |FixTypo(s)| && FixTypo(s)[k] == 's'
    ensures k == |s| ==> FixTypo(s) == s
    decreases |s|
  {
    if |s| >= |Typo| && s[..|Typo|] == Typo {
      assert s[0] == 's';
    } else if |s| >= |Typo| {
      if k > 0 {
        assert s[1..][..k - 1] == s[..k][1..];
        CopiesUpToFirstS(s[1..], k - 1);
        assert FixTypo(s)[..k] == [s[0]] + FixTypo(s[1..])[..k - 1];
      } else if k < |s| {
        assert FixTypo(s)[0] == s[0];
      }
    }
  }

  /** The first `k` characters of `s`, when they hold no 's', fix the first `k` characters of the result. */
  lemma PrefixWithoutS(s: string, p: string)
    requires 's' !in p
    requires |p| <= |FixTypo(s)| && FixTypo(s)[..|p|] == p
    ensures |p| <= |s| && s[..|p|] == p
  {
    var k := |p|;
    var first := if 's' in s then FirstIndex(s, 's') else |s|;
    assert 's' !in s[..first];
    CopiesUpToFirstS(s, first);
    assert s[..k] == s[..first][..k];
  }

  /** A replacement itself holds no misspelling starting inside it. */
  lemma FixedStartsClean(r: string, i: nat)
    requires |Fixed| <= |r| && r[..|Fixed|] == Fixed && i < |Fixed|
    ensures !TypoAt(r, i)
  {
    if i + |Typo| <= |r| {
      if i == 0 {
        assert r[..|Typo|][3] == Fixed[3] != Typo[3];
      } else {
        assert r[i..i + |Typo|][0] == Fixed[i] != Typo[0];
      }
    }
  }

  /** A misspelling that starts after `head` lies wholly in `rest`. */
  lemma TypoShifts(head: string, rest: string, i: nat)
    requires |head| <= i && TypoAt(head + rest, i)
    ensures TypoAt(rest, i - |head|)
  {
    var r := head + rest;
    assert r[i..i + |Typo|] == rest[i - |head|..i - |head| + |Typo|];
  }

  /** A replacement followed by a clean remainder is clean. */
  lemma ReplacedHeadClean(s: string)
    requires |s| >= |Typo| && s[..|Typo|] == Typo
    requires TypoFree(FixTypo(s[|Typo|..]))
    ensures TypoFree(FixTypo(s))
  {
    var r := FixTypo(s);
    var rest := FixTypo(s[|Typo|..]);
    assert r == Fixed + rest;
    forall i: nat | TypoAt(r, i) ensures false {
      if i < |Fixed| {
        FixedStartsClean(r, i);
      } else {
        TypoShifts(Fixed, rest, i);
      }
    }
  }

  /** A character copied in front of a clean remainder does not complete a misspelling. */
  lemma CopiedHeadClean(s: string)
    requires |s| >= |Typo| && s[..|Typo|] != Typo
    requires TypoFree(FixTypo(s[1..]))
    ensures TypoFree(FixTypo(s))
  {
    var r := FixTypo(s);
    var t := s[1..];
    var rest := FixTypo(t);
    assert r == [s[0]] + rest;
    forall i: nat | TypoAt(r, i) ensures false {
      if i == 0 {
        assert r[..|Typo|] == [s[0]] + rest[..|Typo| - 1];
        TypoTailKept(t);
      } else {
        TypoShifts([s[0]], rest, i);
      }
    }
  }

  /** The result starts with the misspelling less its 's' only where the query does. */
  lemma TypoTailKept(t: string)
    requires |Typo| - 1 <= |FixTypo(t)| && FixTypo(t)[..|Typo| - 1] == Typo[1..]
    ensures |Typo| - 1 <= |t| && t[..|Typo| - 1] == Typo[1..]
  {
    assert forall c :: c in Typo[1..] ==> c != 's';
    PrefixWithoutS(t, Typo[1..]);
  }

  /** `replace` leaves no misspelling behind, even where a replacement meets its neighbours. */
  lemma {:induction false} FixTypoRemovesAll(s: string)
    ensures TypoFree(FixTypo(s))
    decreases |s|
  {
    if |s| < |Typo| {
      forall i: nat ensures !TypoAt(FixTypo(s), i) {
      }
    } else if s[..|Typo|] == Typo {
      FixTypoRemovesAll(s[|Typo|..]);
      ReplacedHeadClean(s);
    } else {
      FixTypoRemovesAll(s[1..]);
      CopiedHeadClean(s);
    }
  }

  /** A query without the misspelling passes through unchanged. */
  lemma {:induction false} FixTypoKeepsClean(s: string)
    requires TypoFree(s)
    ensures FixTypo(s) == s
    decreases |s|
  {
    if |s| >= |Typo| {
      assert !TypoAt(s, 0);
      forall i: nat | i <= |s[1..]| ensures !TypoAt(s[1..], i) {
        assert !TypoAt(s, i + 1);
        if i + |Typo| <= |s[1..]| {
          assert s[1..][i..i + |Typo|] == s[i + 1..i + 1 + |Typo|];
        }
      }
      FixTypoKeepsClean(s[1..]);
    }
  }

  /**
   * The first misspelling of the query is replaced by the correct spelling,
   * the text before it is kept as it is, and the rest of the query is
   * corrected in the same way.
   */
  lemma {:induction false} FixTypoSplice(s: string, i: nat)
    requires TypoAt(s, i)
    requires forall j: nat | j < i :: !TypoAt(s, j)
    ensures FixTypo(s) == s[..i] + Fixed + FixTypo(s[i + |Typo|..])
    decreases i
  {
    if i == 0 {
      assert s[..|Typo|] == Typo;
    } else {
      var t := s[1..];
      FixTypoCopies(s);
      TypoAtTail(s, i);
      NoEarlierTypoInTail(s, i);
      FixTypoSplice(t, i - 1);
      assert t[i - 1 + |Typo|..] == s[i + |Typo|..];
      ConsSplice(s, i, FixTypo(t), FixTypo(s[i + |Typo|..]));
    }
  }

  lemma ConsSplice(s: string, i: nat, f: string, r: string)
    requires 0 < i <= |s| && f == s[1..][..i - 1] + Fixed + r
    ensures [s[0]] + f == s[..i] + Fixed + r
  {
    assert [s[0]] + s[1..][..i - 1] == s[..i];
  }

  /** Where no misspelling starts, the first character is copied. */
  lemma FixTypoCopies(s: string)
    requires |s| >= |Typo| && !TypoAt(s, 0)
    ensures FixTypo(s) == [s[0]] + FixTypo(s[1..])
  {
    assert s[..|Typo|] != Typo;
  }

  lemma NoEarlierTypoInTail(s: string, i: nat)
    requires 0 < i && TypoAt(s, i)
    requires forall j: nat | j < i :: !TypoAt(s, j)
    ensures forall j: nat | j < i - 1 :: !TypoAt(s[1..], j)
  {
    forall j: nat | j < i - 1 ensures !TypoAt(s[1..], j) {
      NoTypoAtTail(s, j + 1);
    }
  }

  lemma TypoAtTail(s: string, i: nat)
    requires 0 < i && TypoAt(s, i)
    ensures TypoAt(s[1..], i - 1)
  {
    assert s[1..][i - 1..i - 1 + |Typo|] == s[i..i + |Typo|];
  }

  lemma NoTypoAtTail(s: string, i: nat)
    requires 0 < i <= |s| && !TypoAt(s, i)
    ensures !TypoAt(s[1..], i - 1)
  {
    if i - 1 + |Typo| <= |s[1..]| {
      assert s[1..][i - 1..i - 1 + |Typo|] == s[i..i + |Typo|];
    }
  }

  /** `request.args.get('query', '*')`, corrected. */
  function QueryOf(args: map<string, string>): string
  {
    FixTypo(if "query" in args then args["query"] else "*")
  }

  /** The query sent on is free of the misspelling, defaults to "*", and is the given one when that was already clean. */
  lemma QueryOfSpec(args: map<string, string>)
    ensures TypoFree(QueryOf(args))
    ensures "query" !in args ==> QueryOf(args) == "*"
    ensures "query" in args && TypoFree(args["query"]) ==> QueryOf(args) == args["query"]
  {
    var raw := if "query" in args then args["query"] else "*";
    FixTypoRemovesAll(raw);
    if TypoFree(raw) {
      FixTypoKeepsClean(raw);
    }
  }

  /** `request.args.get('severity', 'all')`. */
  function SeverityOf(args: map<string, string>): string
  {
    if "severity" in args then args["severity"] else "all"
  }

  // ---------------------------------------------------------------------
  // Filter and statistics

  /** The records whose "severity" equals the requested one; "all" keeps every record. */
  function FilterBySeverity(records: seq<Record>, severity: string): (shown: seq<Record>)
    ensures severity == "all" ==> shown == records
    ensures severity != "all" ==> forall r :: r in shown <==> r in records && r.severity == Str(severity)
    ensures IsSubsequence(shown, records)
    ensures forall r :: multiset(shown)[r] ==
              if severity == "all" || r.severity == Str(severity) then multiset(records)[r] else 0
  {
    if severity == "all" then
      SubsequenceOfItself(records);
      records
    else
      Filter(records, (r: Record) => r.severity == Str(severity))
  }

  predicate IsHigh(r: Record)
  {
    r.severity == Str("high") || r.severity == Str("critical")
  }

  predicate IsMedium(r: Record)
  {
    r.severity == Str("medium")
  }

  predicate IsLow(r: Record)
  {
    r.severity == Str("low")
  }

  /** The "stats" object of the response. */
  datatype Stats = Stats(total: nat, sla: int, high: nat, medium: nat, low: nat)

  /** `max(70, 95 - high_severity)`. */
  function Sla(high: nat): (sla: int)
    ensures 70 <= sla <= 95
    ensures high <= 25 ==> sla == 95 - high
    ensures high >= 25 ==> sla == 70
  {
    if 95 - high > 70 then 95 - high else 70
  }

  function StatsOf(records: seq<Record>): Stats
  {
    var high := Count(records, IsHigh);
    Stats(|records|, Sla(high),
          high,
          Count(records, IsMedium), Count(records, IsLow))
  }

  /**
   * The counts describe the records: high counts the "high" and "critical"
   * ones, and the three severity counts never exceed the total.
   */
  lemma StatsCounts(records: seq<Record>)
    ensures StatsOf(records).total == |records|
    ensures StatsOf(records).high == |Filter(records, IsHigh)|
    ensures StatsOf(records).high + StatsOf(records).medium + StatsOf(records).low <= |records|
  {
    CountExclusive(records, IsHigh, IsMedium, IsLow);
  }

  /** The SLA falls one point per high-severity record from 95 down to a floor of 70. */
  lemma StatsSla(records: seq<Record>)
    ensures 70 <= StatsOf(records).sla <= 95
    ensures StatsOf(records).sla == (if StatsOf(records).high <= 25 then 95 - StatsOf(records).high else 70)
  {
  }

  /** After filtering by one of "medium" or "low", every record counts under that severity and none is high. */
  lemma FilteredStats(records: seq<Record>, severity: string)
    requires severity == "medium" || severity == "low"
    ensures var s := StatsOf(FilterBySeverity(records, severity));
      s.high == 0 && s.sla == 95 && (if severity == "medium" then s.medium else s.low) == s.total
  {
    var shown := FilterBySeverity(records, severity);
    if severity == "medium" {
      FilterAll(shown, IsMedium);
    } else {
      FilterAll(shown, IsLow);
    }
    NoneCounted(shown, IsHigh);
  }

  lemma {:induction false} NoneCounted(s: seq<Record>, p: Record -> bool)
    requires forall x :: x in s ==> !p(x)
    ensures Count(s, p) == 0
    decreases |s|
  {
    if s != [] {
      NoneCounted(s[1..], p);
    }
  }

  // ---------------------------------------------------------------------
  // The endpoint

  /** The JSON body of the response: the anomalies, the stats and the time stamp, or a 500 error. */
  datatype Reply =
    | Ok(anomalies: seq<Record>, stats: Stats, cacheTimestamp: int)
    | ServerError

  /** The reply for the records `process_logs` returned, or `None` when it raised. */
  function Respond(results: Option<seq<Record>>, severity: string, clockSeconds: int): (reply: Reply)
    ensures results.None? <==> reply.ServerError?
    ensures reply.Ok? ==> reply.anomalies == FilterBySeverity(results.value, severity)
                          && reply.stats == StatsOf(reply.anomalies)
                          && reply.cacheTimestamp == clockSeconds
  {
    match results
    case None => ServerError
    case Some(records) =>
      var shown := FilterBySeverity(records, severity);
      Ok(shown, StatsOf(shown), clockSeconds)
  }

  /**
   * `get_analysis` for the query arguments `args`. `fetch(query)` is what
   * `fetch_logs(query, 24 * 3600, 20)` returns, `now` the analyzer's clock
   * in microseconds and `clockSeconds` the value of `int(time.time())`.
   */
  method GetAnalysis(analyzer: LogAnalyzer, args: map<string, string>, fetch: string -> seq<Dict>,
                     hash: string -> string, api: (nat, nat) -> Response, now: Time, clockSeconds: int)
    returns (reply: Reply)
    modifies analyzer
    ensures var p := Processed(fetch(QueryOf(args)), |fetch(QueryOf(args))|, old(analyzer.cache), hash, ModelAnalysis(api, now));
      && reply == Respond(if p.raised then None else Some(p.records), SeverityOf(args), clockSeconds)
      && analyzer.cache == p.cache
  {
    var query := QueryOf(args);
    var severity := SeverityOf(args);
    var results, waits := analyzer.ProcessLogs(fetch(query), hash, api, now);
    if results.None? {
      return ServerError;
    }
    var logs := FilterBySeverity(results.value, severity);
    var high := Count(logs, IsHigh);
    var stats := Stats(|logs|, Sla(high), high,
                       Count(logs, IsMedium), Count(logs, IsLow));
    return Ok(logs, stats, clockSeconds);
  }
}
