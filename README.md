# Graylog security dashboard: a Dafny model of its core logic

The dashboard fetches security logs from Graylog, has each one analysed by
a language model behind a six-hour server-side cache, and serves the
resulting anomaly records with severity statistics to a browser page. The
page draws a graph of the IP addresses the messages mention and merges
live batches into its list. This project models the deterministic core of
that pipeline and proves what it promises:

- **IpExtract** (`static/js/main.js`, `extractIPs`): a character scanner
  stands in for the global regular expression `\b\d{1,3}(\.\d{1,3}){3}\b`,
  followed by first-occurrence de-duplication. Every result is proved to
  be a dotted quad that appears in the text between word boundaries, and
  every such quad not preceded by a dot is proved to be found. The model
  also shows that groups above 255 are accepted.
- **NetworkGraph** (`static/js/main.js`, `updateNetworkGraph` and
  `getSeverityColor`): the graph is specified as a function of the anomaly
  list. The script's nested loops are methods proved equal to it. The
  lemmas cover distinct node ids, the colour from the first mention and
  k·(k−1)/2 edges per anomaly.
- **ClientAnomaly** and **Dashboard** (`static/js/main.js`): the filter
  buttons, and the page state as a class. The page holds
  `currentAnomalies` and the graph, and changes through the live-stream
  handler and the fetch-success path.
- **AnalysisCache** (`analyzer.py`): the analysis cache as a map from key
  to (analysis, store time). Entries expire after six hours, with a strict
  comparison, and a stale entry is purged when it is read.
- **Analyzer** (`analyzer.py`): the `LogAnalyzer` class.
  - The class holds the cache field. Its cache methods store and read
    that field; `analyze_with_ai` (its retry loop `CallModel`) and
    `process_logs` (`ProcessLogs`) are loops that update it.
  - Each is proved against specification functions: `Retry` for the retry
    loop, `Analyze` for one analysis, `Processed` for the log loop.
- **Server** (`main.py`, `get_analysis`): the query typo fix, the severity
  filter, the statistics with `sla = max(70, 95 - high)`, and the 500
  reply when processing raises.
- **Prepare** (`test.py`, `prepare_anomalies`): default filling of
  anomaly dictionaries, in place on an array.
- **Json** and **Seqs**: the JSON values both sides exchange, and a
  generic filter, count and de-duplication with their lemmas.

Inputs from the outside world are parameters:

- the language-model call is `api(attempt)` (or `api(log, attempt)` in
  `process_logs`);
- the Graylog search is `fetch(query)`;
- the MD5 digest is `hash`;
- the server clock is `now`, in microseconds, the resolution of the ISO
  time stamps the cache stores.

Sleeps are not performed; the methods return the sequence of sleeps, in
seconds, that the loop asks for.

Behaviour of the code worth noting:

- The cache's expiry is a strict `>`, so an entry exactly six hours old is
  still served.
- A live batch is prepended without de-duplication by id.
- A graph node keeps the colour of the first anomaly in the list that
  mentions it. After a live batch this is the first anomaly of that batch,
  in the server's order, that mentions the address, as
  `Dashboard.NewestMentionColours` shows. An address the batch does not
  mention keeps the colour from the older list.
- The page reads an anomaly's `message`, while `process_logs` produces a
  `raw` field. On a record without a string `message`, `extractIPs` throws
  inside the graph pass, so the graph keeps its old data. In the live-stream
  handler the list has already been replaced when that happens.
- The page fetches `/api/anomalies`, which main.py does not define. The
  page side is therefore modelled on its own record shape
  (`ClientAnomaly.Anomaly`).
- A cached analysis is reused only when it is truthy, that is a non-empty
  object. A cached `{}` sends the log to the model again.

## Model

| member | source | states |
|---|---|---|
| IpExtract.ExtractIpsSpec | static/js/main.js:192-195 | no duplicates; the same addresses as the regular-expression matches, in first-occurrence order; each is four 1–3-digit groups joined by dots, found in the text between word boundaries |
| IpExtract.ScanSound | static/js/main.js:193 | every match of the scanner from position p is a dotted quad bounded by non-word characters at some q ≥ p |
| IpExtract.GroupsFromSplit | static/js/main.js:193 | n dot-separated digit groups that fill t[p..e], followed by the end of the text or a non-digit, are matched from p up to e |
| IpExtract.GroupsEndChars | static/js/main.js:193 | a match of the digit groups consists of digits and dots only |
| IpExtract.MatchAtQuad | static/js/main.js:193 | wherever a dotted quad occurs between word boundaries, the pattern matches there and ends where the quad ends |
| IpExtract.ScanComplete | static/js/main.js:193-194 | the global search from p reports the match at q unless a match starting between p and q runs past q |
| IpExtract.AddressFound | static/js/main.js:192-195 | every dotted quad in the text between word boundaries and not preceded by a dot is among the extracted addresses, so a message with two addresses yields both |
| IpExtract.WholeAddressExtracted | static/js/main.js:192-195 | a message that is exactly one dotted quad yields exactly that address |
| IpExtract.FourGroupsExtracted | static/js/main.js:193-194 | any four digit groups joined by dots are extracted as one address |
| IpExtract.OutOfRangeAccepted | static/js/main.js:193 | "999.999.999.999" is extracted: octets above 255 are not rejected |
| IpExtract.DigitRunSpec | static/js/main.js:193 | the run of `\d` at p is maximal: all digits, followed by the end or a non-digit |
| NetworkGraph.SeverityColor | static/js/main.js:197-204 | high, medium and low map to their own colours, each exactly for that severity; every other value, "critical" included, maps to grey |
| NetworkGraph.FirstMention | static/js/main.js:162-174 | the index of the first anomaly mentioning an address, with no earlier one mentioning it |
| NetworkGraph.GraphNodes | static/js/main.js:159-174 | node ids have no duplicates and are exactly the mentioned addresses; each node is labelled with its address and coloured by the first anomaly mentioning it |
| NetworkGraph.GraphExtends | static/js/main.js:162-187 | later anomalies only append nodes and edges; earlier ones, colours included, never change |
| NetworkGraph.PairEdgesSpec | static/js/main.js:177-186 | an anomaly with k addresses adds k·(k−1)/2 edges, exactly one from ips[i] to ips[j] for each i < j, labelled with its source, coloured by its severity, with no self-loops |
| NetworkGraph.RowsCount | static/js/main.js:177-186 | the first n rows of the nested loops hold the arithmetic-series number of edges |
| NetworkGraph.BuildGraph | static/js/main.js:157-194 | the loops over anomalies report the throw exactly when some message is not a string, and otherwise build exactly the specified graph |
| NetworkGraph.AddAnomalyNodes | static/js/main.js:165-174 | the `forEach` over addresses adds each unseen address once and keeps `nodeIds` equal to the node ids |
| NetworkGraph.AddAnomalyEdges | static/js/main.js:177-186 | the nested loops append exactly the pair edges of the anomaly |
| ClientAnomaly.FilterAnomalies | static/js/main.js:252-264 | "all" is the identity; "threat" keeps exactly the truthy `is_threat` records; any other selector keeps exactly the records of that severity; the result is an order-preserving subsequence with the same multiplicities |
| ClientAnomaly.MergeBatch | static/js/main.js:290-292 | an empty batch changes nothing; otherwise the batch is followed by the old list, lengths add, and the multiset is the sum (no de-duplication) |
| Dashboard.Page.constructor | static/js/main.js:2-3 | the page starts with an empty list and no graph |
| Dashboard.Page.InitNetworkGraph | static/js/main.js:119-152 | the graph exists afterwards and is empty; the list is unchanged |
| Dashboard.Page.UpdateNetworkGraph | static/js/main.js:154-194 | a no-op while the graph is null; otherwise it throws exactly when some message is not a string, keeping the old graph, and else the graph becomes that of the given anomalies |
| Dashboard.Page.OnAnomaliesFetched | static/js/main.js:36-42 | the fetched list always replaces the current one; the call throws exactly when the stats are null or missing, the patterns are not an array free of nulls, or the graph pass throws; the graph follows the list only when nothing threw |
| Dashboard.Page.OnStreamMessage | static/js/main.js:288-296 | an empty batch changes nothing and gives no notification; a non-empty one notifies its size and is merged in front; the graph is rebuilt from the whole list unless a message of that list is not a string, in which case the handler throws after the list was replaced and the graph stays |
| Dashboard.Page.FilterView | static/js/main.js:252-264 | the rendered list is the filter of the current list |
| Dashboard.NewestMentionColours | static/js/main.js:288-296 | after a live batch, an address first mentioned by batch[k] is coloured by batch[k] |
| AnalysisCache.StoreSpec | analyzer.py:43-48 | storing inserts or overwrites the key with the analysis and the current time; every other key is unchanged |
| AnalysisCache.LookupSpec | analyzer.py:50-61 | a hit happens iff the key is present and at most six hours old, and returns the stored analysis; a stale key is deleted and nothing else changes; an absent key changes nothing |
| AnalysisCache.StoredIsServed | analyzer.py:50-61 | a stored analysis is served back for six hours inclusive |
| AnalysisCache.StaleIsPurged | analyzer.py:57-59 | after more than six hours the read misses and removes exactly that key |
| AnalysisCache.StoreIsolated | analyzer.py:45 | storing one key does not change what another key reads |
| AnalysisCache.LookupIdempotent | analyzer.py:50-61 | reading twice at the same moment equals reading once |
| AnalysisCache.FreshSurvivesLookup | analyzer.py:57-58 | an entry stored now survives a read of any key now |
| Analyzer.LogAnalyzer.constructor | analyzer.py:15-16 | the analyzer starts with an empty cache |
| Analyzer.LogAnalyzer.CacheAnalysis | analyzer.py:43-48 | the cache becomes the stored map |
| Analyzer.LogAnalyzer.GetCachedAnalysis | analyzer.py:50-61 | returns the lookup's hit and leaves the lookup's cache, with the stale key deleted |
| Analyzer.Backoff | analyzer.py:131 | the 429 wait is 5·(attempt+1) capped at 30, always within [5, 30] |
| Analyzer.RetryAttempts | analyzer.py:102-149 | at most max_retries attempts, at least one when max_retries > 0, none otherwise (then "Max retries exceeded"); every attempt before the final one failed; a failure uses up the whole budget |
| Analyzer.RetryOutcome | analyzer.py:102-149 | success iff some attempt within the budget answers, with the first answer; a failure reports the last attempt's exception, or "Max retries exceeded" after a final 429 |
| Analyzer.RetryWaitCount | analyzer.py:130-147 | one sleep after every failed attempt except a final exception |
| Analyzer.RetryWaitValues | analyzer.py:130-147 | the k-th sleep is the backoff after a 429 and one second after an exception |
| Analyzer.ErrorAnalysis | analyzer.py:143-149 | the error object carries the message under "error" |
| Analyzer.AnalyzeSpec | analyzer.py:92-149 | a non-empty fresh cached analysis is returned with no attempt; otherwise the retry loop decides; only a successful answer is stored, under its key and stamped now; no other key changes |
| Analyzer.AnalyzeKeepsFresh | analyzer.py:98-141 | an analysis without "error" is left fresh in the cache under its key, and fresh keys stay fresh |
| Analyzer.LogAnalyzer.AnalyzeWithAi | analyzer.py:92-149 | the returned analysis, the sleeps and the new cache are those of the specification `Analyze` |
| Analyzer.LogAnalyzer.CallModel | analyzer.py:102-149 | the loop returns what `Retry` describes, and stores the answer in the cache only on success |
| Analyzer.Shape | analyzer.py:163-170 | a record copies `_id`, the text, `source` and `timestamp`, and takes the analysis's severity or "medium" |
| Analyzer.ProcessedRaises | analyzer.py:158-159 | processing raises iff some log's message is not an object or its text is not a string |
| Analyzer.ProcessedRecords | analyzer.py:157-170 | at most one record per log; every record comes from one of the logs, with that log's fields, no "error" key and the severity rule |
| Analyzer.ProcessedYields | analyzer.py:157-170 | when no log raises, log i adds its record exactly when its analysis has no "error" key; that record then follows the earlier logs' records and keeps that position in the final result |
| Analyzer.ProcessedCount | analyzer.py:157-170 | when no log raises, the number of records is the number of logs less those whose analysis has an "error" key |
| Analyzer.ProcessedInOrder | analyzer.py:157-170 | records keep the order of their logs: the first m logs' records are a prefix, the rest come from later logs |
| Analyzer.ProcessedCached | analyzer.py:151-173 | after processing, every record's cache key is present with an entry fresh at the run's moment (not necessarily holding that record's analysis) |
| Analyzer.ProcessedTail | analyzer.py:157-159 | once a log raises, the later logs change nothing |
| Analyzer.ModelKeepsFresh | analyzer.py:160 | the analyzer that `process_logs` calls keeps cache entries fresh |
| Analyzer.LogAnalyzer.ProcessLogs | analyzer.py:151-173 | the result is None if processing raises, else the processed records; the sleeps and the new cache are those of `Processed` |
| Analyzer.LogAnalyzer.ProcessLog | analyzer.py:157-170 | one loop pass advances the specification by one log |
| Server.FixTypoRemovesAll | main.py:32 | after the replacement no "sevverity" remains, even where a replacement meets its neighbours |
| Server.FixTypoKeepsClean | main.py:32 | a query without "sevverity" is unchanged |
| Server.FixTypoSplice | main.py:32 | the first "sevverity" is replaced by "severity", the text before it is kept, and the rest of the query is corrected in the same way |
| Server.CopiesUpToFirstS | main.py:32 | the corrected query agrees with the query up to its first 's' |
| Server.QueryOfSpec | main.py:32 | the query sent on is free of the typo, defaults to "*", and is the given one when that was clean |
| Server.FilterBySeverity | main.py:43-44 | "all" is the identity; otherwise exactly the records with that severity, in order, each as often as in the input |
| Server.Sla | main.py:48 | the SLA lies in [70, 95] and equals 95 − high while high ≤ 25 |
| Server.StatsCounts | main.py:47-57 | total is the list length; high counts exactly "high" and "critical"; high + medium + low ≤ total |
| Server.StatsSla | main.py:48-54 | the reported SLA lies in [70, 95] and falls one point per high record down to 70 |
| Server.FilteredStats | main.py:43-58 | after filtering by "medium" or "low" no record is high, the SLA is 95, and that severity's count equals the total |
| Server.Respond | main.py:43-66 | a 500 reply iff processing raised; otherwise the filtered records, their statistics and the clock time stamp |
| Server.GetAnalysis | main.py:27-66 | the reply is `Respond` applied to processing the fetched logs of the corrected query; the analyzer's cache becomes the processed one |
| Prepare.SetDefaultSpec | test.py:13-15 | `setdefault` adds the key only when it is absent, keeping an existing value even when it is None; other keys are unchanged |
| Prepare.PreparedKeys | test.py:8-15 | afterwards every anomaly has user, icon, severity and recommendations; no key is dropped |
| Prepare.PreparedValues | test.py:10-15 | a missing or None user becomes "System" and any other user is kept; icon, severity and recommendations default to "ℹ️", "medium" and [] only when absent |
| Prepare.PreparedKeepsOthers | test.py:8-15 | keys other than the four are untouched |
| Prepare.PreparedIdempotent | test.py:6-16 | preparing twice equals preparing once |
| Prepare.PrepareAnomalies | test.py:6-16 | the same array is returned and each element is updated in place to its prepared form |
| Seqs.Filter | main.py:44 | the filtered list is an order-preserving subsequence holding exactly the elements that satisfy the predicate, with their multiplicities |
| Seqs.DedupSpec | static/js/main.js:194 | de-duplication keeps each element once, in first-occurrence order |
| Seqs.CountExclusive | main.py:47-57 | counts of mutually exclusive predicates add up to at most the length |

## Left out

- The rate limiter of `analyze_with_ai` (`last_api_call`, `min_call_interval`) is left out. It only delays calls and never changes a result.
- `time.sleep` is not performed. The requested sleeps are returned as a sequence of seconds.
- The clock does not advance during one call: a single `now` stamps a whole `analyze_with_ai` or `process_logs` run.
- The MD5 digest of `get_log_hash` is the function parameter `hash`.
- The HTTP POST to the language model is the parameter `api`. Its outcome is reduced to a 429, a JSON-object answer, or an exception with a message. Non-2xx statuses and malformed bodies count as that exception.
- `Analyzer.Analyze`: an answer that is valid JSON but not an object is not modelled, because the request asks for the `json_object` response format. In the code such an answer is cached and returned like an object. `process_logs` then raises on it when it tests for "error" or reads "severity", and the endpoint replies 500. A string or list answer that contains "error" is skipped instead.
- `fetch_logs` is the parameter `fetch`. Its fallback to `[]` on Graylog errors is part of that parameter and is not modelled separately.
- `Analyzer.Processed`: the fetched logs are typed as JSON objects. An element that is not an object makes `log.get` raise, and this case is not modelled.
- `Dashboard.Page.OnAnomaliesFetched`: the response's `anomalies` field is taken to be an array of objects. When it is missing or not an array, `updateAnomalyList` throws and `currentAnomalies` holds a non-list value; that state is not modelled.
- The `threading.Lock` of `process_logs` is left out: concurrency is not modelled.
- Logging and the Flask routing are left out. The exception text of the 500 reply is left out too: `ServerError` carries no message.
- `Server.GetAnalysis`: the 500 reply covers only the exception that `process_logs` raises on a malformed log. Other failures inside `jsonify` or Flask are outside the model.
- JSON numbers are integers. Floating-point values are not modelled.
- `Prepare.PrepareAnomalies`: anomalies are modelled as dictionaries held by value in an array. Aliasing between list elements that are the same dict object is not captured.
- `initNetworkGraph`'s widget options, `networkGraph.setData` and all DOM rendering are left out: the graph is the node and edge data handed to the widget. This also covers `updateAnomalyList`, `updateStats`, `updatePatterns`, notifications, the modal, feedback and tabs.
- The `fetch` and `EventSource` transport, JSON parsing of the stream and the reconnect timer are left out. The handlers take the parsed list.
- `test_connection`, the other Flask routes and the sample data of the demo page are left out.
