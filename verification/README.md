# LOC limiter: a Dafny model of the scan janitor

The janitor polls a static-analysis service for scans. It reads each
completed scan's lines-of-code (LOC) figure and deletes any scan whose LOC
is above a threshold (30,000,000 in the deployed script). It remembers every
scan id it has evaluated, except one whose delete threw, so no other scan is
decided twice while the process runs. A scan whose delete threw is evaluated
again by a later cycle that reaches it, and deleted again if its LOC is still
above the threshold.

The model covers three parts of `loc-limiter.js`:

- **LOC extraction** (`LocExtractor`). `ExtractLoc` applies the tiered rule
  of `extractLoc`, where the first match wins. The tiers are: a numeric
  top-level `loc`; then the first `statusDetails` entry named "sast" (any
  letter case) that has a numeric `loc`; then the first entry with any
  numeric `loc`; otherwise the LOC is unresolved. `FindIndex` models
  `Array.prototype.find` by the position where it stops.
- **The retention decision** (`Retention`). `Decide` deletes only when the
  LOC is resolved and strictly greater than the threshold.
- **One pass of the polling loop** (`Janitor`). `Evaluate` is one iteration
  of the `for` loop: it skips scans that are not "Completed" and scans
  already processed; it falls back to the detail fetch only when the list
  record is unresolved; it decides; it deletes; it marks the id processed.
  `Run` and `Cycle` cover a whole feed. A throwing delete reaches the outer
  `catch`: that scan stays unprocessed and the rest of the feed is not
  evaluated. `RunCycle` is the same pass written as the source's imperative
  loop, proved equal to `Cycle`. `Cycles` chains
  passes the way the `while (true)` loop does.

The network is replaced by parameters:

- The listed feed is an `Option<seq<Scan>>`. `None` means the list call threw.
- A `Remote` value answers detail fetches. It maps an id to the record the
  fetch returns, and an id missing from the map means the fetch threw.
- The same `Remote` value lists the ids whose delete throws.
- A pass returns the ordered trace of calls it issued (`FetchDetails`,
  `DeleteScan`). A delete that threw is still in the trace, as its last call.

Three behaviours of the code shape the model:

- A throwing `deleteScan` skips `processedScans.add` for that scan and
  abandons the rest of the cycle (loc-limiter.js:116-127).
- A throwing `listScans` reaches the outer `catch` (loc-limiter.js:96, 125).
  The model represents it as a `None` feed: no calls, and the set unchanged.
- Delete is the only action, and only "Completed" scans are evaluated
  (loc-limiter.js:99, 116).

## Model

| member | source | states |
|---|---|---|
| LocExtractor.FindIndex | loc-limiter.js:80-85 | `find` stops at the first element satisfying the predicate, scanning in order, and finds nothing exactly when no element satisfies it |
| LocExtractor.TopLevelLocWins | loc-limiter.js:74-75 | a numeric top-level `loc` is the result, whatever `statusDetails` holds |
| LocExtractor.FirstSastEntryWins | loc-limiter.js:80-83 | with no top-level value, the first entry whose name lower-cases to "sast" and whose `loc` is numeric gives the result, even when earlier entries have a numeric `loc` |
| LocExtractor.FirstNumericEntryFallback | loc-limiter.js:85-86 | with neither a top-level value nor a qualifying sast entry, the first entry in order with a numeric `loc` gives the result |
| LocExtractor.UnresolvedIff | loc-limiter.js:73-87 | the LOC is unresolved exactly when there is no top-level value and `statusDetails` is not an array or has no entry with a numeric `loc` |
| LocExtractor.EntryWithoutLocIsIgnored | loc-limiter.js:80-86 | removing an entry without a numeric `loc` never changes the result, so a sast entry lacking one is passed over |
| LocExtractor.SastNameIff | loc-limiter.js:81 | a name passes the sast test exactly when it is "sast" in some mix of upper and lower case |
| Retention.ThresholdBoundary | loc-limiter.js:115 | a LOC equal to the threshold is kept, one more is deleted, and an unresolved LOC is kept |
| Retention.DecideMonotone | loc-limiter.js:115 | if a scan is deleted, every scan with a larger LOC is deleted too |
| Janitor.VisitScan | loc-limiter.js:98-121 | the loop body as written (the two `continue`s, the detail fallback, the delete call that returns or throws, the mark) computes `Evaluate` |
| Janitor.RunCycle | loc-limiter.js:95-127 | the imperative loop over the listed feed, which leaves on a throwing delete or a throwing list call, computes `Cycle` |
| JanitorProperties.ResolveLocUnresolvedIff | loc-limiter.js:102-113 | with the detail fallback, the LOC stays unresolved exactly when the list record has no numeric `loc` anywhere and the detail fetch fails or returns a record with none either |
| JanitorProperties.ResolvedListRecordIgnoresDetails | loc-limiter.js:102-103 | when the list record has a numeric `loc` somewhere, its extracted value is used whatever the detail fetch would answer |
| JanitorProperties.ScanWithoutLocIsKept | loc-limiter.js:102-121 | an evaluated scan with no numeric `loc` in its list record, whose detail fetch fails or returns a record with none either, costs one detail fetch, is kept, is marked processed, and does not end the cycle |
| JanitorProperties.IneligibleScanIsSkipped | loc-limiter.js:99-100 | a scan that is not "Completed", or whose id is already processed, causes no call and is not added to the set |
| JanitorProperties.EligibleScanEvaluation | loc-limiter.js:102-121 | for an evaluated scan: details are fetched exactly when the list LOC is unresolved; it is deleted exactly when the resolved LOC is above the threshold; only a throwing delete ends the cycle, and it leaves the scan unmarked; otherwise the id is added |
| JanitorProperties.RunGrows | loc-limiter.js:98-122 | the processed set only grows, and only by ids of "Completed" records; no call is issued for an id already processed |
| JanitorProperties.EvaluateCallsOnce | loc-limiter.js:98-121 | one scan costs at most one detail fetch and at most one delete, both naming its own id and only when it is eligible; an eligible scan whose delete did not throw is then processed, whether or not it cost a call |
| JanitorProperties.RunCallsOncePerId | loc-limiter.js:98-122 | within one cycle each id is fetched at most once and deleted at most once, even when the feed lists it several times, so one service answer per id per cycle suffices |
| JanitorProperties.RunMarksEveryCompleted | loc-limiter.js:98-122 | after a cycle that completes, every "Completed" id of the feed is processed |
| JanitorProperties.RunOnSeenFeedIsQuiet | loc-limiter.js:99-100 | a feed whose "Completed" ids are all processed issues no call and changes nothing |
| JanitorProperties.CycleIsIdempotent | loc-limiter.js:96-122 | after a completed cycle over a feed, the same feed again issues no detail fetch and no deletion, whatever the service answers |
| JanitorProperties.RunFirstEvaluationDecides | loc-limiter.js:98-122 | in a completed cycle, the first "Completed" record with an unprocessed id decides that id: it is fetched exactly when its list LOC is unresolved, deleted exactly when its resolved LOC is above the threshold, and marked |
| JanitorProperties.RunAbortsAtThrowingDelete | loc-limiter.js:115-127 | a cycle cut short has a position where the delete threw: the scans before it were evaluated normally, that scan stays unprocessed, its delete is the last call, and nothing after it is evaluated |
| Janitor.Cycles | loc-limiter.js:94-129 | successive passes of the `while (true)` loop, one result per cycle |
| JanitorProperties.CyclesChain | loc-limiter.js:94-129 | each cycle starts from the processed set the previous cycle left, including after a cycle that hit the outer `catch` |
| JanitorProperties.CycleGrows | loc-limiter.js:95-127 | one cycle, including one whose list call throws, keeps every processed id and issues no call for any of them |
| JanitorProperties.CyclesNeverRevisit | loc-limiter.js:94-129 | across cycles the set only grows, and an id processed by one cycle is never fetched or deleted by a later one |
| JanitorProperties.RepeatedFeedIsQuiet | loc-limiter.js:94-129 | a feed that comes back after a cycle over it completed issues no call and leaves the set as it was |
| Scenarios.OversizedScanDeletedOnce | loc-limiter.js:115-121 | a completed scan of 50,000,000 lines is deleted once under the deployed threshold, and the same feed again issues nothing |
| Scenarios.ThresholdScanKept | loc-limiter.js:12 | under the deployed threshold of 30,000,000, a scan of exactly that size is kept and one of 30,000,001 is deleted |
| Scenarios.SmallSastScanKept | loc-limiter.js:80-83 | a scan whose only LOC is an entry "SAST" of 10 lines is kept under threshold 30, with no call |
| Scenarios.RunningScanIgnored | loc-limiter.js:99 | a "Running" scan is neither evaluated nor marked |
| Scenarios.SastPrecedence | loc-limiter.js:80-86 | a later sast entry beats an earlier numeric entry; a sast entry with no LOC falls through to the numeric entry |
| Scenarios.DetailFallbackDeletes | loc-limiter.js:102-116 | a list record with no LOC is resolved by the detail fetch and then deleted |
| Scenarios.ThrowingDeleteRetriedNextCycle | loc-limiter.js:116-127 | a scan whose delete threw is not remembered: with the same one-scan feed next cycle and a delete that now succeeds, that cycle evaluates it again and deletes it |
| Scenarios.ThrowingDeleteAbandonsCycle | loc-limiter.js:116-127 | when the first delete throws, its scan stays unprocessed and the second oversized scan is not evaluated |

## Left out

- HTTP calls (token exchange, list, details, delete) and header construction (loc-limiter.js:20-65) are foreign I/O. They are replaced by the feed parameter and the `Remote` oracle. The list call's `limit: 1000` and the `data.scans ?? []` default only shape the feed.
- Environment loading, the region and the URLs (loc-limiter.js:1-13) are configuration. The threshold is a parameter, and `LocThreshold` is the deployed value. `POLL_INTERVAL` is not modelled.
- The `setTimeout` sleeps (loc-limiter.js:124, 127) are timing. The infinite loop is modelled as a finite sequence of cycles (`Cycles`).
- `toNumber` (loc-limiter.js:68-71) is JavaScript `Number()` coercion with `Number.isFinite`. The model starts from already-coerced values, `Option<int>` with `None` when the coerced value is not finite, and does not model the coercion itself. Non-integer finite values are not represented.
- `toLowerCase` is modelled on ASCII letters only. This is exact for the comparison with "sast", because no other character lower-cases to 's', 'a' or 't'.
- Malformed payloads are not modelled: a `null` entry in `statusDetails` or a `null` scan in the feed. These make the `find` callback or the loop body throw a TypeError.
- Console logging and the module-level `accessToken` (loc-limiter.js:16, 34-35) carry no decision logic.
