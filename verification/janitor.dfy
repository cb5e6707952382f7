/** One pass of the polling loop of `janitor` in loc-limiter.js.

    The network is abstracted: the scan list is a parameter, the detail
    fetch and the delete call are answered by a `Remote` oracle, and the
    calls the pass issues are returned as a trace. */
module Janitor {
  import opened Wrappers
  import opened LocExtractor
  import opened Retention

  /** An outbound call issued for one scan. */
  datatype Call = FetchDetails(id: string) | DeleteScan(id: string)

  /** How the service answers during one cycle: `details` holds the records
      a detail fetch returns (a missing id means the fetch threw), and
      deleting an id in `failingDeletes` throws. */
  datatype Remote = Remote(details: map<string, Scan>, failingDeletes: set<string>)

  /** The outcome of evaluating part of a feed: the processed set afterwards,
      the calls issued in order, and whether the outer `catch` was reached. */
  datatype CycleResult = CycleResult(processed: set<string>, calls: seq<Call>, aborted: bool)

  /** The loop body goes past both `continue`s. */
  predicate Eligible(s: Scan, processed: set<string>) {
    s.status == "Completed" && s.id !in processed
  }

  /** The LOC the detail fetch yields; a failed fetch leaves it unresolved. */
  function DetailLoc(id: string, remote: Remote): Option<int> {
    if id in remote.details then ExtractLoc(remote.details[id]) else None
  }

  /** The list record's LOC, falling back to the detail fetch when unresolved. */
  function ResolveLoc(s: Scan, remote: Remote): Option<int> {
    var listLoc := ExtractLoc(s);
    if listLoc.Some? then listLoc else DetailLoc(s.id, remote)
  }

  /** One iteration of the `for` loop over the feed. */
  function Evaluate(s: Scan, processed: set<string>, threshold: int, remote: Remote): CycleResult {
    if !Eligible(s, processed) then CycleResult(processed, [], false)
    else
      var fetch := if ExtractLoc(s).None? then [FetchDetails(s.id)] else [];
      match Decide(ResolveLoc(s, remote), threshold)
      case Keep => CycleResult(processed + {s.id}, fetch, false)
      case Delete =>
        if s.id in remote.failingDeletes then CycleResult(processed, fetch + [DeleteScan(s.id)], true)
        else CycleResult(processed + {s.id}, fetch + [DeleteScan(s.id)], false)
  }

  /** The loop over a listed feed: stops at the first scan whose deletion throws. */
  function Run(feed: seq<Scan>, processed: set<string>, threshold: int, remote: Remote): CycleResult
    decreases |feed|
  {
    if |feed| == 0 then CycleResult(processed, [], false)
    else
      var e := Evaluate(feed[0], processed, threshold, remote);
      if e.aborted then e
      else
        var rest := Run(feed[1..], e.processed, threshold, remote);
        CycleResult(rest.processed, e.calls + rest.calls, rest.aborted)
  }

  /** One whole cycle. A feed of `None` stands for a list call that threw:
      the outer `catch` is reached before any scan is looked at. */
  function Cycle(feed: Option<seq<Scan>>, processed: set<string>, threshold: int, remote: Remote): CycleResult {
    match feed
    case None => CycleResult(processed, [], true)
    case Some(scans) => Run(scans, processed, threshold, remote)
  }

  /** The environment of one cycle: what the list call returned (`None` when
      it threw) and how the service answers detail fetches and deletes. */
  datatype Tick = Tick(feed: Option<seq<Scan>>, remote: Remote)

  /** Successive cycles of the `while (true)` loop, each starting from the
      processed set the previous one left; a cycle that hits the outer
      `catch` does not stop the next. */
  function Cycles(ticks: seq<Tick>, processed: set<string>, threshold: int): (rs: seq<CycleResult>)
    ensures |rs| == |ticks|
    decreases |ticks|
  {
    if |ticks| == 0 then []
    else
      var c := Cycle(ticks[0].feed, processed, threshold, ticks[0].remote);
      [c] + Cycles(ticks[1..], c.processed, threshold)
  }

  /** `Run` on a suffix of the feed takes one `Evaluate` step. */
  lemma RunUnfold(scans: seq<Scan>, i: int, processed: set<string>, threshold: int, remote: Remote)
    requires 0 <= i < |scans|
    ensures var e := Evaluate(scans[i], processed, threshold, remote);
      var rest := Run(scans[i + 1..], e.processed, threshold, remote);
      Run(scans[i..], processed, threshold, remote) ==
        if e.aborted then e else CycleResult(rest.processed, e.calls + rest.calls, rest.aborted)
  {
    assert scans[i..][0] == scans[i] && scans[i..][1..] == scans[i + 1..];
  }

  /** The body of the source's `for` loop for one scan: the two `continue`s,
      the detail fallback, the decision and the delete call, which either
      returns or throws. */
  method VisitScan(s: Scan, processed0: set<string>, threshold: int, remote: Remote)
    returns (processed: set<string>, calls: seq<Call>, thrown: bool)
    ensures CycleResult(processed, calls, thrown) == Evaluate(s, processed0, threshold, remote)
  {
    processed, calls, thrown := processed0, [], false;
    if s.status != "Completed" {
      return;
    }
    if s.id in processed {
      return;
    }
    var loc := ExtractLoc(s);
    if loc.None? {
      calls := [FetchDetails(s.id)];
      if s.id in remote.details {
        loc := ExtractLoc(remote.details[s.id]);
      }
    }
    if loc.Some? && loc.value > threshold {
      calls := calls + [DeleteScan(s.id)];
      if s.id in remote.failingDeletes {
        thrown := true;
        return;
      }
    }
    processed := processed + {s.id};
  }

  /** The cycle as the source's loop, jumping out on a throwing delete; it
      computes exactly `Cycle`. */
  method RunCycle(feed: Option<seq<Scan>>, processed0: set<string>, threshold: int, remote: Remote)
    returns (processed: set<string>, calls: seq<Call>, aborted: bool)
    ensures CycleResult(processed, calls, aborted) == Cycle(feed, processed0, threshold, remote)
  {
    processed, calls, aborted := processed0, [], false;
    if feed.None? {
      aborted := true;
      return;
    }
    var scans := feed.value;
    var i := 0;
    assert scans[i..] == scans;
    while i < |scans|
      invariant 0 <= i <= |scans|
      invariant var rest := Run(scans[i..], processed, threshold, remote);
        Run(scans, processed0, threshold, remote) == CycleResult(rest.processed, calls + rest.calls, rest.aborted)
    {
      RunUnfold(scans, i, processed, threshold, remote);
      var next, issued, thrown := VisitScan(scans[i], processed, threshold, remote);
      ghost var rest := Run(scans[i + 1..], next, threshold, remote);
      assert calls + (issued + rest.calls) == (calls + issued) + rest.calls;
      calls := calls + issued;
      processed := next;
      if thrown {
        aborted := true;
        return;
      }
      i := i + 1;
    }
    assert scans[i..] == [];
  }
}
