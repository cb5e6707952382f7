/** What one cycle of the polling loop, and a sequence of cycles, promise:
    which scans are looked at, when details are fetched, when a scan is
    deleted, how the processed set grows, and what a throwing delete does. */
module JanitorProperties {
  import opened Wrappers
  import opened LocExtractor
  import opened Retention
  import opened Janitor

  /** Some record of the feed with id `x` has status "Completed". */
  ghost predicate CompletedIn(feed: seq<Scan>, x: string) {
    exists i :: 0 <= i < |feed| && feed[i].status == "Completed" && feed[i].id == x
  }

  /** `i` is the first "Completed" record of the feed with id `x`: the one a
      cycle evaluates, since later ones with that id find it processed. */
  ghost predicate IsFirstEvaluation(feed: seq<Scan>, x: string, i: int) {
    && 0 <= i < |feed|
    && feed[i].status == "Completed" && feed[i].id == x
    && forall j :: 0 <= j < i ==> !(feed[j].status == "Completed" && feed[j].id == x)
  }

  /** The cycle evaluates the scans before position `k` normally, then the
      delete of `feed[k]` throws and nothing after it is looked at. */
  ghost predicate AbortsAt(feed: seq<Scan>, processed: set<string>, threshold: int, remote: Remote, k: int) {
    && 0 <= k < |feed|
    && var pre := Run(feed[..k], processed, threshold, remote);
    && !pre.aborted
    && var e := Evaluate(feed[k], pre.processed, threshold, remote);
    && e.aborted
    && Run(feed, processed, threshold, remote) == CycleResult(pre.processed, pre.calls + e.calls, true)
  }

  /** No numeric `loc` at the top level of `r` nor in any of its entries. */
  ghost predicate NoLocAnywhere(r: Scan) {
    r.loc.None? &&
    (r.statusDetails.None? ||
     forall j :: 0 <= j < |r.statusDetails.value| ==> !HasLoc(r.statusDetails.value[j]))
  }

  /** With the detail fallback, a scan's LOC stays unresolved exactly when
      the list record has no numeric `loc` anywhere and the detail fetch
      either fails or returns a record with none either. */
  lemma ResolveLocUnresolvedIff(s: Scan, remote: Remote)
    ensures ResolveLoc(s, remote).None? <==>
      NoLocAnywhere(s) && (s.id !in remote.details || NoLocAnywhere(remote.details[s.id]))
  {
    UnresolvedIff(s);
    if s.id in remote.details {
      UnresolvedIff(remote.details[s.id]);
    }
  }

  /** The detail answer is never consulted for a resolved list record, and
      once resolved, the list value is the one used. */
  lemma ResolvedListRecordIgnoresDetails(s: Scan, remote1: Remote, remote2: Remote)
    requires !NoLocAnywhere(s)
    ensures ResolveLoc(s, remote1) == ResolveLoc(s, remote2) == ExtractLoc(s)
    ensures ResolveLoc(s, remote1).Some?
  {
    UnresolvedIff(s);
  }

  /** A scan without a numeric `loc` in its list record or its details is
      never deleted: it is kept and marked processed. */
  lemma ScanWithoutLocIsKept(s: Scan, processed: set<string>, threshold: int, remote: Remote)
    requires Eligible(s, processed)
    requires NoLocAnywhere(s) && (s.id !in remote.details || NoLocAnywhere(remote.details[s.id]))
    ensures Evaluate(s, processed, threshold, remote) == CycleResult(processed + {s.id}, [FetchDetails(s.id)], false)
  {
    ResolveLocUnresolvedIff(s, remote);
  }

  /** A scan that is not "Completed", or whose id is already processed, costs
      no call and leaves the processed set alone. */
  lemma IneligibleScanIsSkipped(s: Scan, processed: set<string>, threshold: int, remote: Remote)
    requires s.status != "Completed" || s.id in processed
    ensures Evaluate(s, processed, threshold, remote) == CycleResult(processed, [], false)
  {
  }

  /** Evaluating an eligible scan: details are fetched only when the list
      record is unresolved, the scan is deleted exactly when its resolved LOC
      is above the threshold, it is marked processed unless the delete
      throws, and only a throwing delete ends the cycle. */
  lemma EligibleScanEvaluation(s: Scan, processed: set<string>, threshold: int, remote: Remote)
    requires Eligible(s, processed)
    ensures var e := Evaluate(s, processed, threshold, remote);
      && (FetchDetails(s.id) in e.calls <==> ExtractLoc(s).None?)
      && (DeleteScan(s.id) in e.calls <==> Decide(ResolveLoc(s, remote), threshold) == Delete)
      && (forall c :: c in e.calls ==> c.id == s.id)
      && (e.aborted <==> Decide(ResolveLoc(s, remote), threshold) == Delete && s.id in remote.failingDeletes)
      && (e.aborted ==> e.processed == processed && e.calls[|e.calls| - 1] == DeleteScan(s.id))
      && (!e.aborted ==> e.processed == processed + {s.id})
  {
  }

  /** The processed set only grows, it grows only by ids of "Completed"
      records of the feed, and no call is issued for an id that was already
      processed or that no "Completed" record carries. */
  lemma {:induction false} RunGrows(feed: seq<Scan>, processed: set<string>, threshold: int, remote: Remote)
    ensures var r := Run(feed, processed, threshold, remote);
      && processed <= r.processed
      && (forall x :: x in r.processed && x !in processed ==> CompletedIn(feed, x))
      && (forall c :: c in r.calls ==> c.id !in processed && CompletedIn(feed, c.id))
    decreases |feed|
  {
    if |feed| > 0 {
      var e := Evaluate(feed[0], processed, threshold, remote);
      if !e.aborted {
        RunGrows(feed[1..], e.processed, threshold, remote);
        var rest := Run(feed[1..], e.processed, threshold, remote);
        forall x | CompletedIn(feed[1..], x)
          ensures CompletedIn(feed, x)
        {
          var i :| 0 <= i < |feed[1..]| && feed[1..][i].status == "Completed" && feed[1..][i].id == x;
          assert feed[i + 1] == feed[1..][i];
        }
        forall c | c in e.calls
          ensures c.id !in processed && CompletedIn(feed, c.id)
        {
          assert feed[0].id == c.id;
        }
      } else {
        forall c | c in e.calls
          ensures c.id !in processed && CompletedIn(feed, c.id)
        {
          assert feed[0].id == c.id;
        }
      }
    }
  }

  /** One scan costs at most one detail fetch and at most one delete, all
      naming that scan's id; an eligible scan whose delete did not throw is
      then processed, whether or not it cost a call. */
  lemma EvaluateCallsOnce(s: Scan, processed: set<string>, threshold: int, remote: Remote, x: string)
    ensures var e := Evaluate(s, processed, threshold, remote);
      && multiset(e.calls)[FetchDetails(x)] <= 1
      && multiset(e.calls)[DeleteScan(x)] <= 1
      && (forall c :: c in e.calls ==> c.id == s.id && Eligible(s, processed))
      && (Eligible(s, processed) && !e.aborted ==> s.id in e.processed)
  {
  }

  /** Within one cycle an id is fetched at most once and deleted at most
      once, however many records of the feed carry it. */
  lemma {:induction false} RunCallsOncePerId(feed: seq<Scan>, processed: set<string>, threshold: int, remote: Remote, x: string)
    ensures multiset(Run(feed, processed, threshold, remote).calls)[FetchDetails(x)] <= 1
    ensures multiset(Run(feed, processed, threshold, remote).calls)[DeleteScan(x)] <= 1
    decreases |feed|
  {
    if |feed| > 0 {
      var e := Evaluate(feed[0], processed, threshold, remote);
      EvaluateCallsOnce(feed[0], processed, threshold, remote, x);
      if !e.aborted {
        var rest := Run(feed[1..], e.processed, threshold, remote);
        RunCallsOncePerId(feed[1..], e.processed, threshold, remote, x);
        if FetchDetails(x) in e.calls || DeleteScan(x) in e.calls {
          RunGrows(feed[1..], e.processed, threshold, remote);
          assert x in e.processed;
          assert FetchDetails(x) !in rest.calls && DeleteScan(x) !in rest.calls;
        }
        assert multiset(e.calls + rest.calls) == multiset(e.calls) + multiset(rest.calls);
      }
    }
  }

  /** A cycle that is not cut short leaves the id of every "Completed"
      record of the feed processed. */
  lemma {:induction false} RunMarksEveryCompleted(feed: seq<Scan>, processed: set<string>, threshold: int, remote: Remote)
    requires !Run(feed, processed, threshold, remote).aborted
    ensures forall i :: 0 <= i < |feed| && feed[i].status == "Completed" ==>
      feed[i].id in Run(feed, processed, threshold, remote).processed
    decreases |feed|
  {
    if |feed| > 0 {
      var e := Evaluate(feed[0], processed, threshold, remote);
      RunMarksEveryCompleted(feed[1..], e.processed, threshold, remote);
      RunGrows(feed[1..], e.processed, threshold, remote);
      forall i | 0 < i < |feed| && feed[i].status == "Completed"
        ensures feed[i].id in Run(feed, processed, threshold, remote).processed
      {
        assert feed[1..][i - 1] == feed[i];
      }
    }
  }

  /** A feed whose "Completed" ids are all processed issues no call and
      changes nothing. */
  lemma {:induction false} RunOnSeenFeedIsQuiet(feed: seq<Scan>, processed: set<string>, threshold: int, remote: Remote)
    requires forall i :: 0 <= i < |feed| && feed[i].status == "Completed" ==> feed[i].id in processed
    ensures Run(feed, processed, threshold, remote) == CycleResult(processed, [], false)
    decreases |feed|
  {
    if |feed| > 0 {
      assert forall i :: 0 <= i < |feed[1..]| ==> feed[1..][i] == feed[i + 1];
      RunOnSeenFeedIsQuiet(feed[1..], processed, threshold, remote);
    }
  }

  /** Idempotence: once a cycle over a feed has completed, the same feed
      again issues no detail fetch and no deletion, whatever the service answers. */
  lemma CycleIsIdempotent(feed: seq<Scan>, processed: set<string>, threshold: int, remote1: Remote, remote2: Remote)
    requires !Cycle(Some(feed), processed, threshold, remote1).aborted
    ensures var c1 := Cycle(Some(feed), processed, threshold, remote1);
      Cycle(Some(feed), c1.processed, threshold, remote2) == CycleResult(c1.processed, [], false)
  {
    RunMarksEveryCompleted(feed, processed, threshold, remote1);
    RunOnSeenFeedIsQuiet(feed, Run(feed, processed, threshold, remote1).processed, threshold, remote2);
  }

  /** In a cycle that completes, the first "Completed" record with an
      unprocessed id is the one that decides: details are fetched for it
      exactly when its list LOC is unresolved, it is deleted exactly when its
      resolved LOC is above the threshold, and it ends up processed. */
  lemma {:induction false} RunFirstEvaluationDecides(
    feed: seq<Scan>, processed: set<string>, threshold: int, remote: Remote, x: string, i: int)
    requires x !in processed && IsFirstEvaluation(feed, x, i)
    requires !Run(feed, processed, threshold, remote).aborted
    ensures var r := Run(feed, processed, threshold, remote);
      && x in r.processed
      && (FetchDetails(x) in r.calls <==> ExtractLoc(feed[i]).None?)
      && (DeleteScan(x) in r.calls <==> Decide(ResolveLoc(feed[i], remote), threshold) == Delete)
    decreases |feed|
  {
    var e := Evaluate(feed[0], processed, threshold, remote);
    var rest := Run(feed[1..], e.processed, threshold, remote);
    if i == 0 {
      EligibleScanEvaluation(feed[0], processed, threshold, remote);
      RunGrows(feed[1..], e.processed, threshold, remote);
    } else {
      assert feed[0].id != x || feed[0].status != "Completed";
      assert forall c :: c in e.calls ==> c.id == feed[0].id;
      assert x !in e.processed;
      assert IsFirstEvaluation(feed[1..], x, i - 1) by {
        assert feed[1..][i - 1] == feed[i];
        forall j | 0 <= j < i - 1
          ensures !(feed[1..][j].status == "Completed" && feed[1..][j].id == x)
        {
          assert feed[1..][j] == feed[j + 1];
        }
      }
      RunFirstEvaluationDecides(feed[1..], e.processed, threshold, remote, x, i - 1);
      assert feed[1..][i - 1] == feed[i];
    }
  }

  /** An abort position of the tail is one position further in the feed. */
  lemma AbortsAtShift(feed: seq<Scan>, processed: set<string>, threshold: int, remote: Remote, k: int)
    requires |feed| > 0
    requires !Evaluate(feed[0], processed, threshold, remote).aborted
    requires AbortsAt(feed[1..], Evaluate(feed[0], processed, threshold, remote).processed, threshold, remote, k)
    ensures AbortsAt(feed, processed, threshold, remote, k + 1)
  {
    var e := Evaluate(feed[0], processed, threshold, remote);
    var tail := feed[1..];
    assert feed[..k + 1][0] == feed[0] && feed[..k + 1][1..] == tail[..k];
    var pre' := Run(tail[..k], e.processed, threshold, remote);
    var e' := Evaluate(tail[k], pre'.processed, threshold, remote);
    assert feed[k + 1] == tail[k];
    assert e.calls + (pre'.calls + e'.calls) == (e.calls + pre'.calls) + e'.calls;
  }

  /** A cycle cut short has a position where the delete threw. */
  lemma {:induction false} RunAbortsSomewhere(feed: seq<Scan>, processed: set<string>, threshold: int, remote: Remote)
    requires Run(feed, processed, threshold, remote).aborted
    ensures exists k :: AbortsAt(feed, processed, threshold, remote, k)
    decreases |feed|
  {
    var e := Evaluate(feed[0], processed, threshold, remote);
    if e.aborted {
      assert feed[..0] == [];
      EligibleScanEvaluation(feed[0], processed, threshold, remote);
      assert AbortsAt(feed, processed, threshold, remote, 0);
    } else {
      RunAbortsSomewhere(feed[1..], e.processed, threshold, remote);
      var k :| AbortsAt(feed[1..], e.processed, threshold, remote, k);
      AbortsAtShift(feed, processed, threshold, remote, k);
    }
  }

  /** A throwing delete ends the cycle: there is a position `k` before which
      the cycle ran normally, at which the delete of `feed[k]` threw, whose
      scan stays unprocessed, and after which nothing was evaluated. */
  lemma RunAbortsAtThrowingDelete(feed: seq<Scan>, processed: set<string>, threshold: int, remote: Remote)
    requires Run(feed, processed, threshold, remote).aborted
    ensures var r := Run(feed, processed, threshold, remote);
      exists k :: AbortsAt(feed, processed, threshold, remote, k)
        && feed[k].id !in r.processed
        && feed[k].id in remote.failingDeletes
        && |r.calls| > 0 && r.calls[|r.calls| - 1] == DeleteScan(feed[k].id)
  {
    RunAbortsSomewhere(feed, processed, threshold, remote);
    var k :| AbortsAt(feed, processed, threshold, remote, k);
    var pre := Run(feed[..k], processed, threshold, remote);
    EligibleScanEvaluation(feed[k], pre.processed, threshold, remote);
  }

  /** Cycle `n` starts from the set cycle `n - 1` left. */
  lemma {:induction false} CyclesChain(ticks: seq<Tick>, processed: set<string>, threshold: int)
    ensures var rs := Cycles(ticks, processed, threshold);
      && (|ticks| > 0 ==> rs[0] == Cycle(ticks[0].feed, processed, threshold, ticks[0].remote))
      && forall n :: 0 < n < |ticks| ==> rs[n] == Cycle(ticks[n].feed, rs[n - 1].processed, threshold, ticks[n].remote)
    decreases |ticks|
  {
    if |ticks| > 0 {
      var c := Cycle(ticks[0].feed, processed, threshold, ticks[0].remote);
      CyclesChain(ticks[1..], c.processed, threshold);
      var rs := Cycles(ticks, processed, threshold);
      forall n | 1 < n < |ticks|
        ensures rs[n] == Cycle(ticks[n].feed, rs[n - 1].processed, threshold, ticks[n].remote)
      {
        assert ticks[1..][n - 1] == ticks[n];
      }
    }
  }

  /** `r` keeps every id of `before` processed and issues no call for any of them. */
  ghost predicate LeavesAlone(before: set<string>, r: CycleResult) {
    before <= r.processed && forall c :: c in r.calls ==> c.id !in before
  }

  /** One cycle keeps the growth facts of `RunGrows`. */
  lemma CycleGrows(feed: Option<seq<Scan>>, processed: set<string>, threshold: int, remote: Remote)
    ensures LeavesAlone(processed, Cycle(feed, processed, threshold, remote))
  {
    if feed.Some? {
      RunGrows(feed.value, processed, threshold, remote);
    }
  }

  /** `LeavesAlone` carries over to a smaller set. */
  lemma LeavesAloneSubset(a: set<string>, b: set<string>, r: CycleResult)
    requires a <= b && LeavesAlone(b, r)
    ensures LeavesAlone(a, r)
  {
  }

  /** Across cycles the processed set only grows, and an id processed by
      some cycle is never fetched or deleted by a later one. */
  lemma {:induction false} CyclesNeverRevisit(ticks: seq<Tick>, processed: set<string>, threshold: int)
    ensures forall n :: 0 <= n < |ticks| ==> LeavesAlone(processed, Cycles(ticks, processed, threshold)[n])
    ensures forall m, n :: 0 <= m < n < |ticks| ==>
      LeavesAlone(Cycles(ticks, processed, threshold)[m].processed, Cycles(ticks, processed, threshold)[n])
    decreases |ticks|
  {
    if |ticks| > 0 {
      var c := Cycle(ticks[0].feed, processed, threshold, ticks[0].remote);
      CycleGrows(ticks[0].feed, processed, threshold, ticks[0].remote);
      CyclesNeverRevisit(ticks[1..], c.processed, threshold);
      var rs := Cycles(ticks, processed, threshold);
      var tail := Cycles(ticks[1..], c.processed, threshold);
      assert rs[0] == c;
      forall n | 0 < n < |rs|
        ensures LeavesAlone(processed, rs[n])
      {
        assert rs[n] == tail[n - 1];
        LeavesAloneSubset(processed, c.processed, tail[n - 1]);
      }
      forall m, n | 0 <= m < n < |rs|
        ensures LeavesAlone(rs[m].processed, rs[n])
      {
        assert rs[n] == tail[n - 1];
        if m > 0 {
          assert rs[m] == tail[m - 1];
        }
      }
    }
  }

  /** A feed seen again after a cycle over it completed is quiet: the later
      cycle issues no call and leaves the processed set as it found it. */
  lemma RepeatedFeedIsQuiet(ticks: seq<Tick>, processed: set<string>, threshold: int, m: int, n: int)
    requires 0 <= m < n < |ticks|
    requires ticks[m].feed.Some? && ticks[n].feed == ticks[m].feed
    requires !Cycles(ticks, processed, threshold)[m].aborted
    ensures var rs := Cycles(ticks, processed, threshold);
      rs[n] == CycleResult(rs[n - 1].processed, [], false)
  {
    var rs := Cycles(ticks, processed, threshold);
    var feed := ticks[m].feed.value;
    CyclesChain(ticks, processed, threshold);
    CyclesNeverRevisit(ticks, processed, threshold);
    var before := if m == 0 then processed else rs[m - 1].processed;
    RunMarksEveryCompleted(feed, before, threshold, ticks[m].remote);
    if m < n - 1 {
      assert LeavesAlone(rs[m].processed, rs[n - 1]);
    }
    RunOnSeenFeedIsQuiet(feed, rs[n - 1].processed, threshold, ticks[n].remote);
  }
}
