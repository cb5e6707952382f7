/** Concrete runs of the model on small feeds: the boundary and end-to-end
    cases the system is expected to exhibit. */
module Scenarios {
  import opened Wrappers
  import opened LocExtractor
  import opened Retention
  import opened Janitor

  /** A service whose detail fetches all fail and whose deletes all succeed. */
  const Quiet := Remote(map[], {})

  /** An oversized completed scan is deleted once; the same feed again is quiet. */
  lemma OversizedScanDeletedOnce()
    ensures var feed := [Scan("s1", "Completed", Some(50000000), None)];
      var c1 := Cycle(Some(feed), {}, LocThreshold, Quiet);
      && c1 == CycleResult({"s1"}, [DeleteScan("s1")], false)
      && Cycle(Some(feed), c1.processed, LocThreshold, Quiet) == CycleResult({"s1"}, [], false)
  {
  }

  /** A scan exactly at the threshold is kept, one line more is deleted. */
  lemma ThresholdScanKept()
    ensures Cycle(Some([Scan("b", "Completed", Some(LocThreshold), None)]), {}, LocThreshold, Quiet)
      == CycleResult({"b"}, [], false)
    ensures Cycle(Some([Scan("b", "Completed", Some(LocThreshold + 1), None)]), {}, LocThreshold, Quiet)
      == CycleResult({"b"}, [DeleteScan("b")], false)
  {
    var at := Scan("b", "Completed", Some(LocThreshold), None);
    var above := Scan("b", "Completed", Some(LocThreshold + 1), None);
    assert Evaluate(at, {}, LocThreshold, Quiet) == CycleResult({"b"}, [], false);
    assert Evaluate(above, {}, LocThreshold, Quiet) == CycleResult({"b"}, [DeleteScan("b")], false);
    assert [at][1..] == [] && [above][1..] == [];
    assert Run([at], {}, LocThreshold, Quiet) == CycleResult({"b"}, [] + [], false);
  }

  /** A small sast breakdown is read from the list record: kept, no call. */
  lemma SmallSastScanKept()
    ensures Cycle(Some([Scan("s2", "Completed", None, Some([Detail(Some("SAST"), Some(10))]))]), {}, 30, Quiet)
      == CycleResult({"s2"}, [], false)
  {
    assert LowerCase("SAST") == "sast";
  }

  /** A running scan is neither evaluated nor marked. */
  lemma RunningScanIgnored()
    ensures Cycle(Some([Scan("s3", "Running", Some(50000000), None)]), {}, LocThreshold, Quiet)
      == CycleResult({}, [], false)
  {
  }

  /** The sast entry wins over an earlier entry with a numeric loc, and a
      sast entry without one is passed over. */
  lemma SastPrecedence()
    ensures ExtractLoc(Scan("x", "Completed", None,
      Some([Detail(Some("sca"), Some(5)), Detail(Some("Sast"), None), Detail(Some("sast"), Some(7))]))) == Some(7)
    ensures ExtractLoc(Scan("x", "Completed", None,
      Some([Detail(Some("sca"), Some(5)), Detail(Some("Sast"), None)]))) == Some(5)
  {
    assert LowerCase("Sast") == "sast";
    assert LowerCase("sca") != "sast";
    assert LowerCase("sast") == "sast";
  }

  /** Unresolved on the list, resolved by the detail fetch, and deleted. */
  lemma DetailFallbackDeletes()
    ensures var remote := Remote(map["d" := Scan("d", "Completed", Some(LocThreshold + 5), None)], {});
      Cycle(Some([Scan("d", "Completed", None, None)]), {}, LocThreshold, remote)
        == CycleResult({"d"}, [FetchDetails("d"), DeleteScan("d")], false)
  {
  }

  /** A throwing delete leaves its scan unprocessed and skips the rest of the feed. */
  lemma ThrowingDeleteAbandonsCycle()
    ensures var feed := [Scan("a", "Completed", Some(LocThreshold + 1), None),
                         Scan("b", "Completed", Some(LocThreshold + 1), None)];
      Cycle(Some(feed), {}, LocThreshold, Remote(map[], {"a"})) == CycleResult({}, [DeleteScan("a")], true)
  {
  }

  /** A scan whose delete threw is not remembered: here the next cycle lists
      it alone and its delete succeeds, so it is evaluated and deleted again. */
  lemma ThrowingDeleteRetriedNextCycle()
    ensures var a := Scan("a", "Completed", Some(LocThreshold + 1), None);
      var ticks := [Tick(Some([a]), Remote(map[], {"a"})),
                    Tick(Some([a]), Quiet)];
      Cycles(ticks, {}, LocThreshold)
        == [CycleResult({}, [DeleteScan("a")], true), CycleResult({"a"}, [DeleteScan("a")], false)]
  {
    var a := Scan("a", "Completed", Some(LocThreshold + 1), None);
    var ticks := [Tick(Some([a]), Remote(map[], {"a"})),
                  Tick(Some([a]), Quiet)];
    var c0 := CycleResult({}, [DeleteScan("a")], true);
    var c1 := CycleResult({"a"}, [DeleteScan("a")], false);
    assert Evaluate(a, {}, LocThreshold, Remote(map[], {"a"})) == c0;
    assert Cycle(Some([a]), {}, LocThreshold, Remote(map[], {"a"})) == c0;
    assert [a][1..] == [];
    assert Evaluate(a, {}, LocThreshold, Quiet) == c1;
    assert Run([a], {}, LocThreshold, Quiet) == CycleResult({"a"}, [DeleteScan("a")] + [], false);
    assert Cycle(Some([a]), {}, LocThreshold, Quiet) == c1;
    assert ticks[1..][1..] == [];
    assert Cycles(ticks[1..], {}, LocThreshold) == [c1] + [];
  }
}
