/**
  The main loop of the program: walk the enumerated devices in order, number
  them from 1, process the selected ones (selector 0 means all of them), keep
  going after a device fails while remembering that one did, and report
  "device not found" when nothing was processed. In list mode devices are
  only numbered and listed.

  The loop is stated once for any per-device step `process`; the program's
  loop is the instance whose step is `ProcessDevice`.
 */
module MainLoop {
  import opened DeviceProcessing
  import opened DeviceSelection

  /** A per-device step: 1-based position and transport results to a report. */
  type Processor = (nat, DeviceIo) -> DeviceReport

  /** The loop's variables: devices counted, devices processed, the failure flag, and the output. */
  datatype RunState = RunState(
    devCount: nat,
    procCount: nat,
    failed: bool,
    reports: seq<DeviceReport>,
    listed: seq<nat>)

  const Start := RunState(0, 0, false, [], [])

  /** One pass of the loop body for the next enumerated device. */
  function Step(process: Processor, cfg: Config, st: RunState, io: DeviceIo): RunState
  {
    var n := st.devCount + 1;
    if cfg.showDevList then
      st.(devCount := n, listed := st.listed + [n])
    else if Selected(cfg.devNumber, n) then
      var rep := process(n, io);
      st.(devCount := n, procCount := st.procCount + 1,
          failed := st.failed || |rep.errors| > 0, reports := st.reports + [rep])
    else
      st.(devCount := n)
  }

  /** The loop over the enumeration, as a left fold. */
  function ScanWith(process: Processor, cfg: Config, devs: seq<DeviceIo>): RunState
    decreases |devs|
  {
    if |devs| == 0 then Start
    else Step(process, cfg, ScanWith(process, cfg, devs[..|devs| - 1]), devs[|devs| - 1])
  }

  /** After the loop: outside list mode, nothing processed means "device not found". */
  function Finish(cfg: Config, st: RunState): RunState
  {
    if !cfg.showDevList && st.procCount == 0 then st.(failed := true) else st
  }

  /** The program's step. */
  function ProgramStep(cfg: Config): Processor
  {
    (k: nat, io: DeviceIo) => ProcessDevice(cfg, k, io)
  }

  /** The program's loop, followed by the "device not found" check. */
  function Run(cfg: Config, devs: seq<DeviceIo>): RunState
  {
    Finish(cfg, ScanWith(ProgramStep(cfg), cfg, devs))
  }

  /** The reports are, in order, the step applied to each selected position and its own results. */
  predicate ReportsMatch(process: Processor, s: int, devs: seq<DeviceIo>, reports: seq<DeviceReport>)
  {
    var ps := SelectedPositions(s, |devs|);
    && |reports| == |ps|
    && forall i :: 0 <= i < |ps| ==> reports[i] == process(ps[i], devs[ps[i] - 1])
  }

  predicate AnyFailed(reports: seq<DeviceReport>)
  {
    exists i :: 0 <= i < |reports| && |reports[i].errors| > 0
  }

  /** What the loop state says about the devices seen so far. */
  predicate Accounts(process: Processor, cfg: Config, devs: seq<DeviceIo>, st: RunState)
  {
    && st.devCount == |devs|
    && (cfg.showDevList ==>
          st.procCount == 0 && st.reports == [] && !st.failed && st.listed == Positions(|devs|))
    && (!cfg.showDevList ==>
          && st.listed == []
          && st.procCount == |st.reports|
          && ReportsMatch(process, cfg.devNumber, devs, st.reports)
          && (st.failed <==> AnyFailed(st.reports)))
  }

  lemma AnyFailedAppend(reports: seq<DeviceReport>, rep: DeviceReport)
    ensures AnyFailed(reports + [rep]) <==> AnyFailed(reports) || |rep.errors| > 0
  {
    var all := reports + [rep];
    if AnyFailed(reports) {
      var i :| 0 <= i < |reports| && |reports[i].errors| > 0;
      assert all[i] == reports[i];
    }
    if |rep.errors| > 0 {
      assert all[|reports|] == rep;
    }
  }

  /** A selected device appended to the enumeration adds its report at the end. */
  lemma ReportsMatchSelected(process: Processor, s: int, prefix: seq<DeviceIo>, io: DeviceIo, reports: seq<DeviceReport>)
    requires ReportsMatch(process, s, prefix, reports)
    requires Selected(s, |prefix| + 1)
    ensures ReportsMatch(process, s, prefix + [io], reports + [process(|prefix| + 1, io)])
  {
    var n := |prefix| + 1;
    var devs := prefix + [io];
    var ps := SelectedPositions(s, n - 1);
    var ps' := ps + [n];
    var reports' := reports + [process(n, io)];
    assert SelectedPositions(s, n) == ps';
    forall i | 0 <= i < |ps'|
      ensures reports'[i] == process(ps'[i], devs[ps'[i] - 1])
    {
      if i < |ps| {
        assert ps'[i] == ps[i] && reports'[i] == reports[i];
        assert devs[ps[i] - 1] == prefix[ps[i] - 1];
      }
    }
  }

  /** A device that is not selected appended to the enumeration adds nothing. */
  lemma ReportsMatchSkipped(process: Processor, s: int, prefix: seq<DeviceIo>, io: DeviceIo, reports: seq<DeviceReport>)
    requires ReportsMatch(process, s, prefix, reports)
    requires !Selected(s, |prefix| + 1)
    ensures ReportsMatch(process, s, prefix + [io], reports)
  {
    var n := |prefix| + 1;
    var devs := prefix + [io];
    var ps := SelectedPositions(s, n - 1);
    assert SelectedPositions(s, n) == ps;
    forall i | 0 <= i < |ps|
      ensures reports[i] == process(ps[i], devs[ps[i] - 1])
    {
      assert devs[ps[i] - 1] == prefix[ps[i] - 1];
    }
  }

  /** The fold processes exactly the selected devices, in order, each on its own transport results. */
  lemma {:induction false} ScanAccounts(process: Processor, cfg: Config, devs: seq<DeviceIo>)
    ensures Accounts(process, cfg, devs, ScanWith(process, cfg, devs))
    decreases |devs|
  {
    if |devs| > 0 {
      var n := |devs|;
      var prefix, io := devs[..n - 1], devs[n - 1];
      assert devs == prefix + [io];
      ScanAccounts(process, cfg, prefix);
      var st := ScanWith(process, cfg, prefix);
      assert ScanWith(process, cfg, devs) == Step(process, cfg, st, io);
      if cfg.showDevList {
        assert Positions(n - 1) + [n] == Positions(n);
      } else {
        if Selected(cfg.devNumber, n) {
          ReportsMatchSelected(process, cfg.devNumber, prefix, io, st.reports);
          AnyFailedAppend(st.reports, process(n, io));
        } else {
          ReportsMatchSkipped(process, cfg.devNumber, prefix, io, st.reports);
        }
      }
    }
  }

  /** The fold over one more device is one more step. */
  lemma ScanWithNext(process: Processor, cfg: Config, devs: seq<DeviceIo>, i: nat)
    requires i < |devs|
    ensures ScanWith(process, cfg, devs[..i + 1]) == Step(process, cfg, ScanWith(process, cfg, devs[..i]), devs[i])
  {
    assert devs[..i + 1][..i] == devs[..i];
  }

  /** Matching reports record a failure exactly when the step fails on some selected device. */
  lemma AnyFailedIff(process: Processor, s: int, devs: seq<DeviceIo>, reports: seq<DeviceReport>)
    requires ReportsMatch(process, s, devs, reports)
    ensures AnyFailed(reports) <==>
              exists k :: 1 <= k <= |devs| && Selected(s, k) && |process(k, devs[k - 1]).errors| > 0
  {
    var ps := SelectedPositions(s, |devs|);
    if AnyFailed(reports) {
      var i :| 0 <= i < |reports| && |reports[i].errors| > 0;
      var k := ps[i];
      assert reports[i] == process(k, devs[k - 1]);
    }
    if exists k :: 1 <= k <= |devs| && Selected(s, k) && |process(k, devs[k - 1]).errors| > 0 {
      var k :| 1 <= k <= |devs| && Selected(s, k) && |process(k, devs[k - 1]).errors| > 0;
      var i := PositionIndex(s, |devs|, k);
      assert reports[i] == process(k, devs[k - 1]);
    }
  }

  /** Outside list mode, the run processes every device, exactly one, or none, by the selector. */
  lemma RunProcessCount(cfg: Config, devs: seq<DeviceIo>)
    ensures Run(cfg, devs).devCount == |devs|
    ensures cfg.showDevList ==> Run(cfg, devs).procCount == 0
    ensures !cfg.showDevList ==>
      Run(cfg, devs).procCount == if cfg.devNumber == 0 then |devs| else if 1 <= cfg.devNumber <= |devs| then 1 else 0
  {
    ScanAccounts(ProgramStep(cfg), cfg, devs);
    SelectedCount(cfg.devNumber, |devs|);
  }

  /** In list mode devices are only listed: none is opened and no failure is reported. */
  lemma ListModeOnlyLists(cfg: Config, devs: seq<DeviceIo>)
    requires cfg.showDevList
    ensures Run(cfg, devs).reports == []
    ensures !Run(cfg, devs).failed
    ensures Run(cfg, devs).listed == Positions(|devs|)
  {
    ScanAccounts(ProgramStep(cfg), cfg, devs);
  }

  /** Reference condition for the accumulated failure flag. */
  predicate RunFails(cfg: Config, devs: seq<DeviceIo>)
  {
    var s := cfg.devNumber;
    && !cfg.showDevList
    && (|| (forall k :: 1 <= k <= |devs| ==> !Selected(s, k))
        || (exists k :: 1 <= k <= |devs| && Selected(s, k) && DeviceFails(cfg, devs[k - 1])))
  }

  /** The flag is set iff some processed device failed or none was processed, and never in list mode. */
  lemma RunFailedIff(cfg: Config, devs: seq<DeviceIo>)
    ensures Run(cfg, devs).failed <==> RunFails(cfg, devs)
  {
    var process := ProgramStep(cfg);
    ScanAccounts(process, cfg, devs);
    if !cfg.showDevList {
      var s := cfg.devNumber;
      NoneSelectedIff(s, |devs|);
      AnyFailedIff(process, s, devs, ScanWith(process, cfg, devs).reports);
      forall k | 1 <= k <= |devs| && Selected(s, k)
        ensures |process(k, devs[k - 1]).errors| > 0 <==> DeviceFails(cfg, devs[k - 1])
      {
        assert process(k, devs[k - 1]) == ProcessDevice(cfg, k, devs[k - 1]);
      }
    }
  }

  /** A selected device is processed on its own transport results, whatever happened to the others. */
  lemma SelectedDeviceProcessed(cfg: Config, devs: seq<DeviceIo>, k: nat)
    requires !cfg.showDevList
    requires 1 <= k <= |devs| && Selected(cfg.devNumber, k)
    ensures ProcessDevice(cfg, k, devs[k - 1]) in Run(cfg, devs).reports
  {
    var process := ProgramStep(cfg);
    ScanAccounts(process, cfg, devs);
    var reports := ScanWith(process, cfg, devs).reports;
    var i := PositionIndex(cfg.devNumber, |devs|, k);
    assert reports[i] == process(k, devs[k - 1]);
  }

  /** Reference: the report of each selected position, in enumeration order, each from its own results. */
  function SelectedReports(cfg: Config, devs: seq<DeviceIo>): seq<DeviceReport>
  {
    var ps := SelectedPositions(cfg.devNumber, |devs|);
    seq(|ps|, i requires 0 <= i < |ps| => ProcessDevice(cfg, ps[i], devs[ps[i] - 1]))
  }

  /** Outside list mode the run's reports are exactly the selected devices' reports, in order. */
  lemma RunReportsAreSelectedReports(cfg: Config, devs: seq<DeviceIo>)
    requires !cfg.showDevList
    ensures Run(cfg, devs).reports == SelectedReports(cfg, devs)
  {
    var process := ProgramStep(cfg);
    ScanAccounts(process, cfg, devs);
    var reports := ScanWith(process, cfg, devs).reports;
    var expected := SelectedReports(cfg, devs);
    var ps := SelectedPositions(cfg.devNumber, |devs|);
    forall i | 0 <= i < |ps|
      ensures reports[i] == expected[i]
    {
      assert reports[i] == process(ps[i], devs[ps[i] - 1]);
    }
  }

  /** Which devices are processed depends only on how many there are, not on how any of them fared. */
  lemma ProcessedPositionsIgnoreOutcomes(cfg: Config, devs1: seq<DeviceIo>, devs2: seq<DeviceIo>)
    requires |devs1| == |devs2|
    ensures |Run(cfg, devs1).reports| == |Run(cfg, devs2).reports|
    ensures forall i :: 0 <= i < |Run(cfg, devs1).reports| ==>
              Run(cfg, devs1).reports[i].position == Run(cfg, devs2).reports[i].position
  {
    var process := ProgramStep(cfg);
    ScanAccounts(process, cfg, devs1);
    ScanAccounts(process, cfg, devs2);
    var r1 := ScanWith(process, cfg, devs1).reports;
    var r2 := ScanWith(process, cfg, devs2).reports;
    var ps := SelectedPositions(cfg.devNumber, |devs1|);
    forall i | 0 <= i < |r1|
      ensures r1[i].position == r2[i].position
    {
      assert r1[i] == process(ps[i], devs1[ps[i] - 1]);
      assert r2[i] == process(ps[i], devs2[ps[i] - 1]);
    }
  }

  /** Everything the loop promises, for the program's step. */
  lemma RunSummary(cfg: Config, devs: seq<DeviceIo>)
    ensures Run(cfg, devs).devCount == |devs|
    ensures Run(cfg, devs).failed <==> RunFails(cfg, devs)
    ensures cfg.showDevList ==> Run(cfg, devs).procCount == 0 && Run(cfg, devs).reports == []
    ensures !cfg.showDevList ==>
      Run(cfg, devs).procCount == if cfg.devNumber == 0 then |devs| else if 1 <= cfg.devNumber <= |devs| then 1 else 0
    ensures !cfg.showDevList ==> Run(cfg, devs).reports == SelectedReports(cfg, devs)
  {
    RunFailedIff(cfg, devs);
    RunProcessCount(cfg, devs);
    if cfg.showDevList {
      ListModeOnlyLists(cfg, devs);
    } else {
      RunReportsAreSelectedReports(cfg, devs);
    }
  }

  /** The loop body for one enumerated device, written as the program writes it. */
  method VisitDevice(cfg: Config, devCount: nat, procCount: nat, failed: bool,
                     reports: seq<DeviceReport>, listed: seq<nat>, io: DeviceIo)
    returns (devCount': nat, procCount': nat, failed': bool, reports': seq<DeviceReport>, listed': seq<nat>)
    ensures RunState(devCount', procCount', failed', reports', listed')
         == Step(ProgramStep(cfg), cfg, RunState(devCount, procCount, failed, reports, listed), io)
  {
    devCount', procCount', failed', reports', listed' := devCount + 1, procCount, failed, reports, listed;
    if !cfg.showDevList {
      if cfg.devNumber == 0 || devCount' == cfg.devNumber {
        var rep := ProcessDevice(cfg, devCount', io);
        procCount' := procCount' + 1;
        if |rep.errors| > 0 {
          failed' := true;
        }
        reports' := reports' + [rep];
      }
    } else {
      listed' := listed' + [devCount'];
    }
  }

  /**
    The main loop written as the program writes it, over the enumeration in
    order, followed by the "device not found" check. Two exit statuses come
    back: `exitAsWritten`, the program's own, which is `hid_exit`'s result
    alone, and `status`, the corrected one that keeps the accumulated flag.
   */
  method RunDevices(cfg: Config, devs: seq<DeviceIo>, hidExitResult: int)
    returns (failed: bool, devCount: nat, procCount: nat, reports: seq<DeviceReport>, exitAsWritten: int, status: int)
    ensures devCount == |devs|
    ensures failed <==> RunFails(cfg, devs)
    ensures cfg.showDevList ==> procCount == 0 && reports == []
    ensures !cfg.showDevList ==>
      procCount == if cfg.devNumber == 0 then |devs| else if 1 <= cfg.devNumber <= |devs| then 1 else 0
    ensures !cfg.showDevList ==> reports == SelectedReports(cfg, devs)
    ensures exitAsWritten == hidExitResult
    ensures status != 0 <==> failed || hidExitResult != 0
  {
    ghost var process := ProgramStep(cfg);
    failed, devCount, procCount, reports := false, 0, 0, [];
    var listed: seq<nat> := [];
    var i := 0;
    while i < |devs|
      invariant 0 <= i <= |devs|
      invariant RunState(devCount, procCount, failed, reports, listed) == ScanWith(process, cfg, devs[..i])
    {
      ScanWithNext(process, cfg, devs, i);
      devCount, procCount, failed, reports, listed :=
        VisitDevice(cfg, devCount, procCount, failed, reports, listed, devs[i]);
      i := i + 1;
    }
    if !cfg.showDevList && procCount == 0 {
      failed := true;
    }
    assert devs[..|devs|] == devs;
    assert RunState(devCount, procCount, failed, reports, listed) == Run(cfg, devs);
    RunSummary(cfg, devs);
    exitAsWritten := ExitStatusAsWritten(failed, hidExitResult);
    status := ExitStatus(failed, hidExitResult);
  }

  /** The exit status as the program computes it: the value `hid_exit` returned, nothing else. */
  function ExitStatusAsWritten(failed: bool, hidExitResult: int): int
  {
    hidExitResult
  }

  /** As written, a run in which no device was found still exits with status 0. */
  lemma NotFoundExitsZeroAsWritten()
    ensures Run(Config(false, false, 0, false), []).failed
    ensures ExitStatusAsWritten(Run(Config(false, false, 0, false), []).failed, 0) == 0
  {
  }

  /** The exit status with the accumulated flag kept: non-zero iff a device or `hid_exit` failed. */
  function ExitStatus(failed: bool, hidExitResult: int): (status: int)
    ensures status != 0 <==> failed || hidExitResult != 0
    ensures status == 0 || status == 1
  {
    if failed || hidExitResult != 0 then 1 else 0
  }
}
