/**
 * `AiEngine`: the sentinel start/stop state machine and the module runners
 * that carry out a decision on the engine's sub-objects. The background
 * thread is abstracted away: `keepRunning` is the flag it polls, and a
 * completed `join` is taken to mean that its loop has exited.
 */
module Engine {
  import opened Text
  import opened Router
  import opened Decisions
  import opened DirEntry
  import opened ProcessMonitor
  import opened ProcessControl
  import opened FileIndex
  import opened CpuControl

  /** The threshold used when the operator names no size: 100 MiB. */
  const DefaultThreshold: nat := 100 * 1024 * 1024

  /** The result cap of the size query. */
  const QueryLimit: int := 50

  /** Everything outside the engine that one turn may consult. */
  datatype World = World(
    resp: string,                      // the inference reply for the module's prompt
    pidOf: string -> int,              // `findPidByName`
    delivered: bool,                   // whether `kill` succeeded
    accepts: SysWrite -> bool,         // whether a sysfs write succeeded
    procDirs: seq<string>,             // the entry names of /proc
    commOf: nat -> Option<string>,     // the line read from /proc/<pid>/comm
    sizeRequest: Option<nat>,          // the size the operator named, in bytes
    traversal: seq<Entry>)             // the entries below the file monitor's root

  class AiEngine {
    var isMonitorRunning: bool
    var keepRunning: bool
    const procMonitor: ProcMonitor
    const procControl: ProcControl
    const fileMonitor: FileMonitor
    const cpuControl: CpuControl

    /** The flags agree at every method boundary, and the signal log holds no
        kill of a protected PID. */
    ghost predicate Valid()
      reads this, procControl
    {
      isMonitorRunning == keepRunning && procControl.Valid()
    }

    /** The sentinel starts switched off. */
    constructor (procDirs: seq<string>, home: string, cores: nat)
      ensures Valid()
      ensures !isMonitorRunning && !keepRunning
      ensures procMonitor.lastPidList == AllPids(procDirs)
      ensures procControl.sent == []
      ensures fileMonitor.currentRootPath == home && fileMonitor.fileIndex == []
      ensures cpuControl.coreCount == cores && cpuControl.writes == [] && cpuControl.affinityCalls == []
      ensures fresh(procMonitor) && fresh(procControl) && fresh(fileMonitor) && fresh(cpuControl)
    {
      procMonitor := new ProcMonitor(procDirs);
      procControl := new ProcControl();
      fileMonitor := new FileMonitor(home);
      cpuControl := new CpuControl(cores);
      isMonitorRunning := false;
      keepRunning := false;
    }

    /** `startMonitor`: a no-op while running; otherwise the PID baseline is
        refreshed (its report discarded) before both flags are raised. */
    method StartMonitor(procDirs: seq<string>, commOf: nat -> Option<string>)
      requires Valid()
      modifies this, procMonitor
      ensures Valid()
      ensures old(isMonitorRunning) ==> isMonitorRunning && procMonitor.lastPidList == old(procMonitor.lastPidList)
      ensures !old(isMonitorRunning) ==> isMonitorRunning && keepRunning && procMonitor.lastPidList == AllPids(procDirs)
    {
      if isMonitorRunning {
        return;
      }
      var _ := procMonitor.DetectNewProcesses(procDirs, commOf);
      keepRunning := true;
      isMonitorRunning := true;
    }

    /** `stopMonitor`: always ends with both flags down. */
    method StopMonitor()
      requires Valid()
      modifies this
      ensures Valid()
      ensures !isMonitorRunning && !keepRunning
    {
      if !isMonitorRunning {
        return;
      }
      keepRunning := false;
      isMonitorRunning := false;
    }

    /** The destructor: stops the sentinel. */
    method Shutdown()
      requires Valid()
      modifies this
      ensures Valid()
      ensures !isMonitorRunning && !keepRunning
    {
      StopMonitor();
    }

    /** `runMonitorModule`: start, stop, or report the running flag. */
    method RunMonitorModule(resp: string, procDirs: seq<string>, commOf: nat -> Option<string>)
      returns (action: MonitorAction, running: bool)
      requires Valid()
      modifies this, procMonitor
      ensures Valid()
      ensures action == MonitorDecision(resp)
      ensures running == isMonitorRunning
      ensures action == StartSentinel ==> (isMonitorRunning &&
        procMonitor.lastPidList == if old(isMonitorRunning) then old(procMonitor.lastPidList) else AllPids(procDirs))
      ensures action == StopSentinel ==> !isMonitorRunning && procMonitor.lastPidList == old(procMonitor.lastPidList)
      ensures action != StartSentinel && action != StopSentinel ==>
        isMonitorRunning == old(isMonitorRunning) && procMonitor.lastPidList == old(procMonitor.lastPidList)
    {
      action := MonitorDecision(resp);
      if action == StartSentinel {
        StartMonitor(procDirs, commOf);
      } else if action == StopSentinel {
        StopMonitor();
      }
      running := isMonitorRunning;
    }

    /** `runProcModule`: a SIGKILL is sent exactly when the decision is a kill,
        to the PID it names. */
    method RunProcModule(input: string, resp: string, pidOf: string -> int, delivered: bool)
      returns (action: ProcAction, killed: bool)
      requires Valid()
      modifies procControl
      ensures Valid()
      ensures action == ProcDecision(input, resp, pidOf)
      ensures action.Kill? ==> procControl.sent == old(procControl.sent) + [SentSignal(action.pid, SigKill)] && killed == delivered
      ensures !action.Kill? ==> procControl.sent == old(procControl.sent) && !killed
    {
      action := ProcDecision(input, resp, pidOf);
      killed := false;
      if action.Kill? {
        KillTargetsPassGuard(input, resp, pidOf);
        killed := procControl.KillProcess(action.pid, delivered);
      }
    }

    /** `runCpuModule`: BOOST and RESTORE write every core's governor; CHECK
        and an unrecognised reply write nothing. */
    method RunCpuModule(resp: string, accepts: SysWrite -> bool) returns (action: CpuAction, ok: bool)
      modifies cpuControl
      ensures action == CpuDecision(resp)
      ensures cpuControl.affinityCalls == old(cpuControl.affinityCalls)
      ensures action == BoostCpu ==> cpuControl.writes == old(cpuControl.writes) + GovernorWrites(cpuControl.coreCount, "performance")
      ensures action == RestoreCpu ==> cpuControl.writes == old(cpuControl.writes) + GovernorWrites(cpuControl.coreCount, "schedutil")
      ensures action != BoostCpu && action != RestoreCpu ==> cpuControl.writes == old(cpuControl.writes)
    {
      action := CpuDecision(resp);
      ok := false;
      if action == BoostCpu {
        ok := cpuControl.BoostPerformance(accepts);
      } else if action == RestoreCpu {
        ok := cpuControl.RestoreDefault(accepts);
      }
    }

    /** `runFileModule`. A size query (a named size, or FIND_LARGE) asks the
        index once and, only when that comes back empty, rescans the current
        root and asks once more; SCAN_DISK rescans and lists the five largest
        above 100 MiB; anything else lists up to twenty above 100 MiB from the
        index as it stands. `scans` counts the rescans. */
    method RunFileModule(resp: string, sizeRequest: Option<nat>, traversal: seq<Entry>)
      returns (files: seq<FileInfo>, scans: nat)
      modifies fileMonitor
      ensures scans <= 1
      ensures fileMonitor.currentRootPath == old(fileMonitor.currentRootPath)
      ensures scans == 0 ==> fileMonitor.fileIndex == old(fileMonitor.fileIndex)
      ensures scans == 1 ==> (multiset(fileMonitor.fileIndex) == multiset(LargeOnly(traversal)) &&
        BySizeDescending(fileMonitor.fileIndex))
      ensures sizeRequest.Some? || Contains(resp, "FIND_LARGE") ==>
        var threshold := if sizeRequest.Some? then sizeRequest.value else DefaultThreshold;
        (scans == 1 <==> LargeFiles(old(fileMonitor.fileIndex), threshold, QueryLimit) == []) &&
        files == LargeFiles(fileMonitor.fileIndex, threshold, QueryLimit)
      ensures !(sizeRequest.Some? || Contains(resp, "FIND_LARGE")) && Contains(resp, "SCAN_DISK") ==>
        scans == 1 && files == LargeFiles(fileMonitor.fileIndex, DefaultThreshold, 5)
      ensures !(sizeRequest.Some? || Contains(resp, "FIND_LARGE")) && !Contains(resp, "SCAN_DISK") ==>
        scans == 0 && files == LargeFiles(fileMonitor.fileIndex, DefaultThreshold, 20)
    {
      scans := 0;
      if sizeRequest.Some? || Contains(resp, "FIND_LARGE") {
        var threshold := if sizeRequest.Some? then sizeRequest.value else DefaultThreshold;
        files := fileMonitor.GetLargeFiles(threshold, QueryLimit);
        if files == [] {
          var root := fileMonitor.GetCurrentRoot();
          var _ := fileMonitor.ScanDirectory(root, traversal);
          scans := 1;
          files := fileMonitor.GetLargeFiles(threshold, QueryLimit);
        }
      } else if Contains(resp, "SCAN_DISK") {
        var root := fileMonitor.GetCurrentRoot();
        var _ := fileMonitor.ScanDirectory(root, traversal);
        scans := 1;
        files := fileMonitor.GetLargeFiles(DefaultThreshold, 5);
      } else {
        files := fileMonitor.GetLargeFiles(DefaultThreshold, 20);
      }
    }

    /** `routeAndProcess`: only the routed module runs. No signal is sent
        outside the process module, no governor is written outside the CPU
        module, the index changes only in the file module, and the sentinel
        changes only in the monitor module; an unrecognised input changes
        nothing at all. The memory, file-control and file-create modules act
        only through the outside world and change no modelled state. */
    method RouteAndProcess(input: string, w: World) returns (domain: Domain)
      requires Valid()
      modifies this, procMonitor, procControl, fileMonitor, cpuControl
      ensures Valid()
      ensures domain == Classify(input)
      ensures domain != Process ==> procControl.sent == old(procControl.sent)
      ensures domain != Cpu ==> cpuControl.writes == old(cpuControl.writes)
      ensures cpuControl.affinityCalls == old(cpuControl.affinityCalls)
      ensures domain != File ==> fileMonitor.fileIndex == old(fileMonitor.fileIndex)
      ensures fileMonitor.currentRootPath == old(fileMonitor.currentRootPath)
      ensures domain != Monitor ==> (isMonitorRunning == old(isMonitorRunning) &&
        procMonitor.lastPidList == old(procMonitor.lastPidList))
      // The process module sends one SIGKILL exactly when its decision is a kill.
      ensures domain == Process ==> var a := ProcDecision(input, w.resp, w.pidOf);
        (a.Kill? ==> procControl.sent == old(procControl.sent) + [SentSignal(a.pid, SigKill)]) &&
        (!a.Kill? ==> procControl.sent == old(procControl.sent))
      // The CPU module writes every core's governor for BOOST and RESTORE.
      ensures domain == Cpu ==> var a := CpuDecision(w.resp);
        (a == BoostCpu ==> cpuControl.writes == old(cpuControl.writes) + GovernorWrites(cpuControl.coreCount, "performance")) &&
        (a == RestoreCpu ==> cpuControl.writes == old(cpuControl.writes) + GovernorWrites(cpuControl.coreCount, "schedutil")) &&
        (a != BoostCpu && a != RestoreCpu ==> cpuControl.writes == old(cpuControl.writes))
      // The monitor module starts or stops the sentinel as decided.
      ensures domain == Monitor ==> var a := MonitorDecision(w.resp);
        (a == StartSentinel ==> (isMonitorRunning && procMonitor.lastPidList ==
                                 if old(isMonitorRunning) then old(procMonitor.lastPidList) else AllPids(w.procDirs))) &&
        (a == StopSentinel ==> !isMonitorRunning && procMonitor.lastPidList == old(procMonitor.lastPidList)) &&
        (a != StartSentinel && a != StopSentinel ==>
          isMonitorRunning == old(isMonitorRunning) && procMonitor.lastPidList == old(procMonitor.lastPidList))
      // The file module rescans when a size query first comes back empty, or on SCAN_DISK.
      ensures domain == File ==>
        var query := w.sizeRequest.Some? || Contains(w.resp, "FIND_LARGE");
        var threshold := if w.sizeRequest.Some? then w.sizeRequest.value else DefaultThreshold;
        var rescan := if query then LargeFiles(old(fileMonitor.fileIndex), threshold, QueryLimit) == []
                      else Contains(w.resp, "SCAN_DISK");
        (rescan ==> (multiset(fileMonitor.fileIndex) == multiset(LargeOnly(w.traversal)) &&
                     BySizeDescending(fileMonitor.fileIndex))) &&
        (!rescan ==> fileMonitor.fileIndex == old(fileMonitor.fileIndex))
    {
      domain := Classify(input);
      match domain {
        case Cpu =>
          var _, _ := RunCpuModule(w.resp, w.accepts);
        case Monitor =>
          var _, _ := RunMonitorModule(w.resp, w.procDirs, w.commOf);
        case Process =>
          var _, _ := RunProcModule(input, w.resp, w.pidOf, w.delivered);
        case File =>
          var _, _ := RunFileModule(w.resp, w.sizeRequest, w.traversal);
        case _ =>
      }
    }
  }
}
