/**
 * `ProcMonitor`: PID snapshots of /proc and the detection of processes that
 * appeared since the previous snapshot.
 *
 * The /proc listing is given as the sequence of directory-entry names that
 * `readdir` returns (empty when /proc cannot be opened), and the read of
 * `/proc/<pid>/comm` as the oracle `commOf`: `None` when `fopen` or `fgets`
 * fails, otherwise the line `fgets` read.
 */
module ProcessMonitor {
  import opened Text
  import opened Sorting

  /** `std::stoi` applied to an entry name whose first character is a digit:
      the value of its leading digits, or `None` when the name does not start
      with a digit or the value is out of range for `int` (the exception is
      caught and the entry skipped). */
  function ParsePid(name: string): (r: Option<nat>)
    ensures r.Some? ==> name != [] && IsDigit(name[0]) && r.value <= IntMax
  {
    if name != [] && IsDigit(name[0]) then
      var v := DigitsValue(LeadingDigits(name));
      if v <= IntMax then Some(v) else None
    else None
  }

  /** PIDs print and parse back: a /proc entry named after a PID yields it. */
  lemma ParsePidOfDecimal(pid: nat)
    requires pid <= IntMax
    ensures ParsePid(NatToDecimal(pid)) == Some(pid)
  {
    AllDigitsLeading(NatToDecimal(pid));
    DecimalRoundTrip(pid);
  }

  function PidKey(pid: nat): int { pid }

  ghost predicate Ascending(s: seq<nat>) {
    SortedBy(s, PidKey)
  }

  /** The values `parse` yields for the entries, in listing order. */
  function Collected(names: seq<string>, parse: string -> Option<nat>): seq<nat> {
    if names == [] then []
    else
      var last := parse(names[|names| - 1]);
      Collected(names[..|names| - 1], parse) + (if last.Some? then [last.value] else [])
  }

  /** PIDs in the order the entries are listed, before sorting. */
  function ListedPids(names: seq<string>): seq<nat> {
    Collected(names, ParsePid)
  }

  /** `getAllPids`: the listed PIDs, sorted ascending. */
  function AllPids(names: seq<string>): seq<nat> {
    SortBy(ListedPids(names), PidKey)
  }

  /** Entry `i` of the listing parses to `value`. */
  predicate ParsesTo(names: seq<string>, parse: string -> Option<nat>, i: int, value: nat) {
    0 <= i < |names| && parse(names[i]) == Some(value)
  }

  lemma {:induction false} CollectedMembers(names: seq<string>, parse: string -> Option<nat>, value: nat)
    ensures value in Collected(names, parse) <==> exists i :: ParsesTo(names, parse, i, value)
  {
    if names != [] {
      var front := names[..|names| - 1];
      CollectedMembers(front, parse, value);
      var last := parse(names[|names| - 1]);
      var tail: seq<nat> := if last.Some? then [last.value] else [];
      assert Collected(names, parse) == Collected(front, parse) + tail;
      if value in tail {
        assert ParsesTo(names, parse, |names| - 1, value);
      }
      if exists i :: ParsesTo(front, parse, i, value) {
        var i :| ParsesTo(front, parse, i, value);
        assert ParsesTo(names, parse, i, value);
      }
      if exists i :: ParsesTo(names, parse, i, value) {
        var i :| ParsesTo(names, parse, i, value);
        if i < |front| {
          assert ParsesTo(front, parse, i, value);
        } else {
          assert tail == [value];
        }
      }
    }
  }

  /** The snapshot is ascending and holds exactly the PIDs parsed from entries
      whose name starts with a digit. */
  lemma AllPidsSpec(names: seq<string>, pid: nat)
    ensures Ascending(AllPids(names))
    ensures pid in AllPids(names) <==> exists i :: ParsesTo(names, ParsePid, i, pid)
  {
    SortByMembers(ListedPids(names), PidKey, pid);
    CollectedMembers(names, ParsePid, pid);
  }

  /** PIDs of `current` absent from `previous`, in the order of `current`. */
  function NewPids(previous: seq<nat>, current: seq<nat>): seq<nat> {
    if current == [] then []
    else
      var last := current[|current| - 1];
      NewPids(previous, current[..|current| - 1]) + (if last in previous then [] else [last])
  }

  lemma {:induction false} NewPidsMembers(previous: seq<nat>, current: seq<nat>, pid: nat)
    ensures pid in NewPids(previous, current) <==> pid in current && pid !in previous
  {
    if current != [] {
      var front := current[..|current| - 1];
      NewPidsMembers(previous, front, pid);
      assert current == front + [current[|current| - 1]];
    }
  }

  /** Every reported PID lies in `current`, so an ascending snapshot gives an
      ascending report. */
  lemma {:induction false} NewPidsAscending(previous: seq<nat>, current: seq<nat>)
    requires Ascending(current)
    ensures Ascending(NewPids(previous, current))
  {
    if current != [] {
      var front := current[..|current| - 1];
      var last := current[|current| - 1];
      assert Ascending(front);
      NewPidsAscending(previous, front);
      var n := NewPids(previous, front);
      forall k | 0 <= k < |n| ensures n[k] <= last {
        NewPidsMembers(previous, front, n[k]);
        var m :| 0 <= m < |front| && front[m] == n[k];
        assert PidKey(current[m]) <= PidKey(current[|current| - 1]);
      }
    }
  }

  /** Nothing is new against an unchanged snapshot. */
  lemma NewPidsOfSame(current: seq<nat>)
    ensures NewPids(current, current) == []
  {
    if NewPids(current, current) != [] {
      var p := NewPids(current, current)[0];
      NewPidsMembers(current, current, p);
    }
  }

  /** For example, with {1,2,3} stored and {2,3,4} current, only 4 is new. */
  lemma NewPidsExample()
    ensures NewPids([1, 2, 3], [2, 3, 4]) == [4]
  {
    var c := [2, 3, 4];
    assert c[..2] == [2, 3] && [2, 3][..1] == [2] && [2][..0] == [];
  }

  /** The name printed for a new PID: "Unknown" when the read failed, else the
      line read with one trailing newline removed. */
  function ProcName(line: Option<string>): (r: string)
    ensures line.None? ==> r == "Unknown"
    ensures line.Some? ==> r == line.value || r + "\n" == line.value
    ensures line.Some? && r != line.value ==> line.value[|line.value| - 1] == '\n'
    ensures line.Some? && line.value != [] && line.value[|line.value| - 1] == '\n' ==> r + "\n" == line.value
  {
    match line
    case None => "Unknown"
    case Some(l) => if l != [] && l[|l| - 1] == '\n' then l[..|l| - 1] else l
  }

  /** One report line: it ends in a newline, and holds no other when the
      name holds none. */
  function ReportLine(pid: nat, name: string): (r: string)
    ensures r != [] && r[|r| - 1] == '\n'
    ensures '\n' !in name ==> '\n' !in r[..|r| - 1]
  {
    "[新进程] PID: " + NatToDecimal(pid) + " (" + name + ")\n"
  }

  /** One line per PID, in order. */
  function Report(pids: seq<nat>, commOf: nat -> Option<string>): string {
    if pids == [] then ""
    else
      var last := pids[|pids| - 1];
      Report(pids[..|pids| - 1], commOf) + ReportLine(last, ProcName(commOf(last)))
  }

  /** The report is empty exactly when there is no new PID. */
  lemma ReportEmptyIff(pids: seq<nat>, commOf: nat -> Option<string>)
    ensures Report(pids, commOf) == "" <==> pids == []
  {
    if pids != [] {
      var last := pids[|pids| - 1];
      assert |ReportLine(last, ProcName(commOf(last)))| > 0;
    }
  }

  /** A second detection against an unchanged listing reports nothing. */
  lemma SecondDetectionIsSilent(names: seq<string>, commOf: nat -> Option<string>)
    ensures Report(NewPids(AllPids(names), AllPids(names)), commOf) == ""
  {
    NewPidsOfSame(AllPids(names));
  }

  /** One more PID of the snapshot adds at most one PID to the new ones. */
  lemma NewPidsStep(previous: seq<nat>, current: seq<nat>, i: nat)
    requires i < |current|
    ensures NewPids(previous, current[..i + 1]) ==
      NewPids(previous, current[..i]) + (if current[i] in previous then [] else [current[i]])
  {
    assert current[..i + 1][..i] == current[..i];
  }

  /** One more PID adds its line at the end of the report. */
  lemma ReportStep(pids: seq<nat>, pid: nat, commOf: nat -> Option<string>)
    ensures Report(pids + [pid], commOf) == Report(pids, commOf) + ReportLine(pid, ProcName(commOf(pid)))
  {
    assert (pids + [pid])[..|pids|] == pids;
  }

  class ProcMonitor {
    /** PIDs of the previous snapshot. */
    var lastPidList: seq<nat>

    /** The constructor stores the baseline snapshot. */
    constructor (names: seq<string>)
      ensures lastPidList == AllPids(names)
    {
      var pids := GetAllPids(names);
      lastPidList := pids;
    }

    /** `getAllPids`: push each parsable PID, then sort. */
    static method GetAllPids(names: seq<string>) returns (pids: seq<nat>)
      ensures pids == AllPids(names)
    {
      var listed: seq<nat> := [];
      for i := 0 to |names|
        invariant listed == ListedPids(names[..i])
      {
        var name := names[i];
        if name != [] && IsDigit(name[0]) {
          var v := DigitsValue(LeadingDigits(name));
          if v <= IntMax {
            listed := listed + [v];
          }
        }
        assert names[..i + 1][..i] == names[..i];
      }
      assert names[..|names|] == names;
      pids := SortBy(listed, PidKey);
    }

    /** `detectNewProcesses`: one report line per PID of the new snapshot that
        the stored one lacks, then the stored snapshot is replaced wholesale. */
    method DetectNewProcesses(names: seq<string>, commOf: nat -> Option<string>) returns (report: string)
      modifies this
      ensures lastPidList == AllPids(names)
      ensures report == Report(NewPids(old(lastPidList), AllPids(names)), commOf)
    {
      var currentPids := GetAllPids(names);
      report := NewProcessReport(lastPidList, currentPids, commOf);
      lastPidList := currentPids;
    }

    /** The loop of `detectNewProcesses`: a line for each PID of `current`
        missing from `previous`, looked up through a set. */
    static method NewProcessReport(previous: seq<nat>, current: seq<nat>, commOf: nat -> Option<string>)
      returns (report: string)
      ensures report == Report(NewPids(previous, current), commOf)
    {
      report := "";
      var oldSet := set p | p in previous;
      for i := 0 to |current|
        invariant report == Report(NewPids(previous, current[..i]), commOf)
      {
        var pid := current[i];
        ghost var before := NewPids(previous, current[..i]);
        NewPidsStep(previous, current, i);
        if pid !in oldSet {
          var name := ProcName(commOf(pid));
          ReportStep(before, pid, commOf);
          report := report + ReportLine(pid, name);
        } else {
          assert pid in previous;
          assert before + [] == before;
        }
      }
      assert current[..|current|] == current;
    }
  }
}
