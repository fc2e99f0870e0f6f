/**
 * What each module of `AiEngine` decides to do with an inference reply: the
 * verb it acts on, the argument it extracts, and the gates that stand before
 * a kill, an open, a delete or a file creation. Everything the decision
 * depends on is a parameter: the reply `resp`, the operator's input, the PID
 * lookup `pidOf` (`findPidByName`), the traversal searched, and the
 * operator's confirmation line.
 */
module Decisions {
  import opened Text
  import opened ActionTags
  import opened DirEntry
  import opened FileSearch
  import opened FileCreation
  import ProcessControl

  // ---------------------------------------------------------------------
  // CPU, memory and monitor modules: verb only
  // ---------------------------------------------------------------------

  datatype CpuAction = ShowCpuStatus | BoostCpu | RestoreCpu | CpuNotUnderstood

  /** `runCpuModule`'s if-chain on the reply. */
  function CpuDecision(resp: string): CpuAction {
    if Contains(resp, "CHECK") then ShowCpuStatus
    else if Contains(resp, "BOOST") then BoostCpu
    else if Contains(resp, "RESTORE") then RestoreCpu
    else CpuNotUnderstood
  }

  /** The CPU module acts on the first of CHECK, BOOST, RESTORE the reply
      contains, wherever it occurs, and on nothing when it contains none. */
  lemma CpuDecisionByVerb(resp: string)
    ensures CpuDecision(resp) == [ShowCpuStatus, BoostCpu, RestoreCpu, CpuNotUnderstood][FirstVerb(resp, CpuVerbs)]
  {
    FirstVerbOfThree(resp, "CHECK", "BOOST", "RESTORE");
  }

  datatype MemAction = ShowMemory | DropCache | MemNothing

  /** `runMemModule`'s if-chain on the reply. */
  function MemDecision(resp: string): MemAction {
    if Contains(resp, "CHECK") then ShowMemory
    else if Contains(resp, "CLEAN") then DropCache
    else MemNothing
  }

  lemma MemDecisionByVerb(resp: string)
    ensures MemDecision(resp) == [ShowMemory, DropCache, MemNothing][FirstVerb(resp, MemoryVerbs)]
  {
    FirstVerbOfTwo(resp, "CHECK", "CLEAN");
  }

  datatype MonitorAction = StartSentinel | StopSentinel | ShowSentinelStatus | MonitorNotUnderstood

  /** `runMonitorModule`'s if-chain on the reply. */
  function MonitorDecision(resp: string): MonitorAction {
    if Contains(resp, "START_MONITOR") then StartSentinel
    else if Contains(resp, "STOP_MONITOR") then StopSentinel
    else if Contains(resp, "STATUS_MONITOR") then ShowSentinelStatus
    else MonitorNotUnderstood
  }

  lemma MonitorDecisionByVerb(resp: string)
    ensures MonitorDecision(resp) ==
      [StartSentinel, StopSentinel, ShowSentinelStatus, MonitorNotUnderstood][FirstVerb(resp, MonitorVerbs)]
  {
    FirstVerbOfThree(resp, "START_MONITOR", "STOP_MONITOR", "STATUS_MONITOR");
  }

  // ---------------------------------------------------------------------
  // Process module: the kill gate
  // ---------------------------------------------------------------------

  /** PIDs below this are system processes and are never killed. */
  const KillFloor: int := 1000

  datatype ProcAction =
    | QuickList                        // listing without asking the model
    | ListTop                          // LIST
    | NoName                           // KILL with an empty name
    | NotFound(name: string)           // no running process of that name
    | Refused(name: string, pid: int)  // a system process
    | Kill(name: string, pid: int)     // handed to `killProcess`
    | ProcNothing                      // no verb recognised

  /** The three inputs listed without an inference call. */
  predicate IsQuickList(input: string) {
    input == "top" || input == "ps" || input == "进程"
  }

  /** `runProcModule`: quick list, then LIST before KILL; a KILL looks the name
      up only when it is non-empty, and kills only PIDs of at least 1000. */
  function ProcDecision(input: string, resp: string, pidOf: string -> int): ProcAction {
    if IsQuickList(input) then QuickList
    else if Contains(resp, "LIST") then ListTop
    else if Contains(resp, "KILL") then
      var name := Argument(resp);
      if name == [] then NoName
      else
        var pid := pidOf(name);
        if pid > 0 then
          if pid < KillFloor then Refused(name, pid) else Kill(name, pid)
        else NotFound(name)
    else ProcNothing
  }

  /** A kill happens exactly when the input is not a quick-list word, KILL is
      the first process verb in the reply, its argument is a non-empty name,
      and that name resolves to a PID of at least 1000. */
  lemma ProcKillIff(input: string, resp: string, pidOf: string -> int, name: string, pid: int)
    ensures ProcDecision(input, resp, pidOf) == Kill(name, pid) <==>
      !IsQuickList(input) && FirstVerb(resp, ProcessVerbs) == 1 &&
      name == Argument(resp) && name != [] && pid == pidOf(name) && pid >= KillFloor
  {
    FirstVerbOfTwo(resp, "LIST", "KILL");
  }

  /** Every kill the engine asks for passes `killProcess`'s own guard, so that
      guard never decides anything when called from here. */
  lemma KillTargetsPassGuard(input: string, resp: string, pidOf: string -> int)
    requires ProcDecision(input, resp, pidOf).Kill?
    ensures ProcessControl.KillAllowed(ProcDecision(input, resp, pidOf).pid)
  {
    var d := ProcDecision(input, resp, pidOf);
    ProcKillIff(input, resp, pidOf, d.name, d.pid);
  }

  /** An empty name performs no lookup: the decision is the same whatever
      `pidOf` says, and it is never a kill. */
  lemma EmptyNameNoLookup(input: string, resp: string, pidOf1: string -> int, pidOf2: string -> int)
    requires Argument(resp) == []
    ensures ProcDecision(input, resp, pidOf1) == ProcDecision(input, resp, pidOf2)
    ensures !ProcDecision(input, resp, pidOf1).Kill?
  {
    if !IsQuickList(input) && !Contains(resp, "LIST") && Contains(resp, "KILL") {
      assert ProcDecision(input, resp, pidOf1) == NoName;
      assert ProcDecision(input, resp, pidOf2) == NoName;
    }
  }

  /** The quick-list words never consult the reply or the PID lookup. */
  lemma QuickListIgnoresReply(input: string, resp: string, pidOf: string -> int)
    requires IsQuickList(input)
    ensures ProcDecision(input, resp, pidOf) == QuickList
  {
  }

  /** The gate over whole ranges, on a KILL reply with a non-empty name: a
      PID of 0 or below (`findPidByName` gives -1 on failure) is "not found",
      and every PID from 1 to 999 is refused with that PID. */
  lemma KillGateRanges(input: string, resp: string, pidOf: string -> int)
    requires !IsQuickList(input) && FirstVerb(resp, ProcessVerbs) == 1 && Argument(resp) != []
    ensures pidOf(Argument(resp)) <= 0 ==> ProcDecision(input, resp, pidOf) == NotFound(Argument(resp))
    ensures 0 < pidOf(Argument(resp)) < KillFloor ==>
      ProcDecision(input, resp, pidOf) == Refused(Argument(resp), pidOf(Argument(resp)))
  {
    FirstVerbOfTwo(resp, "LIST", "KILL");
  }

  /** The boundaries of the gate on a KILL reply with a non-empty name: PID 0
      or below is "not found", 999 is refused, 1000 is killed. */
  lemma KillGateBoundaries(input: string, resp: string, name: string)
    requires !IsQuickList(input) && FirstVerb(resp, ProcessVerbs) == 1
    requires Argument(resp) == name && name != []
    ensures ProcDecision(input, resp, _ => 0) == NotFound(name)
    ensures ProcDecision(input, resp, _ => 999) == Refused(name, 999)
    ensures ProcDecision(input, resp, _ => 1000) == Kill(name, 1000)
  {
    FirstVerbOfTwo(resp, "LIST", "KILL");
  }

  // ---------------------------------------------------------------------
  // File-control module: the open/delete gate
  // ---------------------------------------------------------------------

  /** The target of a SEARCH, OPEN or DELETE: extracted only when the reply
      holds a ':'. */
  function TargetName(resp: string): string {
    if Contains(resp, ":") then Argument(resp) else ""
  }

  /** The guard on ':' changes nothing: the target is the argument. */
  lemma TargetNameIsArgument(resp: string)
    ensures TargetName(resp) == Argument(resp)
  {
    if !Contains(resp, ":") {
      forall i | 0 <= i < |resp| ensures resp[i] != ':' {
        if resp[i] == ':' {
          assert resp[i..i + 1] == ":";
          ContainsAt(resp, ":", i);
        }
      }
      ArgumentMissing(resp);
    }
  }

  datatype FileControlAction =
    | NoTarget
    | SearchListed(results: seq<string>)
    | OpenNotFound
    | OpenFile(path: string)
    | OpenAmbiguous(results: seq<string>)
    | DeleteNotFound
    | DeleteFile(path: string)
    | DeleteCancelled(path: string)
    | DeleteAmbiguous(results: seq<string>)
    | FileControlNothing

  /** OPEN on the search results: only a single match is opened. */
  function OpenGate(results: seq<string>): FileControlAction {
    if results == [] then OpenNotFound
    else if |results| == 1 then OpenFile(results[0])
    else OpenAmbiguous(results)
  }

  /** DELETE on the search results: only a single match, and only after the
      confirmation "yes". */
  function DeleteGate(results: seq<string>, confirm: string): FileControlAction {
    if results == [] then DeleteNotFound
    else if |results| == 1 then
      if confirm == "yes" then DeleteFile(results[0]) else DeleteCancelled(results[0])
    else DeleteAmbiguous(results)
  }

  /** `runFileControlModule`: no target, no search; otherwise SEARCH before
      OPEN before DELETE, each acting on the search for the target. */
  function FileControlDecision(resp: string, traversal: seq<Entry>, confirm: string): FileControlAction {
    var target := TargetName(resp);
    if target == [] then NoTarget
    else if Contains(resp, "SEARCH") then SearchListed(SearchResults(traversal, target))
    else if Contains(resp, "OPEN") then OpenGate(SearchResults(traversal, target))
    else if Contains(resp, "DELETE") then DeleteGate(SearchResults(traversal, target), confirm)
    else FileControlNothing
  }

  /** An empty target returns before any search: nothing depends on the
      traversal or the confirmation. */
  lemma EmptyTargetDoesNothing(resp: string, traversal: seq<Entry>, confirm: string)
    requires Argument(resp) == []
    ensures FileControlDecision(resp, traversal, confirm) == NoTarget
  {
    TargetNameIsArgument(resp);
  }

  /** The decision by the first file-control verb in the reply, on the search
      for the argument. */
  lemma FileControlByVerb(resp: string, traversal: seq<Entry>, confirm: string)
    ensures Argument(resp) == [] ==> FileControlDecision(resp, traversal, confirm) == NoTarget
    ensures Argument(resp) != [] && FirstVerb(resp, FileControlVerbs) == 0 ==>
      FileControlDecision(resp, traversal, confirm) == SearchListed(SearchResults(traversal, Argument(resp)))
    ensures Argument(resp) != [] && FirstVerb(resp, FileControlVerbs) == 1 ==>
      FileControlDecision(resp, traversal, confirm) == OpenGate(SearchResults(traversal, Argument(resp)))
    ensures Argument(resp) != [] && FirstVerb(resp, FileControlVerbs) == 2 ==>
      FileControlDecision(resp, traversal, confirm) == DeleteGate(SearchResults(traversal, Argument(resp)), confirm)
    ensures Argument(resp) != [] && FirstVerb(resp, FileControlVerbs) == 3 ==>
      FileControlDecision(resp, traversal, confirm) == FileControlNothing
  {
    TargetNameIsArgument(resp);
    FirstVerbOfThree(resp, "SEARCH", "OPEN", "DELETE");
  }

  lemma OpenGateIff(results: seq<string>, path: string)
    ensures OpenGate(results) == OpenFile(path) <==> results == [path]
  {
    if |results| == 1 {
      assert results == [results[0]];
    }
  }

  lemma DeleteGateIff(results: seq<string>, confirm: string, path: string)
    ensures DeleteGate(results, confirm) == DeleteFile(path) <==> results == [path] && confirm == "yes"
  {
    if |results| == 1 {
      assert results == [results[0]];
    }
  }

  /** A file is opened exactly when the target is non-empty, OPEN is the first
      file-control verb, and the search finds that file alone. */
  lemma OpenIff(resp: string, traversal: seq<Entry>, confirm: string, path: string)
    ensures FileControlDecision(resp, traversal, confirm) == OpenFile(path) <==>
      Argument(resp) != [] && FirstVerb(resp, FileControlVerbs) == 1 &&
      SearchResults(traversal, Argument(resp)) == [path]
  {
    FileControlByVerb(resp, traversal, confirm);
    var results := SearchResults(traversal, Argument(resp));
    OpenGateIff(results, path);
  }

  /** A file is deleted exactly when the target is non-empty, DELETE is the
      first file-control verb, the search finds that file alone, and the
      confirmation is exactly "yes". */
  lemma DeleteIff(resp: string, traversal: seq<Entry>, confirm: string, path: string)
    ensures FileControlDecision(resp, traversal, confirm) == DeleteFile(path) <==>
      Argument(resp) != [] && FirstVerb(resp, FileControlVerbs) == 2 &&
      SearchResults(traversal, Argument(resp)) == [path] && confirm == "yes"
  {
    FileControlByVerb(resp, traversal, confirm);
    var results := SearchResults(traversal, Argument(resp));
    DeleteGateIff(results, confirm, path);
  }

  /** "y" is not a confirmation. */
  lemma ShortYesNeverDeletes(resp: string, traversal: seq<Entry>)
    ensures !FileControlDecision(resp, traversal, "y").DeleteFile?
  {
    var d := FileControlDecision(resp, traversal, "y");
    if d.DeleteFile? {
      DeleteIff(resp, traversal, "y", d.path);
    }
  }

  /** The confirmation is read only for a DELETE with a single match; in every
      other case it has no influence. */
  lemma ConfirmOnlyForSingleDelete(resp: string, traversal: seq<Entry>, c1: string, c2: string)
    requires !(Argument(resp) != [] && FirstVerb(resp, FileControlVerbs) == 2 &&
               |SearchResults(traversal, Argument(resp))| == 1)
    ensures FileControlDecision(resp, traversal, c1) == FileControlDecision(resp, traversal, c2)
  {
    FileControlByVerb(resp, traversal, c1);
    FileControlByVerb(resp, traversal, c2);
  }

  // ---------------------------------------------------------------------
  // File-create module
  // ---------------------------------------------------------------------

  /** The name is extracted only from a reply holding "CREATE:". */
  function CreateFileName(resp: string): string {
    if Contains(resp, "CREATE:") then Argument(resp) else ""
  }

  /** The engine appends ".txt" unless the name holds ".txt" anywhere
      (a case-sensitive search). */
  function WithTxt(name: string): string {
    if Contains(name, TxtSuffix) then name else name + TxtSuffix
  }

  /** `r` holds every character of `s` other than '"' as often as `s` does. */
  predicate SameCountsButQuotes(r: string, s: string) {
    forall c :: c != '"' ==> multiset(r)[c] == multiset(s)[c]
  }

  /** The content with every '"' removed. */
  function RemoveQuotes(s: string): (r: string)
    ensures '"' !in r
    ensures |r| <= |s|
    ensures SameCountsButQuotes(r, s)
    ensures '"' !in s ==> r == s
  {
    if s == [] then []
    else
      assert s == [s[0]] + s[1..];
      Kept(s[0]) + RemoveQuotes(s[1..])
  }

  /** Removing quotes works piece by piece, so the characters kept stay in
      their original order. */
  lemma {:induction false} RemoveQuotesAppend(a: string, b: string)
    ensures RemoveQuotes(a + b) == RemoveQuotes(a) + RemoveQuotes(b)
  {
    if a == [] {
      assert a + b == b;
    } else {
      var c, t := a[0], a[1..];
      calc {
        RemoveQuotes(a + b);
        == { assert a + b == [c] + (t + b); }
        RemoveQuotes([c] + (t + b));
        == { RemoveQuotesCons(c, t + b); }
        Kept(c) + RemoveQuotes(t + b);
        == { RemoveQuotesAppend(t, b); }
        Kept(c) + (RemoveQuotes(t) + RemoveQuotes(b));
        (Kept(c) + RemoveQuotes(t)) + RemoveQuotes(b);
        == { assert a == [c] + t; RemoveQuotesCons(c, t); }
        RemoveQuotes(a) + RemoveQuotes(b);
      }
    }
  }

  /** What removal keeps of one character. */
  function Kept(c: char): string {
    if c == '"' then [] else [c]
  }

  /** One step of the removal. */
  lemma RemoveQuotesCons(c: char, t: string)
    ensures RemoveQuotes([c] + t) == Kept(c) + RemoveQuotes(t)
  {
    assert ([c] + t)[0] == c && ([c] + t)[1..] == t;
  }

  datatype CreatePlan = NoFileName | CreatePlan(path: string, content: string)

  /** `runFileCreateModule` up to the call of `createTxtFile`: the content is
      the generated text (quotes removed) after "yes" or "y", else empty. */
  function CreateDecision(resp: string, choice: string, generated: string): CreatePlan {
    var name := CreateFileName(resp);
    if name == [] then NoFileName
    else CreatePlan(WithTxt(name), if choice == "yes" || choice == "y" then RemoveQuotes(generated) else "")
  }

  /** Creation is reached only with a non-empty name from a reply holding
      "CREATE:", and the path is that name with the suffix rule applied. The
      content is the generated text without its quotes after "yes" or "y",
      and empty after any other answer. */
  lemma CreatePlanShape(resp: string, choice: string, generated: string)
    ensures CreateDecision(resp, choice, generated).CreatePlan? <==> Contains(resp, "CREATE:") && Argument(resp) != []
    ensures CreateDecision(resp, choice, generated).CreatePlan? ==>
      CreateDecision(resp, choice, generated).path == WithTxt(Argument(resp)) &&
      '"' !in CreateDecision(resp, choice, generated).content
    ensures CreateDecision(resp, choice, generated).CreatePlan? && (choice == "yes" || choice == "y") ==>
      CreateDecision(resp, choice, generated).content == RemoveQuotes(generated)
    ensures CreateDecision(resp, choice, generated).CreatePlan? && choice != "yes" && choice != "y" ==>
      CreateDecision(resp, choice, generated).content == ""
  {
  }

  /** The two confirmations differ: "y" is enough to fill a new file with
      generated text, but never enough to delete one. */
  lemma ShortYesCreatesButNeverDeletes(resp: string, generated: string, traversal: seq<Entry>)
    requires Contains(resp, "CREATE:") && Argument(resp) != []
    ensures CreateDecision(resp, "y", generated).CreatePlan?
    ensures CreateDecision(resp, "y", generated).content == RemoveQuotes(generated)
    ensures !FileControlDecision(resp, traversal, "y").DeleteFile?
  {
    CreatePlanShape(resp, "y", generated);
    ShortYesNeverDeletes(resp, traversal);
  }

  /** A name without ".txt" anywhere passes the creator's check once the
      engine has appended the suffix. */
  lemma WithTxtAccepted(name: string)
    requires !Contains(name, TxtSuffix)
    ensures IsTxtExtension(WithTxt(name))
  {
    AppendedSuffixAccepted(name);
  }

  /** "A.TXT" holds no lower-case ".txt", so it becomes "A.TXT.txt", which
      the creator accepts. */
  lemma UpperCaseNameGetsSuffix()
    ensures WithTxt("A.TXT") == "A.TXT.txt" && IsTxtExtension("A.TXT.txt")
  {
    MissingCharNotContained("A.TXT", TxtSuffix, 't');
    AppendedSuffixAccepted("A.TXT");
  }

  /** "a.txt.bak" holds ".txt", is left alone, and the creator refuses it
      without writing anything. */
  lemma InfixTxtIsRefused(content: string, canOpen: bool)
    ensures WithTxt("a.txt.bak") == "a.txt.bak"
    ensures CreateTxtFile(WithTxt("a.txt.bak"), content, canOpen) == CreateOutcome(false, None)
  {
    assert IsAt("a.txt.bak", TxtSuffix, 1) by {
      assert "a.txt.bak"[1..5] == ".txt";
    }
    ContainsAt("a.txt.bak", TxtSuffix, 1);
    TxtExtensionCases("");
  }
}
