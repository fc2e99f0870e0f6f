/**
 * The domain router of `AiEngine::routeAndProcess`: a fixed-priority chain of
 * keyword groups, matched case-insensitively against the operator's input
 * before any inference call is made.
 */
module Router {
  import opened Text

  datatype Domain = Cpu | Memory | Monitor | Process | FileCreate | FileControl | File | Unrecognised

  /** `hasKey`: both sides lower-cased, then substring search. */
  predicate HasKey(s: string, key: string) {
    Contains(Lower(s), Lower(key))
  }

  predicate HasAnyKey(s: string, keys: seq<string>) {
    exists i :: 0 <= i < |keys| && HasKey(s, keys[i])
  }

  const CpuKeys: seq<string> := ["cpu", "频率", "温度", "性能", "省电", "模式"]
  const MemoryKeys: seq<string> := ["内存", "mem", "ram", "垃圾", "清理"]
  const MonitorKeys: seq<string> := ["监控", "哨兵", "monitor", "watch", "守护"]
  const ProcessKeys: seq<string> := ["杀", "关", "进程", "任务", "top", "kill"]
  const FileCreateKeys: seq<string> := ["创建", "create", "新建", "new", "touch"]
  const FileControlKeys: seq<string> := ["打开", "open", "删除", "delete", "搜索", "查找", "find"]
  const FileKeys: seq<string> := ["文件", "file", "磁盘", "找", "搜索", "大于"]

  /** The keyword groups in the order the router tries them; group `i` selects
      `Order[i]`. */
  const Groups: seq<seq<string>> :=
    [CpuKeys, MemoryKeys, MonitorKeys, ProcessKeys, FileCreateKeys, FileControlKeys, FileKeys]
  const Order: seq<Domain> := [Cpu, Memory, Monitor, Process, FileCreate, FileControl, File]

  /** `routeAndProcess` as a total function: the first matching group wins. */
  function Classify(input: string): Domain {
    if HasAnyKey(input, CpuKeys) then Cpu
    else if HasAnyKey(input, MemoryKeys) then Memory
    else if HasAnyKey(input, MonitorKeys) then Monitor
    else if HasAnyKey(input, ProcessKeys) then Process
    else if HasAnyKey(input, FileCreateKeys) then FileCreate
    else if HasAnyKey(input, FileControlKeys) then FileControl
    else if HasAnyKey(input, FileKeys) then File
    else Unrecognised
  }

  /** The groups and domains, one pair per branch of the chain. */
  lemma GroupsInOrder()
    ensures Groups[0] == CpuKeys && Order[0] == Cpu
    ensures Groups[1] == MemoryKeys && Order[1] == Memory
    ensures Groups[2] == MonitorKeys && Order[2] == Monitor
    ensures Groups[3] == ProcessKeys && Order[3] == Process
    ensures Groups[4] == FileCreateKeys && Order[4] == FileCreate
    ensures Groups[5] == FileControlKeys && Order[5] == FileControl
    ensures Groups[6] == FileKeys && Order[6] == File
    ensures |Groups| == |Order| == 7
  {
  }

  /** Priority: the input lands in group `g`'s domain exactly when group `g`
      matches and no earlier group does. */
  lemma ClassifyFirstMatch(input: string, g: nat)
    requires g < |Groups|
    ensures Classify(input) == Order[g] <==>
      HasAnyKey(input, Groups[g]) && forall h :: 0 <= h < g ==> !HasAnyKey(input, Groups[h])
  {
    GroupsInOrder();
    var m := HasAnyKey(input, Groups[g]);
    if g == 0 {
    } else if g == 1 {
    } else if g == 2 {
    } else if g == 3 {
    } else if g == 4 {
    } else if g == 5 {
    } else {
    }
  }

  /** The input is unrecognised exactly when no group matches. */
  lemma ClassifyUnrecognised(input: string)
    ensures Classify(input) == Unrecognised <==>
      forall h :: 0 <= h < |Groups| ==> !HasAnyKey(input, Groups[h])
  {
    GroupsInOrder();
  }

  /** Matching ignores ASCII letter case on the input side. */
  lemma ClassifyIgnoresCase(a: string, b: string)
    requires Lower(a) == Lower(b)
    ensures Classify(a) == Classify(b)
  {
  }

  lemma ClassifyOfLower(s: string)
    ensures Classify(Lower(s)) == Classify(s)
  {
    LowerIdempotent(s);
    ClassifyIgnoresCase(Lower(s), s);
  }

  /** Domain isolation: any input mentioning "cpu" goes to the CPU module, even
      when it also mentions "kill". */
  lemma CpuBeatsKill(input: string)
    requires HasKey(input, "cpu")
    ensures Classify(input) == Cpu
  {
    assert CpuKeys[0] == "cpu";
  }

  /** "搜索" (search) is a file-control keyword and also a file keyword; the
      file-control group is tried first, so the file (large-file) branch is
      never reached through it. */
  lemma SearchWordNeverReachesFile(input: string)
    requires HasKey(input, "搜索")
    ensures Classify(input) != File
  {
    assert FileControlKeys[4] == "搜索";
  }

  /** "ps" matches no keyword group, so the process module's "ps" shortcut can
      never be taken. */
  lemma PsIsUnrecognised()
    ensures Classify("ps") == Unrecognised
  {
    var s := "ps";
    assert Lower(s) == s;
    forall g, i | 0 <= g < |Groups| && 0 <= i < |Groups[g]|
      ensures !HasKey(s, Groups[g][i])
    {
      var k := Groups[g][i];
      assert Lower(k) == k;
      assert k[0] !in s;
      MissingCharNotContained(s, k, k[0]);
    }
    assert forall h :: 0 <= h < |Groups| ==> !HasAnyKey(s, Groups[h]);
    ClassifyUnrecognised(s);
  }

  /** The other two shortcut words do reach the process module. */
  lemma TopIsProcess()
    ensures Classify("top") == Process
  {
    Reaches("top", 3, 4);
  }

  lemma ProcessWordIsProcess()
    ensures Classify("进程") == Process
  {
    Reaches("进程", 3, 2);
  }

  /** Every domain is reachable: one witness input per branch ("kill" is
      covered by the process lemmas above, the unrecognised branch by "ps"). */
  lemma CpuReachable() ensures Classify("cpu") == Cpu { Reaches("cpu", 0, 0); }
  lemma MemoryReachable() ensures Classify("mem") == Memory { Reaches("mem", 1, 1); }
  lemma MonitorReachable() ensures Classify("监控") == Monitor { Reaches("监控", 2, 0); }
  lemma FileCreateReachable() ensures Classify("新建") == FileCreate { Reaches("新建", 4, 2); }
  lemma FileControlReachable() ensures Classify("打开") == FileControl { Reaches("打开", 5, 0); }
  lemma FileReachable() ensures Classify("文件") == File { Reaches("文件", 6, 0); }

  /** An all-lower-case keyword of group `g` taken as the whole input reaches
      `Order[g]` when every keyword of the earlier groups has its first
      character missing from it. */
  lemma Reaches(s: string, g: nat, i: nat)
    requires g < |Groups| && i < |Groups[g]| && s == Groups[g][i]
    requires Lower(s) == s
    requires forall h, j :: 0 <= h < g && 0 <= j < |Groups[h]| ==> Groups[h][j][0] !in s
    ensures Classify(s) == Order[g]
  {
    forall h, j | 0 <= h < g && 0 <= j < |Groups[h]|
      ensures !HasKey(s, Groups[h][j])
    {
      var k := Groups[h][j];
      assert Lower(k) == k;
      MissingCharNotContained(s, k, k[0]);
    }
    ContainsSelf(s);
    assert HasKey(s, Groups[g][i]);
    ClassifyFirstMatch(s, g);
  }
}
