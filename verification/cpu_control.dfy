/**
 * `CpuControl`: governor switching through sysfs and CPU affinity. The
 * number of cores (`hardware_concurrency`) is fixed when the object is made;
 * the effect of each file write and each `sched_setaffinity` call is recorded
 * in a log, and whether the kernel accepted it is an oracle: `accepts` for
 * writes, `succeeds` for affinity calls.
 */
module CpuControl {
  import opened Text

  /** One attempt to write `value` to the sysfs file `path`. */
  datatype SysWrite = SysWrite(path: string, value: string)

  /** One `sched_setaffinity(pid, …, mask)` call. */
  datatype AffinityCall = AffinityCall(pid: int, mask: set<int>)

  const GovernorPrefix: string := "/sys/devices/system/cpu/cpu"
  const GovernorSuffix: string := "/cpufreq/scaling_governor"

  /** The governor file of core `core`. */
  function GovernorPath(core: nat): string {
    GovernorPrefix + NatToDecimal(core) + GovernorSuffix
  }

  /** Different cores have different governor files, so no core is written
      twice by one pass. */
  lemma GovernorPathInjective(a: nat, b: nat)
    requires GovernorPath(a) == GovernorPath(b)
    ensures a == b
  {
    var p := GovernorPath(a);
    var lo, hi := |GovernorPrefix|, |p| - |GovernorSuffix|;
    assert p[lo..hi] == NatToDecimal(a);
    assert p[lo..hi] == NatToDecimal(b);
    NatToDecimalInjective(a, b);
  }

  /** The writes of one pass over cores `0 .. n-1`, in increasing order. */
  function GovernorWrites(n: nat, governor: string): (w: seq<SysWrite>)
    ensures |w| == n
    ensures forall i :: 0 <= i < n ==> w[i] == SysWrite(GovernorPath(i), governor)
  {
    seq(n, i requires 0 <= i < n => SysWrite(GovernorPath(i), governor))
  }

  /** The mask that allows every one of `n` cores. */
  function AllCores(n: nat): (m: set<int>)
    ensures forall c :: c in m <==> 0 <= c < n
  {
    if n == 0 then {} else AllCores(n - 1) + {n - 1}
  }

  /** The full mask has exactly one member per core. */
  lemma {:induction false} AllCoresSize(n: nat)
    ensures |AllCores(n)| == n
  {
    if n > 0 {
      var prev := AllCores(n - 1);
      AllCoresSize(n - 1);
      assert n - 1 !in prev;
      assert |prev + {n - 1}| == |prev| + 1;
    }
  }

  class CpuControl {
    /** Logical cores reported by `hardware_concurrency` (possibly 0). */
    const coreCount: nat
    /** Every sysfs write attempted, oldest first. */
    var writes: seq<SysWrite>
    /** Every affinity call made, oldest first. */
    var affinityCalls: seq<AffinityCall>

    constructor (cores: nat)
      ensures coreCount == cores && writes == [] && affinityCalls == []
    {
      coreCount := cores;
      writes := [];
      affinityCalls := [];
    }

    /** `setAllCoresGovernor`: one write per core in increasing order, going
        on after a failure; true exactly when every write was accepted. */
    method SetAllCoresGovernor(governor: string, accepts: SysWrite -> bool) returns (allSuccess: bool)
      modifies this
      ensures writes == old(writes) + GovernorWrites(coreCount, governor)
      ensures affinityCalls == old(affinityCalls)
      ensures allSuccess <==> forall i :: 0 <= i < coreCount ==> accepts(SysWrite(GovernorPath(i), governor))
    {
      allSuccess := true;
      for i := 0 to coreCount
        invariant writes == old(writes) + GovernorWrites(i, governor)
        invariant affinityCalls == old(affinityCalls)
        invariant allSuccess <==> forall j :: 0 <= j < i ==> accepts(SysWrite(GovernorPath(j), governor))
      {
        var path := GovernorPrefix + NatToDecimal(i) + GovernorSuffix;
        assert path == GovernorPath(i);
        var w := SysWrite(path, governor);
        writes := writes + [w];
        if !accepts(w) {
          allSuccess := false;
        }
        assert GovernorWrites(i + 1, governor) == GovernorWrites(i, governor) + [w];
      }
    }

    /** `boostPerformance`: every core to "performance". */
    method BoostPerformance(accepts: SysWrite -> bool) returns (ok: bool)
      modifies this
      ensures writes == old(writes) + GovernorWrites(coreCount, "performance")
      ensures affinityCalls == old(affinityCalls)
      ensures ok <==> forall i :: 0 <= i < coreCount ==> accepts(SysWrite(GovernorPath(i), "performance"))
    {
      ok := SetAllCoresGovernor("performance", accepts);
    }

    /** `restoreDefault`: every core to "schedutil". */
    method RestoreDefault(accepts: SysWrite -> bool) returns (ok: bool)
      modifies this
      ensures writes == old(writes) + GovernorWrites(coreCount, "schedutil")
      ensures affinityCalls == old(affinityCalls)
      ensures ok <==> forall i :: 0 <= i < coreCount ==> accepts(SysWrite(GovernorPath(i), "schedutil"))
    {
      ok := SetAllCoresGovernor("schedutil", accepts);
    }

    /** `bindProcessToCore`: an out-of-range core is refused with no call;
        otherwise one call with the mask holding just that core. */
    method BindProcessToCore(pid: int, coreId: int, succeeds: bool) returns (ok: bool)
      modifies this
      ensures writes == old(writes)
      ensures coreId < 0 || coreId >= coreCount ==> !ok && affinityCalls == old(affinityCalls)
      ensures 0 <= coreId < coreCount ==>
        ok == succeeds && affinityCalls == old(affinityCalls) + [AffinityCall(pid, {coreId})]
    {
      if coreId < 0 || coreId >= coreCount {
        return false;
      }
      var mask: set<int> := {};
      mask := mask + {coreId};
      assert mask == {coreId};
      affinityCalls := affinityCalls + [AffinityCall(pid, mask)];
      ok := succeeds;
    }

    /** `unbindProcess`: one call with the mask of every core. */
    method UnbindProcess(pid: int, succeeds: bool) returns (ok: bool)
      modifies this
      ensures writes == old(writes)
      ensures ok == succeeds && affinityCalls == old(affinityCalls) + [AffinityCall(pid, AllCores(coreCount))]
    {
      var mask: set<int> := {};
      for i := 0 to coreCount
        invariant mask == AllCores(i)
      {
        mask := mask + {i};
      }
      affinityCalls := affinityCalls + [AffinityCall(pid, mask)];
      ok := succeeds;
    }
  }
}
