/**
 * `ProcControl`: sending signals to processes. The kernel's side of `kill(2)`
 * is not modelled; each call's effect is recorded in a log of the signals
 * sent, and whether `kill` reported success is given as the parameter
 * `delivered`.
 */
module ProcessControl {

  /** SIGKILL, SIGSTOP and SIGCONT (9, 19 and 18 on Linux). */
  datatype Signal = SigKill | SigStop | SigCont

  datatype SentSignal = SentSignal(pid: int, signal: Signal)

  /** The guard of `killProcess`: PIDs 1 (init) and below are never killed. */
  predicate KillAllowed(pid: int) {
    pid > 1
  }

  /** No SIGKILL in the log was sent to a PID the guard forbids. */
  ghost predicate NoProtectedKill(log: seq<SentSignal>) {
    forall i :: 0 <= i < |log| && log[i].signal == SigKill ==> KillAllowed(log[i].pid)
  }

  /** Appending a signal keeps the log free of forbidden kills exactly when the
      appended signal is not itself one. */
  lemma NoProtectedKillAppend(log: seq<SentSignal>, s: SentSignal)
    requires NoProtectedKill(log)
    ensures NoProtectedKill(log + [s]) <==> s.signal != SigKill || KillAllowed(s.pid)
  {
    assert (log + [s])[|log|] == s;
  }

  class ProcControl {
    /** Every signal this object has sent, oldest first. */
    var sent: seq<SentSignal>

    ghost predicate Valid()
      reads this
    {
      NoProtectedKill(sent)
    }

    constructor ()
      ensures sent == [] && Valid()
    {
      sent := [];
    }

    /** `killProcess`: refuses PIDs up to 1 without sending anything; otherwise
        sends one SIGKILL and reports whether it was delivered. */
    method KillProcess(pid: int, delivered: bool) returns (ok: bool)
      requires Valid()
      modifies this
      ensures Valid()
      ensures !KillAllowed(pid) ==> !ok && sent == old(sent)
      ensures KillAllowed(pid) ==> ok == delivered && sent == old(sent) + [SentSignal(pid, SigKill)]
    {
      if pid <= 1 {
        return false;
      }
      NoProtectedKillAppend(sent, SentSignal(pid, SigKill));
      sent := sent + [SentSignal(pid, SigKill)];
      ok := delivered;
    }

    /** `lockProcess`: one SIGSTOP, with no guard on the PID. */
    method LockProcess(pid: int, delivered: bool) returns (ok: bool)
      requires Valid()
      modifies this
      ensures Valid()
      ensures ok == delivered && sent == old(sent) + [SentSignal(pid, SigStop)]
    {
      NoProtectedKillAppend(sent, SentSignal(pid, SigStop));
      sent := sent + [SentSignal(pid, SigStop)];
      ok := delivered;
    }

    /** `unlockProcess`: one SIGCONT, with no guard on the PID. */
    method UnlockProcess(pid: int, delivered: bool) returns (ok: bool)
      requires Valid()
      modifies this
      ensures Valid()
      ensures ok == delivered && sent == old(sent) + [SentSignal(pid, SigCont)]
    {
      NoProtectedKillAppend(sent, SentSignal(pid, SigCont));
      sent := sent + [SentSignal(pid, SigCont)];
      ok := delivered;
    }
  }
}
