/**
 * `wait_for_pid`: poll `check_pid` until it says the process is gone,
 * sleeping one second after every positive answer.
 *
 * `check_pid` itself is `os.kill(pid, 0)`, which is modelled only by its
 * answers: `probe[i]` is what the i-th call returns. Every `OSError`,
 * permission denied included, reads as "not alive". A finite `probe` that
 * is all `true` stands for a wait that has not ended yet.
 */
module Polling {

  /**
   * How many answers come before the first `false`: the index of that
   * `false`, or |probe| when every answer is `true`.
   */
  function FirstFalse(probe: seq<bool>): (k: nat)
    ensures k <= |probe|
    ensures forall i :: 0 <= i < k ==> probe[i]
    ensures k < |probe| <==> false in probe
    ensures k < |probe| ==> !probe[k]
  {
    if probe == [] || !probe[0] then 0 else 1 + FirstFalse(probe[1..])
  }

  /**
   * `while check_pid(pid): time.sleep(1)`. Returns whether a `false` answer
   * ended the loop, and how many times it slept.
   */
  method WaitForPid(probe: seq<bool>) returns (exited: bool, sleeps: nat)
    ensures exited <==> false in probe
    ensures sleeps == FirstFalse(probe)
  {
    sleeps := 0;
    exited := false;
    while sleeps < |probe| && !exited
      invariant sleeps <= |probe|
      invariant forall i :: 0 <= i < sleeps ==> probe[i]
      invariant exited ==> sleeps < |probe| && !probe[sleeps]
      decreases |probe| - sleeps, !exited
    {
      var alive := probe[sleeps];
      if alive {
        sleeps := sleeps + 1;
      } else {
        exited := true;
      }
    }
  }

  /** An exited process is never waited on: a first answer of `false` means no sleep at all. */
  lemma NoSleepWhenAlreadyGone(probe: seq<bool>)
    requires probe != [] && !probe[0]
    ensures FirstFalse(probe) == 0
  {
  }
}
