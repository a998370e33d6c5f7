/** The external encoder process as the relay sees it: a lifecycle state
    and the bytes accepted on its standard input, plus the exit hook that
    kills it. */
module EncoderProcess {
  import opened Config

  /** Running: launched and alive. Exited: ended by itself (e.g. crashed).
      Killed: terminated by the exit hook. */
  datatype ProcessState = Running | Exited | Killed

  /** Effect of `kill()` on a process handle: a live process is terminated;
      killing a process that is already gone does nothing observable. */
  function AfterKill(s: ProcessState): (r: ProcessState)
    ensures r != Running
    ensures s != Running ==> r == s
  {
    if s == Running then Killed else s
  }

  /** Killing twice is the same as killing once. */
  lemma AfterKillIdempotent(s: ProcessState)
    ensures AfterKill(AfterKill(s)) == AfterKill(s)
  {
  }

  class Encoder {
    /** The argument list the process was launched with. */
    const args: seq<string>
    var state: ProcessState
    /** Every byte the encoder has accepted on its standard input, in order. */
    var stdin: seq<byte>
    /** Number of terminations actually delivered to a live process. */
    var terminations: nat

    /** Launching the encoder with a pipe on its standard input. */
    constructor Launch(args: seq<string>)
      ensures this.args == args
      ensures state == Running && stdin == [] && terminations == 0
    {
      this.args := args;
      state := Running;
      stdin := [];
      terminations := 0;
    }

    /** The process is found to have ended by itself (e.g. its output
        failed): from here on every write to its pipe fails. The model takes
        the end of the process and its first failing write as one moment. */
    method Die()
      modifies this`state
      ensures state == if old(state) == Running then Exited else old(state)
    {
      if state == Running {
        state := Exited;
      }
    }

    /** One write of `data` to the standard input pipe. It fails, accepting
        nothing, once the pipe to the process is known broken (`state` is no
        longer Running) or when the pipe reports an error (`fault`);
        otherwise all of `data` is appended. The stream's own buffer is not
        modelled, so a write is accepted only by a process that reads it. */
    method Write(data: seq<byte>, fault: bool) returns (ok: bool)
      modifies this`stdin
      ensures ok <==> state == Running && !fault
      ensures stdin == if ok then old(stdin) + data else old(stdin)
    {
      ok := state == Running && !fault;
      if ok {
        stdin := stdin + data;
      }
    }

    /** `kill()`: terminates a running process and counts the termination. */
    method Kill()
      modifies this`state, this`terminations
      ensures state == AfterKill(old(state))
      ensures terminations == old(terminations) + (if old(state) == Running then 1 else 0)
    {
      if state == Running {
        state := Killed;
        terminations := terminations + 1;
      }
    }
  }

  /** The exit hook. `process` is null when the process handle was never
      bound (the hook runs before or without a launch); the resulting lookup
      error, like any error from `kill()`, is swallowed, so the hook always
      returns normally. Standard input is never touched. */
  method CleanupOnExit(process: Encoder?)
    modifies process
    ensures process != null ==> process.state == AfterKill(old(process.state))
    ensures process != null ==> process.stdin == old(process.stdin)
    ensures process != null ==>
              process.terminations == old(process.terminations) + (if old(process.state) == Running then 1 else 0)
  {
    if process != null {
      process.Kill();
    }
  }

  /** Running the hook a second time changes nothing further: a termination
      is delivered only if the process was running before the first call,
      the process stays down and its standard input is untouched. */
  method CleanupTwice(process: Encoder?)
    modifies process
    ensures process != null ==> process.state != Running
    ensures process != null ==> process.state == AfterKill(old(process.state))
    ensures process != null ==> process.stdin == old(process.stdin)
    ensures process != null ==>
              process.terminations == old(process.terminations) + (if old(process.state) == Running then 1 else 0)
  {
    CleanupOnExit(process);
    ghost var afterFirst := if process != null then process.terminations else 0;
    CleanupOnExit(process);
    assert process != null ==> process.terminations == afterFirst;
  }
}
