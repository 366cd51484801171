/** The relay's processes as they run, one statement at a time.

    A `World` holds what the processes share: the agent's container, the shim's
    record, the files, state.json and the pause process.  Each method is one
    process's code; `Took` checks that each of its steps is a step of the state
    machine in module `Relay`, so the world stays in a reachable state. */
module RelayProcesses {
  import opened Options
  import opened Relay

  /** The world took the step `e` from `s` to `t`. */
  lemma Took(s: State, e: Event, t: State)
    requires Reachable(s) && Enabled(s, e) && t == Next(s, e)
    ensures Reachable(t)
  {
    ReachableNext(s, e);
  }

  class World {
    var exited: bool             // agent: container.exited
    var code: int                // agent: container.code
    var gone: bool               // agent: the process has been reaped
    var record: int              // shim: Container.ExitCode
    var marker: bool             // the guest-exited file
    var exitFile: Option<int>    // the exitcode file
    var crioFile: Option<int>    // the file CRI-O watches
    var oci: Oci                 // state.json
    var pause: Pause
    // where the processes stand
    ghost var waiter: Waiter
    ghost var helper: Helper
    ghost var pending: map<nat, int>
    ghost var queries: map<nat, Oci>

    ghost function Value(): State
      reads this
    {
      State(waiter, exited, code, record, pending, helper, marker, exitFile, crioFile, oci, queries, pause)
    }

    ghost predicate Valid()
      reads this
    {
      Reachable(Value()) && (gone <==> !waiter.Waiting?)
    }

    constructor ()
      ensures Valid() && Value() == Initial()
    {
      exited, code, record, marker, exitFile, crioFile := false, 0, 0, false, None, None;
      oci, pause, gone := Oci(false, 0, PAUSE_PID), Sleeping, false;
      waiter, helper, pending, queries := Waiting, Blocked, map[], map[];
      new;
      assert Possible(Initial(), []) && After(Initial(), []) == Value();
    }

    /** The waiter goroutine of the agent's start. */
    method AwaitExit(result: WaitResult)
      requires Valid() && waiter.Waiting?
      modifies this
      ensures Valid() && gone
      ensures Value() == old(Value()).(waiter := Closed(result), exited := true, code := code)
      ensures code == match result case ExitError(c) => c case CleanExit => 0 case OtherError => 1
    {
      ReachableIsOrdered(Value());
      ghost var s := Value();
      gone, waiter := true, Reaped(result);
      Took(s, Reap(result), Value());
      s := Value();
      exited := true;
      match result {
        case CleanExit =>
        case ExitError(c) => code := c;
        case OtherError => code := 1;
      }
      waiter := Noted(result);
      Took(s, Note, Value());
      s := Value();
      waiter := Closed(result);
      Took(s, Close, Value());
    }

    /** The agent's status: the code under the container's lock. */
    method Status() returns (c: int)
      requires Valid()
      ensures c == StatusCode(Value())
    {
      ReachableIsOrdered(Value());
      c := code;
      if exited { return; }
      if gone { c := 255; }
    }

    /** The shim's ContainerStatus, for any request but the helper's. */
    method ContainerStatus(ghost id: nat) returns (answer: int)
      requires Valid() && id !in pending
      modifies this
      ensures Valid() && answer == StatusCode(old(Value()))
      ensures Value() == old(Value()).(record := answer)
    {
      ghost var s, open := Value(), pending;
      var c := Status();
      pending := pending[id := c];
      Took(s, PollFetch(id), Value());
      s := Value();
      record, pending := c, pending - {id};
      assert pending == open;
      Took(s, PollStore(id), Value());
      answer := record;
    }

    /** The guest-exited file. */
    method WriteMarkerFile(c: int)
      requires Valid() && helper == Answered(c)
      modifies this
      ensures Valid() && Value() == old(Value()).(helper := Marked(c), marker := true)
    {
      ghost var s := Value();
      marker, helper := true, Marked(c);
      Took(s, WriteMarker, Value());
    }

    /** The exitcode file. */
    method WriteCodeFile(c: int)
      requires Valid() && helper == Marked(c)
      modifies this
      ensures Valid() && Value() == old(Value()).(helper := Filed(c), exitFile := Some(c))
    {
      ghost var s := Value();
      exitFile, helper := Some(c), Filed(c);
      Took(s, WriteExitFile, Value());
    }

    /** writeCrioExit. */
    method WriteCrioExit(c: int)
      requires Valid() && helper == Filed(c)
      modifies this
      ensures Valid() && Value() == old(Value()).(helper := Reported(c), crioFile := Some(c))
    {
      ghost var s := Value();
      crioFile, helper := Some(c), Reported(c);
      Took(s, WriteCrioFile, Value());
    }

    /** finishOCIContainer's update of state.json. */
    method StopOci(c: int) returns (pid: nat)
      requires Valid() && helper == Reported(c)
      modifies this
      ensures Valid() && pid == old(oci.pid)
      ensures Value() == old(Value()).(helper := Stopped(c, pid), oci := StopState(old(oci), c))
    {
      ghost var s := Value();
      var st := oci;
      helper := Loaded(c, st);
      Took(s, LoadState, Value());
      s := Value();
      oci, helper := Oci(true, c, st.pid), Stopped(c, st.pid);
      Took(s, RewriteState, Value());
      pid := st.pid;
    }

    /** Its signal to the pause process. */
    method Terminate(c: int, pid: nat)
      requires Valid() && helper == Stopped(c, pid)
      modifies this
      ensures Valid() && Value() == old(Value()).(helper := Finished(c), pause := Signalled)
    {
      ReachableIsOrdered(Value());
      ghost var s := Value();
      if pid > 1 && pid == PAUSE_PID && pause.Sleeping? { pause := Signalled; }
      helper := Finished(c);
      Took(s, SendTerm, Value());
    }

    /** finishOCIContainer: the code is in every file before pause is signalled. */
    method FinishContainer(c: int)
      requires Valid() && helper == Answered(c)
      modifies this
      ensures Valid()
      ensures Value() == old(Value()).(helper := Finished(c), marker := true, exitFile := Some(c), crioFile := Some(c),
                                       oci := StopState(old(oci), c), pause := Signalled)
    {
      WriteMarkerFile(c);
      WriteCodeFile(c);
      WriteCrioExit(c);
      var pid := StopOci(c);
      Terminate(c, pid);
    }

    /** doGuestWait, from the return of its wait on. */
    method GuestWait()
      requires Valid() && helper.Blocked? && waiter.Closed?
      modifies this
      ensures Valid() && record == code && helper == Finished(code) && pause == Signalled
      ensures exitFile == crioFile == Some(code) && oci == StopState(old(oci), code)
      ensures (waiter, exited, code, pending, queries) == old((waiter, exited, code, pending, queries))
    {
      ReachableIsOrdered(Value());
      ghost var s := Value();
      helper := Released;
      Took(s, WaitReturns, Value());
      s := Value();
      var c := Status();
      helper := Fetched(c);
      Took(s, HelperFetch, Value());
      s := Value();
      record, helper := c, Stored;
      Took(s, HelperStore, Value());
      s := Value();
      var answer := record;
      helper := Answered(answer);
      Took(s, HelperAnswer, Value());
      FinishContainer(answer);
    }

    /** The pause command from its signal on; it exits with the code it returns. */
    method PauseExit() returns (c: int)
      requires Valid() && pause.Signalled?
      modifies this
      ensures Valid() && Value() == old(Value()).(pause := Gone(c))
      ensures exitFile == crioFile == Some(c) && helper == Finished(c)
    {
      ghost var s := Value();
      c := if exitFile.Some? then exitFile.value else 0;
      pause := Gone(c);
      Took(s, PauseExits, Value());
      PauseRelaysTheAnswer(Value());
    }

    /** The state command reads state.json. */
    method ReadState(ghost id: nat) returns (st: Oci)
      requires Valid() && id !in queries
      modifies this
      ensures Valid() && st == oci && Value() == old(Value()).(queries := old(queries)[id := st])
    {
      ghost var s := Value();
      st := oci;
      queries := queries[id := st];
      Took(s, QueryRead(id), Value());
    }

    /** applyStoppedState; `running` is what the shim says of the guest. */
    method ApplyStopped(ghost id: nat, st: Oci, running: bool) returns (out: Oci)
      requires Valid() && id in queries && queries[id] == st && (!running ==> gone)
      modifies this
      ensures Valid()
      ensures var o := Settle(st, pause.Gone?, marker || !running);
              && Value() == old(Value()).(oci := if o.Some? then o.value else old(oci), queries := old(queries) - {id})
              && out == (var w := if o.Some? then o.value else st; if w.stopped then w.(pid := 0) else w)
    {
      ReachableIsOrdered(Value());
      ghost var s := Value();
      out := st;
      var dead, done := st.pid > 1 && pause.Gone?, marker || !running;
      if dead || (!st.stopped && done) {
        out := Oci(true, st.exitCode, if dead then 0 else st.pid);
        oci := out;
      }
      queries := queries - {id};
      Took(s, QueryWrite(id, done), Value());
      if out.stopped { out := out.(pid := 0); }
    }

    /** The state command: it reports and records stopped when that was recorded,
        the guest has exited, or pause is gone. */
    method QueryState(ghost id: nat, running: bool) returns (out: Oci)
      requires Valid() && id !in queries && (!running ==> gone)
      modifies this
      ensures Valid() && Value() == old(Value()).(oci := oci)
      ensures out.stopped <==> old(oci).stopped || marker || !running || pause.Gone?
      ensures oci.stopped == out.stopped && (out.stopped ==> out.pid == 0)
    {
      ReachableIsOrdered(Value());
      ghost var open := queries;
      var st := ReadState(id);
      out := ApplyStopped(id, st, running);
      assert queries == open;
    }
  }

  /** The four processes one after the other: pause exits with the guest's code. */
  method RelayAlone(result: WaitResult) returns (c: int)
    ensures c == match result case ExitError(status) => status case CleanExit => 0 case OtherError => 1
  {
    var w := new World();
    w.AwaitExit(result);
    w.GuestWait();
    c := w.PauseExit();
  }
}
