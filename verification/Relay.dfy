/** The exit-code relay.

    A guest process's exit code travels from the agent's waiter goroutine, over
    the shim's container record, to the guest-wait helper, which writes it to a
    file and signals the host's pause process; pause exits with the file's
    content.  The processes are modelled as one state machine whose events are
    their atomic steps, interleaved in any order.  Besides the four processes
    of the relay the machine has any number of other `ContainerStatus` requests
    (the OCI `state` command and the kubelet send them) and of `state` commands.

    The runs have no kill, no restart and no transport error. */
module Relay {
  import opened Options

  /** What waiting for the guest process returned. */
  datatype WaitResult = CleanExit | ExitError(code: int) | OtherError

  /** The code the agent records for it. */
  function Recorded(w: WaitResult): int {
    match w
    case CleanExit => 0
    case ExitError(code) => code
    case OtherError => 1
  }

  /** The waiter goroutine: blocked, returned from the wait, past its critical
      section, past closing the channel. */
  datatype Waiter = Waiting | Reaped(w: WaitResult) | Noted(w: WaitResult) | Closed(w: WaitResult)

  /** The guest-wait helper.  Its `ContainerStatus` request runs in the shim:
      fetched from the agent, stored in the shared record, answered from it. */
  datatype Helper =
    | Blocked
    | Released
    | Fetched(code: int)
    | Stored
    | Answered(code: int)
    | Marked(code: int)
    | Filed(code: int)
    | Reported(code: int)
    | Loaded(code: int, oci: Oci)
    | Stopped(code: int, pid: nat)
    | Finished(code: int)

  datatype Pause = Sleeping | Signalled | Gone(code: int)

  /** The contents of state.json that matter here. */
  datatype Oci = Oci(stopped: bool, exitCode: int, pid: nat)

  datatype State = State(
    waiter: Waiter,
    exited: bool,             // agent: container.exited
    code: int,                // agent: container.code
    record: int,              // shim: Container.ExitCode, shared by all requests
    pending: map<nat, int>,   // other status requests: fetched, not yet stored
    helper: Helper,
    marker: bool,             // the guest-exited file
    exitFile: Option<int>,    // the exitcode file
    crioFile: Option<int>,    // the file CRI-O watches
    oci: Oci,
    queries: map<nat, Oci>,   // state commands that have read state.json
    pause: Pause)

  const PAUSE_PID: nat := 2

  function Initial(): State {
    State(Waiting, false, 0, 0, map[], Blocked, false, None, None, Oci(false, 0, PAUSE_PID), map[], Sleeping)
  }

  datatype Event =
    | Reap(w: WaitResult)
    | Note
    | Close
    | WaitReturns
    | HelperFetch
    | HelperStore
    | HelperAnswer
    | WriteMarker
    | WriteExitFile
    | WriteCrioFile
    | LoadState
    | RewriteState
    | SendTerm
    | PauseExits
    | PollFetch(id: nat)
    | PollStore(id: nat)
    | QueryRead(id: nat)
    | QueryWrite(id: nat, exited: bool)   // exited: the marker is there, or the shim says not running

  /** The agent's answer to a status request, read under the container's lock. */
  function StatusCode(s: State): int {
    if s.exited then s.code
    else if s.waiter.Reaped? then 255   // the process is gone, its code not yet recorded
    else s.code
  }

  /** finishOCIContainer's rewrite of state.json. */
  function StopState(o: Oci, code: int): Oci {
    Oci(true, code, o.pid)
  }

  /** What applyStoppedState writes back for the snapshot `o`, if it writes. */
  function Settle(o: Oci, pauseGone: bool, exited: bool): Option<Oci> {
    var dead := o.pid > 1 && pauseGone;
    if dead || (!o.stopped && exited) then Some(Oci(true, o.exitCode, if dead then 0 else o.pid)) else None
  }

  predicate Enabled(s: State, e: Event) {
    match e
    case Reap(_) => s.waiter.Waiting?
    case Note => s.waiter.Reaped?
    case Close => s.waiter.Noted?
    case WaitReturns => s.helper.Blocked? && s.waiter.Closed?
    case HelperFetch => s.helper.Released?
    case HelperStore => s.helper.Fetched?
    case HelperAnswer => s.helper.Stored?
    case WriteMarker => s.helper.Answered?
    case WriteExitFile => s.helper.Marked?
    case WriteCrioFile => s.helper.Filed?
    case LoadState => s.helper.Reported?
    case RewriteState => s.helper.Loaded?
    case SendTerm => s.helper.Stopped?
    case PauseExits => s.pause.Signalled?
    case PollFetch(id) => id !in s.pending
    case PollStore(id) => id in s.pending
    case QueryRead(id) => id !in s.queries
    case QueryWrite(id, exited) => id in s.queries && (exited ==> !s.waiter.Waiting?) && (s.marker ==> exited)
  }

  function Next(s: State, e: Event): State
    requires Enabled(s, e)
  {
    match e
    case Reap(w) => s.(waiter := Reaped(w))
    case Note => s.(waiter := Noted(s.waiter.w), exited := true, code := Recorded(s.waiter.w))
    case Close => s.(waiter := Closed(s.waiter.w))
    case WaitReturns => s.(helper := Released)
    case HelperFetch => s.(helper := Fetched(StatusCode(s)))
    case HelperStore => s.(helper := Stored, record := s.helper.code)
    case HelperAnswer => s.(helper := Answered(s.record))
    case WriteMarker => s.(helper := Marked(s.helper.code), marker := true)
    case WriteExitFile => s.(helper := Filed(s.helper.code), exitFile := Some(s.helper.code))
    case WriteCrioFile => s.(helper := Reported(s.helper.code), crioFile := Some(s.helper.code))
    case LoadState => s.(helper := Loaded(s.helper.code, s.oci))
    case RewriteState =>
      s.(helper := Stopped(s.helper.code, s.helper.oci.pid), oci := StopState(s.helper.oci, s.helper.code))
    case SendTerm =>
      s.(helper := Finished(s.helper.code),
         pause := if s.helper.pid == PAUSE_PID && s.pause.Sleeping? then Signalled else s.pause)
    case PauseExits => s.(pause := Gone(if s.exitFile.Some? then s.exitFile.value else 0))
    case PollFetch(id) => s.(pending := s.pending[id := StatusCode(s)])
    case PollStore(id) => s.(record := s.pending[id], pending := s.pending - {id})
    case QueryRead(id) => s.(queries := s.queries[id := s.oci])
    case QueryWrite(id, exited) =>
      var o := Settle(s.queries[id], s.pause.Gone?, exited);
      s.(oci := if o.Some? then o.value else s.oci, queries := s.queries - {id})
  }

  /** Every event of `es` is enabled when its turn comes. */
  predicate Possible(s: State, es: seq<Event>)
    decreases |es|
  {
    es == [] || (Enabled(s, es[0]) && Possible(Next(s, es[0]), es[1..]))
  }

  function After(s: State, es: seq<Event>): State
    requires Possible(s, es)
    decreases |es|
  {
    if es == [] then s else After(Next(s, es[0]), es[1..])
  }

  ghost predicate Reachable(s: State) {
    exists es :: Possible(Initial(), es) && After(Initial(), es) == s
  }

  // ---------------------------------------------------------------- what every step keeps

  /** The guest process's recorded exit code, once it is recorded. */
  predicate Known(s: State) { s.waiter.Noted? || s.waiter.Closed? }

  function Truth(s: State): int
    requires Known(s)
  {
    Recorded(s.waiter.w)
  }

  predicate Answering(h: Helper) {
    h.Answered? || h.Marked? || h.Filed? || h.Reported? || h.Loaded? || h.Stopped? || h.Finished?
  }

  predicate FileWritten(h: Helper) {
    h.Filed? || h.Reported? || h.Loaded? || h.Stopped? || h.Finished?
  }

  predicate Ordered(s: State) {
    // the code is set before the channel closes
    && (s.exited <==> Known(s))
    && (s.exited ==> s.code == Truth(s))
    && (!s.exited ==> s.code == 0)
    // the helper reads only after the channel closed
    && (!s.helper.Blocked? ==> s.waiter.Closed?)
    && (s.helper.Fetched? ==> s.helper.code == Truth(s))
    // the file is written before the signal is sent, and not changed after
    && (if FileWritten(s.helper) then s.exitFile == Some(s.helper.code) else s.exitFile == None)
    && (s.marker <==> s.helper.Marked? || FileWritten(s.helper))
    && (s.crioFile == if s.helper.Reported? || s.helper.Loaded? || s.helper.Stopped? || s.helper.Finished?
                      then Some(s.helper.code) else None)
    && (!s.pause.Sleeping? ==> s.helper.Finished?)
    && (s.pause.Gone? ==> s.helper.Finished? && s.pause.code == s.helper.code)
    // state.json names the pause process until that is gone
    && (s.oci.pid == PAUSE_PID || (s.pause.Gone? && s.oci.pid == 0))
    && (forall id :: id in s.queries ==>
          s.queries[id].pid == PAUSE_PID || (s.pause.Gone? && s.queries[id].pid == 0))
    && (s.helper.Stopped? ==> s.helper.pid == PAUSE_PID)
    && (s.helper.Finished? ==> !s.pause.Sleeping?)
    && (s.helper.Loaded? ==> s.helper.oci.pid == PAUSE_PID)
    // stopped is recorded only for a guest that has exited
    && (s.oci.stopped ==> !s.waiter.Waiting?)
    && (forall id :: id in s.queries && s.queries[id].stopped ==> !s.waiter.Waiting?)
    && ((s.helper.Stopped? || s.helper.Finished?) ==> s.oci.stopped)
  }

  lemma NextKeepsOrdered(s: State, e: Event)
    requires Ordered(s) && Enabled(s, e)
    ensures Ordered(Next(s, e))
  {
  }

  lemma {:induction false} AfterKeepsOrdered(s: State, es: seq<Event>)
    requires Ordered(s) && Possible(s, es)
    ensures Ordered(After(s, es))
    decreases |es|
  {
    if es != [] {
      NextKeepsOrdered(s, es[0]);
      AfterKeepsOrdered(Next(s, es[0]), es[1..]);
    }
  }

  lemma ReachableIsOrdered(s: State)
    requires Reachable(s)
    ensures Ordered(s)
  {
    var es :| Possible(Initial(), es) && After(Initial(), es) == s;
    AfterKeepsOrdered(Initial(), es);
  }

  /** In every reachable state: pause is gone only with the code the helper was
      answered, which is also the code in both files. */
  lemma PauseRelaysTheAnswer(s: State)
    requires Reachable(s) && s.pause.Gone?
    ensures s.helper == Finished(s.pause.code)
    ensures s.exitFile == Some(s.pause.code) && s.crioFile == Some(s.pause.code)
  {
    var es :| Possible(Initial(), es) && After(Initial(), es) == s;
    AfterKeepsOrdered(Initial(), es);
  }

  /** The OCI state: stopped is reported only after the guest process exited, and
      no later event takes it back. */
  lemma {:induction false} StoppedIsFinal(s: State, es: seq<Event>)
    requires Ordered(s) && Possible(s, es) && s.oci.stopped
    ensures After(s, es).oci.stopped && !After(s, es).waiter.Waiting?
    decreases |es|
  {
    if es != [] {
      NextKeepsOrdered(s, es[0]);
      StoppedIsFinal(Next(s, es[0]), es[1..]);
    }
  }

  // ---------------------------------------------------------------- the code itself

  /** No other status request holds a code that differs from the recorded one. */
  predicate NoneStale(s: State)
    requires Known(s)
  {
    forall id :: id in s.pending ==> s.pending[id] == Truth(s)
  }

  /** From the helper's store on, the shared record holds the recorded code, and
      so does everything the helper derives from it. */
  predicate Clean(s: State) {
    && ((s.helper.Stored? || Answering(s.helper)) ==> Known(s))
    && (s.helper.Stored? ==> s.record == Truth(s) && NoneStale(s))
    && (Answering(s.helper) ==> s.helper.code == Truth(s))
  }

  lemma NextKeepsClean(s: State, e: Event)
    requires Ordered(s) && Clean(s) && Enabled(s, e)
    requires e.HelperStore? ==> Known(s) && NoneStale(s)
    ensures Clean(Next(s, e))
  {
  }

  /** Whenever the helper's request stores its code, no other status request
      that was answered before the exit was recorded is still to be stored. */
  predicate Undisturbed(s: State, es: seq<Event>)
    requires Possible(s, es)
    decreases |es|
  {
    es == [] ||
    (&& (es[0].HelperStore? ==> Known(s) && NoneStale(s))
     && Undisturbed(Next(s, es[0]), es[1..]))
  }

  lemma {:induction false} AfterKeepsClean(s: State, es: seq<Event>)
    requires Ordered(s) && Clean(s) && Possible(s, es) && Undisturbed(s, es)
    ensures Clean(After(s, es)) && Ordered(After(s, es))
    decreases |es|
  {
    if es != [] {
      NextKeepsOrdered(s, es[0]);
      NextKeepsClean(s, es[0]);
      AfterKeepsClean(Next(s, es[0]), es[1..]);
    }
  }

  /** The guest process is reaped once: what its wait returned is the result. */
  lemma {:induction false} ReapDecides(s: State, es: seq<Event>, w: WaitResult)
    requires Possible(s, es) && s.waiter.Waiting?
    ensures Reap(w) in es <==> !After(s, es).waiter.Waiting? && After(s, es).waiter.w == w
    decreases |es|
  {
    if es != [] {
      assert es == [es[0]] + es[1..];
      if es[0].Reap? {
        WaitResultIsStable(Next(s, es[0]), es[1..]);
        NoSecondReap(Next(s, es[0]), es[1..], w);
      } else {
        ReapDecides(Next(s, es[0]), es[1..], w);
      }
    }
  }

  lemma {:induction false} NoSecondReap(s: State, es: seq<Event>, w: WaitResult)
    requires Possible(s, es) && !s.waiter.Waiting?
    ensures Reap(w) !in es
    decreases |es|
  {
    if es != [] {
      assert es == [es[0]] + es[1..];
      NoSecondReap(Next(s, es[0]), es[1..], w);
    }
  }

  lemma {:induction false} WaitResultIsStable(s: State, es: seq<Event>)
    requires Possible(s, es) && !s.waiter.Waiting?
    ensures !After(s, es).waiter.Waiting? && After(s, es).waiter.w == s.waiter.w
    decreases |es|
  {
    if es != [] { WaitResultIsStable(Next(s, es[0]), es[1..]); }
  }

  /** Over every undisturbed run, pause terminates only after the guest's wait
      returned, and with its exit code: the status of an exit error, 0 for a clean
      exit, 1 for any other error. */
  lemma {:induction false} PauseRelaysTheExitCode(es: seq<Event>)
    requires Possible(Initial(), es) && Undisturbed(Initial(), es)
    requires After(Initial(), es).pause.Gone?
    ensures exists w :: Reap(w) in es
    ensures forall w :: Reap(w) in es ==>
              After(Initial(), es).pause.code ==
              match w
              case ExitError(c) => c
              case CleanExit => 0
              case OtherError => 1
  {
    AfterKeepsClean(Initial(), es);
    var s := After(Initial(), es);
    ReapDecides(Initial(), es, s.waiter.w);
    forall w | Reap(w) in es ensures w == s.waiter.w { ReapDecides(Initial(), es, w); }
  }

  predicate IsPoll(e: Event) { e.PollFetch? || e.PollStore? }

  /** A run of the four processes alone is undisturbed. */
  lemma {:induction false} AloneIsUndisturbed(s: State, es: seq<Event>)
    requires Ordered(s) && s.pending == map[] && Possible(s, es)
    requires forall i :: 0 <= i < |es| ==> !IsPoll(es[i])
    ensures Undisturbed(s, es)
    decreases |es|
  {
    if es != [] {
      NextKeepsOrdered(s, es[0]);
      assert !IsPoll(es[0]);
      AloneIsUndisturbed(Next(s, es[0]), es[1..]);
    }
  }

  // ---------------------------------------------------------------- exactly when

  /** Every continuation from `s` relays the recorded code. */
  ghost predicate AllContinuationsRelay(s: State)
    requires Known(s)
  {
    forall es :: Possible(s, es) && After(s, es).pause.Gone? ==> After(s, es).pause.code == Truth(s)
  }

  lemma {:induction false} TruthIsStable(s: State, es: seq<Event>)
    requires Known(s) && Possible(s, es)
    ensures Known(After(s, es)) && Truth(After(s, es)) == Truth(s)
    decreases |es|
  {
    if es != [] {
      TruthIsStable(Next(s, es[0]), es[1..]);
    }
  }

  /** Past the store, no event can disturb the run any more. */
  lemma {:induction false} PastStoreIsUndisturbed(s: State, es: seq<Event>)
    requires s.helper.Stored? || Answering(s.helper)
    requires Possible(s, es)
    ensures Undisturbed(s, es)
    decreases |es|
  {
    if es != [] {
      PastStoreIsUndisturbed(Next(s, es[0]), es[1..]);
    }
  }

  /** The relay's own next step. */
  function Pick(s: State): Event {
    match s.waiter
    case Waiting => Reap(CleanExit)
    case Reaped(_) => Note
    case Noted(_) => Close
    case Closed(_) =>
      match s.helper
      case Blocked => WaitReturns
      case Released => HelperFetch
      case Fetched(_) => HelperStore
      case Stored => HelperAnswer
      case Answered(_) => WriteMarker
      case Marked(_) => WriteExitFile
      case Filed(_) => WriteCrioFile
      case Reported(_) => LoadState
      case Loaded(_, _) => RewriteState
      case Stopped(_, _) => SendTerm
      case Finished(_) => PauseExits
  }

  /** Number of those steps still to come. */
  function Remaining(s: State): nat {
    (match s.waiter case Waiting => 3 case Reaped(_) => 2 case Noted(_) => 1 case Closed(_) => 0) +
    (match s.helper
     case Blocked => 10 case Released => 9 case Fetched(_) => 8 case Stored => 7 case Answered(_) => 6
     case Marked(_) => 5 case Filed(_) => 4 case Reported(_) => 3 case Loaded(_, _) => 2
     case Stopped(_, _) => 1 case Finished(_) => 0) +
    (match s.pause case Sleeping => 2 case Signalled => 1 case Gone(_) => 0)
  }

  lemma PickAdvances(s: State)
    requires Ordered(s) && !s.pause.Gone?
    ensures Enabled(s, Pick(s)) && Remaining(Next(s, Pick(s))) < Remaining(s)
  {
  }

  /** From every state that the invariant allows, pause can still terminate; past
      the helper's store the relay alone delivers what the record holds. */
  lemma {:induction false} CanFinish(s: State) returns (es: seq<Event>)
    requires Ordered(s)
    ensures Possible(s, es) && After(s, es).pause.Gone?
    ensures s.helper.Stored? ==> After(s, es).pause.code == s.record
    ensures Answering(s.helper) ==> After(s, es).pause.code == s.helper.code
    decreases Remaining(s)
  {
    if s.pause.Gone? {
      es := [];
    } else {
      PickAdvances(s);
      NextKeepsOrdered(s, Pick(s));
      var rest := CanFinish(Next(s, Pick(s)));
      es := [Pick(s)] + rest;
      assert es[1..] == rest;
    }
  }

  lemma {:induction false} PossibleSnoc(s: State, es: seq<Event>, e: Event)
    requires Possible(s, es) && Enabled(After(s, es), e)
    ensures Possible(s, es + [e]) && After(s, es + [e]) == Next(After(s, es), e)
    decreases |es|
  {
    if es == [] {
      var t := Next(s, e);
      assert Possible(t, []) && After(t, []) == t;
      assert (es + [e])[1..] == [];
    } else {
      PossibleSnoc(Next(s, es[0]), es[1..], e);
      assert (es + [e])[1..] == es[1..] + [e];
    }
  }

  lemma ReachableNext(s: State, e: Event)
    requires Reachable(s) && Enabled(s, e)
    ensures Reachable(Next(s, e))
  {
    var es :| Possible(Initial(), es) && After(Initial(), es) == s;
    PossibleSnoc(Initial(), es, e);
  }

  lemma {:induction false} PossibleConcat(s: State, es: seq<Event>, fs: seq<Event>)
    requires Possible(s, es) && Possible(After(s, es), fs)
    ensures Possible(s, es + fs) && After(s, es + fs) == After(After(s, es), fs)
    decreases |es|
  {
    if es == [] {
      assert es + fs == fs;
    } else {
      PossibleConcat(Next(s, es[0]), es[1..], fs);
      assert (es + fs)[0] == es[0] && (es + fs)[1..] == es[1..] + fs;
    }
  }

  /** The helper has not yet stored its answer. */
  predicate BeforeStore(s: State) { s.helper.Blocked? || s.helper.Released? || s.helper.Fetched? }

  /** Once the exit is recorded, a status request brings the recorded code, so
      without a stale one there never will be. */
  lemma NextKeepsNoneStale(s: State, e: Event)
    requires Ordered(s) && Known(s) && NoneStale(s) && Enabled(s, e)
    ensures Known(Next(s, e)) && NoneStale(Next(s, e))
  {
  }

  lemma {:induction false} NoneStaleStays(s: State, es: seq<Event>)
    requires Ordered(s) && Known(s) && NoneStale(s) && Possible(s, es)
    ensures Undisturbed(s, es)
    decreases |es|
  {
    if es != [] {
      NextKeepsOrdered(s, es[0]);
      NextKeepsNoneStale(s, es[0]);
      NoneStaleStays(Next(s, es[0]), es[1..]);
    }
  }

  lemma NoneStaleRelays(s: State)
    requires Ordered(s) && Known(s) && NoneStale(s) && BeforeStore(s)
    ensures AllContinuationsRelay(s)
  {
    forall es | Possible(s, es) && After(s, es).pause.Gone?
      ensures After(s, es).pause.code == Truth(s)
    {
      NoneStaleStays(s, es);
      AfterKeepsClean(s, es);
      TruthIsStable(s, es);
    }
  }

  /** The relay's own steps up to the helper's store. */
  lemma {:induction false} ToStore(s: State) returns (es: seq<Event>)
    requires Ordered(s) && Known(s) && BeforeStore(s)
    ensures Possible(s, es) && After(s, es).helper.Stored? && Ordered(After(s, es))
    ensures After(s, es).pending == s.pending
    decreases Remaining(s)
  {
    var e := Pick(s);
    var t := Next(s, e);
    NextKeepsOrdered(s, e);
    if t.helper.Stored? {
      es := [e];
      assert Possible(t, []) && After(t, []) == t && es[1..] == [];
    } else {
      var rest := ToStore(t);
      es := [e] + rest;
      assert es[1..] == rest;
    }
  }

  lemma StaleCanWin(s: State, id: nat)
    requires Ordered(s) && Known(s) && BeforeStore(s)
    requires id in s.pending && s.pending[id] != Truth(s)
    ensures !AllContinuationsRelay(s)
  {
    var toStore := ToStore(s);
    var t := After(s, toStore);
    TruthIsStable(s, toStore);
    var u := Next(t, PollStore(id));
    NextKeepsOrdered(t, PollStore(id));
    var rest := CanFinish(u);
    var es := [PollStore(id)] + rest;
    assert es[1..] == rest;
    assert Possible(t, es) && After(t, es).pause == Gone(s.pending[id]);
    PossibleConcat(s, toStore, es);
  }

  /** From the recording of the exit to the helper's store: the relay is safe
      whatever happens next if and only if no other status request holds a stale
      code. */
  lemma RelayIsSafeExactly(s: State)
    requires Reachable(s) && Known(s) && BeforeStore(s)
    ensures AllContinuationsRelay(s) <==> NoneStale(s)
  {
    ReachableIsOrdered(s);
    if NoneStale(s) {
      NoneStaleRelays(s);
    } else {
      var id :| id in s.pending && s.pending[id] != Truth(s);
      StaleCanWin(s, id);
    }
  }

  /** A stale code does occur: a status request answered between the guest's
      death and its recording carries 255. */
  lemma StaleCodeIsReachable()
    ensures exists s, id ::
              && Reachable(s) && s.helper == Fetched(0) && s.waiter == Closed(CleanExit)
              && id in s.pending && s.pending[id] == 255
  {
    var s0 := Initial();
    assert Possible(s0, []) && After(s0, []) == s0;
    var s1 := Next(s0, Reap(CleanExit));
    ReachableNext(s0, Reap(CleanExit));
    var s2 := Next(s1, PollFetch(0));
    ReachableNext(s1, PollFetch(0));
    var s3 := Next(s2, Note);
    ReachableNext(s2, Note);
    var s4 := Next(s3, Close);
    ReachableNext(s3, Close);
    var s5 := Next(s4, WaitReturns);
    ReachableNext(s4, WaitReturns);
    var s6 := Next(s5, HelperFetch);
    ReachableNext(s5, HelperFetch);
    assert 0 in s6.pending && s6.pending[0] == 255 && s6.helper == Fetched(0);
  }

  // ---------------------------------------------------------------- the code in state.json

  predicate Rewritten(h: Helper) { h.Stopped? || h.Finished? }

  /** Every copy of state.json carries this code. */
  predicate Coded(s: State, c: int) {
    s.oci.exitCode == c && forall id :: id in s.queries ==> s.queries[id].exitCode == c
  }

  /** Until the helper rewrites state.json no copy of it has a code. */
  predicate NoCodeYet(s: State) {
    (!Rewritten(s.helper) ==> Coded(s, 0)) && (s.helper.Loaded? ==> s.helper.oci.exitCode == 0)
  }

  lemma NextKeepsNoCode(s: State, e: Event)
    requires NoCodeYet(s) && Enabled(s, e)
    ensures NoCodeYet(Next(s, e))
  {
  }

  lemma NextKeepsCoded(s: State, e: Event, c: int)
    requires Rewritten(s.helper) && Coded(s, c) && Enabled(s, e)
    ensures Rewritten(Next(s, e).helper) && Coded(Next(s, e), c)
  {
  }

  lemma {:induction false} AfterKeepsNoCode(s: State, es: seq<Event>)
    requires NoCodeYet(s) && Possible(s, es)
    ensures NoCodeYet(After(s, es))
    decreases |es|
  {
    if es != [] {
      NextKeepsNoCode(s, es[0]);
      AfterKeepsNoCode(Next(s, es[0]), es[1..]);
    }
  }

  lemma {:induction false} CodedStays(s: State, es: seq<Event>, c: int)
    requires Rewritten(s.helper) && Coded(s, c) && Possible(s, es)
    ensures Coded(After(s, es), c)
    decreases |es|
  {
    if es != [] {
      NextKeepsCoded(s, es[0], c);
      CodedStays(Next(s, es[0]), es[1..], c);
    }
  }

  ghost predicate AlwaysCoded(s: State, c: int) {
    forall es :: Possible(s, es) ==> After(s, es).oci.exitCode == c
  }

  lemma {:induction false} ThreeSteps(s: State, a: Event, b: Event, c: Event)
    requires Enabled(s, a) && Enabled(Next(s, a), b) && Enabled(Next(Next(s, a), b), c)
    ensures Possible(s, [a, b, c]) && After(s, [a, b, c]) == Next(Next(Next(s, a), b), c)
  {
    var t := Next(s, a);
    var u := Next(t, b);
    var v := Next(u, c);
    assert [a, b, c][1..] == [b, c] && [b, c][1..] == [c] && [c][1..] == [];
    assert Possible(v, []) && After(v, []) == v;
    assert Possible(u, [c]) && After(u, [c]) == v;
    assert Possible(t, [b, c]) && After(t, [b, c]) == v;
  }

  /** A state command that read state.json before the helper rewrote it, and
      writes after pause is gone, puts its old copy back. */
  lemma OldCopyReturns(s: State, id: nat)
    requires Ordered(s) && s.helper.Loaded? && id in s.queries && s.queries[id].exitCode != s.helper.code
    ensures !AlwaysCoded(Next(s, RewriteState), s.helper.code)
  {
    var t := Next(s, RewriteState);
    NextKeepsOrdered(s, RewriteState);
    var u := Next(t, SendTerm);
    NextKeepsOrdered(t, SendTerm);
    var v := Next(u, PauseExits);
    NextKeepsOrdered(u, PauseExits);
    ThreeSteps(t, SendTerm, PauseExits, QueryWrite(id, true));
  }

  /** state.json keeps the exit code that the helper is about to write, whatever
      happens next, exactly when the code is 0 or no state command has read
      state.json and not yet finished. */
  lemma CodeIsKeptExactly(s: State)
    requires Reachable(s) && s.helper.Loaded?
    ensures AlwaysCoded(Next(s, RewriteState), s.helper.code) <==> s.helper.code == 0 || s.queries == map[]
  {
    ReachableIsOrdered(s);
    var es0 :| Possible(Initial(), es0) && After(Initial(), es0) == s;
    AfterKeepsNoCode(Initial(), es0);
    var t, c := Next(s, RewriteState), s.helper.code;
    if c == 0 || s.queries == map[] {
      forall es | Possible(t, es) ensures After(t, es).oci.exitCode == c { CodedStays(t, es, c); }
    } else {
      assert s.queries.Keys != {};
      var id :| id in s.queries.Keys;
      OldCopyReturns(s, id);
    }
  }
}
