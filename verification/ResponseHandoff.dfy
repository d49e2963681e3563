/**
 `_open_response_with_deadline` of isopropyl/bootloaders.py: a daemon thread opens the connection while the caller
 waits under a deadline.  One `State` step is one statement of either thread that touches shared data, so every
 interleaving is a run of `Next`.
 */
module ResponseHandoff {
  import opened Wrappers

  datatype Message = ErrorMessage | ResponseMessage

  datatype WorkerPc =
    | Opening           // in opener(...)
    | OpenFailed        // opener raised; about to read `abandoned`
    | ReportingError    // about to put the error
    | Opened            // about to read `abandoned`
    | Handing           // about to put the response
    | AwaitingClaim     // in claimed.wait(0.05)
    | Rechecking        // the wait timed out; about to read `abandoned`
    | WorkerClosing     // about to close the response
    | WorkerStopped

  datatype CallerPc =
    | CheckingCancel
    | CheckingDeadline
    | Abandoning        // about to set `abandoned` and raise
    | Receiving         // in messages.get
    | Claiming(got: Message)
    | Rechecked(got: Message)   // about to read the clock once more
    | CallerClosing     // about to close a response that came too late
    | Raised
    | Returned

  datatype State = State(
    worker: WorkerPc, caller: CallerPc,
    queue: Option<Message>, abandoned: bool, claimed: bool, cancelled: bool, expired: bool,
    connected: bool, closes: nat)

  ghost predicate Init(s: State) {
    s.worker == Opening && s.caller == CheckingCancel && s.queue == None && !s.abandoned && !s.claimed
    && !s.connected && s.closes == 0
  }

  /** One statement of the connecting thread. */
  ghost predicate WorkerStep(s: State, t: State) {
    match s.worker
    case Opening => t == s.(worker := OpenFailed) || t == s.(worker := Opened, connected := true)
    case OpenFailed => t == s.(worker := if s.abandoned then WorkerStopped else ReportingError)
    case ReportingError => s.queue.None? && t == s.(worker := WorkerStopped, queue := Some(ErrorMessage))
    case Opened => t == s.(worker := if s.abandoned then WorkerClosing else Handing)
    case Handing => s.queue.None? && t == s.(worker := AwaitingClaim, queue := Some(ResponseMessage))
    case AwaitingClaim => t == s.(worker := if s.claimed then WorkerStopped else Rechecking)
    case Rechecking => t == s.(worker := if s.abandoned then WorkerClosing else AwaitingClaim)
    case WorkerClosing => t == s.(worker := WorkerStopped, closes := s.closes + 1)
    case WorkerStopped => false
  }

  /** One statement of the waiting caller. */
  ghost predicate CallerStep(s: State, t: State) {
    match s.caller
    case CheckingCancel => t == s.(caller := if s.cancelled then Abandoning else CheckingDeadline)
    case CheckingDeadline => t == s.(caller := if s.expired then Abandoning else Receiving)
    case Abandoning => t == s.(caller := Raised, abandoned := true)
    case Receiving =>
      match s.queue {
        case Some(message) => t == s.(caller := Claiming(message), queue := None)
        case None => t == s.(caller := CheckingCancel)
      }
    case Claiming(message) => t == s.(caller := Rechecked(message), claimed := true)
    case Rechecked(message) =>
      t == s.(caller :=
        if s.expired && message.ResponseMessage? then CallerClosing
        else if s.expired || message.ErrorMessage? then Raised
        else Returned)
    case CallerClosing => t == s.(caller := Raised, closes := s.closes + 1)
    case Raised => false
    case Returned => false
  }

  /** Cancellation and the deadline: events that, once true, stay true. */
  ghost predicate EnvironmentStep(s: State, t: State) {
    t == s.(cancelled := true) || t == s.(expired := true)
  }

  ghost predicate Next(s: State, t: State) {
    WorkerStep(s, t) || CallerStep(s, t) || EnvironmentStep(s, t)
  }

  ghost predicate Run(run: seq<State>) {
    && run != [] && Init(run[0])
    && forall i :: 0 < i < |run| ==> Next(run[i - 1], run[i])
  }

  predicate CallerFinished(s: State) {
    s.caller.Raised? || s.caller.Returned?
  }

  predicate CallerHolds(s: State) {
    s.caller == Claiming(ResponseMessage) || s.caller == Rechecked(ResponseMessage) || s.caller.CallerClosing?
  }

  /** Never closed twice, never handed out and closed; once both threads stopped, exactly one of the two. */
  predicate Safe(s: State) {
    && s.closes <= 1
    && (s.caller.Returned? ==> s.connected && s.closes == 0)
    && (s.worker.WorkerStopped? && CallerFinished(s) && s.connected ==> (s.caller.Returned? <==> s.closes == 0))
  }

  /** The caller either abandons the connection or claims the message, and the flags say which. */
  predicate CallerFlags(s: State) {
    match s.caller
    case Rechecked(_) => s.claimed && !s.abandoned
    case CallerClosing => s.claimed && !s.abandoned
    case Returned => s.claimed && !s.abandoned
    case Raised => s.claimed != s.abandoned
    case _ => !s.claimed && !s.abandoned
  }

  predicate NothingReceived(s: State) {
    s.closes == 0 && s.queue == None && !s.claimed && !s.caller.Claiming?
  }

  /** The response after the worker has put it in the queue: still there, with the caller, or closed by it. */
  predicate HandedOver(s: State) {
    || (s.queue == Some(ResponseMessage) && !s.claimed && !s.caller.Claiming? && s.closes == 0)
    || (s.queue == None && (CallerHolds(s) || s.caller.Returned?) && s.closes == 0)
    || (s.queue == None && s.caller.Raised? && s.claimed && s.closes == 1)
  }

  /** The joint invariant of the two threads' positions and the data they share. */
  predicate Inv(s: State) {
    CallerFlags(s) &&
    match s.worker
    case Opening => !s.connected && NothingReceived(s)
    case OpenFailed => !s.connected && NothingReceived(s)
    case ReportingError => !s.connected && NothingReceived(s)
    case Opened => s.connected && NothingReceived(s)
    case Handing => s.connected && NothingReceived(s)
    case AwaitingClaim => s.connected && HandedOver(s)
    case Rechecking => s.connected && HandedOver(s)
    case WorkerClosing => s.connected && s.abandoned && s.closes == 0
    case WorkerStopped =>
      if s.connected then
        (s.abandoned && s.closes == 1) || (s.claimed && HandedOver(s))
      else
        s.closes == 0 && s.queue != Some(ResponseMessage) && !CallerHolds(s) && !s.caller.Returned?
  }

  lemma WorkerKeepsInv(s: State, t: State)
    requires Inv(s) && WorkerStep(s, t)
    ensures Inv(t)
  {
  }

  lemma CallerKeepsInv(s: State, t: State)
    requires Inv(s) && CallerStep(s, t)
    ensures Inv(t)
  {
  }

  lemma InvHolds(s: State, t: State)
    requires Inv(s) && Next(s, t)
    ensures Inv(t)
  {
    if WorkerStep(s, t) {
      WorkerKeepsInv(s, t);
    } else if CallerStep(s, t) {
      CallerKeepsInv(s, t);
    }
  }

  lemma {:induction false} RunKeepsInv(run: seq<State>, i: nat)
    requires Run(run) && i < |run|
    ensures Inv(run[i])
  {
    if i > 0 {
      RunKeepsInv(run, i - 1);
      assert Next(run[i - 1], run[i]);
      InvHolds(run[i - 1], run[i]);
    }
  }

  /** In every interleaving an opened response is returned or closed, exactly one of the two, and only once. */
  lemma ResponseHasOneFate(run: seq<State>, i: nat)
    requires Run(run) && i < |run|
    ensures Safe(run[i])
  {
    RunKeepsInv(run, i);
  }

  /** Neither flag is ever taken back, a finished caller never moves, and `closes` only grows. */
  lemma FateIsFinal(s: State, t: State)
    requires Inv(s) && Next(s, t)
    ensures s.abandoned ==> t.abandoned
    ensures s.claimed ==> t.claimed
    ensures CallerFinished(s) ==> t.caller == s.caller
    ensures s.closes <= t.closes <= s.closes + 1
  {
  }

  // ----- what decides between returning and raising

  /** Why a caller is on its way to raise, or has raised. */
  predicate Reasons(s: State) {
    && (s.caller.Abandoning? ==> s.cancelled || s.expired)
    && (s.caller.CallerClosing? ==> s.expired)
    && (s.caller.Raised? ==> s.cancelled || s.expired || (s.worker.WorkerStopped? && !s.connected))
  }

  lemma ReasonsKept(s: State, t: State)
    requires Inv(s) && Reasons(s) && Next(s, t)
    ensures Reasons(t)
  {
  }

  lemma {:induction false} RunKeepsReasons(run: seq<State>, i: nat)
    requires Run(run) && i < |run|
    ensures Reasons(run[i])
  {
    if i > 0 {
      RunKeepsReasons(run, i - 1);
      RunKeepsInv(run, i - 1);
      assert Next(run[i - 1], run[i]);
      ReasonsKept(run[i - 1], run[i]);
    }
  }

  /** A caller raises only when cancelled, past the deadline, or when the connection attempt failed. */
  lemma RaisingHasAReason(run: seq<State>, i: nat)
    requires Run(run) && i < |run| && run[i].caller.Raised?
    ensures run[i].cancelled || run[i].expired || (run[i].worker.WorkerStopped? && !run[i].connected)
  {
    RunKeepsReasons(run, i);
  }

  /**
   The step that finished the caller: it returned exactly if it had received a response and the deadline had not passed
   at its last look at the clock.  Otherwise it had given up waiting, received an error, or closed a late response.
   */
  lemma {:induction false} LastLookDecides(run: seq<State>, i: nat) returns (j: nat)
    requires Run(run) && i < |run| && CallerFinished(run[i])
    ensures j < i && !CallerFinished(run[j]) && run[j + 1].caller == run[i].caller
    ensures run[i].caller.Returned? <==> run[j].caller == Rechecked(ResponseMessage) && !run[j].expired
    ensures run[i].caller.Raised? <==>
      || (run[j].caller.Abandoning? && (run[j].cancelled || run[j].expired))
      || run[j].caller == Rechecked(ErrorMessage)
      || (run[j].caller.CallerClosing? && run[j].expired)
  {
    hide Inv, Reasons, Next;
    RunKeepsInv(run, i - 1);
    RunKeepsReasons(run, i - 1);
    assert Next(run[i - 1], run[i]);
    if CallerFinished(run[i - 1]) {
      FateIsFinal(run[i - 1], run[i]);
      j := LastLookDecides(run, i - 1);
    } else {
      j := i - 1;
      FinishingStep(run[j], run[i]);
    }
  }

  lemma FinishingStep(s: State, t: State)
    requires Reasons(s) && Next(s, t) && !CallerFinished(s) && CallerFinished(t)
    ensures t.caller.Returned? <==> s.caller == Rechecked(ResponseMessage) && !s.expired
    ensures t.caller.Raised? <==>
      || (s.caller.Abandoning? && (s.cancelled || s.expired))
      || s.caller == Rechecked(ErrorMessage)
      || (s.caller.CallerClosing? && s.expired)
  {
    hide WorkerStep;
    if WorkerStep(s, t) {
      WorkerLeavesCaller(s, t);
    }
  }

  lemma WorkerLeavesCaller(s: State, t: State)
    requires WorkerStep(s, t)
    ensures t.caller == s.caller
  {
  }

  /** A run in which the connection opens at once and the response is returned. */
  lemma TimelyResponseIsReturned() returns (run: seq<State>)
    ensures Run(run) && run[|run| - 1].caller.Returned? && run[|run| - 1].worker.WorkerStopped?
  {
    var s0 := State(Opening, CheckingCancel, None, false, false, false, false, false, 0);
    var s1 := s0.(worker := Opened, connected := true);
    var s2 := s1.(worker := Handing);
    var s3 := s2.(worker := AwaitingClaim, queue := Some(ResponseMessage));
    var s4 := s3.(caller := CheckingDeadline);
    var s5 := s4.(caller := Receiving);
    var s6 := s5.(caller := Claiming(ResponseMessage), queue := None);
    var s7 := s6.(caller := Rechecked(ResponseMessage), claimed := true);
    var s8 := s7.(caller := Returned);
    var s9 := s8.(worker := WorkerStopped);
    run := [s0, s1, s2, s3, s4, s5, s6, s7, s8, s9];
    assert WorkerStep(s0, s1) && WorkerStep(s1, s2) && WorkerStep(s2, s3);
    assert CallerStep(s3, s4) && CallerStep(s4, s5) && CallerStep(s5, s6) && CallerStep(s6, s7) && CallerStep(s7, s8);
    assert WorkerStep(s8, s9);
  }

  /** A run in which the deadline passes between the receipt and the last look, and the caller closes the response. */
  lemma LateResponseIsClosed() returns (run: seq<State>)
    ensures Run(run) && run[|run| - 1].caller.Raised? && run[|run| - 1].closes == 1 && !run[|run| - 1].abandoned
  {
    var s0 := State(Opening, CheckingCancel, None, false, false, false, false, false, 0);
    var s1 := s0.(worker := Opened, connected := true);
    var s2 := s1.(worker := Handing);
    var s3 := s2.(worker := AwaitingClaim, queue := Some(ResponseMessage));
    var s4 := s3.(caller := CheckingDeadline);
    var s5 := s4.(caller := Receiving);
    var s6 := s5.(caller := Claiming(ResponseMessage), queue := None);
    var s7 := s6.(caller := Rechecked(ResponseMessage), claimed := true);
    var s8 := s7.(expired := true);
    var s9 := s8.(caller := CallerClosing);
    run := [s0, s1, s2, s3, s4, s5, s6, s7, s8, s9, s9.(caller := Raised, closes := 1)];
    assert WorkerStep(s0, s1) && WorkerStep(s1, s2) && WorkerStep(s2, s3) && EnvironmentStep(s7, s8);
    assert CallerStep(s3, s4) && CallerStep(s4, s5) && CallerStep(s5, s6) && CallerStep(s6, s7) && CallerStep(s8, s9);
    assert CallerStep(s9, s9.(caller := Raised, closes := 1));
  }

  /** A run in which the caller is cancelled while connecting, and the connecting thread closes the response. */
  lemma AbandonedResponseIsClosed() returns (run: seq<State>)
    ensures Run(run) && run[|run| - 1].caller.Raised? && run[|run| - 1].closes == 1 && run[|run| - 1].abandoned
  {
    var s0 := State(Opening, CheckingCancel, None, false, false, false, false, false, 0);
    var s1 := s0.(cancelled := true);
    var s2 := s1.(caller := Abandoning);
    var s3 := s2.(caller := Raised, abandoned := true);
    var s4 := s3.(worker := Opened, connected := true);
    var s5 := s4.(worker := WorkerClosing);
    var s6 := s5.(worker := WorkerStopped, closes := 1);
    run := [s0, s1, s2, s3, s4, s5, s6];
    assert EnvironmentStep(s0, s1) && CallerStep(s1, s2) && CallerStep(s2, s3);
    assert WorkerStep(s3, s4) && WorkerStep(s4, s5) && WorkerStep(s5, s6);
  }

  // ----- both threads come to an end

  /** How many more steps the worker can take once the caller has finished and the connection attempt is over. */
  function WorkerSteps(s: State): nat {
    match s.worker
    case Opening => 7
    case OpenFailed => 2
    case ReportingError => 1
    case Opened => 6
    case Handing => 5
    case AwaitingClaim => if s.claimed then 1 else 4
    case Rechecking => if s.claimed then 2 else 3
    case WorkerClosing => 1
    case WorkerStopped => 0
  }

  /** After the caller is done the worker is never stuck and every one of its steps brings it nearer to its end. */
  lemma WorkerWindsDown(s: State)
    requires Inv(s) && CallerFinished(s) && !s.worker.WorkerStopped?
    ensures exists t :: WorkerStep(s, t)
    ensures forall t :: WorkerStep(s, t) ==> WorkerSteps(t) < WorkerSteps(s)
    ensures forall t :: EnvironmentStep(s, t) ==> WorkerSteps(t) == WorkerSteps(s)
  {
    var t := match s.worker
      case Opening => s.(worker := OpenFailed)
      case OpenFailed => s.(worker := if s.abandoned then WorkerStopped else ReportingError)
      case ReportingError => s.(worker := WorkerStopped, queue := Some(ErrorMessage))
      case Opened => s.(worker := if s.abandoned then WorkerClosing else Handing)
      case Handing => s.(worker := AwaitingClaim, queue := Some(ResponseMessage))
      case AwaitingClaim => s.(worker := if s.claimed then WorkerStopped else Rechecking)
      case Rechecking => s.(worker := if s.abandoned then WorkerClosing else AwaitingClaim)
      case WorkerClosing => s.(worker := WorkerStopped, closes := s.closes + 1)
      case WorkerStopped => s;
    assert WorkerStep(s, t);
  }

  function CallerSteps(s: State): nat {
    match s.caller
    case Receiving => 7
    case CheckingCancel => 6
    case CheckingDeadline => 5
    case Abandoning => 1
    case Claiming(_) => 4
    case Rechecked(_) => 3
    case CallerClosing => 1
    case Raised => 0
    case Returned => 0
  }

  /** Once the deadline has passed every step of the caller brings it nearer to returning or raising. */
  lemma DeadlineEndsTheWait(s: State, t: State)
    requires Inv(s) && s.expired && CallerStep(s, t)
    ensures CallerSteps(t) < CallerSteps(s) && t.expired
  {
  }

  function CallerStepsCancelled(s: State): nat {
    match s.caller
    case CheckingDeadline => 7
    case Receiving => 6
    case CheckingCancel => 5
    case Claiming(_) => 4
    case Rechecked(_) => 3
    case _ => if CallerFinished(s) then 0 else 1
  }

  /** And so it does once cancelled, whatever the clock says; a caller that is not done is stuck at no statement. */
  lemma CancellationEndsTheWait(s: State, t: State)
    requires Inv(s) && s.cancelled && !CallerFinished(s)
    ensures exists u :: CallerStep(s, u)
    ensures CallerStep(s, t) ==> CallerStepsCancelled(t) < CallerStepsCancelled(s) && t.cancelled
  {
    var u := match s.caller
      case CheckingCancel => s.(caller := Abandoning)
      case CheckingDeadline => s.(caller := if s.expired then Abandoning else Receiving)
      case Abandoning => s.(caller := Raised, abandoned := true)
      case Receiving =>
        if s.queue.Some? then s.(caller := Claiming(s.queue.value), queue := None) else s.(caller := CheckingCancel)
      case Claiming(message) => s.(caller := Rechecked(message), claimed := true)
      case Rechecked(message) =>
        s.(caller := if !s.expired then (if message.ErrorMessage? then Raised else Returned)
                     else if message.ErrorMessage? then Raised else CallerClosing)
      case CallerClosing => s.(caller := Raised, closes := s.closes + 1)
      case _ => s;
    assert CallerStep(s, u);
  }
}
