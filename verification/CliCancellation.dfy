/**
 The signal controller and `_run_write` of isopropyl/cli.py.  A step is one statement of the main thread or of the
 watcher thread that touches shared data, or the whole signal handler, which the interpreter runs in the main thread
 between any two of its statements.
 */
module CliCancellation {
  import opened Wrappers

  /** What leaves `_run_write`: an exit code, or an exception. */
  datatype Ending = Ok | ConfirmationRefused | PreflightFailed | WriteFailed | CancelledCode | Escapes

  datatype Pc =
    | Confirming                      // `_confirm_preparation`, before the `try`
    | Making                          // the workflow factory
    | Made                            // about to enter the call around `bind`
    | Binding | Starting | Storing | Noting | LeavingBind
    | CheckingBind | EnteringPrepare | Preparing | LeavingPrepare
    | CheckingPrepare | Reading | EnteringConfirm | ConfirmingPhrase | LeavingConfirm
    | CheckingConfirm | EnteringExecute | Executing | CheckingResult | Completing | LeavingExecute | Notice
    | Notifying(e: Ending)            // about to print why the code is returned
    | Unwinding(e: Ending)            // an exception is leaving a workflow call
    | Excepting(e: Ending)            // in an `except` clause that turns the exception into an exit code
    | Finally(e: Ending)              // at the head of the `finally` block
    | StoppingWatcher(e: Ending) | Joining(e: Ending) | Closing(e: Ending) | Unbinding(e: Ending)
    | LeavingFinally(e: Ending)
    | Ended(e: Ending)

  datatype WatcherPc = Unstarted | Waiting | Rechecking | Cancelling | Dispatching | Stopped

  datatype State = State(
    pc: Pc, watcher: WatcherPc,
    event: bool, stop: bool, bound: bool, active: bool, completed: bool, made: bool, noted: bool,
    phrase: Option<string>, typed: Option<string>, confirmed: Option<string>,
    authoritative: bool, released: bool, closeRaised: bool, cancels: nat, executions: nat, closes: nat,
    skipped: bool)

  ghost predicate Init(s: State) {
    s == State(Confirming, Unstarted, false, false, false, false, false, false, false, None, None, None,
               false, false, false, 0, 0, 0, false)
  }

  // ----- the handler

  /** `handle` raises `CliCancelled`. */
  predicate Raises(s: State) {
    !s.completed && (!s.bound || !s.active)
  }

  /** Where an exception raised by the handler takes the main thread. */
  function Landing(pc: Pc): Pc {
    match pc
    case Confirming => Ended(Escapes)
    case Binding => Unwinding(Escapes)
    case Starting => Unwinding(Escapes)
    case Storing => Unwinding(Escapes)
    case Noting => Unwinding(Escapes)
    case LeavingBind => Unwinding(Escapes)
    case Preparing => Unwinding(Escapes)
    case LeavingPrepare => Unwinding(Escapes)
    case ConfirmingPhrase => Unwinding(Escapes)
    case LeavingConfirm => Unwinding(Escapes)
    case Executing => Unwinding(Escapes)
    case CheckingResult => Unwinding(Escapes)
    case Completing => Unwinding(Escapes)
    case LeavingExecute => Unwinding(Escapes)
    case Finally(_) => Ended(Escapes)
    case StoppingWatcher(_) => LeavingFinally(Escapes)
    case Joining(_) => LeavingFinally(Escapes)
    case Closing(_) => LeavingFinally(Escapes)
    case Unbinding(_) => LeavingFinally(Escapes)
    case LeavingFinally(_) => Ended(Escapes)   // before the flag is cleared
    case _ => Finally(Escapes)
  }

  /** SIGINT or SIGTERM while `_run_write` is running. */
  ghost predicate SignalStep(s: State, t: State) {
    && !s.pc.Ended?
    && t == if !Raises(s) then s.(event := true)
            else s.(event := true, pc := Landing(s.pc), skipped := s.skipped || (s.pc.Finally? && s.made))
  }

  // ----- the watcher thread

  function NextWatcher(s: State): WatcherPc {
    match s.watcher
    case Waiting => if s.event then Cancelling else Rechecking
    case Rechecking => if s.stop then Stopped else Waiting
    case Cancelling => Dispatching
    case _ => Stopped
  }

  ghost predicate WatcherStep(s: State, t: State) {
    && !s.watcher.Unstarted? && !s.watcher.Stopped?
    && t == s.(watcher := NextWatcher(s), cancels := s.cancels + if s.watcher.Cancelling? then 1 else 0)
  }

  // ----- the main thread

  /** How the current statement ends: normally, with the text it yields if it yields one, or with an exception. */
  datatype Choice = Fine(text: string) | Fails(e: Ending)

  /** What the `except` clauses make of an exception from a workflow call. */
  function Caught(e: Ending): Ending {
    if e == CancelledCode || e == WriteFailed then e else Escapes
  }

  function NextPc(s: State, c: Choice): Pc {
    match s.pc
    case Confirming => if c.Fine? then Making else Ended(if c.e == Escapes then Escapes else ConfirmationRefused)
    case Making => if c.Fine? then Made else if c.e == Escapes then Finally(Escapes) else Notifying(PreflightFailed)
    case Made => if s.active then Finally(Escapes) else Binding
    case Binding => if s.bound || !s.watcher.Unstarted? then Unwinding(Escapes) else Starting
    case Starting => if c.Fine? then Storing else Unwinding(Escapes)
    case Storing => Noting
    case Noting => LeavingBind
    case LeavingBind => CheckingBind
    case CheckingBind => if s.event then Finally(Escapes) else EnteringPrepare
    case EnteringPrepare => if s.active then Finally(Escapes) else Preparing
    case Preparing => if c.Fine? then LeavingPrepare else Unwinding(Caught(c.e))
    case LeavingPrepare => CheckingPrepare
    case CheckingPrepare =>
      // the check, then the test that the plan is the workflow's own
      if s.event then Finally(Escapes) else if c.Fine? then Reading else Excepting(WriteFailed)
    case Reading =>
      // showing the plan can raise as well
      if c.Fails? then if c.e == WriteFailed then Excepting(WriteFailed) else Finally(Escapes)
      else if s.phrase == Some(c.text) then EnteringConfirm
      else Notifying(ConfirmationRefused)
    case EnteringConfirm => if s.active then Finally(Escapes) else ConfirmingPhrase
    case ConfirmingPhrase => if c.Fine? then LeavingConfirm else Unwinding(Caught(c.e))
    case LeavingConfirm => CheckingConfirm
    case CheckingConfirm => if s.event then Finally(Escapes) else EnteringExecute
    case EnteringExecute => if s.active then Finally(Escapes) else Executing
    case Executing => if c.Fine? then CheckingResult else Unwinding(Caught(c.e))
    case CheckingResult => if c.Fine? then Completing else Unwinding(WriteFailed)
    case Completing => if s.bound && s.active then LeavingExecute else Unwinding(Escapes)
    case LeavingExecute => Notice
    case Notice => Finally(Ok)
    case Notifying(e) =>
      if c.Fine? then Finally(e) else if c.e == WriteFailed then Excepting(WriteFailed) else Finally(Escapes)
    case Unwinding(e) => if e == Escapes then Finally(e) else Excepting(e)
    case Excepting(e) => Finally(if c.Fine? then e else Escapes)
    case Finally(e) =>
      if s.made && s.noted then if s.active then Ended(Escapes) else StoppingWatcher(e)
      else Ended(if c.Fine? || !s.made then e else Escapes)
    case StoppingWatcher(e) => Joining(e)
    case Joining(e) => Closing(e)
    case Closing(e) => Unbinding(if c.Fine? then e else Escapes)
    case Unbinding(e) => LeavingFinally(e)
    case LeavingFinally(e) => Ended(e)
    case Ended(e) => Ended(e)
  }

  /** A `workflow_call` is about to be entered. */
  predicate Entering(s: State) {
    s.pc.Made? || s.pc.EnteringPrepare? || s.pc.EnteringConfirm? || s.pc.EnteringExecute?
    || (s.pc.Finally? && s.made && s.noted)
  }

  predicate Leaving(pc: Pc) {
    pc.LeavingBind? || pc.LeavingPrepare? || pc.LeavingConfirm? || pc.LeavingExecute? || pc.Unwinding?
    || pc.LeavingFinally?
  }

  /** `workflow.close()` is about to be called. */
  predicate CallsClose(s: State) {
    s.pc.Closing? || (s.pc.Finally? && s.made && !s.noted)
  }

  function AfterMain(s: State, c: Choice): State {
    s.(pc := NextPc(s, c),
       watcher := if s.pc.Starting? && c.Fine? then Waiting else s.watcher,
       stop := s.stop || s.pc.StoppingWatcher? || (s.pc.Starting? && c.Fails?),
       bound := (s.bound || s.pc.Binding?) && !s.pc.Unbinding? && !(s.pc.Starting? && c.Fails?),
       active := (s.active || Entering(s)) && !Leaving(s.pc),
       completed := s.completed || (s.pc.Completing? && s.bound && s.active),
       made := s.made || (s.pc.Making? && c.Fine?),
       noted := s.noted || s.pc.Noting?,
       phrase := if s.pc.Preparing? && c.Fine? then Some(c.text) else s.phrase,
       typed := if s.pc.Reading? && c.Fine? then Some(c.text) else s.typed,
       confirmed := if s.pc.ConfirmingPhrase? && c.Fine? then s.typed else s.confirmed,
       authoritative := s.authoritative || (s.pc.CheckingResult? && c.Fine?),
       released := s.released || s.pc.Joining?,
       closeRaised := s.closeRaised || (CallsClose(s) && c.Fails?),
       executions := s.executions + if s.pc.Executing? then 1 else 0,
       closes := s.closes + if CallsClose(s) then 1 else 0,
       skipped := s.skipped || (s.pc.Finally? && Entering(s) && s.active))
  }

  /** The release waits for the watcher. */
  predicate CanStep(s: State) {
    !s.pc.Ended? && (s.pc.Joining? ==> s.watcher.Stopped?)
  }

  ghost predicate MainStep(s: State, t: State) {
    CanStep(s) && exists c: Choice :: t == AfterMain(s, c)
  }

  ghost predicate Next(s: State, t: State) {
    MainStep(s, t) || WatcherStep(s, t) || SignalStep(s, t)
  }

  ghost predicate Run(run: seq<State>) {
    && run != [] && Init(run[0])
    && forall i :: 0 < i < |run| ==> Next(run[i - 1], run[i])
  }

  // ----- the invariant

  /** Inside one of the `with` blocks. */
  predicate InCall(pc: Pc) {
    pc.Binding? || pc.Starting? || pc.Storing? || pc.Noting? || pc.LeavingBind? || pc.Preparing? || pc.LeavingPrepare?
    || pc.ConfirmingPhrase? || pc.LeavingConfirm? || pc.Executing? || pc.CheckingResult? || pc.Completing?
    || pc.LeavingExecute? || pc.Unwinding? || pc.StoppingWatcher? || pc.Joining? || pc.Closing? || pc.Unbinding?
    || pc.LeavingFinally?
  }

  predicate BeforeBinding(pc: Pc) {
    pc.Confirming? || pc.Making? || pc.Made? || pc.Binding?
  }

  predicate HasEnding(pc: Pc) {
    pc.Notifying? || pc.Unwinding? || pc.Excepting? || pc.Finally? || pc.Ended? || Releasing(pc)
  }

  /** From the release on, in the `finally` block. */
  predicate Releasing(pc: Pc) {
    pc.StoppingWatcher? || pc.Joining? || pc.Closing? || pc.Unbinding? || pc.LeavingFinally?
  }

  /** The controller's binding and flags, by position. */
  predicate Flags(s: State) {
    && (InCall(s.pc) ==> s.active)
    && (s.active ==> InCall(s.pc) || (s.pc.Finally? && !s.noted) || s.pc.Ended?)
    && (if HasEnding(s.pc) then (s.pc.LeavingFinally? ==> !s.bound) && (s.bound ==> s.noted)
                                && (s.noted && !s.pc.LeavingFinally? && !s.pc.Ended? ==> s.bound)
        else s.bound == !BeforeBinding(s.pc))
    && (!HasEnding(s.pc) ==> s.noted == !(BeforeBinding(s.pc) || s.pc.Starting? || s.pc.Storing? || s.pc.Noting?))
    && (s.noted ==> s.made) && (s.pc.Confirming? || s.pc.Making? ==> !s.made)
    && (s.made || s.pc.Confirming? || s.pc.Making? || s.pc.Notifying? || s.pc.Finally? || s.pc.Ended?
        || (s.pc.Excepting? && !s.noted))
    && (Releasing(s.pc) ==> s.noted)
  }

  /** The watcher cancels at most once, only after a signal, and is stopped before anything is closed under it. */
  predicate Watched(s: State) {
    && (s.watcher.Unstarted? <==> !s.noted && !s.pc.Storing? && !s.pc.Noting?)
    && s.cancels <= 1 && (s.cancels == 1 ==> s.event && (s.watcher.Dispatching? || s.watcher.Stopped?))
    && (s.watcher.Cancelling? || s.watcher.Dispatching? ==> s.event)
    && (s.watcher.Dispatching? ==> s.cancels == 1)
    && (s.watcher.Stopped? ==> s.cancels == 1 || s.stop)
    && (s.released ==> s.watcher.Stopped?)
    && (s.pc.Closing? || s.pc.Unbinding? || s.pc.LeavingFinally? ==> s.released)
    && (s.stop ==> HasEnding(s.pc))
    && (s.stop && s.noted ==> Releasing(s.pc) || s.pc.Ended?)
    && (s.pc.Joining? ==> s.stop)
    && (s.released ==> Releasing(s.pc) || s.pc.Ended?)
    && (s.noted && s.pc.Ended? && !s.skipped ==> s.released)
  }

  /** The phrase was read, was the plan's, and was confirmed. */
  predicate Authorized(s: State) {
    s.phrase.Some? && s.typed == s.phrase && s.confirmed == s.phrase
  }

  predicate AfterConfirm(pc: Pc) {
    pc.LeavingConfirm? || pc.CheckingConfirm? || pc.EnteringExecute? || pc.Executing? || AfterExecute(pc)
  }

  predicate AfterExecute(pc: Pc) {
    pc.CheckingResult? || pc.Completing? || pc.LeavingExecute? || pc.Notice?
  }

  /** What has been read and confirmed, by position. */
  predicate Phrases(s: State) {
    && (AfterConfirm(s.pc) || s.executions > 0 ==> Authorized(s))
    && (s.pc.EnteringConfirm? || s.pc.ConfirmingPhrase? ==> s.phrase.Some? && s.typed == s.phrase)
  }

  /** No signal is pending where the next statement enters a call or waits for the phrase. */
  predicate Unsignalled(s: State) {
    s.pc.EnteringPrepare? || s.pc.Reading? || s.pc.EnteringConfirm? || s.pc.EnteringExecute? ==> !s.event
  }

  /** Execution happens once. */
  predicate Counted(s: State) {
    && s.executions <= 1
    && (AfterExecute(s.pc) ==> s.executions == 1)
    && (s.executions == 1 ==> HasEnding(s.pc) || AfterExecute(s.pc))
  }

  /** After the authoritative result, only a failing close can turn success into anything else. */
  predicate Latched(s: State) {
    && (s.completed ==> s.authoritative)
    && (s.authoritative ==>
         && s.executions == 1 && s.noted
         && (s.completed <==> !s.pc.Completing?)
         && (s.pc.Completing? || s.pc.LeavingExecute? || s.pc.Notice? || s.pc.Finally? || Releasing(s.pc)
             || s.pc.Ended?)
         && (HasEnding(s.pc) ==> s.pc.e == if s.closeRaised then Escapes else Ok))
    && (s.pc.Completing? || s.pc.LeavingExecute? || s.pc.Notice? ==> s.authoritative)
    && (HasEnding(s.pc) && s.pc.e == Ok ==> s.authoritative)
  }

  /** `close` is called once, unless a signal took the `finally` block away. */
  predicate Closed(s: State) {
    && (s.skipped ==> s.pc == Ended(Escapes) && s.made && !s.authoritative)
    && s.closes == (if (s.pc.Unbinding? || s.pc.LeavingFinally? || s.pc.Ended?) && s.made && !s.skipped then 1 else 0)
    && (s.closeRaised ==> s.closes == 1)
  }

  /** A phrase was typed that is not the plan's. */
  predicate Mistyped(s: State) {
    s.typed.Some? && s.typed != s.phrase
  }

  /** Where the codes of a failed or cancelled write come from. */
  lemma CodesHaveCauses(s: State, c: Choice)
    requires !HasEnding(s.pc) && HasEnding(NextPc(s, c))
    ensures NextPc(s, c).e == CancelledCode <==>
            (s.pc.Preparing? || s.pc.ConfirmingPhrase? || s.pc.Executing?) && c == Fails(CancelledCode)
    ensures NextPc(s, c).e == WriteFailed <==>
            || (c == Fails(WriteFailed)
                && (s.pc.Preparing? || s.pc.ConfirmingPhrase? || s.pc.Executing? || s.pc.Reading?))
            || (s.pc.CheckingPrepare? && !s.event && c.Fails?)
            || (s.pc.CheckingResult? && c.Fails?)
    ensures s.event && (s.pc.CheckingBind? || s.pc.CheckingPrepare? || s.pc.CheckingConfirm?) ==>
      NextPc(s, c) == Finally(Escapes)
  {
  }

  /** From when on there is a typed phrase, and a confirmed one. */
  predicate Read(s: State) {
    && (s.typed.Some? ==>
          s.made && (HasEnding(s.pc) || s.pc.EnteringConfirm? || s.pc.ConfirmingPhrase? || AfterConfirm(s.pc)))
    && (s.confirmed.Some? ==> Authorized(s))
  }

  /** Which exit codes a run can still come to. */
  predicate Coded(s: State) {
    && (Mistyped(s) ==> HasEnding(s.pc) && s.executions == 0 && s.pc.e in {ConfirmationRefused, WriteFailed, Escapes})
    && (HasEnding(s.pc) && s.pc.e == PreflightFailed ==> !s.made)
    && (HasEnding(s.pc) && s.pc.e == ConfirmationRefused && s.made ==> Mistyped(s))
  }

  predicate Control(s: State) {
    Flags(s) && Watched(s)
  }

  predicate Outcome(s: State) {
    Phrases(s) && Unsignalled(s) && Counted(s) && Latched(s) && Closed(s)
  }

  predicate Inv(s: State) {
    Control(s) && Outcome(s)
  }

  lemma NotYetWatched(s: State)
    requires Flags(s) && Watched(s)
    ensures s.pc.Binding? ==> s.watcher.Unstarted?
  {
  }

  lemma MainKeepsFlags(s: State, t: State)
    requires Inv(s) && MainStep(s, t)
    ensures Flags(t)
  {
    hide Phrases, Unsignalled, Counted, Latched, Closed, Watched;
    assert s.pc.Binding? ==> s.watcher.Unstarted? by { NotYetWatched(s); }
  }

  lemma MainKeepsWatched(s: State, t: State)
    requires Inv(s) && MainStep(s, t)
    ensures Watched(t)
  {
    hide Phrases, Unsignalled, Counted, Latched;
  }

  lemma MainKeepsPhrases(s: State, t: State)
    requires Inv(s) && MainStep(s, t)
    ensures Phrases(t)
  {
    hide Flags, Watched, Latched, Closed;
  }

  /** Positions never go back to before the execution. */
  lemma PositionsAdvance(s: State, c: Choice)
    ensures AfterExecute(s.pc) ==> AfterExecute(NextPc(s, c)) || HasEnding(NextPc(s, c))
    ensures HasEnding(s.pc) ==> HasEnding(NextPc(s, c))
    ensures s.pc.Executing? ==> AfterExecute(NextPc(s, c)) || HasEnding(NextPc(s, c))
    ensures AfterExecute(NextPc(s, c)) ==> s.pc.Executing? || AfterExecute(s.pc)
    ensures s.pc.Executing? ==> !HasEnding(s.pc) && !AfterExecute(s.pc)
  {
  }

  lemma MainKeepsCounted(s: State, t: State)
    requires Inv(s) && MainStep(s, t)
    ensures Counted(t)
  {
    hide Flags, Watched, Unsignalled, Latched, Closed, Phrases, NextPc, AfterExecute, HasEnding;
    var c :| t == AfterMain(s, c);
    PositionsAdvance(s, c);
  }

  lemma MainKeepsUnsignalled(s: State, t: State)
    requires Inv(s) && MainStep(s, t)
    ensures Unsignalled(t)
  {
    hide Flags, Watched, Counted, Latched, Closed, Phrases;
  }

  lemma MainKeepsLatched(s: State, t: State)
    requires Inv(s) && MainStep(s, t)
    ensures Latched(t)
  {
    hide Watched, Phrases, Unsignalled;
  }

  lemma MainKeepsClosed(s: State, t: State)
    requires Inv(s) && MainStep(s, t)
    ensures Closed(t) && t.skipped == s.skipped
  {
    hide Watched, Phrases, Unsignalled, Counted;
  }

  lemma WatcherKeepsInv(s: State, t: State)
    requires Inv(s) && WatcherStep(s, t)
    ensures Inv(t)
  {
  }

  lemma SignalKeepsInv(s: State, t: State)
    requires Inv(s) && SignalStep(s, t)
    ensures Inv(t)
  {
  }

  lemma InvHolds(s: State, t: State)
    requires Inv(s) && Next(s, t)
    ensures Inv(t)
  {
    hide Flags, Watched, Phrases, Unsignalled, Counted, Latched, Closed, MainStep, WatcherStep, SignalStep;
    if {
      case MainStep(s, t) =>
        MainKeepsFlags(s, t);
        MainKeepsWatched(s, t);
        MainKeepsPhrases(s, t);
        MainKeepsCounted(s, t);
        MainKeepsUnsignalled(s, t);
        MainKeepsLatched(s, t);
        MainKeepsClosed(s, t);
      case WatcherStep(s, t) => WatcherKeepsInv(s, t);
      case SignalStep(s, t) => SignalKeepsInv(s, t);
    }
  }

  lemma {:induction false} RunKeepsInv(run: seq<State>, i: nat)
    requires Run(run) && i < |run|
    ensures Inv(run[i])
  {
    hide Inv, Next;
    if i == 0 {
      InitHolds(run[0]);
    } else {
      RunKeepsInv(run, i - 1);
      assert Next(run[i - 1], run[i]);
      InvHolds(run[i - 1], run[i]);
    }
  }

  lemma InitHolds(s: State)
    requires Init(s)
    ensures Inv(s)
  {
  }

  // ----- what every run keeps

  /** Where the workflow is called. */
  predicate Calling(pc: Pc) {
    pc.Preparing? || pc.ConfirmingPhrase? || pc.Executing? || pc.Closing?
  }

  /**
   Wherever control is inside a `with` block and the workflow is bound, or the write is complete, a signal only sets
   the event; that covers every call on the workflow after the binding.  A call is never entered inside another, and
   the destructive call is never entered with a signal pending.
   */
  lemma CallsAreNotInterrupted(run: seq<State>, i: nat, t: State)
    requires Run(run) && i < |run|
    ensures SignalStep(run[i], t) && InCall(run[i].pc) && (run[i].bound || run[i].completed) ==>
      t == run[i].(event := true)
    ensures Calling(run[i].pc) ==> InCall(run[i].pc) && run[i].bound
    ensures Entering(run[i]) ==> !run[i].active
    ensures run[i].pc.EnteringExecute? ==> !run[i].event
  {
    RunKeepsInv(run, i);
  }

  /** A signal is handled at the head of the `finally` block, before the call that closes the workflow is entered. */
  ghost predicate Strikes(s: State, t: State) {
    s.pc.Finally? && s.made && !s.completed && SignalStep(s, t)
  }

  /** Only the watcher cancels, only `execute` executes, only a signal skips the release. */
  lemma StepFrames(s: State, t: State)
    requires Inv(s) && Next(s, t)
    ensures s.cancels <= t.cancels && (s.released ==> t.released && t.cancels == s.cancels)
    ensures t.executions > s.executions ==> s.pc.Executing?
    ensures t.skipped <==> s.skipped || Strikes(s, t)
  {
    if MainStep(s, t) {
      MainKeepsClosed(s, t);
    }
  }

  /** Execution starts only after the exact phrase was read and confirmed, and only once. */
  lemma ExecuteNeedsConsent(run: seq<State>, i: nat)
    requires Run(run) && 0 < i < |run| && run[i].executions > run[i - 1].executions
    ensures Authorized(run[i - 1]) && run[i - 1].executions == 0 && run[i].executions == 1
  {
    hide Next, Flags, Watched, Latched, Closed;
    RunKeepsInv(run, i - 1);
    RunKeepsInv(run, i);
    assert Next(run[i - 1], run[i]);
    StepFrames(run[i - 1], run[i]);
  }

  /** The watcher calls `cancel` at most once, only after a signal, and never after the release has returned. */
  lemma {:induction false} WatcherCancelsOnce(run: seq<State>, i: nat, j: nat)
    requires Run(run) && i <= j < |run|
    ensures run[j].cancels <= 1 && (run[j].cancels == 1 ==> run[j].event)
    ensures run[i].released ==> run[j].released && run[j].cancels == run[i].cancels
  {
    hide Next, Flags, Outcome;
    RunKeepsInv(run, j);
    if i < j {
      WatcherCancelsOnce(run, i, j - 1);
      RunKeepsInv(run, j - 1);
      assert Next(run[j - 1], run[j]);
      StepFrames(run[j - 1], run[j]);
    }
  }

  /** After an authoritative result `_run_write` returns OK, whatever signals come, unless `close` raises. */
  lemma SuccessIsLatched(run: seq<State>, i: nat)
    requires Run(run) && i < |run| && run[i].authoritative && run[i].pc.Ended?
    ensures run[i].pc.e == Ok <==> !run[i].closeRaised
    ensures run[i].closes == 1 && run[i].released && run[i].executions == 1
  {
    RunKeepsInv(run, i);
  }

  /** OK is returned for nothing else. */
  lemma OkMeansWritten(run: seq<State>, i: nat)
    requires Run(run) && i < |run| && run[i].pc == Ended(Ok)
    ensures run[i].authoritative && Authorized(run[i]) && run[i].executions == 1
  {
    RunKeepsInv(run, i);
  }

  // ----- the exit codes

  /** The order of the positions, as far as the phrases and the codes depend on it. */
  lemma PositionsForCodes(s: State, c: Choice)
    ensures
      var next := NextPc(s, c);
      && (HasEnding(s.pc) ==> HasEnding(next))
      && (s.pc.EnteringConfirm? || s.pc.ConfirmingPhrase? || AfterConfirm(s.pc) ==>
            HasEnding(next) || next.EnteringConfirm? || next.ConfirmingPhrase? || AfterConfirm(next))
      && (s.pc.Preparing? || s.pc.Making? ==>
            !HasEnding(s.pc) && !s.pc.EnteringConfirm? && !s.pc.ConfirmingPhrase? && !AfterConfirm(s.pc))
      && (s.pc.Reading? ==>
            if c.Fine? && s.phrase != Some(c.text) then next == Notifying(ConfirmationRefused) && HasEnding(next)
            else next.EnteringConfirm? || (c.Fails? && HasEnding(next)))
  {
  }

  lemma MainKeepsRead(s: State, c: Choice)
    requires Flags(s) && Phrases(s) && Read(s)
    ensures Read(AfterMain(s, c))
  {
    hide Flags, HasEnding, AfterConfirm, NextPc;
    PositionsForCodes(s, c);
    MadeAtReading(s);
  }

  lemma MadeAtReading(s: State)
    requires Flags(s)
    ensures s.pc.Reading? ==> s.made && !HasEnding(s.pc) && !AfterConfirm(s.pc)
  {
  }

  lemma MainKeepsCoded(s: State, c: Choice)
    requires Flags(s) && Counted(s) && Phrases(s) && Read(s) && Coded(s)
    ensures Coded(AfterMain(s, c))
  {
  }

  lemma SignalKeepsCoded(s: State, t: State)
    requires Read(s) && Coded(s) && SignalStep(s, t)
    ensures Read(t) && Coded(t)
  {
  }

  lemma {:induction false} RunKeepsCoded(run: seq<State>, i: nat)
    requires Run(run) && i < |run|
    ensures Read(run[i]) && Coded(run[i])
  {
    hide Inv, AfterMain, WatcherStep, SignalStep, Coded, Read;
    if i == 0 {
      InitIsCoded(run[0]);
    } else {
      RunKeepsCoded(run, i - 1);
      RunKeepsInv(run, i - 1);
      assert Next(run[i - 1], run[i]);
      CodedKept(run[i - 1], run[i]);
    }
  }

  lemma CodedKept(s: State, t: State)
    requires Inv(s) && Read(s) && Coded(s) && Next(s, t)
    ensures Read(t) && Coded(t)
  {
    hide Flags, Watched, Phrases, Unsignalled, Counted, Latched, Closed, Read, Coded, AfterMain, WatcherStep,
         SignalStep;
    if {
      case MainStep(s, t) =>
        var c :| t == AfterMain(s, c);
        MainKeepsRead(s, c);
        MainKeepsCoded(s, c);
      case WatcherStep(s, t) => WatcherKeepsCoded(s, t);
      case SignalStep(s, t) => SignalKeepsCoded(s, t);
    }
  }

  lemma WatcherKeepsCoded(s: State, t: State)
    requires Read(s) && Coded(s) && WatcherStep(s, t)
    ensures Read(t) && Coded(t)
  {
  }

  lemma InitIsCoded(s: State)
    requires Init(s)
    ensures Read(s) && Coded(s)
  {
  }

  /**
   A typed phrase other than the plan's: nothing is confirmed or executed, and the code says that the confirmation was
   refused, unless the notice of that could not be printed, or a signal or `close` raised.  For a workflow that was
   made no other cause has that code.
   */
  lemma WrongPhraseIsRefused(run: seq<State>, i: nat)
    requires Run(run) && i < |run| && run[i].pc.Ended?
    ensures Mistyped(run[i]) ==>
      && run[i].executions == 0 && run[i].confirmed == None
      && run[i].pc.e in {ConfirmationRefused, WriteFailed, Escapes}
    ensures run[i].pc.e == ConfirmationRefused && run[i].made ==> Mistyped(run[i])
    ensures run[i].pc.e == PreflightFailed ==> !run[i].made
  {
    RunKeepsCoded(run, i);
  }

  // ----- the release

  /** How far the watcher is from stopping once it has been told to. */
  function WatcherRank(s: State): nat {
    match s.watcher
    case Unstarted => 0
    case Waiting => 3
    case Rechecking => 1
    case Cancelling => 2
    case Dispatching => 1
    case Stopped => 0
  }

  /**
   The join of the release ends: the watcher can always step, each of its steps brings it nearer to its end, and
   nothing else, a signal included, takes it further away.
   */
  lemma JoinEnds(s: State, t: State)
    requires Inv(s) && s.pc.Joining? && !s.watcher.Stopped?
    ensures exists u :: WatcherStep(s, u)
    ensures WatcherStep(s, t) ==> t.pc.Joining? && WatcherRank(t) < WatcherRank(s)
    ensures Next(s, t) ==> WatcherRank(t) <= WatcherRank(s) <= 3
  {
    var u := s.(watcher := NextWatcher(s), cancels := s.cancels + if s.watcher.Cancelling? then 1 else 0);
    assert WatcherStep(s, u);
  }

  // ----- the window in which `close` is lost

  lemma {:induction false} SkippedMeansStruck(run: seq<State>, i: nat)
    requires Run(run) && i < |run|
    ensures run[i].skipped <==> exists j {:trigger run[j]} :: 0 < j <= i && Strikes(run[j - 1], run[j])
  {
    hide Inv, Next, Strikes;
    if i > 0 {
      SkippedMeansStruck(run, i - 1);
      RunKeepsInv(run, i - 1);
      assert Next(run[i - 1], run[i]);
      StepFrames(run[i - 1], run[i]);
    }
  }

  /**
   The workflow is closed exactly once, or not at all; and not at all exactly when a signal is handled at the head of
   the `finally` block before a completed result.
   */
  lemma CloseIsLostOnlyToASignal(run: seq<State>, i: nat)
    requires Run(run) && i < |run| && run[i].pc.Ended? && run[i].made
    ensures run[i].closes <= 1
    ensures run[i].closes == 0 <==> exists j {:trigger run[j]} :: 0 < j <= i && Strikes(run[j - 1], run[j])
  {
    hide Next, Strikes;
    RunKeepsInv(run, i);
    SkippedMeansStruck(run, i);
  }

  ghost predicate Reachable(s: State) {
    exists run :: Run(run) && run[|run| - 1] == s
  }

  lemma Moves(s: State, t: State)
    requires Reachable(s) && Next(s, t)
    ensures Reachable(t)
  {
    hide Next;
    var run :| Run(run) && run[|run| - 1] == s;
    var longer := run + [t];
    forall i | 0 < i < |longer| ensures Next(longer[i - 1], longer[i]) {
      if i < |run| {
        assert longer[i] == run[i] && longer[i - 1] == run[i - 1];
      }
    }
    assert Run(longer);
  }

  lemma MainMoves(s: State, c: Choice, t: State)
    requires Reachable(s) && CanStep(s) && t == AfterMain(s, c)
    ensures Reachable(t)
  {
    hide Reachable, AfterMain, CanStep;
    assert MainStep(s, t);
    Moves(s, t);
  }

  lemma Starts(s: State)
    requires Init(s)
    ensures Reachable(s)
  {
    assert Run([s]);
  }

  /** A new workflow, about to be bound. */
  function New(): State {
    State(Made, Unstarted, false, false, false, false, false, true, false, None, None, None,
          false, false, false, 0, 0, 0, false)
  }

  /** A workflow bound to the controller, with its watcher waiting. */
  function Bound(): State {
    State(CheckingBind, Waiting, false, false, true, false, false, true, true, None, None, None,
          false, false, false, 0, 0, 0, false)
  }

  lemma MakingReaches()
    ensures Reachable(New())
  {
    hide Reachable;
    var s0 := New().(pc := Confirming, made := false);
    Starts(s0);
    MainMoves(s0, Fine(""), s0.(pc := Making));
    MainMoves(s0.(pc := Making), Fine(""), New());
  }

  lemma StartingReaches()
    ensures Reachable(Bound().(pc := Storing, active := true, noted := false))
  {
    hide Reachable;
    MakingReaches();
    var s1 := New().(pc := Binding, active := true);
    var s2 := s1.(pc := Starting, bound := true);
    MainMoves(New(), Fine(""), s1);
    MainMoves(s1, Fine(""), s2);
    MainMoves(s2, Fine(""), Bound().(pc := Storing, active := true, noted := false));
  }

  lemma BindingReaches()
    ensures Reachable(Bound())
  {
    hide Reachable;
    StartingReaches();
    var s1 := Bound().(pc := Storing, active := true, noted := false);
    var s2 := Bound().(pc := Noting, active := true, noted := false);
    var s3 := Bound().(pc := LeavingBind, active := true);
    MainMoves(s1, Fine(""), s2);
    MainMoves(s2, Fine(""), s3);
    MainMoves(s3, Fine(""), Bound());
  }

  lemma PreparingReaches()
    ensures Reachable(Bound().(pc := Preparing, active := true))
  {
    hide Reachable;
    BindingReaches();
    MainMoves(Bound(), Fine(""), Bound().(pc := EnteringPrepare));
    MainMoves(Bound().(pc := EnteringPrepare), Fine(""), Bound().(pc := Preparing, active := true));
  }

  /** The preparation raised what has the given code. */
  lemma UnwindingReaches(e: Ending)
    requires e == CancelledCode || e == WriteFailed
    ensures Reachable(Bound().(pc := Excepting(e)))
  {
    hide Reachable;
    PreparingReaches();
    var s1 := Bound().(pc := Preparing, active := true);
    var s2 := s1.(pc := Unwinding(e));
    MainMoves(s1, Fails(e), s2);
    MainMoves(s2, Fine(""), Bound().(pc := Excepting(e)));
  }

  lemma RaisingReaches(e: Ending)
    requires e == CancelledCode || e == WriteFailed
    ensures Reachable(Bound().(pc := Finally(e)))
  {
    hide Reachable;
    UnwindingReaches(e);
    MainMoves(Bound().(pc := Excepting(e)), Fine(""), Bound().(pc := Finally(e)));
  }

  /** One signal, just after a failed preparation was turned into an exit code, leaves the workflow open. */
  lemma OneSignalLosesTheClose() returns (s: State)
    ensures Reachable(s) && s.pc.Ended? && s.made && s.closes == 0 && !s.released && s.watcher.Waiting?
  {
    hide Reachable;
    RaisingReaches(WriteFailed);
    var before := Bound().(pc := Finally(WriteFailed));
    s := before.(event := true, pc := Ended(Escapes), skipped := true);
    assert SignalStep(before, s);
    Moves(before, s);
  }

  /** The plan's phrase was read and confirmed. */
  function Confirmed(): State {
    Bound().(pc := CheckingConfirm, phrase := Some("ERASE"), typed := Some("ERASE"), confirmed := Some("ERASE"))
  }

  lemma ReadingReaches()
    ensures Reachable(Bound().(pc := Reading, phrase := Some("ERASE")))
  {
    hide Reachable;
    PreparingReaches();
    var s1 := Bound().(pc := Preparing, active := true);
    var s2 := s1.(pc := LeavingPrepare, phrase := Some("ERASE"));
    var s3 := Bound().(pc := CheckingPrepare, phrase := Some("ERASE"));
    MainMoves(s1, Fine("ERASE"), s2);
    MainMoves(s2, Fine(""), s3);
    MainMoves(s3, Fine(""), Bound().(pc := Reading, phrase := Some("ERASE")));
  }

  lemma TypingReaches()
    ensures Reachable(Confirmed().(pc := ConfirmingPhrase, active := true, confirmed := None))
  {
    hide Reachable;
    ReadingReaches();
    var s1 := Confirmed().(pc := EnteringConfirm, confirmed := None);
    MainMoves(Bound().(pc := Reading, phrase := Some("ERASE")), Fine("ERASE"), s1);
    MainMoves(s1, Fine(""), Confirmed().(pc := ConfirmingPhrase, active := true, confirmed := None));
  }

  lemma ConfirmingReaches()
    ensures Reachable(Confirmed())
  {
    hide Reachable;
    TypingReaches();
    var s1 := Confirmed().(pc := ConfirmingPhrase, active := true, confirmed := None);
    var s2 := Confirmed().(pc := LeavingConfirm, active := true);
    MainMoves(s1, Fine(""), s2);
    MainMoves(s2, Fine(""), Confirmed());
  }

  lemma ExecutingReaches()
    ensures Reachable(Confirmed().(pc := CheckingResult, active := true, executions := 1))
  {
    hide Reachable;
    ConfirmingReaches();
    var s1 := Confirmed().(pc := EnteringExecute);
    var s2 := Confirmed().(pc := Executing, active := true);
    MainMoves(Confirmed(), Fine(""), s1);
    MainMoves(s1, Fine(""), s2);
    MainMoves(s2, Fine(""), Confirmed().(pc := CheckingResult, active := true, executions := 1));
  }

  /** The write is complete and the notice is about to be printed. */
  function Written(): State {
    Confirmed().(pc := Notice, completed := true, authoritative := true, executions := 1)
  }

  lemma WritingReaches()
    ensures Reachable(Written())
  {
    hide Reachable;
    ExecutingReaches();
    var s1 := Confirmed().(pc := CheckingResult, active := true, executions := 1);
    var s2 := s1.(pc := Completing, authoritative := true);
    var s3 := Written().(pc := LeavingExecute, active := true);
    MainMoves(s1, Fine(""), s2);
    MainMoves(s2, Fine(""), s3);
    MainMoves(s3, Fine(""), Written());
  }

  /** At the head of the `finally` block, with the workflow bound and no signal pending. */
  predicate AtFinally(s: State, e: Ending) {
    && s.pc == Finally(e) && s.made && s.noted && s.bound && !s.active && !s.event && !s.stop
    && s.watcher.Waiting? && !s.released
  }

  /** The watcher is told to stop, and stops. */
  function Joined(s: State, e: Ending): State {
    s.(pc := Joining(e), active := true, stop := true, watcher := Stopped)
  }

  lemma JoiningReaches(s: State, e: Ending)
    requires Reachable(s) && AtFinally(s, e)
    ensures Reachable(Joined(s, e))
  {
    hide Reachable;
    var s1 := s.(pc := StoppingWatcher(e), active := true);
    var s2 := s1.(pc := Joining(e), stop := true);
    MainMoves(s, Fine(""), s1);
    MainMoves(s1, Fine(""), s2);
    assert WatcherStep(s2, s2.(watcher := Rechecking));
    Moves(s2, s2.(watcher := Rechecking));
    assert WatcherStep(s2.(watcher := Rechecking), Joined(s, e));
    Moves(s2.(watcher := Rechecking), Joined(s, e));
  }

  function ClosedAfter(s: State, e: Ending): State {
    s.(pc := Ended(e), bound := false, stop := true, watcher := Stopped, released := true, closes := s.closes + 1)
  }

  lemma UnbindingReaches(s: State, e: Ending)
    requires Reachable(s) && AtFinally(s, e)
    ensures Reachable(Joined(s, e).(pc := Unbinding(e), released := true, closes := s.closes + 1))
  {
    hide Reachable;
    JoiningReaches(s, e);
    var s1 := Joined(s, e).(pc := Closing(e), released := true);
    MainMoves(Joined(s, e), Fine(""), s1);
    MainMoves(s1, Fine(""), s1.(pc := Unbinding(e), closes := s.closes + 1));
  }

  lemma LeavingReaches(s: State, e: Ending)
    requires Reachable(s) && AtFinally(s, e)
    ensures Reachable(ClosedAfter(s, e).(pc := LeavingFinally(e), active := true))
  {
    hide Reachable;
    UnbindingReaches(s, e);
    var s1 := Joined(s, e).(pc := Unbinding(e), released := true, closes := s.closes + 1);
    MainMoves(s1, Fine(""), ClosedAfter(s, e).(pc := LeavingFinally(e), active := true));
  }

  /** From there, without signals, the workflow is released and closed, and the code is returned. */
  lemma ClosingReaches(s: State, e: Ending)
    requires Reachable(s) && AtFinally(s, e)
    ensures Reachable(ClosedAfter(s, e))
  {
    hide Reachable;
    LeavingReaches(s, e);
    MainMoves(ClosedAfter(s, e).(pc := LeavingFinally(e), active := true), Fine(""), ClosedAfter(s, e));
  }

  /** A run without signals in which nothing raises writes once, closes once and returns OK. */
  lemma UndisturbedRunSucceeds() returns (s: State)
    ensures Reachable(s) && s.pc == Ended(Ok) && s.executions == 1 && s.closes == 1 && s.cancels == 0
  {
    hide Reachable;
    WritingReaches();
    MainMoves(Written(), Fine(""), Written().(pc := Finally(Ok)));
    ClosingReaches(Written().(pc := Finally(Ok)), Ok);
    s := ClosedAfter(Written().(pc := Finally(Ok)), Ok);
  }

  /** Another phrase than the plan's was typed, and the refusal is printed. */
  function Refused(): State {
    Bound().(pc := Finally(ConfirmationRefused), phrase := Some("ERASE"), typed := Some("NO"))
  }

  lemma RefusingReaches()
    ensures Reachable(Refused())
  {
    hide Reachable;
    ReadingReaches();
    var s := Refused().(pc := Notifying(ConfirmationRefused));
    MainMoves(Bound().(pc := Reading, phrase := Some("ERASE")), Fine("NO"), s);
    MainMoves(s, Fine(""), Refused());
  }

  /** A run in which another phrase is typed: refused, closed, and nothing executed. */
  lemma WrongPhraseExists() returns (s: State)
    ensures Reachable(s) && s.pc == Ended(ConfirmationRefused) && Mistyped(s) && s.executions == 0 && s.closes == 1
  {
    hide Reachable;
    RefusingReaches();
    ClosingReaches(Refused(), ConfirmationRefused);
    s := ClosedAfter(Refused(), ConfirmationRefused);
  }

  /** A preparation that is cancelled, or that fails, closes the workflow and returns its own code. */
  lemma RaisedCodesAreReturned(e: Ending) returns (s: State)
    requires e == CancelledCode || e == WriteFailed
    ensures Reachable(s) && s.pc == Ended(e) && s.closes == 1 && s.executions == 0
  {
    hide Reachable;
    RaisingReaches(e);
    ClosingReaches(Bound().(pc := Finally(e)), e);
    s := ClosedAfter(Bound().(pc := Finally(e)), e);
  }
}
