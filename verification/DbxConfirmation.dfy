/**
 The final review of staged Secure Boot payloads in isopropyl/app.py: a worker thread asks the GUI thread through a
 queued signal and waits on an event.  A step is one statement of either thread that touches shared data, or the
 cancel event being set.
 */
module DbxConfirmation {
  import opened Wrappers

  datatype WorkerPc =
    | Assessing        // `assess_staged_dbx` and the merge
    | Emitting         // about to emit the request
    | Waiting          // in `decision.wait(0.1)`
    | TimedOut         // about to read the cancel event
    | Marking          // about to set `decision`, so that a late delivery does nothing
    | LoopChecking     // `final_dbx_cancel_check` in the loop
    | FinalChecking    // `final_dbx_cancel_check` after the loop
    | Reading          // about to read `accepted`
    | Proceeded        // the analysis is returned and the target writer goes on
    | Abandoned        // an exception unwinds the worker

  datatype GuiPc =
    | NotDelivered
    | AtHead             // about to read `decision`
    | Checking           // about to read the cancel event
    | OpeningMatch       // about to ask about new matches, when there are any
    | AskingMatch        // the question is open
    | AskedMatch         // about to decide whether the second question is needed
    | OpeningIncomplete
    | AskingIncomplete
    | LastCheck
    | Setting            // about to set `decision`
    | Finished

  /** `complete` and `newMatch` describe the analysis; the answers record what the user said. */
  datatype State = State(
    worker: WorkerPc, gui: GuiPc, queued: bool, complete: bool, newMatch: bool,
    cancel: bool, decision: bool, accepted: bool,
    matchAnswer: Option<bool>, incompleteAnswer: Option<bool>, raised: bool, stale: bool)

  ghost predicate Init(s: State) {
    && s.worker.Assessing? && s.gui.NotDelivered? && !s.queued && !s.decision && !s.accepted
    && s.matchAnswer == None && s.incompleteAnswer == None && !s.raised && !s.stale
  }

  predicate NeedsReview(s: State) {
    s.newMatch || !s.complete
  }

  /** `fails`: the assessment raises, because of a cancellation or for another reason. */
  function NextWorker(s: State, fails: bool): WorkerPc {
    match s.worker
    case Assessing => if fails then Abandoned else if NeedsReview(s) then Emitting else Proceeded
    case Emitting => Waiting
    case Waiting => if s.decision then FinalChecking else TimedOut
    case TimedOut => if s.cancel then Marking else LoopChecking
    case Marking => LoopChecking
    case LoopChecking => if s.cancel then Abandoned else Waiting
    case FinalChecking => if s.cancel then Abandoned else Reading
    case _ => if s.accepted then Proceeded else Abandoned
  }

  predicate Stopped(worker: WorkerPc) {
    worker.Proceeded? || worker.Abandoned?
  }

  function AfterWorker(s: State, fails: bool): State {
    s.(worker := NextWorker(s, fails), queued := s.queued || s.worker.Emitting?,
       decision := s.decision || s.worker.Marking?)
  }

  ghost predicate WorkerStep(s: State, t: State) {
    !Stopped(s.worker) && exists fails: bool :: t == AfterWorker(s, fails)
  }

  /** `answer` is the user's answer to the open question; `None` when showing it raised. */
  function NextGui(s: State, answer: Option<bool>): GuiPc {
    match s.gui
    case NotDelivered => AtHead
    case AtHead => if s.decision then Finished else Checking
    case Checking => if s.cancel then Setting else OpeningMatch
    case OpeningMatch => if s.newMatch then AskingMatch else AskedMatch
    case AskingMatch => if answer.None? then Setting else AskedMatch
    case AskedMatch => if s.accepted && !s.cancel && !s.complete then OpeningIncomplete else LastCheck
    case OpeningIncomplete => AskingIncomplete
    case AskingIncomplete => if answer.None? then Setting else LastCheck
    case LastCheck => Setting
    case _ => Finished
  }

  function NextAccepted(s: State, answer: Option<bool>): bool {
    match s.gui
    case OpeningMatch => !s.newMatch || s.accepted
    case AskingMatch => if answer.None? then s.accepted else answer.value
    case AskingIncomplete => if answer.None? then s.accepted else answer.value
    case LastCheck => s.accepted && !s.cancel
    case _ => s.accepted
  }

  /** A question is being opened. */
  predicate Opens(s: State) {
    (s.gui.OpeningMatch? && s.newMatch) || s.gui.OpeningIncomplete?
  }

  /** `stale` notes a question opened for an abandoned request, `raised` a second question that raised. */
  function AfterGui(s: State, answer: Option<bool>): State {
    s.(gui := NextGui(s, answer), queued := false, accepted := NextAccepted(s, answer),
       decision := s.decision || s.gui.Setting?,
       matchAnswer := if s.gui.AskingMatch? then answer else s.matchAnswer,
       incompleteAnswer := if s.gui.AskingIncomplete? then answer else s.incompleteAnswer,
       raised := s.raised || (s.gui.AskingIncomplete? && answer.None?),
       stale := s.stale || (Opens(s) && s.worker.Abandoned?))
  }

  predicate GuiCanStep(s: State) {
    (s.gui.NotDelivered? ==> s.queued) && !s.gui.Finished?
  }

  ghost predicate GuiStep(s: State, t: State) {
    GuiCanStep(s) && exists answer: Option<bool> :: t == AfterGui(s, answer)
  }

  /** Where the GUI thread runs its event loop, and so can handle a cancel button or a closing window. */
  predicate HandlesEvents(gui: GuiPc) {
    gui.NotDelivered? || gui.AskingMatch? || gui.AskingIncomplete? || gui.Finished?
  }

  /** Cancellation is raised by any thread, or only by handlers on the GUI thread. */
  ghost predicate CancelStep(s: State, t: State, guiOnly: bool) {
    (guiOnly ==> HandlesEvents(s.gui)) && t == s.(cancel := true)
  }

  ghost predicate Next(s: State, t: State, guiOnly: bool) {
    WorkerStep(s, t) || GuiStep(s, t) || CancelStep(s, t, guiOnly)
  }

  ghost predicate Run(run: seq<State>, guiOnly: bool) {
    && run != [] && Init(run[0])
    && forall i :: 0 < i < |run| ==> Next(run[i - 1], run[i], guiOnly)
  }

  // ----- the invariant

  predicate AllYes(s: State) {
    (s.newMatch ==> s.matchAnswer == Some(true)) && (!s.complete ==> s.incompleteAnswer == Some(true))
  }

  /** What `accepted` means at each position of the slot. */
  predicate Answers(s: State) {
    && (s.raised ==> s.gui.Setting? || s.gui.Finished?)
    && (s.raised ==> !s.complete && (s.newMatch ==> s.matchAnswer == Some(true)))
    && match s.gui
       case AskingMatch => s.newMatch && !s.accepted && s.matchAnswer == None && s.incompleteAnswer == None && !s.raised
       case AskedMatch => s.incompleteAnswer == None && (s.accepted <==> s.newMatch ==> s.matchAnswer == Some(true))
       case OpeningIncomplete =>
         s.accepted && !s.complete && s.incompleteAnswer == None && (s.newMatch ==> s.matchAnswer == Some(true))
       case AskingIncomplete =>
         s.accepted && !s.complete && s.incompleteAnswer == None && (s.newMatch ==> s.matchAnswer == Some(true))
       case LastCheck => (s.accepted ==> AllYes(s) || s.cancel) && (AllYes(s) ==> s.accepted) && !s.raised
       case Setting => Settled(s)
       case Finished => Settled(s)
       case _ => !s.accepted && s.matchAnswer == None && s.incompleteAnswer == None && !s.raised
  }

  /** Accepted exactly for the full set of answers, except that a cancellation takes an acceptance back. */
  predicate Settled(s: State) {
    && (s.accepted ==> AllYes(s) || s.raised)
    && (AllYes(s) || s.raised ==> s.accepted || s.cancel)
  }

  predicate InReview(worker: WorkerPc) {
    worker.Waiting? || worker.TimedOut? || worker.Marking? || worker.LoopChecking? || worker.FinalChecking?
    || worker.Reading?
  }

  /** The request is made only when needed, and only the two of them set `decision`. */
  predicate Handshake(s: State) {
    && (s.queued || !s.gui.NotDelivered? ==> NeedsReview(s) && !s.worker.Assessing? && !s.worker.Emitting?)
    && (s.queued ==> s.gui.NotDelivered?)
    && (s.worker.Emitting? ==> NeedsReview(s))
    && (InReview(s.worker) ==> NeedsReview(s) && (s.queued || !s.gui.NotDelivered?))
    && (s.decision ==> s.cancel || s.gui.Finished?)
    && (s.worker.Marking? ==> s.cancel)
    && (s.worker.FinalChecking? ==> s.decision)
    && (s.worker.Abandoned? ==> s.cancel || s.gui.Finished? || (s.gui.NotDelivered? && !s.queued))
    && (s.worker.Reading? ==> s.gui.Finished? && (s.accepted <==> AllYes(s) || s.raised))
    && (s.worker.Proceeded? ==> if NeedsReview(s) then s.gui.Finished? && s.accepted else s.gui.NotDelivered?)
  }

  /** With cancellation on the GUI thread only, nothing is cancelled between a check and the question it guards. */
  predicate Orderly(s: State) {
    && (s.gui.OpeningMatch? || s.gui.OpeningIncomplete? ==> !s.cancel)
    && !s.stale
  }

  predicate Inv(s: State) {
    Answers(s) && Handshake(s)
  }

  lemma WorkerKeepsInv(s: State, t: State)
    requires Inv(s) && WorkerStep(s, t)
    ensures Inv(t) && SameAnalysis(s, t) && (Orderly(s) ==> Orderly(t))
  {
  }

  lemma GuiKeepsInv(s: State, t: State)
    requires Inv(s) && GuiStep(s, t)
    ensures Inv(t) && SameAnalysis(s, t) && (Orderly(s) ==> Orderly(t))
  {
  }

  lemma CancelKeepsInv(s: State, t: State, guiOnly: bool)
    requires Inv(s) && CancelStep(s, t, guiOnly)
    ensures Inv(t) && SameAnalysis(s, t) && (guiOnly && Orderly(s) ==> Orderly(t))
  {
  }

  /** The analysis never changes and a cancellation is never taken back. */
  predicate SameAnalysis(s: State, t: State) {
    t.complete == s.complete && t.newMatch == s.newMatch && (s.cancel ==> t.cancel)
  }

  lemma InvHolds(s: State, t: State, guiOnly: bool)
    requires Inv(s) && Next(s, t, guiOnly)
    ensures Inv(t) && SameAnalysis(s, t)
    ensures guiOnly && Orderly(s) ==> Orderly(t)
  {
    hide Inv, WorkerStep, GuiStep, CancelStep, SameAnalysis, Orderly;
    if {
      case WorkerStep(s, t) => WorkerKeepsInv(s, t);
      case GuiStep(s, t) => GuiKeepsInv(s, t);
      case CancelStep(s, t, guiOnly) => CancelKeepsInv(s, t, guiOnly);
    }
  }

  lemma {:induction false} RunKeepsInv(run: seq<State>, i: nat, guiOnly: bool)
    requires Run(run, guiOnly) && i < |run|
    ensures Inv(run[i])
    ensures guiOnly ==> Orderly(run[i])
  {
    hide Next;
    if i > 0 {
      RunKeepsInv(run, i - 1, guiOnly);
      assert Next(run[i - 1], run[i], guiOnly);
      InvHolds(run[i - 1], run[i], guiOnly);
    }
  }

  // ----- what every run keeps

  /** The worker's last check of the cancel event found it unset. */
  ghost predicate PassedLastCheck(run: seq<State>, j: nat) {
    0 < j < |run| && run[j - 1].worker.FinalChecking? && run[j].worker.Reading? && !run[j - 1].cancel
  }

  /**
   The writer goes on only with nothing to review, or with every needed question answered Yes and the cancel event
   unset at the worker's last check; the one exception is a second question that raised after all earlier ones
   were answered Yes.
   */
  lemma {:induction false} ProceedingNeedsConsent(run: seq<State>, i: nat, guiOnly: bool)
    requires Run(run, guiOnly) && i < |run| && (run[i].worker.Proceeded? || run[i].worker.Reading?)
    ensures run[i].worker.Proceeded? && NeedsReview(run[i]) ==> AllYes(run[i]) || run[i].raised
    ensures NeedsReview(run[i]) ==> exists j: nat :: j <= i && PassedLastCheck(run, j)
  {
    hide Handshake, Answers, GuiStep, CancelStep;
    RunKeepsInv(run, i, guiOnly);
    if run[i].worker.Proceeded? && NeedsReview(run[i]) {
      ConsentAt(run[i]);
    }
    if NeedsReview(run[i]) {
      var s, t := run[i - 1], run[i];
      RunKeepsInv(run, i - 1, guiOnly);
      assert Next(s, t, guiOnly);
      InvHolds(s, t, guiOnly);
      OnlyTheWorkerMovesItself(s, t, guiOnly);
      if s.worker == t.worker || s.worker.Reading? {
        ProceedingNeedsConsent(run, i - 1, guiOnly);
      } else {
        assert WorkerStep(s, t);
        assert PassedLastCheck(run, i);
      }
    }
  }

  lemma ConsentAt(s: State)
    requires Inv(s) && s.worker.Proceeded? && NeedsReview(s)
    ensures AllYes(s) || s.raised
  {
  }

  lemma OnlyTheWorkerMovesItself(s: State, t: State, guiOnly: bool)
    requires Next(s, t, guiOnly)
    ensures s.worker == t.worker || WorkerStep(s, t)
  {
  }

  /** The converse: at the moment the worker reads the answer it goes on exactly for full consent. */
  lemma AnswerDecides(run: seq<State>, i: nat, guiOnly: bool)
    requires Run(run, guiOnly) && 0 < i < |run| && run[i - 1].worker.Reading? && run[i].worker != run[i - 1].worker
    ensures run[i].worker.Proceeded? <==> AllYes(run[i - 1]) || run[i - 1].raised
    ensures run[i].worker.Proceeded? || run[i].worker.Abandoned?
  {
    RunKeepsInv(run, i - 1, guiOnly);
    assert Next(run[i - 1], run[i], guiOnly);
  }

  /** No question is opened for a request that the worker has abandoned, when only the GUI thread cancels. */
  lemma NoStaleQuestion(run: seq<State>, i: nat)
    requires Run(run, true) && i < |run|
    ensures !run[i].stale
  {
    RunKeepsInv(run, i, true);
  }

  /** Without anything to review nothing is asked, and the worker goes on unless the assessment itself raised. */
  lemma NoNeedlessQuestion(run: seq<State>, i: nat, guiOnly: bool)
    requires Run(run, guiOnly) && i < |run| && !NeedsReview(run[i])
    ensures run[i].gui.NotDelivered? && !run[i].queued
    ensures run[i].worker in {Assessing, Proceeded, Abandoned}
  {
    RunKeepsInv(run, i, guiOnly);
  }

  /** The worker's last step: what made it go on, or abandon the write. */
  lemma {:induction false} LastStepDecides(run: seq<State>, i: nat, guiOnly: bool) returns (j: nat)
    requires Run(run, guiOnly) && i < |run| && Stopped(run[i].worker)
    ensures j < i && !Stopped(run[j].worker) && run[j + 1].worker == run[i].worker
    ensures run[i].worker.Proceeded? ==>
      (run[j].worker.Assessing? && !NeedsReview(run[j])) || (run[j].worker.Reading? && run[j].accepted)
    ensures run[i].worker.Abandoned? ==>
      run[j].worker.Assessing? || run[j].cancel || (run[j].worker.Reading? && !run[j].accepted)
  {
    hide Inv, GuiStep, CancelStep;
    RunKeepsInv(run, i - 1, guiOnly);
    assert Next(run[i - 1], run[i], guiOnly);
    OnlyTheWorkerMovesItself(run[i - 1], run[i], guiOnly);
    if Stopped(run[i - 1].worker) {
      j := LastStepDecides(run, i - 1, guiOnly);
    } else {
      j := i - 1;
    }
  }

  // ----- the review always ends

  function WorkerRank(s: State): nat {
    match s.worker
    case Assessing => 9
    case Emitting => 8
    case Waiting => if s.decision then 3 else 7
    case TimedOut => 6
    case Marking => 5
    case LoopChecking => 4
    case FinalChecking => 2
    case Reading => 1
    case Proceeded => 0
    case Abandoned => 0
  }

  /** Once cancelled, the worker ends by itself, whatever the GUI thread does. */
  lemma CancellationEndsTheWait(s: State, t: State)
    requires Inv(s) && s.cancel && WorkerStep(s, t)
    ensures t.cancel && WorkerRank(t) < WorkerRank(s)
  {
  }

  function GuiRank(s: State): nat {
    match s.gui
    case NotDelivered => 10
    case AtHead => 9
    case Checking => 8
    case OpeningMatch => 7
    case AskingMatch => 6
    case AskedMatch => 5
    case OpeningIncomplete => 4
    case AskingIncomplete => 3
    case LastCheck => 2
    case Setting => 1
    case Finished => 0
  }

  /** A delivered request always gets its decision: the slot advances on every step and sets the event at its end. */
  lemma SlotAlwaysDecides(run: seq<State>, i: nat, guiOnly: bool)
    requires Run(run, guiOnly) && 0 < i < |run| && GuiStep(run[i - 1], run[i])
    ensures GuiRank(run[i]) < GuiRank(run[i - 1])
    ensures run[i].gui.Finished? ==> run[i].decision
  {
  }

  // ----- the two ways the safeguards can be missed

  ghost predicate Reachable(s: State, guiOnly: bool) {
    exists run :: Run(run, guiOnly) && run[|run| - 1] == s
  }

  lemma Starts(s: State, guiOnly: bool)
    requires Init(s)
    ensures Reachable(s, guiOnly)
  {
    assert Run([s], guiOnly);
  }

  lemma Moves(s: State, t: State, guiOnly: bool)
    requires Reachable(s, guiOnly) && Next(s, t, guiOnly)
    ensures Reachable(t, guiOnly)
  {
    hide Next;
    var run :| Run(run, guiOnly) && run[|run| - 1] == s;
    var longer := run + [t];
    forall i | 0 < i < |longer| ensures Next(longer[i - 1], longer[i], guiOnly) {
      if i < |run| {
        assert longer[i] == run[i] && longer[i - 1] == run[i - 1];
      }
    }
    assert Run(longer, guiOnly);
  }

  lemma WorkerMoves(s: State, guiOnly: bool) returns (t: State)
    requires Reachable(s, guiOnly) && !Stopped(s.worker)
    ensures t == AfterWorker(s, false) && Reachable(t, guiOnly)
  {
    hide Reachable, AfterWorker;
    t := AfterWorker(s, false);
    assert WorkerStep(s, t);
    Moves(s, t, guiOnly);
  }

  lemma GuiMoves(s: State, guiOnly: bool) returns (t: State)
    requires Reachable(s, guiOnly) && GuiCanStep(s)
    ensures t == AfterGui(s, None) && Reachable(t, guiOnly)
  {
    hide Reachable, AfterGui, GuiCanStep;
    t := AfterGui(s, None);
    assert GuiStep(s, t);
    Moves(s, t, guiOnly);
  }

  /** The request of an analysis was delivered, and the slot found it neither decided nor cancelled. */
  function AboutToAsk(complete: bool, newMatch: bool): State {
    State(Waiting, OpeningMatch, false, complete, newMatch, false, false, false, None, None, false, false)
  }

  lemma EmittingReaches(complete: bool, newMatch: bool, guiOnly: bool)
    requires newMatch || !complete
    ensures Reachable(AboutToAsk(complete, newMatch).(gui := NotDelivered, queued := true), guiOnly)
  {
    hide Reachable;
    var s := AboutToAsk(complete, newMatch).(worker := Assessing, gui := NotDelivered);
    Starts(s, guiOnly);
    s := WorkerMoves(s, guiOnly);
    s := WorkerMoves(s, guiOnly);
  }

  lemma DeliveryReaches(complete: bool, newMatch: bool, guiOnly: bool)
    requires newMatch || !complete
    ensures Reachable(AboutToAsk(complete, newMatch), guiOnly)
  {
    hide Reachable;
    EmittingReaches(complete, newMatch, guiOnly);
    var s := AboutToAsk(complete, newMatch).(gui := NotDelivered, queued := true);
    s := GuiMoves(s, guiOnly);
    s := GuiMoves(s, guiOnly);
    s := GuiMoves(s, guiOnly);
  }

  lemma AbandoningReaches()
    ensures Reachable(AboutToAsk(true, true).(cancel := true, decision := true, worker := Abandoned), false)
  {
    hide Reachable;
    DeliveryReaches(true, true, false);
    var s := AboutToAsk(true, true).(cancel := true);
    Moves(AboutToAsk(true, true), s, false);
    s := WorkerMoves(s, false);        // the wait times out
    s := WorkerMoves(s, false);        // cancelled
    s := WorkerMoves(s, false);        // the request is marked
    s := WorkerMoves(s, false);        // and abandoned
  }

  /** With cancellation from another thread a question does open for an abandoned request. */
  lemma FreeCancellationOpensAStaleQuestion() returns (s: State)
    ensures Reachable(s, false) && s.stale && s.worker.Abandoned? && s.gui.AskingMatch?
  {
    hide Reachable;
    AbandoningReaches();
    s := AboutToAsk(true, true).(cancel := true, decision := true, worker := Abandoned);
    s := GuiMoves(s, false);
  }

  /** A complete analysis without new matches goes on at once. */
  lemma CleanAnalysisProceeds() returns (s: State)
    ensures Reachable(s, true) && s.worker.Proceeded? && !NeedsReview(s) && s.gui.NotDelivered?
  {
    hide Reachable;
    s := AboutToAsk(true, false).(worker := Assessing, gui := NotDelivered);
    Starts(s, true);
    s := WorkerMoves(s, true);
  }

  /** Both questions answered Yes. */
  lemma ConsentReaches()
    ensures Reachable(
      AboutToAsk(false, true).(gui := Finished, accepted := true, decision := true, matchAnswer := Some(true),
                               incompleteAnswer := Some(true)), true)
  {
    hide Reachable;
    DeliveryReaches(false, true, true);
    var s := AboutToAsk(false, true);
    s := GuiMoves(s, true);
    s := Answered(s, true, true);
    s := GuiMoves(s, true);
    s := GuiMoves(s, true);
    s := Answered(s, true, true);
    s := GuiMoves(s, true);
    s := GuiMoves(s, true);
  }

  lemma Answered(s: State, answer: bool, guiOnly: bool) returns (t: State)
    requires Reachable(s, guiOnly) && GuiCanStep(s)
    ensures t == AfterGui(s, Some(answer)) && Reachable(t, guiOnly)
  {
    hide Reachable, AfterGui, GuiCanStep;
    t := AfterGui(s, Some(answer));
    assert GuiStep(s, t);
    Moves(s, t, guiOnly);
  }

  /** With consent to everything the worker goes on. */
  lemma ConsentProceeds() returns (s: State)
    ensures Reachable(s, true) && s.worker.Proceeded? && s.newMatch && !s.complete && AllYes(s) && !s.raised
  {
    hide Reachable;
    ConsentReaches();
    s := AboutToAsk(false, true).(gui := Finished, accepted := true, decision := true, matchAnswer := Some(true),
                                  incompleteAnswer := Some(true));
    s := WorkerMoves(s, true);
    s := WorkerMoves(s, true);
    s := WorkerMoves(s, true);
  }

  /** Nothing new matched, the second question is open. */
  lemma SecondQuestionReaches()
    ensures Reachable(AboutToAsk(false, false).(gui := AskingIncomplete, accepted := true), true)
  {
    hide Reachable;
    DeliveryReaches(false, false, true);
    var s := AboutToAsk(false, false);
    s := GuiMoves(s, true);            // nothing to ask
    s := GuiMoves(s, true);            // the analysis is incomplete
    s := GuiMoves(s, true);
  }

  lemma RaisingReaches()
    ensures Reachable(
      AboutToAsk(false, false).(gui := Finished, accepted := true, raised := true, decision := true), true)
  {
    hide Reachable;
    SecondQuestionReaches();
    var s := AboutToAsk(false, false).(gui := AskingIncomplete, accepted := true);
    s := GuiMoves(s, true);            // the question raises
    s := GuiMoves(s, true);            // the decision is set
  }

  /**
   A second question that raises leaves the acceptance of the first: the slot sets the decision with `accepted` still
   true, and the worker goes on without an answer.  With PyQt6 and no exception hook the exception then aborts the
   process, so the worker's progress is a race with that abort.
   */
  lemma RaisingQuestionCountsAsConsent() returns (s: State)
    ensures Reachable(s, true) && s.worker.Proceeded? && s.incompleteAnswer == None
    ensures NeedsReview(s) && !AllYes(s) && !s.cancel
  {
    hide Reachable;
    RaisingReaches();
    s := AboutToAsk(false, false).(gui := Finished, accepted := true, raised := true, decision := true);
    s := WorkerMoves(s, true);
    s := WorkerMoves(s, true);
    s := WorkerMoves(s, true);
  }
}
