/**
  One export job under interleaved queue attempts, cancellations, retries and expiry.

  The protocol runs between awaits: every database read or write is one atomic step, any number of
  queue attempts and API calls may be under way at once, and work outside the database may fail
  with any message.
 */
module ExportJobs {
  import opened Options

  datatype Status = Pending | Processing | Completed | Failed | Cancelled | Expired

  /**
    Where a queue attempt stands. Check k comes before stage k, which first reports progress
    (20, 55, 80) and then works: collecting data, generating the file, uploading it. Storing writes
    the completed row, and an e-mail may follow.
   */
  datatype Attempt =
    | Entering
    | Checking(stage: nat)
    | Reporting(stage: nat)
    | Working(stage: nat)
    | Storing
    | Emailing
    | Failing(message: string)
    | Stopped
    | Done

  /** Where an API call stands after it read the row. */
  datatype Call =
    | RemovingFromQueue
    | RequestingCancellation
    | Cancelling
    | Resetting
    | Enqueueing
    | Expiring
    | Discarding
    | Returned

  datatype State = State(
    status: Status,
    cancellationRequested: bool,
    hasQueueJob: bool,
    attempts: seq<Attempt>,
    calls: seq<Call>)

  datatype Event =
    | StartAttempt
    | Advance(attempt: nat, error: Option<string>)
    | CancelExport
    | RetryExport
    | ExpireExport
    | LoseFile
    | Proceed(call: nat, queueError: bool)

  // ----- Errors -----

  /** `s.includes(part)`. */
  predicate Contains(s: string, part: string) {
    part <= s || (s != [] && Contains(s[1..], part))
  }

  lemma {:induction false} ContainsAt(s: string, i: nat, part: string)
    requires i + |part| <= |s| && s[i..i + |part|] == part
    ensures Contains(s, part)
  {
    if i > 0 {
      ContainsAt(s[1..], i - 1, part);
    }
  }

  const CANCELLED_BY_USER := "Export cancelled by user"
  const CANCELLATION_REQUESTED := "Export cancellation requested"

  datatype FailureCode = CancelledCode | GenerationFailed | StorageUploadFailed | DataFetchFailed

  datatype Failure = Failure(status: Status, code: FailureCode, progress: nat)

  function ClassifyExportError(message: string): Failure {
    if Contains(message, "cancel") then Failure(Cancelled, CancelledCode, 0)
    else if Contains(message, "generation") then Failure(Failed, GenerationFailed, 55)
    else if Contains(message, "upload") then Failure(Failed, StorageUploadFailed, 80)
    else Failure(Failed, DataFetchFailed, 20)
  }

  /** `assertNotCancelled`: the message thrown, if any. */
  function CancellationError(s: State): Option<string> {
    if s.status == Cancelled then Some(CANCELLED_BY_USER)
    else if s.cancellationRequested then Some(CANCELLATION_REQUESTED)
    else None
  }

  lemma CancellationIsClassified(s: State)
    requires CancellationError(s).Some?
    ensures ClassifyExportError(CancellationError(s).value).status == Cancelled
  {
    ContainsAt(CANCELLED_BY_USER, 7, "cancel");
    ContainsAt(CANCELLATION_REQUESTED, 7, "cancel");
  }

  // ----- Steps -----

  predicate InTry(a: Attempt) {
    a.Checking? || a.Reporting? || a.Working? || a.Storing? || a.Emailing?
  }

  function WithAttempt(s: State, i: nat, a: Attempt): State
    requires i < |s.attempts|
  {
    s.(attempts := s.attempts[i := a])
  }

  /**
    One step of `processQueuedExport`. An error inside its try block leads to `failJob`; one before
    it, or of the write of `failJob` itself, ends the attempt.
   */
  function Advanced(s: State, i: nat, error: Option<string>): State
    requires i < |s.attempts|
  {
    var a := s.attempts[i];
    if error.Some? && InTry(a) then WithAttempt(s, i, Failing(error.value))
    else if error.Some? && (a.Entering? || a.Failing?) then WithAttempt(s, i, Stopped)
    else match a
      case Entering => WithAttempt(s, i, Checking(1)).(status := Processing, hasQueueJob := true)
      case Checking(k) =>
        var e := CancellationError(s);
        WithAttempt(s, i, if e.Some? then Failing(e.value) else Reporting(k))
      case Reporting(k) => WithAttempt(s, i, Working(k)).(status := Processing)
      case Working(k) => WithAttempt(s, i, if k < 3 then Checking(k + 1) else Storing)
      case Storing => WithAttempt(s, i, Emailing).(status := Completed)
      case Emailing => WithAttempt(s, i, Done)
      case Failing(message) => WithAttempt(s, i, Stopped).(status := ClassifyExportError(message).status)
      case Stopped => s
      case Done => s
  }

  function WithCall(s: State, i: nat, c: Call): State
    requires i < |s.calls|
  {
    s.(calls := s.calls[i := c])
  }

  /** The write that follows a call's read; an error is one of the queue, when removing or enqueueing. */
  function Proceeded(s: State, i: nat, queueError: bool): State
    requires i < |s.calls|
  {
    match s.calls[i]
    case RemovingFromQueue => WithCall(s, i, if queueError then Returned else Cancelling)
    case RequestingCancellation => WithCall(s, i, Cancelling).(cancellationRequested := true)
    case Cancelling => WithCall(s, i, Returned).(status := Cancelled)
    case Resetting =>
      WithCall(s, i, Enqueueing).(status := Pending, cancellationRequested := false, hasQueueJob := false)
    case Enqueueing =>
      if queueError then WithCall(s, i, Returned).(status := Failed)
      else WithCall(s, i, Returned).(status := Pending, hasQueueJob := true)
    case Expiring => WithCall(s, i, Returned).(status := Expired)
    case Discarding => WithCall(s, i, Returned).(status := Failed)
    case Returned => s
  }

  /** A call reads the row and is refused or goes on to write. */
  function Requested(s: State, e: Event): State
    requires e.CancelExport? || e.RetryExport? || e.ExpireExport? || e.LoseFile?
  {
    match e
    case CancelExport =>
      if s.status != Pending && s.status != Processing then s
      else
        var call := if s.status == Pending && s.hasQueueJob then RemovingFromQueue else RequestingCancellation;
        s.(calls := s.calls + [call])
    case RetryExport =>
      if s.status != Failed && s.status != Cancelled && s.status != Expired then s
      else s.(calls := s.calls + [Resetting])
    case ExpireExport =>
      if s.status != Completed then s else s.(calls := s.calls + [Expiring])
    case LoseFile =>
      if s.status != Completed then s else s.(calls := s.calls + [Discarding])
  }

  function Step(s: State, e: Event): State {
    match e
    case StartAttempt => s.(attempts := s.attempts + [Entering])
    case Advance(i, error) => if i < |s.attempts| then Advanced(s, i, error) else s
    case Proceed(i, queueError) => if i < |s.calls| then Proceeded(s, i, queueError) else s
    case _ => Requested(s, e)
  }

  function Run(s: State, run: seq<Event>): State
    decreases run
  {
    if run == [] then s else Run(Step(s, run[0]), run[1..])
  }

  // ----- What the steps do -----

  predicate OccursAt(s: string, i: int, part: string) {
    0 <= i <= |s| - |part| && s[i..i + |part|] == part
  }

  lemma {:induction false} ContainsSomewhere(s: string, part: string) returns (i: nat)
    requires Contains(s, part)
    ensures OccursAt(s, i, part)
  {
    if part <= s {
      i := 0;
    } else {
      i := ContainsSomewhere(s[1..], part);
      assert s[i + 1..i + 1 + |part|] == s[1..][i..i + |part|];
      i := i + 1;
    }
  }

  lemma ContainsExactly(s: string, part: string)
    ensures Contains(s, part) <==> exists i :: OccursAt(s, i, part)
  {
    if Contains(s, part) {
      var i := ContainsSomewhere(s, part);
    }
    if exists i :: OccursAt(s, i, part) {
      var i :| OccursAt(s, i, part);
      ContainsAt(s, i, part);
    }
  }

  /** A failure is a cancellation if its message says so, else one of generation, upload or data, in this order. */
  lemma ClassifiedExactly(message: string)
    ensures var f := ClassifyExportError(message);
      var cancel, generation, upload :=
        Contains(message, "cancel"), Contains(message, "generation"), Contains(message, "upload");
      && (f.status == if cancel then Cancelled else Failed)
      && (f == Failure(Cancelled, CancelledCode, 0) <==> cancel)
      && (f == Failure(Failed, GenerationFailed, 55) <==> !cancel && generation)
      && (f == Failure(Failed, StorageUploadFailed, 80) <==> !cancel && !generation && upload)
      && (f == Failure(Failed, DataFetchFailed, 20) <==> !cancel && !generation && !upload)
  {
  }

  /** A check fails exactly if the row says cancelled or requested, and an attempt starts by overwriting the row. */
  lemma CheckExactly(s: State, i: nat)
    requires i < |s.attempts|
    ensures s.attempts[i].Checking? ==>
      var t := Step(s, Advance(i, None));
      && t == s.(attempts := t.attempts)
      && (t.attempts[i].Failing? <==> s.status == Cancelled || s.cancellationRequested)
      && (!t.attempts[i].Failing? ==> t.attempts[i] == Reporting(s.attempts[i].stage))
    ensures s.attempts[i].Entering? ==>
      var t := Step(s, Advance(i, None));
      t == s.(attempts := s.attempts[i := Checking(1)], status := Processing, hasQueueJob := true)
  {
  }

  /** The row changes only when an attempt reports, completes or fails; an error of its work makes it fail. */
  lemma AdvanceExactly(s: State, i: nat, message: string)
    requires i < |s.attempts|
    ensures var a, t := s.attempts[i], Step(s, Advance(i, None));
      && i < |t.attempts|
      && t == s.(attempts := s.attempts[i := t.attempts[i]], status := t.status, hasQueueJob := t.hasQueueJob)
      && (a.Reporting? ==> t.attempts[i] == Working(a.stage) && t.status == Processing)
      && (a.Working? ==>
        t.status == s.status && t.attempts[i] == if a.stage >= 3 then Storing else Checking(a.stage + 1))
      && (a.Storing? ==> t.attempts[i] == Emailing && t.status == Completed)
      && (a.Emailing? ==> t.attempts[i] == Done && t.status == s.status)
      && (a.Failing? ==> t.attempts[i] == Stopped && t.status == ClassifyExportError(a.message).status)
      && (a.Stopped? || a.Done? ==> t == s)
    ensures var a, t := s.attempts[i], Step(s, Advance(i, Some(message)));
      && i < |t.attempts| && t == s.(attempts := s.attempts[i := t.attempts[i]])
      && t.attempts[i] ==
        if a.Entering? || a.Failing? || a.Stopped? then Stopped
        else if a.Done? then Done
        else Failing(message)
  {
    assert s.attempts[i := s.attempts[i]] == s.attempts;
  }

  /** Which statuses accept a cancellation, a retry, an expiry or the discovery of a lost file. */
  lemma RequestsExactly(s: State)
    ensures Step(s, CancelExport) != s <==> s.status in {Pending, Processing}
    ensures Step(s, RetryExport) != s <==> s.status in {Failed, Cancelled, Expired}
    ensures Step(s, ExpireExport) != s <==> s.status == Completed
    ensures Step(s, LoseFile) != s <==> s.status == Completed
  {
    assert forall c: Call :: |s.calls + [c]| > |s.calls|;
  }

  /** An accepted retry makes the job pending and clears the request; then it is queued, or failed. */
  lemma RetryClearsRequest(s: State, queueError: bool)
    requires s.status in {Failed, Cancelled, Expired}
    ensures var n := |s.calls|;
      var t := Run(s, [RetryExport, Proceed(n, false), Proceed(n, queueError)]);
      !t.cancellationRequested && t.hasQueueJob == !queueError && t.status == if queueError then Failed else Pending
  {
    RunThree(s, RetryExport, Proceed(|s.calls|, false), Proceed(|s.calls|, queueError));
  }

  /** A completed job whose file expired or is lost ends so. */
  lemma CompletedEndsExactly(s: State)
    requires s.status == Completed
    ensures Step(Step(s, ExpireExport), Proceed(|s.calls|, false)).status == Expired
    ensures Step(Step(s, LoseFile), Proceed(|s.calls|, false)).status == Failed
  {
  }

  // ----- Cancellation safety -----

  /** The attempt has not got past its third check. */
  predicate BeforeThirdCheck(a: Attempt) {
    match a
    case Entering => true
    case Checking(k) => k <= 3
    case Reporting(k) => k <= 2
    case Working(k) => k <= 2
    case Storing => false
    case Emailing => false
    case Failing(_) => true
    case Stopped => true
    case Done => false
  }

  /** The attempt has written the completed row. */
  predicate HasCompleted(a: Attempt) {
    a.Emailing? || a.Done?
  }

  /** The write of a retry that clears the request. */
  predicate ClearsRequest(s: State, e: Event) {
    e.Proceed? && e.call < |s.calls| && s.calls[e.call] == Resetting
  }

  predicate NeverCleared(s: State, run: seq<Event>)
    decreases run
  {
    run == [] || (!ClearsRequest(s, run[0]) && NeverCleared(Step(s, run[0]), run[1..]))
  }

  /** Attempt `i`, started or not, is caught by the request. */
  predicate Caught(s: State, i: nat) {
    s.cancellationRequested && (i < |s.attempts| ==> BeforeThirdCheck(s.attempts[i]))
  }

  /** Only its own steps move an attempt, and only a retry's write clears the request. */
  lemma StepKeeps(s: State, e: Event, i: nat)
    ensures s.cancellationRequested && !ClearsRequest(s, e) ==> Step(s, e).cancellationRequested
    ensures i < |s.attempts| && !(e.Advance? && e.attempt == i) ==>
      i < |Step(s, e).attempts| && Step(s, e).attempts[i] == s.attempts[i]
    ensures |s.attempts| <= |Step(s, e).attempts| <= |s.attempts| + 1
    ensures |Step(s, e).attempts| > |s.attempts| ==> Step(s, e).attempts[|s.attempts|] == Entering
  {
  }

  lemma StepCaught(s: State, e: Event, i: nat)
    requires Caught(s, i) && !ClearsRequest(s, e)
    ensures Caught(Step(s, e), i)
  {
    StepKeeps(s, e, i);
  }

  /**
    An attempt that has not passed its third check when the request is set, or that starts later,
    never completes until a retry clears the request, whatever else writes the row meanwhile.
   */
  lemma {:induction false} CaughtAttemptNeverCompletes(s: State, run: seq<Event>, i: nat)
    requires Caught(s, i) && NeverCleared(s, run)
    ensures Caught(Run(s, run), i)
    ensures i < |Run(s, run).attempts| ==> !HasCompleted(Run(s, run).attempts[i])
    decreases run
  {
    if run != [] {
      StepCaught(s, run[0], i);
      CaughtAttemptNeverCompletes(Step(s, run[0]), run[1..], i);
    }
  }

  predicate AllCaught(s: State) {
    s.cancellationRequested && forall a <- s.attempts :: BeforeThirdCheck(a)
  }

  /** With no attempt past its third check, the job itself is not completed. */
  lemma {:induction false} CancelledJobNeverCompletes(s: State, run: seq<Event>)
    requires AllCaught(s) && s.status != Completed && NeverCleared(s, run)
    ensures Run(s, run).status != Completed
    decreases run
  {
    if run != [] {
      var e := run[0];
      forall i | 0 <= i < |Step(s, e).attempts|
        ensures BeforeThirdCheck(Step(s, e).attempts[i])
      {
        assert i < |s.attempts| ==> s.attempts[i] in s.attempts;
        StepCaught(s, e, i);
      }
      StepStaysOpen(s, e);
      CancelledJobNeverCompletes(Step(s, e), run[1..]);
    }
  }

  lemma StepStaysOpen(s: State, e: Event)
    requires AllCaught(s) && s.status != Completed && !ClearsRequest(s, e)
    ensures Step(s, e).status != Completed && Step(s, e).cancellationRequested
  {
    if e.Advance? && e.attempt < |s.attempts| {
      assert s.attempts[e.attempt] in s.attempts;
    }
  }

  /**
    Where an attempt stands that reported over the request at a stage below 3: it is on its way to
    its next check or failing. `undisturbed`: no error struck it, so what it fails with is the check.
   */
  predicate BoundToFail(a: Attempt, stage: nat, undisturbed: bool) {
    match a
    case Reporting(k) => k == stage
    case Working(k) => k == stage
    case Checking(k) => k == stage + 1
    case Failing(message) => undisturbed ==> ClassifyExportError(message).status == Cancelled
    case Stopped => true
    case _ => false
  }

  /** No event of the run makes a step of the attempt fail with an error from outside. */
  predicate Undisturbed(run: seq<Event>, i: nat) {
    forall e <- run :: e.Advance? && e.attempt == i ==> e.error.None?
  }

  lemma StepBoundToFail(s: State, e: Event, i: nat, stage: nat, undisturbed: bool)
    requires i < |s.attempts| && s.cancellationRequested && stage < 3
    requires BoundToFail(s.attempts[i], stage, undisturbed)
    requires undisturbed && e.Advance? && e.attempt == i ==> e.error.None?
    ensures i < |Step(s, e).attempts| && BoundToFail(Step(s, e).attempts[i], stage, undisturbed)
  {
    StepKeeps(s, e, i);
    if e == Advance(i, None) && s.attempts[i].Checking? {
      CancellationIsClassified(s);
    }
  }

  lemma {:induction false} RunBoundToFail(s: State, run: seq<Event>, i: nat, stage: nat, undisturbed: bool)
    requires i < |s.attempts| && s.cancellationRequested && stage < 3 && NeverCleared(s, run)
    requires BoundToFail(s.attempts[i], stage, undisturbed) && (undisturbed ==> Undisturbed(run, i))
    ensures i < |Run(s, run).attempts| && BoundToFail(Run(s, run).attempts[i], stage, undisturbed)
    ensures Run(s, run).cancellationRequested
    decreases run
  {
    if run != [] {
      assert run[0] in run;
      StepBoundToFail(s, run[0], i, stage, undisturbed);
      RunBoundToFail(Step(s, run[0]), run[1..], i, stage, undisturbed);
    }
  }

  /**
    Whatever happens in between, an attempt that overwrites the cancelled status with a progress
    report below stage 3 stops only in its failure step. Unless the database refuses that write, it
    writes the status of a failure, and this is CANCELLED unless an error from outside struck first.
   */
  lemma OverwriterWritesFailure(s: State, run: seq<Event>, e: Event, i: nat)
    requires i < |s.attempts| && s.cancellationRequested && NeverCleared(s, run)
    requires s.attempts[i].Reporting? && s.attempts[i].stage < 3
    ensures i < |Run(s, run).attempts| && i < |Step(Run(s, run), e).attempts|
    ensures var before, after := Run(s, run), Step(Run(s, run), e);
      before.attempts[i] != Stopped && after.attempts[i] == Stopped ==>
        && before.attempts[i].Failing? && e.Advance? && e.attempt == i
        && (e.error.None? ==> after.status == ClassifyExportError(before.attempts[i].message).status)
        && (e.error.None? && Undisturbed(run, i) ==> after.status == Cancelled)
  {
    RunBoundToFail(s, run, i, s.attempts[i].stage, false);
    if Undisturbed(run, i) {
      RunBoundToFail(s, run, i, s.attempts[i].stage, true);
    }
  }

  function Advances(run: seq<Event>, i: nat): nat {
    if run == [] then 0
    else (if run[0].Advance? && run[0].attempt == i then 1 else 0) + Advances(run[1..], i)
  }

  /** The steps that an attempt which is bound to fail has left. */
  function StepsLeft(a: Attempt): nat {
    match a
    case Reporting(_) => 4
    case Working(_) => 3
    case Checking(_) => 2
    case Failing(_) => 1
    case _ => 0
  }

  /** A step brings the attempt closer to its failure, or is that failure and writes CANCELLED. */
  lemma StepTowardsFailure(s: State, e: Event, i: nat, stage: nat)
    requires i < |s.attempts| && s.cancellationRequested && stage < 3
    requires BoundToFail(s.attempts[i], stage, true) && s.attempts[i] != Stopped && Undisturbed([e], i)
    ensures var next := Step(s, e);
      && i < |next.attempts| && BoundToFail(next.attempts[i], stage, true)
      && (next.attempts[i] == Stopped ==> next.status == Cancelled)
      && StepsLeft(s.attempts[i]) <= StepsLeft(next.attempts[i]) + if e.Advance? && e.attempt == i then 1 else 0
  {
    assert e in [e];
    StepBoundToFail(s, e, i, stage, true);
    StepKeeps(s, e, i);
  }

  /**
    A progress report may overwrite CANCELLED with PROCESSING. In every interleaving in which no
    error from outside strikes the attempt, it has written CANCELLED itself and stopped after at
    most four of its steps, at event `n` of the run.
   */
  lemma {:induction false} OverwrittenCancelIsRestored(s: State, run: seq<Event>, i: nat, stage: nat) returns (n: nat)
    requires i < |s.attempts| && s.cancellationRequested && stage < 3 && NeverCleared(s, run)
    requires BoundToFail(s.attempts[i], stage, true) && s.attempts[i] != Stopped
    requires Undisturbed(run, i) && Advances(run, i) >= StepsLeft(s.attempts[i])
    ensures n < |run|
    ensures var t := Run(s, run[..n + 1]);
      t.status == Cancelled && i < |t.attempts| && t.attempts[i] == Stopped
    decreases run
  {
    var e, next := run[0], Step(s, run[0]);
    UndisturbedFirst(run, i);
    StepKeeps(s, e, i);
    StepTowardsFailure(s, e, i, stage);
    if next.attempts[i] == Stopped {
      n := 0;
      RunPrefix(s, run, 0);
    } else {
      var m := OverwrittenCancelIsRestored(next, run[1..], i, stage);
      n := m + 1;
      RunPrefix(s, run, n);
    }
  }

  lemma UndisturbedFirst(run: seq<Event>, i: nat)
    requires Undisturbed(run, i) && run != []
    ensures Undisturbed([run[0]], i) && Undisturbed(run[1..], i)
  {
    assert run[0] in run;
  }

  lemma RunPrefix(s: State, run: seq<Event>, n: nat)
    requires n < |run|
    ensures Run(s, run[..n + 1]) == Run(Step(s, run[0]), run[1..][..n])
  {
    assert run[..n + 1][1..] == run[1..][..n];
  }

  lemma RunThree(s: State, a: Event, b: Event, c: Event)
    ensures Run(s, [a, b, c]) == Step(Step(Step(s, a), b), c)
    ensures NeverCleared(s, [a, b, c]) <==>
      !ClearsRequest(s, a) && !ClearsRequest(Step(s, a), b) && !ClearsRequest(Step(Step(s, a), b), c)
  {
    assert [a, b, c] == [a] + ([b] + ([c] + []));
    RunFirst(s, a, [b] + ([c] + []));
    RunFirst(Step(s, a), b, [c] + []);
    RunFirst(Step(Step(s, a), b), c, []);
  }

  lemma RunFirst(s: State, e: Event, rest: seq<Event>)
    ensures Run(s, [e] + rest) == Run(Step(s, e), rest)
    ensures NeverCleared(s, [e] + rest) <==> !ClearsRequest(s, e) && NeverCleared(Step(s, e), rest)
  {
  }

  // ----- When a cancellation is safe -----

  ghost predicate NoLaterAttemptCompletes(s: State) {
    forall run, i :: NeverCleared(s, run) && |s.attempts| <= i < |Run(s, run).attempts| ==>
      !HasCompleted(Run(s, run).attempts[i])
  }

  lemma {:induction false} RunConcat(s: State, a: seq<Event>, b: seq<Event>)
    ensures Run(s, a + b) == Run(Run(s, a), b)
    ensures NeverCleared(s, a + b) <==> NeverCleared(s, a) && NeverCleared(Run(s, a), b)
    decreases a
  {
    if a == [] {
      assert a + b == b;
    } else {
      assert (a + b)[1..] == a[1..] + b;
      RunConcat(Step(s, a[0]), a[1..], b);
    }
  }

  /** An undisturbed stage: report, work, and pass the next check or store the result. */
  lemma StagePasses(s: State, i: nat, k: nat)
    requires !s.cancellationRequested && i < |s.attempts| && s.attempts[i] == Reporting(k) && 1 <= k <= 3
    ensures var e := Advance(i, None);
      var t := Run(s, [e, e, e]);
      && NeverCleared(s, [e, e, e])
      && !t.cancellationRequested && |t.attempts| == |s.attempts|
      && t.attempts[i] == (if k < 3 then Reporting(k + 1) else Emailing)
      && (k == 3 ==> t.status == Completed)
  {
    var e := Advance(i, None);
    RunThree(s, e, e, e);
  }

  /** The run takes attempt `i` to the completed row without clearing a request. */
  ghost predicate Completes(s: State, run: seq<Event>, i: nat) {
    && NeverCleared(s, run)
    && i < |Run(s, run).attempts| && HasCompleted(Run(s, run).attempts[i])
    && Run(s, run).status == Completed
  }

  /** Events before a completing run. */
  lemma CompletesAfter(s: State, first: seq<Event>, run: seq<Event>, i: nat)
    requires NeverCleared(s, first) && Completes(Run(s, first), run, i)
    ensures Completes(s, first + run, i)
  {
    RunConcat(s, first, run);
  }

  lemma StepCompletes(s: State, e: Event, run: seq<Event>, i: nat)
    requires !ClearsRequest(s, e) && Completes(Step(s, e), run, i)
    ensures Completes(s, [e] + run, i)
  {
    RunFirst(s, e, run);
  }

  /** Without a request, an undisturbed attempt that reports completes the job. */
  lemma {:induction false} ReportingAttemptCompletes(s: State, i: nat, k: nat) returns (run: seq<Event>)
    requires !s.cancellationRequested && i < |s.attempts| && s.attempts[i] == Reporting(k) && 1 <= k <= 3
    ensures Completes(s, run, i)
    decreases 3 - k
  {
    var stage := [Advance(i, None), Advance(i, None), Advance(i, None)];
    StagePasses(s, i, k);
    if k == 3 {
      run := stage;
    } else {
      var rest := ReportingAttemptCompletes(Run(s, stage), i, k + 1);
      CompletesAfter(s, stage, rest, i);
      run := stage + rest;
    }
  }

  /** The stage that an attempt is at, as `processQueuedExport` counts them. */
  predicate StageExists(a: Attempt) {
    (a.Checking? || a.Reporting? || a.Working?) ==> 1 <= a.stage <= 3
  }

  /** The attempt is on its way: it has not completed, failed or stopped. */
  predicate UnderWay(a: Attempt) {
    a.Entering? || a.Checking? || a.Reporting? || a.Working? || a.Storing?
  }

  /** Without a request a check passes once another attempt has overwritten a cancelled status. */
  lemma CheckingAttemptCompletes(s: State, i: nat, k: nat) returns (run: seq<Event>)
    requires !s.cancellationRequested && i < |s.attempts| && s.attempts[i] == Checking(k) && 1 <= k <= 3
    ensures Completes(s, run, i)
  {
    var start := [StartAttempt, Advance(|s.attempts|, None), Advance(i, None)];
    RunThree(s, start[0], start[1], start[2]);
    var rest := ReportingAttemptCompletes(Run(s, start), i, k);
    CompletesAfter(s, start, rest, i);
    run := start + rest;
  }

  lemma UnrequestedAttemptCompletes(s: State, i: nat) returns (run: seq<Event>)
    requires !s.cancellationRequested && i < |s.attempts|
    requires UnderWay(s.attempts[i]) && StageExists(s.attempts[i])
    ensures Completes(s, run, i)
  {
    var e := Advance(i, None);
    var rest;
    match s.attempts[i]
    case Entering =>
      rest := CheckingAttemptCompletes(Step(s, e), i, 1);
      StepCompletes(s, e, rest, i);
      run := [e] + rest;
    case Checking(k) =>
      run := CheckingAttemptCompletes(s, i, k);
    case Reporting(k) =>
      run := ReportingAttemptCompletes(s, i, k);
    case Working(k) =>
      if k < 3 {
        rest := CheckingAttemptCompletes(Step(s, e), i, k + 1);
      } else {
        rest := StoringAttemptCompletes(Step(s, e), i);
      }
      StepCompletes(s, e, rest, i);
      run := [e] + rest;
    case Storing =>
      run := StoringAttemptCompletes(s, i);
  }

  lemma StoringAttemptCompletes(s: State, i: nat) returns (run: seq<Event>)
    requires i < |s.attempts| && s.attempts[i] == Storing
    ensures Completes(s, run, i)
  {
    run := [Advance(i, None)] + [];
    RunFirst(s, Advance(i, None), []);
  }

  /** Past the third check the request is not seen any more. */
  lemma UncheckedAttemptCompletes(s: State, i: nat) returns (run: seq<Event>)
    requires i < |s.attempts| && UnderWay(s.attempts[i]) && StageExists(s.attempts[i])
    requires !BeforeThirdCheck(s.attempts[i])
    ensures Completes(s, run, i)
  {
    var e := Advance(i, None);
    if s.attempts[i].Storing? {
      run := StoringAttemptCompletes(s, i);
    } else if s.attempts[i].Working? {
      run := StoringAttemptCompletes(Step(s, e), i);
      StepCompletes(s, e, run, i);
      run := [e] + run;
    } else {
      run := StoringAttemptCompletes(Step(Step(s, e), e), i);
      StepCompletes(Step(s, e), e, run, i);
      StepCompletes(s, e, [e] + run, i);
      run := [e] + ([e] + run);
    }
  }

  ghost predicate NeverCompletes(s: State, i: nat) {
    forall run :: NeverCleared(s, run) && i < |Run(s, run).attempts| ==> !HasCompleted(Run(s, run).attempts[i])
  }

  /**
    An attempt that is under way is stopped under every interleaving exactly if the request is set
    and the attempt has not passed its third check.
   */
  lemma AttemptSafeExactlyWhenCaught(s: State, i: nat)
    requires i < |s.attempts| && UnderWay(s.attempts[i]) && StageExists(s.attempts[i])
    ensures NeverCompletes(s, i) <==> Caught(s, i)
  {
    if Caught(s, i) {
      forall run | NeverCleared(s, run) && i < |Run(s, run).attempts|
        ensures !HasCompleted(Run(s, run).attempts[i])
      {
        CaughtAttemptNeverCompletes(s, run, i);
      }
    } else if s.cancellationRequested {
      var run := UncheckedAttemptCompletes(s, i);
      assert NeverCleared(s, run) && HasCompleted(Run(s, run).attempts[i]);
    } else {
      var run := UnrequestedAttemptCompletes(s, i);
      assert NeverCleared(s, run) && HasCompleted(Run(s, run).attempts[i]);
    }
  }

  /** No attempt that starts later completes exactly if the request is set. */
  lemma SafeExactlyWhenRequested(s: State)
    ensures NoLaterAttemptCompletes(s) <==> s.cancellationRequested
  {
    if s.cancellationRequested {
      forall run, i | NeverCleared(s, run) && |s.attempts| <= i < |Run(s, run).attempts|
        ensures !HasCompleted(Run(s, run).attempts[i])
      {
        CaughtAttemptNeverCompletes(s, run, i);
      }
    } else {
      var rest := UnrequestedAttemptCompletes(Step(s, StartAttempt), |s.attempts|);
      StepCompletes(s, StartAttempt, rest, |s.attempts|);
      assert NeverCleared(s, [StartAttempt] + rest);
    }
  }

  /** An accepted cancellation, run to its end, sets the request unless it takes the job off the queue instead. */
  lemma CancelSetsRequest(s: State)
    requires s.status == Pending || s.status == Processing
    ensures var c := Proceed(|s.calls|, false);
      var t := Run(s, [CancelExport, c, c]);
      && t.status == Cancelled
      && (t.cancellationRequested <==> s.cancellationRequested || s.status == Processing || !s.hasQueueJob)
  {
    var c := Proceed(|s.calls|, false);
    RunThree(s, CancelExport, c, c);
  }
}
