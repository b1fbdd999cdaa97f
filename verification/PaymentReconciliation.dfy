/**
  Settlement of one payment: background reconciliation against the chain, stale detection, and
  the decisions of an administrator. Each call is one atomic step; what the chain and the queues
  answer is a parameter.
 */
module PaymentReconciliation {
  import opened Options

  datatype Status = Submitted | Confirmed | Failed | ReviewRequired | Reconciling

  datatype Payment = Payment(
    settlementStatus: Status,
    reconciliationAttempts: nat,
    lastSettlementCheck: Option<int>,
    amount: int)

  /**
    What verification brings: no transaction yet, a failed or a valid one, or an error. The error
    can also come after the result was stored, from the notifications and queues that follow.
   */
  datatype Verification =
    | NotFound
    | Invalid(errorAfter: bool)
    | Valid(amount: int, errorAfter: bool)
    | Error

  datatype Resolution = Confirm | Fail | Retry

  datatype Config = Config(staleThresholdMinutes: nat, maxReconciliationAttempts: nat)

  datatype Event =
    | Reconcile(now: int, v: Verification)
    | DetectStale(now: int)
    | Resolve(resolution: Resolution)

  predicate Final(status: Status) {
    status == Confirmed || status == Failed || status == ReviewRequired
  }

  predicate RaisesError(v: Verification) {
    v.Error? || ((v.Invalid? || v.Valid?) && v.errorAfter)
  }

  function MarkedForReview(p: Payment, now: int): Payment {
    p.(settlementStatus := ReviewRequired, lastSettlementCheck := Some(now))
  }

  /** The row when verification is over and before an error, if any, is handled. */
  function Verified(p: Payment, now: int, v: Verification): Payment {
    var checked := p.(
      settlementStatus := Reconciling,
      reconciliationAttempts := p.reconciliationAttempts + 1,
      lastSettlementCheck := Some(now));
    match v
    case NotFound => checked
    case Error => checked
    case Invalid(_) => checked.(settlementStatus := Failed)
    case Valid(amount, _) => checked.(settlementStatus := Confirmed, amount := amount)
  }

  function Reconciled(c: Config, p: Payment, now: int, v: Verification): Payment {
    if Final(p.settlementStatus) then p
    else
      var checked := Verified(p, now, v);
      if !RaisesError(v) then checked
      else if p.reconciliationAttempts + 1 >= c.maxReconciliationAttempts then MarkedForReview(checked, now)
      else checked.(settlementStatus := Submitted)
  }

  predicate IsStale(c: Config, p: Payment, now: int) {
    && p.settlementStatus == Submitted
    && p.lastSettlementCheck.Some?
    && p.lastSettlementCheck.value < now - c.staleThresholdMinutes * 60 * 1000
  }

  function Resolved(p: Payment, r: Resolution): Payment {
    if p.settlementStatus != ReviewRequired then p
    else match r
      case Confirm => p.(settlementStatus := Confirmed)
      case Fail => p.(settlementStatus := Failed)
      case Retry => p.(settlementStatus := Submitted, reconciliationAttempts := 0)
  }

  function Step(c: Config, p: Payment, e: Event): Payment {
    match e
    case Reconcile(now, v) => Reconciled(c, p, now, v)
    case DetectStale(now) => if IsStale(c, p, now) then MarkedForReview(p, now) else p
    case Resolve(r) => Resolved(p, r)
  }

  function Run(c: Config, p: Payment, run: seq<Event>): Payment
    decreases run
  {
    if run == [] then p else Run(c, Step(c, p, run[0]), run[1..])
  }

  // ----- The service on one row -----

  class PaymentReconciliationService {
    const config: Config
    var payment: Payment

    constructor (config: Config, payment: Payment)
      ensures this.config == config && this.payment == payment
    {
      this.config, this.payment := config, payment;
    }

    /** The reported status; after NotFound it differs from the stored one. */
    method ReconcilePayment(now: int, v: Verification) returns (newStatus: Status)
      modifies this
      ensures payment == Step(config, old(payment), Reconcile(now, v))
      ensures newStatus ==
        if !Final(old(payment).settlementStatus) && v.NotFound? then Submitted else payment.settlementStatus
      ensures old(payment).settlementStatus in {Confirmed, Failed, ReviewRequired} ==> payment == old(payment)
      ensures old(payment).settlementStatus in {Submitted, Reconciling} ==>
        && payment.reconciliationAttempts == old(payment).reconciliationAttempts + 1
        && payment.lastSettlementCheck == Some(now)
        && match v
           case NotFound => newStatus == Submitted && payment.settlementStatus == Reconciling
           case Valid(amount, false) => newStatus == payment.settlementStatus == Confirmed && payment.amount == amount
           case Invalid(false) =>
             newStatus == payment.settlementStatus == Failed && payment.amount == old(payment).amount
           case _ =>
             newStatus == payment.settlementStatus ==
             if payment.reconciliationAttempts >= config.maxReconciliationAttempts then ReviewRequired else Submitted
    {
      if payment.settlementStatus == Confirmed || payment.settlementStatus == Failed
         || payment.settlementStatus == ReviewRequired {
        return payment.settlementStatus;
      }
      var attempts := payment.reconciliationAttempts + 1;
      payment := payment.(
        settlementStatus := Reconciling, reconciliationAttempts := attempts, lastSettlementCheck := Some(now));
      var failed := false;
      match v {
        case NotFound =>
          return Submitted;
        case Invalid(errorAfter) =>
          payment := payment.(settlementStatus := Failed, lastSettlementCheck := Some(now));
          failed := errorAfter;
        case Valid(amount, errorAfter) =>
          payment := payment.(settlementStatus := Confirmed, amount := amount, lastSettlementCheck := Some(now));
          failed := errorAfter;
        case Error =>
          failed := true;
      }
      if failed {
        if attempts >= config.maxReconciliationAttempts {
          MarkPaymentForReview(now);
        } else {
          payment := payment.(settlementStatus := Submitted);
        }
      }
      return payment.settlementStatus;
    }

    method MarkPaymentForReview(now: int)
      modifies this
      ensures payment == MarkedForReview(old(payment), now)
      ensures payment == old(payment).(settlementStatus := ReviewRequired, lastSettlementCheck := Some(now))
    {
      payment := payment.(settlementStatus := ReviewRequired, lastSettlementCheck := Some(now));
    }

    method DetectStalePayment(now: int)
      modifies this
      ensures payment == Step(config, old(payment), DetectStale(now))
    {
      var staleThreshold := now - config.staleThresholdMinutes * 60 * 1000;
      if payment.settlementStatus == Submitted
         && payment.lastSettlementCheck.Some? && payment.lastSettlementCheck.value < staleThreshold {
        MarkPaymentForReview(now);
      }
    }

    /** False: the payment is not in review and nothing changes. */
    method ResolvePaymentFromReview(resolution: Resolution) returns (ok: bool)
      modifies this
      ensures ok == (old(payment).settlementStatus == ReviewRequired)
      ensures payment == Step(config, old(payment), Resolve(resolution))
    {
      if payment.settlementStatus != ReviewRequired {
        return false;
      }
      match resolution {
        case Confirm => payment := payment.(settlementStatus := Confirmed);
        case Fail => payment := payment.(settlementStatus := Failed);
        case Retry => payment := payment.(settlementStatus := Submitted, reconciliationAttempts := 0);
      }
      return true;
    }
  }

  // ----- Runs -----

  /** A settled payment is never touched again, by anything. */
  lemma {:induction false} SettledForever(c: Config, p: Payment, run: seq<Event>)
    requires p.settlementStatus == Confirmed || p.settlementStatus == Failed
    ensures Run(c, p, run) == p
    decreases run
  {
    if run != [] {
      SettledForever(c, p, run[1..]);
    }
  }

  predicate AdminFree(run: seq<Event>) {
    forall e <- run :: !e.Resolve?
  }

  predicate RetryFree(run: seq<Event>) {
    Resolve(Retry) !in run
  }

  /** Only an administrator takes a payment out of review. */
  lemma {:induction false} ReviewNeedsAdmin(c: Config, p: Payment, run: seq<Event>)
    requires p.settlementStatus == ReviewRequired && AdminFree(run)
    ensures Run(c, p, run) == p
    decreases run
  {
    if run != [] {
      ReviewNeedsAdmin(c, p, run[1..]);
    }
  }

  /** How often in a run an error sends the payment back to Submitted. */
  function Returns(c: Config, p: Payment, run: seq<Event>): nat
    decreases run
  {
    if run == [] then 0
    else
      var e, q := run[0], Step(c, p, run[0]);
      var returned :=
        e.Reconcile? && RaisesError(e.v) && !Final(p.settlementStatus) && q.settlementStatus == Submitted;
      (if returned then 1 else 0) + Returns(c, q, run[1..])
  }

  /** Between two retries by an administrator, errors return a payment at most max - 1 times. */
  lemma {:induction false} ErrorsAreBounded(c: Config, p: Payment, run: seq<Event>)
    requires RetryFree(run)
    ensures Returns(c, p, run) + p.reconciliationAttempts < c.maxReconciliationAttempts || Returns(c, p, run) == 0
    decreases run
  {
    if run != [] {
      assert run[0] in run;
      ErrorsAreBounded(c, Step(c, p, run[0]), run[1..]);
    }
  }

  /** With max attempts spent on errors alone, the payment is in review. */
  lemma {:induction false} PersistentErrorsEndInReview(c: Config, p: Payment, run: seq<Event>)
    requires p.settlementStatus == Submitted || p.settlementStatus == Reconciling
    requires forall e <- run :: e.Reconcile? && RaisesError(e.v)
    requires run != [] && |run| + p.reconciliationAttempts >= c.maxReconciliationAttempts
    ensures Run(c, p, run).settlementStatus == ReviewRequired
    decreases run
  {
    var q := Step(c, p, run[0]);
    if q.settlementStatus == ReviewRequired {
      assert forall e <- run[1..] :: e in run && e.Reconcile?;
      ReviewNeedsAdmin(c, q, run[1..]);
    } else {
      PersistentErrorsEndInReview(c, q, run[1..]);
    }
  }

  /** A payment that goes to review, stale or out of attempts, stays as it is until an administrator acts. */
  lemma MarkedNeedsAdmin(c: Config, p: Payment, now: int, run: seq<Event>, r: Resolution)
    requires AdminFree(run)
    ensures var waiting := Run(c, MarkedForReview(p, now), run);
      && waiting == MarkedForReview(p, now)
      && Step(c, waiting, Resolve(r)).settlementStatus != ReviewRequired
  {
    ReviewNeedsAdmin(c, MarkedForReview(p, now), run);
  }

  // ----- Transactions that do not appear -----

  predicate Unseen(e: Event) {
    e.DetectStale? || (e.Reconcile? && e.v.NotFound?)
  }

  /** Stale detection sees the payment stale before any check. */
  predicate StaleBeforeCheck(c: Config, p: Payment, run: seq<Event>)
    decreases run
  {
    run != [] && !run[0].Reconcile? &&
    ((run[0].DetectStale? && IsStale(c, p, run[0].now)) || StaleBeforeCheck(c, p, run[1..]))
  }

  /**
    A payment whose transaction never appears is reviewed exactly if it was submitted and stale
    detection finds it before the first check: a check leaves it reconciling, where stale detection
    does not look.
   */
  lemma {:induction false} UnseenReviewedExactly(c: Config, p: Payment, run: seq<Event>)
    requires p.settlementStatus == Submitted || p.settlementStatus == Reconciling
    requires forall e <- run :: Unseen(e)
    ensures Run(c, p, run).settlementStatus == ReviewRequired <==>
      p.settlementStatus == Submitted && StaleBeforeCheck(c, p, run)
    decreases run
  {
    if run != [] {
      var q := Step(c, p, run[0]);
      assert Unseen(run[0]) && forall e <- run[1..] :: e in run && Unseen(e);
      if q.settlementStatus == ReviewRequired {
        ReviewNeedsAdmin(c, q, run[1..]);
      } else {
        UnseenReviewedExactly(c, q, run[1..]);
      }
    }
  }

  /** Once reconciling it stays so, for any number of counted attempts. */
  lemma {:induction false} UnseenKeepsReconciling(c: Config, p: Payment, run: seq<Event>)
    requires p.settlementStatus == Reconciling && forall e <- run :: Unseen(e)
    ensures Run(c, p, run).settlementStatus == Reconciling
    ensures Run(c, p, run).reconciliationAttempts == p.reconciliationAttempts + Checks(run)
    decreases run
  {
    if run != [] {
      assert Unseen(run[0]);
      UnseenKeepsReconciling(c, Step(c, p, run[0]), run[1..]);
    }
  }

  function Checks(run: seq<Event>): nat {
    if run == [] then 0 else (if run[0].Reconcile? then 1 else 0) + Checks(run[1..])
  }

  // ----- Exactly when a payment is reviewed -----

  /** A check that settles the payment: the transaction is valid or not, and no error arises after that. */
  predicate Settles(e: Event) {
    e.Reconcile? && match e.v
    case Valid(_, errorAfter) => !errorAfter
    case Invalid(errorAfter) => !errorAfter
    case NotFound => false
    case Error => false
  }

  /** A check that runs into an error, while verifying or after. */
  predicate Errs(e: Event) {
    e.Reconcile? && match e.v
    case Valid(_, errorAfter) => errorAfter
    case Invalid(errorAfter) => errorAfter
    case NotFound => false
    case Error => true
  }

  predicate NoneSettles(run: seq<Event>) {
    forall e <- run :: !Settles(e)
  }

  function LastCheck(run: seq<Event>): Option<Event> {
    if run == [] then None
    else if run[|run| - 1].Reconcile? then Some(run[|run| - 1])
    else LastCheck(run[..|run| - 1])
  }

  /**
    The event sends the payment to review, if nothing did before: it is a check that raises an error
    when the attempts, with all checks counted, are spent; or it is a stale detection, and the last
    check raised an error longer ago than the threshold, or there was none and the payment itself
    is stale.
   */
  predicate Reviews(c: Config, p: Payment, before: seq<Event>, e: Event) {
    && NoneSettles(before)
    && match e
       case Resolve(_) => false
       case Reconcile(_, _) =>
         Errs(e) && p.reconciliationAttempts + Checks(before) + 1 >= c.maxReconciliationAttempts
       case DetectStale(now) =>
         var last, threshold := LastCheck(before), now - c.staleThresholdMinutes * 60 * 1000;
         if last.None? then
           p.settlementStatus == Submitted && p.lastSettlementCheck.Some? && p.lastSettlementCheck.value < threshold
         else
           last.value.Reconcile? && Errs(last.value) && last.value.now < threshold
  }

  predicate SomeReviews(c: Config, p: Payment, run: seq<Event>) {
    exists i :: 0 <= i < |run| && Reviews(c, p, run[..i], run[i])
  }

  lemma SomeReviewsLast(c: Config, p: Payment, run: seq<Event>)
    requires run != []
    ensures var n := |run| - 1;
      SomeReviews(c, p, run) <==> SomeReviews(c, p, run[..n]) || Reviews(c, p, run[..n], run[n])
  {
    var n := |run| - 1;
    var front := run[..n];
    assert forall i :: 0 <= i < n ==> front[..i] == run[..i] && front[i] == run[i];
    if SomeReviews(c, p, front) {
      var i :| 0 <= i < |front| && Reviews(c, p, front[..i], front[i]);
      assert Reviews(c, p, run[..i], run[i]);
    }
  }

  lemma {:induction false} RunLast(c: Config, p: Payment, run: seq<Event>)
    requires run != []
    ensures Run(c, p, run) == Step(c, Run(c, p, run[..|run| - 1]), run[|run| - 1])
    decreases run
  {
    if |run| > 1 {
      RunLast(c, Step(c, p, run[0]), run[1..]);
      assert run[1..][..|run| - 2] == run[..|run| - 1][1..];
    }
  }

  lemma {:induction false} ChecksLast(run: seq<Event>)
    requires run != []
    ensures Checks(run) == Checks(run[..|run| - 1]) + if run[|run| - 1].Reconcile? then 1 else 0
  {
    if |run| > 1 {
      ChecksLast(run[1..]);
      assert run[1..][..|run| - 2] == run[..|run| - 1][1..];
    }
  }

  /** The stored row while the payment is neither settled nor in review, told from the run alone. */
  predicate Awaiting(p: Payment, run: seq<Event>, q: Payment) {
    var last := LastCheck(run);
    && q.reconciliationAttempts == p.reconciliationAttempts + Checks(run)
    && if last.None? then
         q.settlementStatus == p.settlementStatus && q.lastSettlementCheck == p.lastSettlementCheck
       else
         && last.value.Reconcile?
         && q.lastSettlementCheck == Some(last.value.now)
         && q.settlementStatus == if Errs(last.value) then Submitted else Reconciling
  }

  /** In review, settled, or awaiting the next check. */
  predicate Located(c: Config, p: Payment, run: seq<Event>, q: Payment) {
    if SomeReviews(c, p, run) then q.settlementStatus == ReviewRequired
    else if !NoneSettles(run) then q.settlementStatus == Confirmed || q.settlementStatus == Failed
    else Awaiting(p, run, q)
  }

  lemma NoneSettlesLast(run: seq<Event>)
    requires run != []
    ensures NoneSettles(run) <==> NoneSettles(run[..|run| - 1]) && !Settles(run[|run| - 1])
  {
    assert run == run[..|run| - 1] + [run[|run| - 1]];
  }

  lemma StepLocated(c: Config, p: Payment, run: seq<Event>, q: Payment)
    requires p.settlementStatus == Submitted || p.settlementStatus == Reconciling
    requires run != [] && !run[|run| - 1].Resolve?
    requires Located(c, p, run[..|run| - 1], q)
    ensures Located(c, p, run, Step(c, q, run[|run| - 1]))
  {
    SomeReviewsLast(c, p, run);
    NoneSettlesLast(run);
    ChecksLast(run);
  }

  lemma {:induction false} RunLocated(c: Config, p: Payment, run: seq<Event>)
    requires p.settlementStatus == Submitted || p.settlementStatus == Reconciling
    requires AdminFree(run)
    ensures Located(c, p, run, Run(c, p, run))
  {
    if run != [] {
      var front := run[..|run| - 1];
      assert run[|run| - 1] in run && forall e <- front :: e in run;
      RunLocated(c, p, front);
      RunLast(c, p, run);
      StepLocated(c, p, run, Run(c, p, front));
    }
  }

  /**
    Over every run of checks and stale detections, whatever they find and in any order, a payment
    ends in review if and only if some event of the run sends it there.
   */
  lemma ReviewedExactly(c: Config, p: Payment, run: seq<Event>)
    requires p.settlementStatus == Submitted || p.settlementStatus == Reconciling
    requires AdminFree(run)
    ensures Run(c, p, run).settlementStatus == ReviewRequired <==> SomeReviews(c, p, run)
  {
    RunLocated(c, p, run);
  }

  /** Event `i` settles the payment: nothing did before, and nothing had sent it to review. */
  predicate Decides(c: Config, p: Payment, run: seq<Event>, i: int) {
    && 0 <= i < |run| && Settles(run[i])
    && NoneSettles(run[..i]) && !SomeReviews(c, p, run[..i])
  }

  lemma {:induction false} RunConcat(c: Config, p: Payment, a: seq<Event>, b: seq<Event>)
    ensures Run(c, p, a + b) == Run(c, Run(c, p, a), b)
    decreases a
  {
    if a == [] {
      assert a + b == b;
    } else {
      assert (a + b)[1..] == a[1..] + b;
      RunConcat(c, Step(c, p, a[0]), a[1..], b);
    }
  }

  /** The deciding check gives the stored verdict, for good. */
  lemma DecidingCheck(c: Config, p: Payment, run: seq<Event>, i: int)
    requires p.settlementStatus == Submitted || p.settlementStatus == Reconciling
    requires AdminFree(run) && Decides(c, p, run, i)
    ensures var q, v := Run(c, p, run), run[i].v;
      && q.settlementStatus == (if v.Valid? then Confirmed else Failed)
      && (v.Valid? ==> q.amount == v.amount)
  {
    var before, upTo := run[..i], run[..i + 1];
    RunLocated(c, p, before);
    assert upTo[..i] == before;
    RunLast(c, p, upTo);
    SettledForever(c, Run(c, p, upTo), run[i + 1..]);
    assert run == upTo + run[i + 1..];
    RunConcat(c, p, upTo, run[i + 1..]);
  }

  lemma {:induction false} FirstSettling(run: seq<Event>) returns (i: nat)
    requires !NoneSettles(run)
    ensures i < |run| && Settles(run[i]) && NoneSettles(run[..i])
  {
    if Settles(run[0]) {
      i := 0;
    } else {
      var j := FirstSettling(run[1..]);
      i := j + 1;
      assert run[..i] == [run[0]] + run[1..][..j];
    }
  }

  lemma ReviewsLater(c: Config, p: Payment, run: seq<Event>, n: nat)
    requires n <= |run| && SomeReviews(c, p, run[..n])
    ensures SomeReviews(c, p, run)
  {
    var i :| 0 <= i < n && Reviews(c, p, run[..n][..i], run[..n][i]);
    assert run[..n][..i] == run[..i];
  }

  /**
    Over every run of checks and stale detections, a payment ends confirmed, with the amount found on
    chain, if and only if the first settling check, before anything sent it to review, found a valid
    transaction; and failed if and only if that check found a failed one.
   */
  lemma SettledExactly(c: Config, p: Payment, run: seq<Event>)
    requires p.settlementStatus == Submitted || p.settlementStatus == Reconciling
    requires AdminFree(run)
    ensures var q := Run(c, p, run);
      && (q.settlementStatus == Confirmed <==> exists i :: Decides(c, p, run, i) && run[i].v.Valid?)
      && (q.settlementStatus == Failed <==> exists i :: Decides(c, p, run, i) && run[i].v.Invalid?)
      && (forall i :: Decides(c, p, run, i) && run[i].v.Valid? ==> q.amount == run[i].v.amount)
  {
    forall i | Decides(c, p, run, i)
      ensures var q, v := Run(c, p, run), run[i].v;
        q.settlementStatus == (if v.Valid? then Confirmed else Failed) && (v.Valid? ==> q.amount == v.amount)
    {
      DecidingCheck(c, p, run, i);
    }
    RunLocated(c, p, run);
    if Run(c, p, run).settlementStatus == Confirmed || Run(c, p, run).settlementStatus == Failed {
      var i := FirstSettling(run);
      if SomeReviews(c, p, run[..i]) {
        ReviewsLater(c, p, run, i);
      }
      assert Decides(c, p, run, i);
    }
  }

  /** An administrator's decision on a payment in review; other payments are not touched. */
  lemma ResolvedExactly(c: Config, p: Payment, resolution: Resolution)
    ensures var q := Step(c, p, Resolve(resolution));
      && (p.settlementStatus != ReviewRequired ==> q == p)
      && (p.settlementStatus == ReviewRequired ==> match resolution
          case Confirm => q == p.(settlementStatus := Confirmed)
          case Fail => q == p.(settlementStatus := Failed)
          case Retry => q == p.(settlementStatus := Submitted, reconciliationAttempts := 0))
  {
  }
}
