/**
  Payments and disputes together: what holds over every interleaving of committed payment
  submissions and dispute calls.
 */
module SplitSafety {
  import opened Options
  import opened Sums
  import opened SplitStore
  import P = PaymentProcessor
  import D = Disputes
  import R = Reputation

  datatype Event =
    | Submission(
        o: P.ProcessPaymentOptions, v: P.Verification, fraud: P.FraudCheck, reputationFails: bool, processedAt: int)
    | DisputeCall(call: D.Event)

  function Apply(db: Db, e: Event): Db {
    match e
    case Submission(o, v, fraud, fails, processedAt) => P.Submit(db, o, v, fraud, fails, processedAt).db
    case DisputeCall(call) => D.Step(db, call).db
  }

  function Run(db: Db, events: seq<Event>): Db
    decreases events
  {
    if events == [] then db else Run(Apply(db, events[0]), events[1..])
  }

  predicate Accepted(db: Db, e: Event) {
    match e
    case Submission(o, v, fraud, fails, processedAt) => P.Submit(db, o, v, fraud, fails, processedAt).result.Accepted?
    case DisputeCall(call) => D.Step(db, call).outcome == D.Ok
  }

  /** The call leaves payments and participants alone. */
  lemma DisputesDoNotPay(db: Db, call: D.Event)
    ensures var after := D.Step(db, call).db;
      after.payments == db.payments && after.participants == db.participants && after.paidEvents == db.paidEvents
  {
  }

  // ----- Event trails -----

  lemma {:induction false} TrailsStayFaithful(db: Db, events: seq<Event>)
    requires D.AllFaithful(db.disputes)
    ensures D.AllFaithful(Run(db, events).disputes)
    decreases events
  {
    if events != [] {
      if events[0].DisputeCall? {
        D.StepIsFaithful(db, events[0].call);
      }
      TrailsStayFaithful(Apply(db, events[0]), events[1..]);
    }
  }

  lemma ExtendsTransitive(a: seq<Dispute>, b: seq<Dispute>, c: seq<Dispute>)
    requires D.Extends(a, b) && D.Extends(b, c)
    ensures D.Extends(a, c)
  {
  }

  lemma {:induction false} TrailsOnlyGrow(db: Db, events: seq<Event>)
    ensures D.Extends(db.disputes, Run(db, events).disputes)
    decreases events
  {
    if events != [] {
      var next := Apply(db, events[0]);
      if events[0].DisputeCall? {
        D.StepExtends(db, events[0].call);
      }
      TrailsOnlyGrow(next, events[1..]);
      ExtendsTransitive(db.disputes, next.disputes, Run(db, events).disputes);
    }
  }

  // ----- The ledger -----

  /** Ids are primary keys. */
  ghost predicate UniqueIds(participants: seq<Participant>) {
    forall i, j :: 0 <= i < j < |participants| ==> participants[i].id != participants[j].id
  }

  /** The rows are those of before, with other amounts paid and payment statuses at most. */
  ghost predicate SameRows(before: seq<Participant>, after: seq<Participant>) {
    && |after| == |before|
    && forall i :: 0 <= i < |before| ==>
      after[i] == before[i].(amountPaid := after[i].amountPaid, status := after[i].status)
  }

  lemma ApplySameRows(db: Db, e: Event)
    ensures SameRows(db.participants, Apply(db, e).participants)
    ensures db.payments <= Apply(db, e).payments
  {
  }

  lemma {:induction false} RunSameRows(db: Db, events: seq<Event>)
    ensures SameRows(db.participants, Run(db, events).participants)
    ensures db.payments <= Run(db, events).payments
    decreases events
  {
    if events != [] {
      ApplySameRows(db, events[0]);
      RunSameRows(Apply(db, events[0]), events[1..]);
    }
  }

  function PaymentBy(id: ParticipantId): Payment -> int {
    (p: Payment) => if p.participantId == id then p.amount else 0
  }

  function PaymentIn(splitId: SplitId): Payment -> int {
    (p: Payment) => if p.splitId == splitId then p.amount else 0
  }

  /** What a participant has paid beyond the recorded payments. */
  function OpeningBalance(db: Db, i: nat): int
    requires i < |db.participants|
  {
    db.participants[i].amountPaid - Sum(db.payments, PaymentBy(db.participants[i].id))
  }

  lemma ApplyConserves(db: Db, e: Event, i: nat)
    requires UniqueIds(db.participants) && i < |db.participants|
    ensures i < |Apply(db, e).participants| && OpeningBalance(Apply(db, e), i) == OpeningBalance(db, i)
  {
    match e
    case DisputeCall(call) => DisputesDoNotPay(db, call);
    case Submission(_, _, _, _, _) =>
      var after := Apply(db, e);
      if Accepted(db, e) {
        SumAppend(db.payments, after.payments[|db.payments|], PaymentBy(db.participants[i].id));
        assert after.payments == db.payments + [after.payments[|db.payments|]];
      }
  }

  /** Whatever happens, a participant's amount paid is its opening balance and its recorded payments. */
  lemma {:induction false} LedgerConserved(db: Db, events: seq<Event>, i: nat)
    requires UniqueIds(db.participants) && i < |db.participants|
    ensures i < |Run(db, events).participants| && OpeningBalance(Run(db, events), i) == OpeningBalance(db, i)
    decreases events
  {
    if events != [] {
      ApplySameRows(db, events[0]);
      ApplyConserves(db, events[0], i);
      LedgerConserved(Apply(db, events[0]), events[1..], i);
    }
  }

  // ----- No payment counts twice -----

  ghost predicate CountedOnce(payments: seq<Payment>) {
    forall i, j :: 0 <= i < j < |payments| ==>
      payments[i].txHash != payments[j].txHash && payments[i].idempotencyKey != payments[j].idempotencyKey
  }

  lemma {:induction false} PaymentsCountOnce(db: Db, events: seq<Event>)
    requires CountedOnce(db.payments)
    ensures CountedOnce(Run(db, events).payments)
    decreases events
  {
    if events != [] {
      if events[0].DisputeCall? {
        DisputesDoNotPay(db, events[0].call);
      }
      PaymentsCountOnce(Apply(db, events[0]), events[1..]);
    }
  }

  /** After an accepted submission, the same key or transaction is a duplicate for ever, and changes nothing. */
  lemma ResubmissionIsDuplicate(db: Db, first: Event, events: seq<Event>, again: Event)
    requires first.Submission? && again.Submission? && Accepted(db, first)
    requires P.KeyOf(again.o) == P.KeyOf(first.o) || again.o.txHash == first.o.txHash
    ensures var later := Run(Apply(db, first), events);
      P.Submit(later, again.o, again.v, again.fraud, again.reputationFails, again.processedAt)
        == P.Submission(later, P.Duplicate)
  {
    var posted := Apply(db, first);
    var later := Run(posted, events);
    RunSameRows(posted, events);
    var n := |db.payments|;
    assert later.payments[n] == posted.payments[n];
    assert later.payments[n] in later.payments;
  }

  // ----- Totals of a split -----

  /** The stored total is the sum of the participants' payments and the stored status agrees with it. */
  predicate Balanced(db: Db, id: SplitId) {
    && id in db.splits
    && db.splits[id].amountPaid == P.TotalPaid(db.participants, id)
    && db.splits[id].status == P.StatusFor(db.splits[id].amountPaid, db.splits[id].totalAmount)
  }

  /** The stored total and status are those of before, and so are the payments of the split. */
  ghost predicate Untouched(before: Db, after: Db, id: SplitId) {
    && id in before.splits && id in after.splits
    && after.splits[id].amountPaid == before.splits[id].amountPaid
    && after.splits[id].status == before.splits[id].status
    && |before.payments| <= |after.payments|
    && forall k :: |before.payments| <= k < |after.payments| ==> after.payments[k].splitId != id
  }

  lemma TotalsAfter(db: Db, e: Event, id: SplitId)
    requires id in db.splits
    ensures Balanced(db, id) ==> Balanced(Apply(db, e), id)
    ensures Balanced(Apply(db, e), id) || Untouched(db, Apply(db, e), id)
    ensures id in Apply(db, e).splits && Apply(db, e).splits[id].totalAmount == db.splits[id].totalAmount
    ensures e.Submission? && Accepted(db, e) && e.o.splitId == id ==> Balanced(Apply(db, e), id)
  {
    match e
    case DisputeCall(call) => DisputesDoNotPay(db, call);
    case Submission(o, _, _, _, _) =>
      if Accepted(db, e) {
        var i := P.IndexOf(db.participants, o.participantId, o.splitId);
        SumUpdate(db.participants, i, Apply(db, e).participants[i], P.PaidIn(id));
      }
  }

  lemma UntouchedTransitive(a: Db, b: Db, c: Db, id: SplitId)
    requires Untouched(a, b, id) && Untouched(b, c, id) && b.payments <= c.payments
    ensures Untouched(a, c, id)
  {
  }

  /** After any run the stored total and status are right, unless they were not and no payment came in. */
  lemma {:induction false} TotalsFollowPayments(db: Db, events: seq<Event>, id: SplitId)
    requires id in db.splits
    ensures Balanced(db, id) ==> Balanced(Run(db, events), id)
    ensures Balanced(Run(db, events), id) || Untouched(db, Run(db, events), id)
    decreases events
  {
    if events != [] {
      var next := Apply(db, events[0]);
      TotalsAfter(db, events[0], id);
      TotalsFollowPayments(next, events[1..], id);
      RunSameRows(next, events[1..]);
      if Untouched(db, next, id) && Untouched(next, Run(db, events), id) {
        UntouchedTransitive(db, next, Run(db, events), id);
      }
    }
  }

  lemma ApplyConservesSplit(db: Db, e: Event, id: SplitId)
    ensures P.TotalPaid(Apply(db, e).participants, id) - Sum(Apply(db, e).payments, PaymentIn(id))
         == P.TotalPaid(db.participants, id) - Sum(db.payments, PaymentIn(id))
  {
    match e
    case DisputeCall(call) => DisputesDoNotPay(db, call);
    case Submission(o, _, _, _, _) =>
      if Accepted(db, e) {
        var i, after := P.IndexOf(db.participants, o.participantId, o.splitId), Apply(db, e);
        SumUpdate(db.participants, i, after.participants[i], P.PaidIn(id));
        SumAppend(db.payments, after.payments[|db.payments|], PaymentIn(id));
        assert after.payments == db.payments + [after.payments[|db.payments|]];
      }
  }

  /** What all participants of a split have paid grows by exactly the payments recorded for it. */
  lemma {:induction false} SplitConserved(db: Db, events: seq<Event>, id: SplitId)
    ensures P.TotalPaid(Run(db, events).participants, id) - Sum(Run(db, events).payments, PaymentIn(id))
         == P.TotalPaid(db.participants, id) - Sum(db.payments, PaymentIn(id))
    decreases events
  {
    if events != [] {
      ApplyConservesSplit(db, events[0], id);
      SplitConserved(Apply(db, events[0]), events[1..], id);
    }
  }

  // ----- Status of a participant -----

  predicate StatusAgrees(p: Participant) {
    && (p.status == Paid <==> p.amountPaid >= p.amountOwed)
    && (p.status == Pending ==> p.amountPaid == 0)
  }

  /** A participant's row is the one of before or its status agrees with what was paid. */
  lemma {:induction false} RowsFollowPayments(db: Db, events: seq<Event>, i: nat)
    requires i < |db.participants|
    ensures i < |Run(db, events).participants|
    ensures Run(db, events).participants[i] == db.participants[i] || StatusAgrees(Run(db, events).participants[i])
    decreases events
  {
    if events != [] {
      if events[0].DisputeCall? {
        DisputesDoNotPay(db, events[0].call);
      }
      RowsFollowPayments(Apply(db, events[0]), events[1..], i);
    }
  }

  // ----- Paying in full is reported once -----

  ghost predicate PositiveAmounts(events: seq<Event>) {
    forall e <- events :: e.Submission? && e.v.Valid? ==> e.v.amount >= 0
  }

  ghost predicate ReportedOnce(db: Db) {
    && (forall i, j :: 0 <= i < j < |db.paidEvents| ==>
      db.paidEvents[i].participantId != db.paidEvents[j].participantId)
    && forall i, k :: 0 <= i < |db.participants| && 0 <= k < |db.paidEvents| ==>
      db.paidEvents[k].participantId == db.participants[i].id ==>
      db.participants[i].amountPaid >= db.participants[i].amountOwed
  }

  lemma ApplyReportsOnce(db: Db, e: Event)
    requires ReportedOnce(db) && UniqueIds(db.participants)
    requires e.Submission? && e.v.Valid? ==> e.v.amount >= 0
    ensures ReportedOnce(Apply(db, e))
  {
  }

  lemma {:induction false} PaidInFullReportedOnce(db: Db, events: seq<Event>)
    requires ReportedOnce(db) && UniqueIds(db.participants) && PositiveAmounts(events)
    ensures ReportedOnce(Run(db, events))
    decreases events
  {
    if events != [] {
      assert events[0] in events;
      ApplyReportsOnce(db, events[0]);
      ApplySameRows(db, events[0]);
      PaidInFullReportedOnce(Apply(db, events[0]), events[1..]);
    }
  }

  // ----- Completing a payment calls the reputation service -----

  /** The outcome that a completing payment reports in its transaction. */
  function OutcomeCall(db: Db, o: P.ProcessPaymentOptions, processedAt: int): R.Call
    requires P.IndexOf(db.participants, o.participantId, o.splitId) < |db.participants| && o.splitId in db.splits
  {
    var p := db.participants[P.IndexOf(db.participants, o.participantId, o.splitId)];
    var onTime := processedAt <= P.ResolveSplitDeadline(db.splits[o.splitId]);
    R.Call(p.userId, o.splitId, if onTime then R.PaidOnTime else R.PaidLate, true)
  }

  /**
    A payment that completes a participant's share, and is not refused, is rolled back with its
    reputation event if and only if the user has no stored reputation, unless the same outcome of the
    same split was logged before.
   */
  lemma CompletingPaymentRollsBackExactly(
    db: Db, rep: R.State, o: P.ProcessPaymentOptions, v: P.Verification, fraud: P.FraudCheck, processedAt: int)
    requires P.Refused(db, o, v, fraud).None?
    requires |P.Posted(db, o, v.amount, processedAt).db.paidEvents| > |db.paidEvents|
    ensures var c := OutcomeCall(db, o, processedAt);
      var result := P.Submit(db, o, v, fraud, R.SaveFails(rep, c), processedAt);
      if c.userId in rep.users || R.IsRecorded(rep, c) then result == P.Posted(db, o, v.amount, processedAt)
      else result == P.Submission(db, P.ReputationFailed) && R.AfterRecord(rep, c) == rep
  {
    R.OutcomeFailsExactly(rep, OutcomeCall(db, o, processedAt));
  }

  // ----- The freeze -----

  predicate Live(d: Dispute, id: SplitId) {
    d.splitId == id && !D.Decided(d.status)
  }

  ghost predicate HasLive(disputes: seq<Dispute>, id: SplitId) {
    exists i :: 0 <= i < |disputes| && Live(disputes[i], id)
  }

  predicate Frozen(db: Db, id: SplitId) {
    id in db.splits && db.splits[id].isFrozen
  }

  /** A verdict on a dispute of the split, where the state machine allows it. */
  predicate Verdict(db: Db, e: Event, id: SplitId) {
    && e.DisputeCall? && (e.call.Reject? || (e.call.Resolve? && id in db.splits))
    && e.call.id < |db.disputes| && db.disputes[e.call.id].splitId == id
    && D.CanTransition(db.disputes[e.call.id].status, if e.call.Resolve? then Resolved else Rejected)
  }

  /** Those are the verdicts that are accepted. */
  lemma VerdictIsAccepted(db: Db, call: D.Event, id: SplitId)
    requires call.Resolve? || call.Reject?
    requires call.id < |db.disputes| && db.disputes[call.id].splitId == id
    ensures Verdict(db, DisputeCall(call), id) <==> Accepted(db, DisputeCall(call))
  {
  }

  /** An accepted filing or appeal of a dispute of the split. */
  predicate Raised(db: Db, e: Event, id: SplitId) {
    && e.DisputeCall? && Accepted(db, e)
    && ((e.call.File? && e.call.splitId == id)
        || (e.call.Appeal? && db.disputes[e.call.id].splitId == id))
  }

  /** What a step does to the freeze of a split and to nothing else of it. */
  lemma FreezeAfterStep(db: Db, call: D.Event, id: SplitId)
    requires id in db.splits
    ensures var e, after := DisputeCall(call), D.Step(db, call).db;
      && id in after.splits
      && after.splits[id] == db.splits[id].(isFrozen := !Verdict(db, e, id) && (Raised(db, e, id) || Frozen(db, id)))
  {
  }

  lemma SubmissionKeepsFreeze(db: Db, e: Event, id: SplitId)
    requires e.Submission? && id in db.splits
    ensures var after := Apply(db, e);
      && after.disputes == db.disputes && id in after.splits
      && after.splits[id].isFrozen == db.splits[id].isFrozen
  {
  }

  /** What a step does to the liveness of one dispute. */
  lemma LiveAfterStep(db: Db, call: D.Event, i: nat, id: SplitId)
    requires i < |D.Step(db, call).db.disputes|
    ensures var e, after := DisputeCall(call), D.Step(db, call).db.disputes[i];
      Live(after, id) <==>
        if i < |db.disputes| && (call.File? || call.id != i) then Live(db.disputes[i], id)
        else if call.File? then call.splitId == id
        else !Verdict(db, e, id) && (Raised(db, e, id) || Live(db.disputes[i], id))
  {
  }

  /** A frozen split has a dispute that is neither resolved nor rejected. */
  ghost predicate FrozenMeansLive(db: Db, id: SplitId) {
    Frozen(db, id) ==> HasLive(db.disputes, id)
  }

  lemma ApplyFrozenMeansLive(db: Db, e: Event, id: SplitId)
    requires id in db.splits && FrozenMeansLive(db, id)
    ensures id in Apply(db, e).splits && FrozenMeansLive(Apply(db, e), id)
  {
    if e.Submission? {
      SubmissionKeepsFreeze(db, e, id);
    } else {
      FreezeAfterStep(db, e.call, id);
      if Frozen(Apply(db, e), id) {
        if Raised(db, e, id) {
          LiveAfterStep(db, e.call, if e.call.File? then |db.disputes| else e.call.id, id);
        } else {
          var i :| 0 <= i < |db.disputes| && Live(db.disputes[i], id);
          LiveAfterStep(db, e.call, i, id);
        }
      }
    }
  }

  lemma {:induction false} FreezeHasCause(db: Db, events: seq<Event>, id: SplitId)
    requires id in db.splits && FrozenMeansLive(db, id)
    ensures id in Run(db, events).splits && FrozenMeansLive(Run(db, events), id)
    decreases events
  {
    if events != [] {
      ApplyFrozenMeansLive(db, events[0], id);
      FreezeHasCause(Apply(db, events[0]), events[1..], id);
    }
  }

  /** No verdict on a dispute of the split is accepted during the run. */
  predicate NoVerdict(db: Db, events: seq<Event>, id: SplitId)
    decreases events
  {
    events == [] || (!Verdict(db, events[0], id) && NoVerdict(Apply(db, events[0]), events[1..], id))
  }

  /** The split's row, its payments and the rows of its participants are those of before. */
  ghost predicate MoneyUnchanged(before: Db, after: Db, id: SplitId) {
    && id in before.splits && id in after.splits && after.splits[id] == before.splits[id]
    && |before.payments| <= |after.payments| && |after.participants| == |before.participants|
    && (forall k :: |before.payments| <= k < |after.payments| ==> after.payments[k].splitId != id)
    && forall i :: 0 <= i < |before.participants| && before.participants[i].splitId == id ==>
      after.participants[i] == before.participants[i]
  }

  lemma FrozenStepKeepsMoney(db: Db, e: Event, id: SplitId)
    requires Frozen(db, id) && !Verdict(db, e, id)
    ensures Frozen(Apply(db, e), id) && MoneyUnchanged(db, Apply(db, e), id)
    ensures e.Submission? && e.o.splitId == id ==> !Accepted(db, e)
  {
  }

  lemma MoneyUnchangedTransitive(a: Db, b: Db, c: Db, id: SplitId)
    requires MoneyUnchanged(a, b, id) && MoneyUnchanged(b, c, id) && b.payments <= c.payments
    requires SameRows(a.participants, b.participants)
    ensures MoneyUnchanged(a, c, id)
  {
  }

  /** Until a verdict, a frozen split stays frozen and none of its money moves. */
  lemma {:induction false} FrozenUntilVerdict(db: Db, events: seq<Event>, id: SplitId)
    requires Frozen(db, id) && NoVerdict(db, events, id)
    ensures Frozen(Run(db, events), id) && MoneyUnchanged(db, Run(db, events), id)
    decreases events
  {
    if events != [] {
      var next := Apply(db, events[0]);
      FrozenStepKeepsMoney(db, events[0], id);
      FrozenUntilVerdict(next, events[1..], id);
      ApplySameRows(db, events[0]);
      RunSameRows(next, events[1..]);
      MoneyUnchangedTransitive(db, next, Run(db, events), id);
    }
  }

  /** From an accepted filing or appeal to the first verdict, no payment to the split is accepted. */
  lemma NoPaymentDuringDispute(db: Db, raise: Event, events: seq<Event>, payment: Event, id: SplitId)
    requires id in db.splits && Raised(db, raise, id)
    requires NoVerdict(Apply(db, raise), events, id)
    requires payment.Submission? && payment.o.splitId == id
    ensures MoneyUnchanged(Apply(db, raise), Run(Apply(db, raise), events), id)
    ensures Apply(db, raise).payments == db.payments && Apply(db, raise).participants == db.participants
    ensures !Accepted(Run(Apply(db, raise), events), payment)
  {
    FreezeAfterStep(db, raise.call, id);
    DisputesDoNotPay(db, raise.call);
    FrozenUntilVerdict(Apply(db, raise), events, id);
  }

  // ----- When the freeze tells exactly whether a dispute is live -----

  ghost predicate FreezeAgrees(db: Db, id: SplitId) {
    id in db.splits && (db.splits[id].isFrozen <==> HasLive(db.disputes, id))
  }

  /** Another dispute of the split than the numbered one is live. */
  ghost predicate OtherLive(disputes: seq<Dispute>, except: nat, id: SplitId) {
    exists i :: 0 <= i < |disputes| && i != except && Live(disputes[i], id)
  }

  lemma VerdictLeavesOthers(db: Db, e: Event, id: SplitId)
    requires id in db.splits && Verdict(db, e, id)
    ensures !Frozen(Apply(db, e), id)
    ensures HasLive(Apply(db, e).disputes, id) <==> OtherLive(db.disputes, e.call.id, id)
  {
    FreezeAfterStep(db, e.call, id);
    var after := Apply(db, e).disputes;
    forall i | 0 <= i < |after|
      ensures Live(after[i], id) <==> i != e.call.id && Live(db.disputes[i], id)
    {
      LiveAfterStep(db, e.call, i, id);
    }
    if OtherLive(db.disputes, e.call.id, id) {
      var i :| 0 <= i < |db.disputes| && i != e.call.id && Live(db.disputes[i], id);
      assert Live(after[i], id);
    }
    if HasLive(after, id) {
      var i :| 0 <= i < |after| && Live(after[i], id);
      assert Live(db.disputes[i], id);
    }
  }

  lemma OtherStepsKeepAgreement(db: Db, e: Event, id: SplitId)
    requires FreezeAgrees(db, id) && !Verdict(db, e, id)
    ensures FreezeAgrees(Apply(db, e), id)
  {
    ApplyFrozenMeansLive(db, e, id);
    var after := Apply(db, e);
    if e.Submission? {
      SubmissionKeepsFreeze(db, e, id);
    } else {
      FreezeAfterStep(db, e.call, id);
      if HasLive(after.disputes, id) && !Raised(db, e, id) {
        var i :| 0 <= i < |after.disputes| && Live(after.disputes[i], id);
        LiveAfterStep(db, e.call, i, id);
      }
    }
  }

  /** The freeze stops telling exactly when a verdict falls while another dispute of the split is live. */
  lemma AgreementBreaksExactly(db: Db, e: Event, id: SplitId)
    requires FreezeAgrees(db, id)
    ensures FreezeAgrees(Apply(db, e), id) <==> !(Verdict(db, e, id) && OtherLive(db.disputes, e.call.id, id))
  {
    if Verdict(db, e, id) {
      VerdictLeavesOthers(db, e, id);
    } else {
      OtherStepsKeepAgreement(db, e, id);
    }
  }

  ghost predicate AtMostOneDispute(disputes: seq<Dispute>, id: SplitId) {
    forall i, j :: 0 <= i < j < |disputes| ==> !(disputes[i].splitId == id && disputes[j].splitId == id)
  }

  /** A split that never had a second dispute is frozen exactly while its dispute is live. */
  lemma {:induction false} OneDisputeFreezeAgrees(db: Db, events: seq<Event>, id: SplitId)
    requires FreezeAgrees(db, id) && AtMostOneDispute(Run(db, events).disputes, id)
    ensures FreezeAgrees(Run(db, events), id)
    decreases events
  {
    if events != [] {
      TrailsOnlyGrow(db, events);
      AgreementBreaksExactly(db, events[0], id);
      OneDisputeFreezeAgrees(Apply(db, events[0]), events[1..], id);
    }
  }

  lemma {:induction false} RunConcat(db: Db, a: seq<Event>, b: seq<Event>)
    ensures Run(db, a + b) == Run(Run(db, a), b)
    decreases a
  {
    if a == [] {
      assert a + b == b;
    } else {
      assert (a + b)[1..] == a[1..] + b;
      RunConcat(Apply(db, a[0]), a[1..], b);
    }
  }

  /** The calls that file a first dispute, collect evidence, review it and resolve it. */
  function FirstCase(id: SplitId, actor: string, now: int): seq<Event> {
    [DisputeCall(D.File(id, actor, false)), DisputeCall(D.MoveToEvidenceCollection(0, actor)),
     DisputeCall(D.SubmitForReview(0, actor)), DisputeCall(D.Resolve(0, actor, now))]
  }

  lemma FirstCaseResolves(db: Db, id: SplitId, actor: string, now: int)
    requires id in db.splits && db.disputes == []
    ensures var after := Run(db, FirstCase(id, actor, now));
      && |after.disputes| == 1 && after.disputes[0].splitId == id && after.disputes[0].raisedBy == actor
      && after.disputes[0].status == Resolved && after.disputes[0].resolvedAt == Some(now) && id in after.splits
  {
    var events := FirstCase(id, actor, now);
    var filed := Apply(db, events[0]);
    assert filed.disputes == [D.Filed(id, actor, false)];
    var collecting := Apply(filed, events[1]);
    assert |collecting.disputes| == 1 && collecting.disputes[0].status == EvidenceCollection;
    var reviewed := Apply(collecting, events[2]);
    assert |reviewed.disputes| == 1 && reviewed.disputes[0].status == UnderReview;
    var resolved := Apply(reviewed, events[3]);
    assert events[1..][1..][1..][1..] == [];
    assert Run(db, events) == Run(filed, events[1..]) == Run(collecting, events[1..][1..]);
    assert Run(collecting, events[1..][1..]) == Run(reviewed, events[1..][1..][1..]) == resolved;
  }

  /** Resolving the first dispute a second time unfreezes the split while the second one is open. */
  lemma SecondResolveUnfreezes(db: Db, id: SplitId, actor: string, now: int) returns (run: seq<Event>)
    requires id in db.splits && db.disputes == []
    ensures !Frozen(Run(db, run), id) && HasLive(Run(db, run).disputes, id)
  {
    var first := FirstCase(id, actor, now);
    FirstCaseResolves(db, id, actor, now);
    var resolved := Run(db, first);
    var file, resolve := DisputeCall(D.File(id, actor, false)), DisputeCall(D.Resolve(0, actor, now));
    run := first + [file, resolve];
    RunConcat(db, first, [file, resolve]);
    var filed := Apply(resolved, file);
    assert filed.disputes == resolved.disputes + [D.Filed(id, actor, false)];
    assert [file, resolve][1..] == [resolve];
    assert Run(resolved, [file, resolve]) == Run(filed, [resolve]) == Apply(filed, resolve);
    assert Live(Apply(filed, resolve).disputes[1], id);
  }

  /** An appealed dispute does not stop a new one from being filed. */
  lemma AppealDoesNotBlock(db: Db, id: SplitId, actor: string, now: int) returns (run: seq<Event>)
    requires id in db.splits && db.disputes == []
    ensures Frozen(Run(db, run), id)
    ensures OtherLive(Run(db, run).disputes, 0, id) && OtherLive(Run(db, run).disputes, 1, id)
  {
    var first := FirstCase(id, actor, now);
    FirstCaseResolves(db, id, actor, now);
    var resolved := Run(db, first);
    var appeal, file := DisputeCall(D.Appeal(0, actor, now)), DisputeCall(D.File(id, actor, false));
    run := first + [appeal, file];
    RunConcat(db, first, [appeal, file]);
    var reopened := Apply(resolved, appeal);
    assert reopened.disputes[0].status == Appealed;
    assert [appeal, file][1..] == [file];
    var both := Apply(reopened, file);
    assert Run(resolved, [appeal, file]) == Run(reopened, [file]) == both;
    assert both.disputes == reopened.disputes + [D.Filed(id, actor, false)];
    assert Live(both.disputes[0], id) && Live(both.disputes[1], id);
  }
}
