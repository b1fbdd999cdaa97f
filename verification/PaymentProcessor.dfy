/**
  Payment submissions: each is one database transaction, for a direct payment whose verified
  amount is in the split's currency.
 */
module PaymentProcessor {
  import opened Options
  import opened Sums
  import opened SplitStore
  import opened Time

  const DAYS_30_MS := 30 * MS_PER_DAY

  datatype ProcessPaymentOptions = ProcessPaymentOptions(
    splitId: SplitId, participantId: ParticipantId, txHash: string, idempotencyKey: Option<string>)

  /** What the network says of the transaction. */
  datatype Verification = NotValid | Valid(amount: int)

  /** What the fraud check says; a check that fails lets the payment pass. */
  datatype FraudCheck = Allowed | Blocked | Unavailable

  datatype SubmissionResult =
    | Duplicate
    | InvalidTransaction
    | ParticipantNotFound
    | SplitNotFound
    | SplitFrozen
    | FraudBlocked
    | ReputationFailed
    | Accepted(status: PaymentStatus)

  datatype Submission = Submission(db: Db, result: SubmissionResult)

  function KeyOf(o: ProcessPaymentOptions): Key {
    if o.idempotencyKey.Some? && o.idempotencyKey.value != "" then Given(o.idempotencyKey.value)
    else Generated(o.splitId, o.participantId, o.txHash)
  }

  predicate HasKey(payments: seq<Payment>, key: Key) {
    exists p <- payments :: p.idempotencyKey == key
  }

  predicate HasTx(payments: seq<Payment>, txHash: string) {
    exists p <- payments :: p.txHash == txHash
  }

  /** The row of a participant of a split; the number of rows if there is none. */
  function IndexOf(participants: seq<Participant>, id: ParticipantId, splitId: SplitId): (i: nat)
    ensures i <= |participants|
    ensures i < |participants| ==> participants[i].id == id && participants[i].splitId == splitId
  {
    if participants == [] then 0
    else if participants[0].id == id && participants[0].splitId == splitId then 0
    else 1 + IndexOf(participants[1..], id, splitId)
  }

  function PaidIn(splitId: SplitId): Participant -> int {
    (p: Participant) => if p.splitId == splitId then p.amountPaid else 0
  }

  /** The sum of what the participants of a split have paid. */
  function TotalPaid(participants: seq<Participant>, splitId: SplitId): int {
    Sum(participants, PaidIn(splitId))
  }

  function StatusFor(totalPaid: int, totalAmount: int): SplitStatus {
    if totalPaid >= totalAmount then Completed else if totalPaid > 0 then Partial else Active
  }

  function PaidMore(p: Participant, amount: int): Participant {
    var paid := p.amountPaid + amount;
    var status := if paid >= p.amountOwed then Paid else if paid == 0 then Pending else PartiallyPaid;
    p.(amountPaid := paid, status := status)
  }

  predicate FullyPaid(p: Participant) {
    p.amountPaid >= p.amountOwed || p.status == Paid
  }

  function ResolveSplitDeadline(s: Split): int {
    if s.dueDate.Some? then s.dueDate.value
    else if s.expiryDate.Some? then s.expiryDate.value
    else s.createdAt + DAYS_30_MS
  }

  function Refused(db: Db, o: ProcessPaymentOptions, v: Verification, fraud: FraudCheck): Option<SubmissionResult> {
    if HasKey(db.payments, KeyOf(o)) || HasTx(db.payments, o.txHash) then Some(Duplicate)
    else if v.NotValid? then Some(InvalidTransaction)
    else if IndexOf(db.participants, o.participantId, o.splitId) == |db.participants| then Some(ParticipantNotFound)
    else if o.splitId !in db.splits then Some(SplitNotFound)
    else if db.splits[o.splitId].isFrozen then Some(SplitFrozen)
    else if fraud == Blocked then Some(FraudBlocked)
    else None
  }

  function Posted(db: Db, o: ProcessPaymentOptions, amount: int, processedAt: int): Submission
    requires IndexOf(db.participants, o.participantId, o.splitId) < |db.participants| && o.splitId in db.splits
  {
    var i := IndexOf(db.participants, o.participantId, o.splitId);
    var p, split := db.participants[i], db.splits[o.splitId];
    var status := if amount < p.amountOwed then PartialPayment else ConfirmedPayment;
    var participants := db.participants[i := PaidMore(p, amount)];
    var total := TotalPaid(participants, o.splitId);
    var newlyPaid := participants[i].status == Paid && !FullyPaid(p);
    Submission(
      Db(
        db.splits[o.splitId := split.(amountPaid := total, status := StatusFor(total, split.totalAmount))],
        participants,
        db.payments + [Payment(KeyOf(o), o.splitId, o.participantId, o.txHash, amount, status)],
        db.paidEvents + if newlyPaid then [PaidEvent(p.id, processedAt <= ResolveSplitDeadline(split))] else [],
        db.disputes),
      Accepted(status))
  }

  /**
    A posting that completes a participant's payment calls the reputation service before the commit;
    if that call fails, the transaction is rolled back.
   */
  function Submit(
    db: Db, o: ProcessPaymentOptions, v: Verification, fraud: FraudCheck, reputationFails: bool, processedAt: int):
    Submission
  {
    var refused := Refused(db, o, v, fraud);
    if refused.Some? then Submission(db, refused.value)
    else
      var posted := Posted(db, o, v.amount, processedAt);
      if reputationFails && |posted.db.paidEvents| > |db.paidEvents| then Submission(db, ReputationFailed) else posted
  }

  // ----- What a submission does, in terms of the rows -----

  /** Row `i` is the first one of the participant in the split. */
  predicate IsRow(db: Db, o: ProcessPaymentOptions, i: nat) {
    && i < |db.participants|
    && db.participants[i].id == o.participantId && db.participants[i].splitId == o.splitId
    && forall j :: 0 <= j < i ==> db.participants[j].id != o.participantId || db.participants[j].splitId != o.splitId
  }

  lemma {:induction false} IndexOfFirst(participants: seq<Participant>, id: ParticipantId, splitId: SplitId, j: nat)
    requires j < |participants| && j < IndexOf(participants, id, splitId)
    ensures participants[j].id != id || participants[j].splitId != splitId
  {
    if j > 0 {
      IndexOfFirst(participants[1..], id, splitId, j - 1);
    }
  }

  lemma RowOf(db: Db, o: ProcessPaymentOptions)
    ensures var i := IndexOf(db.participants, o.participantId, o.splitId);
      if i < |db.participants| then IsRow(db, o, i)
      else forall p <- db.participants :: p.id != o.participantId || p.splitId != o.splitId
  {
    var i := IndexOf(db.participants, o.participantId, o.splitId);
    forall j | 0 <= j < i
      ensures db.participants[j].id != o.participantId || db.participants[j].splitId != o.splitId
    {
      IndexOfFirst(db.participants, o.participantId, o.splitId, j);
    }
  }

  /** The payment is for a key or a transaction that was recorded. */
  predicate Seen(db: Db, o: ProcessPaymentOptions) {
    exists p <- db.payments ::
      || p.txHash == o.txHash
      || p.idempotencyKey == match o.idempotencyKey
         case Some(key) => if key != "" then Given(key) else Generated(o.splitId, o.participantId, o.txHash)
         case None => Generated(o.splitId, o.participantId, o.txHash)
  }

  /** Each refusal has exactly its own reason, and the reasons count in this order. */
  lemma RefusedExactly(
    db: Db, o: ProcessPaymentOptions, v: Verification, fraud: FraudCheck, reputationFails: bool, processedAt: int)
    ensures var s := Submit(db, o, v, fraud, reputationFails, processedAt);
      var unknown := forall p <- db.participants :: p.id != o.participantId || p.splitId != o.splitId;
      && (s.result == Duplicate <==> Seen(db, o))
      && (s.result == InvalidTransaction <==> !Seen(db, o) && v == NotValid)
      && (s.result == ParticipantNotFound <==> !Seen(db, o) && v != NotValid && unknown)
      && (s.result == SplitNotFound <==>
        !Seen(db, o) && v != NotValid && !unknown && o.splitId !in db.splits)
      && (s.result == SplitFrozen <==>
        !Seen(db, o) && v != NotValid && !unknown && o.splitId in db.splits && db.splits[o.splitId].isFrozen)
      && (s.result == FraudBlocked <==>
        !Seen(db, o) && v != NotValid && !unknown && o.splitId in db.splits && !db.splits[o.splitId].isFrozen
        && fraud == Blocked)
      && (!s.result.Accepted? ==> s.db == db)
  {
    RowOf(db, o);
    assert Seen(db, o) <==> HasKey(db.payments, KeyOf(o)) || HasTx(db.payments, o.txHash);
  }

  /** The time until which a payment is on time: the due date, else the expiry, else 30 days after creation. */
  predicate OnTime(split: Split, processedAt: int) {
    match (split.dueDate, split.expiryDate)
    case (Some(due), _) => processedAt <= due
    case (None, Some(expiry)) => processedAt <= expiry
    case (None, None) => processedAt <= split.createdAt + 30 * 24 * 60 * 60 * 1000
  }

  /**
    An accepted submission appends one payment of what was received, PARTIAL exactly if that is less
    than what the participant owes, and credits the participant.
   */
  lemma AcceptedPayment(
    db: Db, o: ProcessPaymentOptions, v: Verification, fraud: FraudCheck, reputationFails: bool, processedAt: int)
    returns (i: nat)
    requires Submit(db, o, v, fraud, reputationFails, processedAt).result.Accepted?
    ensures v.Valid? && IsRow(db, o, i)
    ensures var s := Submit(db, o, v, fraud, reputationFails, processedAt);
      var p, n := db.participants[i], |db.payments|;
      && |s.db.payments| == n + 1 && s.db.payments[..n] == db.payments
      && var payment := s.db.payments[n];
      && payment.splitId == o.splitId && payment.participantId == o.participantId && payment.txHash == o.txHash
      && payment.amount == v.amount && payment.status == s.result.status
      && (payment.status == PartialPayment <==> v.amount < p.amountOwed)
      && payment.idempotencyKey == (
        if o.idempotencyKey.Some? && o.idempotencyKey.value != "" then Given(o.idempotencyKey.value)
        else Generated(o.splitId, o.participantId, o.txHash))
      && |s.db.participants| == |db.participants|
      && (forall j :: 0 <= j < |db.participants| && j != i ==> s.db.participants[j] == db.participants[j])
      && var q := s.db.participants[i];
      && q.amountPaid == p.amountPaid + v.amount
      && q == p.(amountPaid := q.amountPaid, status := q.status)
      && (q.status == Paid <==> q.amountPaid >= p.amountOwed)
      && (q.status == Pending <==> q.amountPaid < p.amountOwed && q.amountPaid == 0)
  {
    i := IndexOf(db.participants, o.participantId, o.splitId);
    RowOf(db, o);
  }

  /** The rest of an accepted submission: the split's row and what the reputation service is told. */
  lemma AcceptedSplit(
    db: Db, o: ProcessPaymentOptions, v: Verification, fraud: FraudCheck, reputationFails: bool, processedAt: int)
    returns (i: nat)
    requires Submit(db, o, v, fraud, reputationFails, processedAt).result.Accepted?
    ensures IsRow(db, o, i) && o.splitId in db.splits
    ensures var after, split := Submit(db, o, v, fraud, reputationFails, processedAt).db, db.splits[o.splitId];
      && after.disputes == db.disputes && after.splits.Keys == db.splits.Keys
      && (forall id <- db.splits :: id != o.splitId ==> after.splits[id] == db.splits[id])
      && var total := Sum(after.participants, (q: Participant) => if q.splitId == o.splitId then q.amountPaid else 0);
      && var row := after.splits[o.splitId];
      && row == split.(amountPaid := total, status := row.status)
      && (row.status == Completed <==> total >= split.totalAmount)
      && (row.status == Active <==> total < split.totalAmount && total <= 0)
    ensures var after, p := Submit(db, o, v, fraud, reputationFails, processedAt).db, db.participants[i];
      var completes := p.amountPaid + v.amount >= p.amountOwed && p.amountPaid < p.amountOwed && p.status != Paid;
      && (completes ==> !reputationFails)
      && after.paidEvents == db.paidEvents +
        if completes then [PaidEvent(o.participantId, OnTime(db.splits[o.splitId], processedAt))] else []
  {
    i := IndexOf(db.participants, o.participantId, o.splitId);
    RowOf(db, o);
    var after := Submit(db, o, v, fraud, reputationFails, processedAt).db;
    SameSum(after.participants, PaidIn(o.splitId),
            (q: Participant) => if q.splitId == o.splitId then q.amountPaid else 0);
  }

  lemma {:induction false} SameSum(rows: seq<Participant>, f: Participant -> int, g: Participant -> int)
    requires forall p <- rows :: f(p) == g(p)
    ensures Sum(rows, f) == Sum(rows, g)
  {
    if rows != [] {
      SameSum(rows[1..], f, g);
    }
  }

  class PaymentProcessorService {
    const db: Database

    constructor (db: Database)
      ensures this.db == db
    {
      this.db := db;
    }

    method ProcessPaymentSubmission(
      o: ProcessPaymentOptions, v: Verification, fraud: FraudCheck, reputationFails: bool, processedAt: int)
      returns (result: SubmissionResult)
      modifies db
      ensures Submission(db.Snapshot(), result)
        == Submit(old(db.Snapshot()), o, v, fraud, reputationFails, processedAt)
    {
      var key := KeyOf(o);
      if exists p <- db.payments :: p.idempotencyKey == key {
        return Duplicate;
      }
      if exists p <- db.payments :: p.txHash == o.txHash {
        return Duplicate;
      }
      if v.NotValid? {
        return InvalidTransaction;
      }
      var i := FindParticipant(o.participantId, o.splitId);
      if i == |db.participants| {
        return ParticipantNotFound;
      }
      if o.splitId !in db.splits {
        return SplitNotFound;
      }
      var split := db.splits[o.splitId];
      if split.isFrozen {
        return SplitFrozen;
      }
      if fraud == Blocked {
        return FraudBlocked;
      }
      var splits, participants, payments, paidEvents := db.splits, db.participants, db.payments, db.paidEvents;
      result := PostPayment(o, i, v.amount, processedAt);
      if reputationFails && |db.paidEvents| > |paidEvents| {
        db.splits, db.participants, db.payments, db.paidEvents := splits, participants, payments, paidEvents;
        return ReputationFailed;
      }
    }

    /** The writes of the transaction, for the participant in row `i`. */
    method PostPayment(o: ProcessPaymentOptions, i: nat, receivedAmount: int, processedAt: int)
      returns (result: SubmissionResult)
      requires i == IndexOf(db.participants, o.participantId, o.splitId) < |db.participants| && o.splitId in db.splits
      modifies db
      ensures Submission(db.Snapshot(), result) == Posted(old(db.Snapshot()), o, receivedAmount, processedAt)
    {
      var participant, split := db.participants[i], db.splits[o.splitId];
      var paymentStatus := ConfirmedPayment;
      if receivedAmount < participant.amountOwed {
        paymentStatus := PartialPayment;
      }
      db.payments := db.payments
        + [Payment(KeyOf(o), o.splitId, o.participantId, o.txHash, receivedAmount, paymentStatus)];

      var wasFullyPaidBefore := participant.amountPaid >= participant.amountOwed || participant.status == Paid;
      var newAmountPaid := participant.amountPaid + receivedAmount;
      var participantStatus := PartiallyPaid;
      if newAmountPaid >= participant.amountOwed {
        participantStatus := Paid;
      } else if newAmountPaid == 0 {
        participantStatus := Pending;
      }
      db.participants := db.participants[i := participant.(amountPaid := newAmountPaid, status := participantStatus)];
      UpdateSplitAmountPaid(o.splitId);
      if participantStatus == Paid && !wasFullyPaidBefore {
        db.paidEvents := db.paidEvents + [PaidEvent(participant.id, processedAt <= ResolveSplitDeadline(split))];
      }
      result := Accepted(paymentStatus);
    }

    method FindParticipant(id: ParticipantId, splitId: SplitId) returns (i: nat)
      ensures i == IndexOf(db.participants, id, splitId)
    {
      i := 0;
      while i < |db.participants|
        invariant i <= |db.participants|
        invariant i + IndexOf(db.participants[i..], id, splitId) == IndexOf(db.participants, id, splitId)
      {
        if db.participants[i].id == id && db.participants[i].splitId == splitId {
          return;
        }
        assert db.participants[i..][1..] == db.participants[i + 1..];
        i := i + 1;
      }
    }

    method UpdateSplitAmountPaid(splitId: SplitId)
      requires splitId in db.splits
      modifies db`splits
      ensures var total, split := TotalPaid(db.participants, splitId), old(db.splits)[splitId];
        var updated := split.(amountPaid := total, status := StatusFor(total, split.totalAmount));
        db.splits == old(db.splits)[splitId := updated]
    {
      var totalPaid := 0;
      for i := 0 to |db.participants|
        invariant totalPaid + TotalPaid(db.participants[i..], splitId) == TotalPaid(db.participants, splitId)
        invariant db.splits == old(db.splits)
      {
        assert db.participants[i..][1..] == db.participants[i + 1..];
        if db.participants[i].splitId == splitId {
          totalPaid := totalPaid + db.participants[i].amountPaid;
        }
      }
      var split := db.splits[splitId];
      var status := Active;
      if totalPaid >= split.totalAmount {
        status := Completed;
      } else if totalPaid > 0 {
        status := Partial;
      }
      db.splits := db.splits[splitId := split.(amountPaid := totalPaid, status := status)];
    }
  }
}
