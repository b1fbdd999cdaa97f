/** The tables that the payment processor and the dispute service share. Amounts are in cents. */
module SplitStore {
  import opened Options

  type SplitId = nat
  type ParticipantId = nat
  type DisputeId = nat
  type UserId = string

  datatype SplitStatus = Active | Partial | Completed

  datatype Split = Split(
    totalAmount: int,
    amountPaid: int,
    status: SplitStatus,
    isFrozen: bool,
    dueDate: Option<int>,
    expiryDate: Option<int>,
    createdAt: int)

  datatype ParticipantStatus = Pending | PartiallyPaid | Paid

  datatype Participant = Participant(
    id: ParticipantId,
    splitId: SplitId,
    userId: UserId,
    amountOwed: int,
    amountPaid: int,
    status: ParticipantStatus)

  /** A key is given by the client or the hash of what is submitted. */
  datatype Key = Given(key: string) | Generated(splitId: SplitId, participantId: ParticipantId, txHash: string)

  datatype PaymentStatus = PartialPayment | ConfirmedPayment

  datatype Payment = Payment(
    idempotencyKey: Key,
    splitId: SplitId,
    participantId: ParticipantId,
    txHash: string,
    amount: int,
    status: PaymentStatus)

  /** A call to the reputation service. */
  datatype PaidEvent = PaidEvent(participantId: ParticipantId, onTime: bool)

  datatype DisputeStatus = Open | EvidenceCollection | UnderReview | Resolved | Rejected | Appealed

  datatype Action =
    | DisputeCreated
    | OnchainFreeze
    | StatusChangedToEvidenceCollection
    | EvidenceAdded
    | SubmittedForReview
    | DisputeResolved
    | DisputeRejected
    | DisputeAppealed
    | MoreEvidenceRequested

  datatype AuditTrailEntry = AuditTrailEntry(action: Action, performedBy: string)

  datatype Dispute = Dispute(
    splitId: SplitId,
    raisedBy: string,
    status: DisputeStatus,
    evidence: seq<string>,
    splitFrozen: bool,
    auditTrail: seq<AuditTrailEntry>,
    resolvedAt: Option<int>)

  /** Disputes are numbered in the order in which they were filed. */
  datatype Db = Db(
    splits: map<SplitId, Split>,
    participants: seq<Participant>,
    payments: seq<Payment>,
    paidEvents: seq<PaidEvent>,
    disputes: seq<Dispute>)

  class Database {
    var splits: map<SplitId, Split>
    var participants: seq<Participant>
    var payments: seq<Payment>
    var paidEvents: seq<PaidEvent>
    var disputes: seq<Dispute>

    ghost function Snapshot(): Db
      reads this
    {
      Db(splits, participants, payments, paidEvents, disputes)
    }

    constructor (db: Db)
      ensures Snapshot() == db
    {
      splits, participants, payments := db.splits, db.participants, db.payments;
      paidEvents, disputes := db.paidEvents, db.disputes;
    }
  }
}
