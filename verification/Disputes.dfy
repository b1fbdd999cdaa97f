/**
  The dispute lifecycle and its state machine. Each service call is one atomic step; whether the
  best-effort call to the chain succeeds is a parameter.
 */
module Disputes {
  import opened Options
  import opened SplitStore
  import opened Time

  const APPEAL_WINDOW_DAYS := 30

  // ----- State machine -----

  function ValidTransitions(status: DisputeStatus): seq<DisputeStatus> {
    match status
    case Open => [EvidenceCollection]
    case EvidenceCollection => [UnderReview]
    case UnderReview => [Resolved, Rejected]
    case Resolved => [Appealed]
    case Rejected => [Appealed]
    case Appealed => [UnderReview]
  }

  /** Staying in the same state is allowed. */
  predicate CanTransition(current: DisputeStatus, target: DisputeStatus) {
    current == target || target in ValidTransitions(current)
  }

  predicate AllowsEvidenceSubmission(status: DisputeStatus) {
    status == Open || status == EvidenceCollection
  }

  // ----- Steps -----

  datatype Outcome =
    | Ok
    | SplitNotFound
    | DisputeNotFound
    | ActiveDisputeExists
    | InvalidTransition
    | EvidenceNotAllowed
    | NotInvolved
    | AppealWindowExpired

  datatype Event =
    | File(splitId: SplitId, actor: string, onchainFreeze: bool)
    | AddEvidence(id: DisputeId, actor: string, fileKey: string)
    | MoveToEvidenceCollection(id: DisputeId, actor: string)
    | SubmitForReview(id: DisputeId, actor: string)
    | Resolve(id: DisputeId, actor: string, now: int)
    | Reject(id: DisputeId, actor: string, now: int)
    | Appeal(id: DisputeId, actor: string, now: int)
    | RequestMoreEvidence(id: DisputeId, actor: string)

  datatype Result = Result(db: Db, outcome: Outcome)

  function Audited(d: Dispute, action: Action, actor: string): Dispute {
    d.(auditTrail := d.auditTrail + [AuditTrailEntry(action, actor)])
  }

  /** The statuses that count as an active dispute when another one is filed. */
  predicate BlocksFiling(status: DisputeStatus) {
    status == Open || status == EvidenceCollection || status == UnderReview
  }

  predicate HasBlockingDispute(db: Db, splitId: SplitId) {
    exists d <- db.disputes :: d.splitId == splitId && BlocksFiling(d.status)
  }

  function Filed(splitId: SplitId, actor: string, onchainFreeze: bool): Dispute {
    var d := Dispute(splitId, actor, Open, [], true, [AuditTrailEntry(DisputeCreated, actor)], None);
    if onchainFreeze then Audited(d, OnchainFreeze, actor) else d
  }

  function WithFrozen(splits: map<SplitId, Split>, splitId: SplitId, frozen: bool): map<SplitId, Split> {
    if splitId in splits then splits[splitId := splits[splitId].(isFrozen := frozen)] else splits
  }

  /** The dispute after the call, or why it is refused. */
  function Changed(d: Dispute, e: Event): (Dispute, Outcome)
    requires !e.File?
  {
    match e
    case AddEvidence(_, actor, fileKey) =>
      if !AllowsEvidenceSubmission(d.status) then (d, EvidenceNotAllowed)
      else
        var moved := if d.status != Open then d
          else Audited(d.(status := EvidenceCollection), StatusChangedToEvidenceCollection, actor);
        (Audited(moved.(evidence := moved.evidence + [fileKey]), EvidenceAdded, actor), Ok)
    case MoveToEvidenceCollection(_, actor) =>
      if !CanTransition(d.status, EvidenceCollection) then (d, InvalidTransition)
      else (Audited(d.(status := EvidenceCollection), StatusChangedToEvidenceCollection, actor), Ok)
    case SubmitForReview(_, actor) =>
      if !CanTransition(d.status, UnderReview) then (d, InvalidTransition)
      else (Audited(d.(status := UnderReview), SubmittedForReview, actor), Ok)
    case Resolve(_, actor, now) =>
      if !CanTransition(d.status, Resolved) then (d, InvalidTransition)
      else (Audited(d.(status := Resolved, resolvedAt := Some(now), splitFrozen := false), DisputeResolved, actor), Ok)
    case Reject(_, actor, now) =>
      if !CanTransition(d.status, Rejected) then (d, InvalidTransition)
      else (Audited(d.(status := Rejected, resolvedAt := Some(now), splitFrozen := false), DisputeRejected, actor), Ok)
    case Appeal(_, actor, now) =>
      if !CanTransition(d.status, Appealed) then (d, InvalidTransition)
      else if d.raisedBy != actor then (d, NotInvolved)
      else if d.resolvedAt.Some? && (now - d.resolvedAt.value) / MS_PER_DAY > APPEAL_WINDOW_DAYS
      then (d, AppealWindowExpired)
      else (Audited(d.(status := Appealed, splitFrozen := true), DisputeAppealed, actor), Ok)
    case RequestMoreEvidence(_, actor) =>
      if d.status != EvidenceCollection && d.status != UnderReview then (d, EvidenceNotAllowed)
      else (Audited(d, MoreEvidenceRequested, actor), Ok)
  }

  /** What an accepted call does to the freeze of the split. */
  function FreezeAfter(splits: map<SplitId, Split>, splitId: SplitId, e: Event): map<SplitId, Split> {
    if e.Resolve? || e.Reject? then WithFrozen(splits, splitId, false)
    else if e.File? || e.Appeal? then WithFrozen(splits, splitId, true)
    else splits
  }

  function Step(db: Db, e: Event): Result {
    if e.File? then
      if e.splitId !in db.splits then Result(db, SplitNotFound)
      else if HasBlockingDispute(db, e.splitId) then Result(db, ActiveDisputeExists)
      else Result(
        db.(disputes := db.disputes + [Filed(e.splitId, e.actor, e.onchainFreeze)],
            splits := FreezeAfter(db.splits, e.splitId, e)), Ok)
    else if e.id >= |db.disputes| then Result(db, DisputeNotFound)
    else
      var (d, outcome) := Changed(db.disputes[e.id], e);
      if outcome != Ok then Result(db, outcome)
      else if e.Resolve? && d.splitId !in db.splits then Result(db, SplitNotFound)
      else Result(db.(disputes := db.disputes[e.id := d], splits := FreezeAfter(db.splits, d.splitId, e)), Ok)
  }

  // ----- What each call does, in terms of the rows -----

  /** Everything but one dispute and the freeze of its split is as before; a refused call changes nothing. */
  predicate OnlyDispute(db: Db, r: Result, id: DisputeId) {
    if r.outcome != Ok then r.db == db
    else
      && id < |db.disputes| && |r.db.disputes| == |db.disputes|
      && (forall i :: 0 <= i < |db.disputes| && i != id ==> r.db.disputes[i] == db.disputes[i])
      && r.db == db.(disputes := r.db.disputes, splits := r.db.splits)
      && r.db.splits.Keys == db.splits.Keys
      && forall s <- db.splits ::
        r.db.splits[s] == db.splits[s].(isFrozen := r.db.splits[s].isFrozen)
        && (s != db.disputes[id].splitId ==> r.db.splits[s] == db.splits[s])
  }

  /** The dispute keeps what it is about and gains one entry in its trail. */
  predicate Gains(before: Dispute, after: Dispute, action: Action, actor: string) {
    && after.splitId == before.splitId && after.raisedBy == before.raisedBy
    && after.auditTrail == before.auditTrail + [AuditTrailEntry(action, actor)]
  }

  predicate SplitIs(db: Db, id: SplitId, frozen: bool) {
    id in db.splits ==> db.splits[id].isFrozen == frozen
  }

  /** A dispute is filed, and its split frozen, unless one is open, collecting evidence or under review. */
  lemma FileExactly(db: Db, splitId: SplitId, actor: string, onchainFreeze: bool)
    ensures var r := Step(db, File(splitId, actor, onchainFreeze));
      var active := exists i :: 0 <= i < |db.disputes| && db.disputes[i].splitId == splitId
                                && db.disputes[i].status in {Open, EvidenceCollection, UnderReview};
      && (r.outcome == Ok <==> splitId in db.splits && !active)
      && (r.outcome == SplitNotFound <==> splitId !in db.splits)
      && (r.outcome != Ok ==> r.db == db)
      && (r.outcome == Ok ==>
        var n := |db.disputes|;
        && |r.db.disputes| == n + 1 && r.db.disputes[..n] == db.disputes
        && r.db.splits == db.splits[splitId := db.splits[splitId].(isFrozen := true)]
        && r.db == db.(disputes := r.db.disputes, splits := r.db.splits)
        && var d, created := r.db.disputes[n], AuditTrailEntry(DisputeCreated, actor);
        && d.splitId == splitId && d.raisedBy == actor && d.status == Open && d.evidence == []
        && d.splitFrozen && d.resolvedAt == None
        && d.auditTrail == if onchainFreeze then [created, AuditTrailEntry(OnchainFreeze, actor)] else [created])
  {
    assert HasBlockingDispute(db, splitId) <==>
      exists i :: 0 <= i < |db.disputes| && db.disputes[i].splitId == splitId && BlocksFiling(db.disputes[i].status);
    var created := AuditTrailEntry(DisputeCreated, actor);
    assert [created] + [AuditTrailEntry(OnchainFreeze, actor)] == [created, AuditTrailEntry(OnchainFreeze, actor)];
  }

  /** Evidence is appended while the dispute is open or collecting, which it is afterwards. */
  lemma AddEvidenceExactly(db: Db, id: DisputeId, actor: string, fileKey: string)
    ensures var r := Step(db, AddEvidence(id, actor, fileKey));
      && (r.outcome == Ok <==> id < |db.disputes| && db.disputes[id].status in {Open, EvidenceCollection})
      && OnlyDispute(db, r, id)
      && (r.outcome == Ok ==>
        var d, after := db.disputes[id], r.db.disputes[id];
        && r.db.splits == db.splits
        && after == d.(status := EvidenceCollection, evidence := d.evidence + [fileKey], auditTrail := after.auditTrail)
        && |after.auditTrail| > 0
        && after.auditTrail[|after.auditTrail| - 1] == AuditTrailEntry(EvidenceAdded, actor))
  {
  }

  /** Evidence collection starts from an open dispute, or goes on; review follows it or an appeal, or goes on. */
  lemma ProgressExactly(db: Db, id: DisputeId, actor: string)
    ensures var r := Step(db, MoveToEvidenceCollection(id, actor));
      && (r.outcome == Ok <==> id < |db.disputes| && db.disputes[id].status in {Open, EvidenceCollection})
      && OnlyDispute(db, r, id)
      && (r.outcome == Ok ==>
        var d, after := db.disputes[id], r.db.disputes[id];
        && r.db.splits == db.splits && Gains(d, after, StatusChangedToEvidenceCollection, actor)
        && after == d.(status := EvidenceCollection, auditTrail := after.auditTrail))
    ensures var r := Step(db, SubmitForReview(id, actor));
      && (r.outcome == Ok <==>
        id < |db.disputes| && db.disputes[id].status in {EvidenceCollection, UnderReview, Appealed})
      && OnlyDispute(db, r, id)
      && (r.outcome == Ok ==>
        var d, after := db.disputes[id], r.db.disputes[id];
        && r.db.splits == db.splits && Gains(d, after, SubmittedForReview, actor)
        && after == d.(status := UnderReview, auditTrail := after.auditTrail))
    ensures var r := Step(db, RequestMoreEvidence(id, actor));
      && (r.outcome == Ok <==> id < |db.disputes| && db.disputes[id].status in {EvidenceCollection, UnderReview})
      && OnlyDispute(db, r, id)
      && (r.outcome == Ok ==>
        var d, after := db.disputes[id], r.db.disputes[id];
        && r.db.splits == db.splits && Gains(d, after, MoreEvidenceRequested, actor)
        && after == d.(auditTrail := after.auditTrail))
  {
  }

  /** A resolution needs a review, or repeats itself; it is dated and unfreezes the split. */
  lemma ResolveExactly(db: Db, id: DisputeId, actor: string, now: int)
    ensures var r := Step(db, Resolve(id, actor, now));
      && (r.outcome == Ok <==>
        && id < |db.disputes| && db.disputes[id].status in {UnderReview, Resolved}
        && db.disputes[id].splitId in db.splits)
      && OnlyDispute(db, r, id)
      && (r.outcome == Ok ==>
        var d, after := db.disputes[id], r.db.disputes[id];
        && SplitIs(r.db, d.splitId, false) && Gains(d, after, DisputeResolved, actor)
        && after == d.(
          status := Resolved, resolvedAt := Some(now), splitFrozen := false, auditTrail := after.auditTrail))
  {
  }

  /** A rejection needs a review, or repeats itself; it is dated and unfreezes the split, if that exists. */
  lemma RejectExactly(db: Db, id: DisputeId, actor: string, now: int)
    ensures var r := Step(db, Reject(id, actor, now));
      && (r.outcome == Ok <==> id < |db.disputes| && db.disputes[id].status in {UnderReview, Rejected})
      && OnlyDispute(db, r, id)
      && (r.outcome == Ok ==>
        var d, after := db.disputes[id], r.db.disputes[id];
        && SplitIs(r.db, d.splitId, false) && Gains(d, after, DisputeRejected, actor)
        && after == d.(
          status := Rejected, resolvedAt := Some(now), splitFrozen := false, auditTrail := after.auditTrail))
  {
  }

  /** Who raised a decided dispute can appeal within 30 full days, which freezes the split again. */
  lemma AppealExactly(db: Db, id: DisputeId, actor: string, now: int)
    ensures var r := Step(db, Appeal(id, actor, now));
      && (r.outcome == Ok <==>
        && id < |db.disputes| && db.disputes[id].status in {Resolved, Rejected, Appealed}
        && db.disputes[id].raisedBy == actor
        && (db.disputes[id].resolvedAt.Some? ==> now - db.disputes[id].resolvedAt.value < 31 * 24 * 60 * 60 * 1000))
      && OnlyDispute(db, r, id)
      && (r.outcome == Ok ==>
        var d, after := db.disputes[id], r.db.disputes[id];
        && SplitIs(r.db, d.splitId, true) && Gains(d, after, DisputeAppealed, actor)
        && after == d.(status := Appealed, splitFrozen := true, auditTrail := after.auditTrail))
  {
  }

  // ----- The service -----

  class DisputesService {
    const db: Database

    constructor (db: Database)
      ensures this.db == db
    {
      this.db := db;
    }

    method SetFrozen(splitId: SplitId, frozen: bool)
      modifies db`splits
      ensures db.splits == WithFrozen(old(db.splits), splitId, frozen)
    {
      if splitId in db.splits {
        db.splits := db.splits[splitId := db.splits[splitId].(isFrozen := frozen)];
      }
    }

    method FileDispute(splitId: SplitId, actor: string, onchainFreeze: bool) returns (outcome: Outcome)
      modifies db
      ensures Result(db.Snapshot(), outcome) == Step(old(db.Snapshot()), File(splitId, actor, onchainFreeze))
    {
      if splitId !in db.splits {
        return SplitNotFound;
      }
      if exists d <- db.disputes :: d.splitId == splitId
           && (d.status == Open || d.status == EvidenceCollection || d.status == UnderReview) {
        return ActiveDisputeExists;
      }
      var dispute := Dispute(splitId, actor, Open, [], true, [AuditTrailEntry(DisputeCreated, actor)], None);
      SetFrozen(splitId, true);
      if onchainFreeze {
        dispute := AddAuditTrail(dispute, OnchainFreeze, actor);
      }
      db.disputes := db.disputes + [dispute];
      return Ok;
    }

    method AddAuditTrail(d: Dispute, action: Action, actor: string) returns (r: Dispute)
      ensures r == Audited(d, action, actor)
    {
      r := d.(auditTrail := d.auditTrail + [AuditTrailEntry(action, actor)]);
    }

    method AddEvidence(id: DisputeId, actor: string, fileKey: string) returns (outcome: Outcome)
      modifies db
      ensures Result(db.Snapshot(), outcome) == Step(old(db.Snapshot()), Event.AddEvidence(id, actor, fileKey))
    {
      if id >= |db.disputes| {
        return DisputeNotFound;
      }
      var dispute := db.disputes[id];
      if !AllowsEvidenceSubmission(dispute.status) {
        return EvidenceNotAllowed;
      }
      if dispute.status == Open {
        dispute := dispute.(status := EvidenceCollection);
        dispute := AddAuditTrail(dispute, StatusChangedToEvidenceCollection, actor);
      }
      dispute := dispute.(evidence := dispute.evidence + [fileKey]);
      dispute := AddAuditTrail(dispute, EvidenceAdded, actor);
      db.disputes := db.disputes[id := dispute];
      return Ok;
    }

    method MoveToEvidenceCollection(id: DisputeId, actor: string) returns (outcome: Outcome)
      modifies db
      ensures Result(db.Snapshot(), outcome) == Step(old(db.Snapshot()), Event.MoveToEvidenceCollection(id, actor))
    {
      if id >= |db.disputes| {
        return DisputeNotFound;
      }
      var dispute := db.disputes[id];
      if !CanTransition(dispute.status, EvidenceCollection) {
        return InvalidTransition;
      }
      dispute := dispute.(status := EvidenceCollection);
      dispute := AddAuditTrail(dispute, StatusChangedToEvidenceCollection, actor);
      db.disputes := db.disputes[id := dispute];
      return Ok;
    }

    method SubmitForReview(id: DisputeId, actor: string) returns (outcome: Outcome)
      modifies db
      ensures Result(db.Snapshot(), outcome) == Step(old(db.Snapshot()), Event.SubmitForReview(id, actor))
    {
      if id >= |db.disputes| {
        return DisputeNotFound;
      }
      var dispute := db.disputes[id];
      if !CanTransition(dispute.status, UnderReview) {
        return InvalidTransition;
      }
      dispute := dispute.(status := UnderReview);
      dispute := AddAuditTrail(dispute, SubmittedForReview, actor);
      db.disputes := db.disputes[id := dispute];
      return Ok;
    }

    method ResolveDispute(id: DisputeId, actor: string, now: int) returns (outcome: Outcome)
      modifies db
      ensures Result(db.Snapshot(), outcome) == Step(old(db.Snapshot()), Resolve(id, actor, now))
    {
      if id >= |db.disputes| {
        return DisputeNotFound;
      }
      var dispute := db.disputes[id];
      if !CanTransition(dispute.status, Resolved) {
        return InvalidTransition;
      }
      if dispute.splitId !in db.splits {
        return SplitNotFound;
      }
      dispute := dispute.(status := Resolved, resolvedAt := Some(now), splitFrozen := false);
      dispute := AddAuditTrail(dispute, DisputeResolved, actor);
      db.disputes := db.disputes[id := dispute];
      SetFrozen(dispute.splitId, false);
      return Ok;
    }

    method RejectDispute(id: DisputeId, actor: string, now: int) returns (outcome: Outcome)
      modifies db
      ensures Result(db.Snapshot(), outcome) == Step(old(db.Snapshot()), Reject(id, actor, now))
    {
      if id >= |db.disputes| {
        return DisputeNotFound;
      }
      var dispute := db.disputes[id];
      if !CanTransition(dispute.status, Rejected) {
        return InvalidTransition;
      }
      dispute := dispute.(status := Rejected, resolvedAt := Some(now), splitFrozen := false);
      dispute := AddAuditTrail(dispute, DisputeRejected, actor);
      db.disputes := db.disputes[id := dispute];
      SetFrozen(dispute.splitId, false);
      return Ok;
    }

    method AppealDispute(id: DisputeId, actor: string, now: int) returns (outcome: Outcome)
      modifies db
      ensures Result(db.Snapshot(), outcome) == Step(old(db.Snapshot()), Appeal(id, actor, now))
    {
      if id >= |db.disputes| {
        return DisputeNotFound;
      }
      var dispute := db.disputes[id];
      if !CanTransition(dispute.status, Appealed) {
        return InvalidTransition;
      }
      if dispute.raisedBy != actor {
        return NotInvolved;
      }
      var resolvedAt := if dispute.resolvedAt.Some? then dispute.resolvedAt.value else now;
      var daysSinceResolution := (now - resolvedAt) / MS_PER_DAY;
      if daysSinceResolution > APPEAL_WINDOW_DAYS {
        return AppealWindowExpired;
      }
      dispute := dispute.(status := Appealed, splitFrozen := true);
      dispute := AddAuditTrail(dispute, DisputeAppealed, actor);
      db.disputes := db.disputes[id := dispute];
      SetFrozen(dispute.splitId, true);
      return Ok;
    }

    method RequestMoreEvidence(id: DisputeId, actor: string) returns (outcome: Outcome)
      modifies db
      ensures Result(db.Snapshot(), outcome) == Step(old(db.Snapshot()), Event.RequestMoreEvidence(id, actor))
    {
      if id >= |db.disputes| {
        return DisputeNotFound;
      }
      var dispute := db.disputes[id];
      if dispute.status != EvidenceCollection && dispute.status != UnderReview {
        return EvidenceNotAllowed;
      }
      dispute := AddAuditTrail(dispute, MoreEvidenceRequested, actor);
      db.disputes := db.disputes[id := dispute];
      return Ok;
    }
  }

  // ----- What a trail tells -----

  /** The status after an action. */
  function StatusAfter(action: Action, status: DisputeStatus): DisputeStatus {
    match action
    case DisputeCreated => Open
    case StatusChangedToEvidenceCollection => EvidenceCollection
    case SubmittedForReview => UnderReview
    case DisputeResolved => Resolved
    case DisputeRejected => Rejected
    case DisputeAppealed => Appealed
    case OnchainFreeze => status
    case EvidenceAdded => status
    case MoreEvidenceRequested => status
  }

  function Replay(trail: seq<AuditTrailEntry>): DisputeStatus {
    if trail == [] then Open
    else StatusAfter(trail[|trail| - 1].action, Replay(trail[..|trail| - 1]))
  }

  predicate Occurs(trail: seq<AuditTrailEntry>, action: Action) {
    exists i :: 0 <= i < |trail| && trail[i].action == action
  }

  /** The action occurs with the other one somewhere before it. */
  predicate OccursAfter(trail: seq<AuditTrailEntry>, first: Action, second: Action) {
    exists i, j :: 0 <= i < j < |trail| && trail[i].action == first && trail[j].action == second
  }

  predicate IsVerdict(action: Action) {
    action == DisputeResolved || action == DisputeRejected
  }

  /** Before every verdict there was a submission for review, and before that evidence collection. */
  predicate VerdictsFollowReview(trail: seq<AuditTrailEntry>) {
    forall k :: 0 <= k < |trail| && IsVerdict(trail[k].action) ==>
      OccursAfter(trail[..k], StatusChangedToEvidenceCollection, SubmittedForReview)
  }

  predicate Decided(status: DisputeStatus) {
    status == Resolved || status == Rejected
  }

  ghost predicate Faithful(d: Dispute) {
    && Replay(d.auditTrail) == d.status
    && (d.splitFrozen <==> !Decided(d.status))
    && VerdictsFollowReview(d.auditTrail)
    && (d.status != Open ==> Occurs(d.auditTrail, StatusChangedToEvidenceCollection))
    && (d.status != Open && d.status != EvidenceCollection ==>
      OccursAfter(d.auditTrail, StatusChangedToEvidenceCollection, SubmittedForReview))
  }

  lemma FiledIsFaithful(splitId: SplitId, actor: string, onchainFreeze: bool)
    ensures Faithful(Filed(splitId, actor, onchainFreeze))
  {
  }

  /** The dispute has been under review at some time. */
  predicate Reviewed(status: DisputeStatus) {
    status != Open && status != EvidenceCollection
  }

  /** An audited change whose status is the one its action stands for keeps the trail faithful. */
  lemma AuditedIsFaithful(d: Dispute, moved: Dispute, action: Action, actor: string)
    requires Faithful(d) && moved.auditTrail == d.auditTrail
    requires moved.status == StatusAfter(action, d.status)
    requires moved.splitFrozen <==> !Decided(moved.status)
    requires IsVerdict(action) ==> Reviewed(d.status)
    requires moved.status != Open ==> d.status != Open || action == StatusChangedToEvidenceCollection
    requires Reviewed(moved.status) ==> Reviewed(d.status) || (d.status != Open && action == SubmittedForReview)
    ensures Faithful(Audited(moved, action, actor))
  {
  }

  lemma EvidenceIsFaithful(d: Dispute, actor: string, fileKey: string)
    requires Faithful(d) && AllowsEvidenceSubmission(d.status)
    ensures Faithful(Changed(d, AddEvidence(0, actor, fileKey)).0)
  {
    var collecting := d.(status := EvidenceCollection);
    var moved := if d.status != Open then d else Audited(collecting, StatusChangedToEvidenceCollection, actor);
    if d.status == Open {
      AuditedIsFaithful(d, collecting, StatusChangedToEvidenceCollection, actor);
    }
    AuditedIsFaithful(moved, moved.(evidence := moved.evidence + [fileKey]), EvidenceAdded, actor);
  }

  lemma MovedIsFaithful(d: Dispute, e: Event)
    requires Faithful(d) && (e.MoveToEvidenceCollection? || e.SubmitForReview? || e.RequestMoreEvidence?)
    requires Changed(d, e).1 == Ok
    ensures Faithful(Changed(d, e).0)
  {
    match e
    case MoveToEvidenceCollection(_, actor) =>
      AuditedIsFaithful(d, d.(status := EvidenceCollection), StatusChangedToEvidenceCollection, actor);
    case SubmitForReview(_, actor) =>
      AuditedIsFaithful(d, d.(status := UnderReview), SubmittedForReview, actor);
    case RequestMoreEvidence(_, actor) =>
      AuditedIsFaithful(d, d, MoreEvidenceRequested, actor);
  }

  lemma DecisionIsFaithful(d: Dispute, e: Event)
    requires Faithful(d) && (e.Resolve? || e.Reject? || e.Appeal?)
    requires Changed(d, e).1 == Ok
    ensures Faithful(Changed(d, e).0)
  {
    match e
    case Resolve(_, actor, now) =>
      var moved := d.(status := Resolved, resolvedAt := Some(now), splitFrozen := false);
      AuditedIsFaithful(d, moved, DisputeResolved, actor);
    case Reject(_, actor, now) =>
      var moved := d.(status := Rejected, resolvedAt := Some(now), splitFrozen := false);
      AuditedIsFaithful(d, moved, DisputeRejected, actor);
    case Appeal(_, actor, _) =>
      AuditedIsFaithful(d, d.(status := Appealed, splitFrozen := true), DisputeAppealed, actor);
  }

  lemma ChangedIsFaithful(d: Dispute, e: Event)
    requires Faithful(d) && !e.File?
    ensures Faithful(Changed(d, e).0)
  {
    if Changed(d, e).1 == Ok {
      if e.AddEvidence? {
        EvidenceIsFaithful(d, e.actor, e.fileKey);
      } else if e.Resolve? || e.Reject? || e.Appeal? {
        DecisionIsFaithful(d, e);
      } else {
        MovedIsFaithful(d, e);
      }
    } else {
      assert Changed(d, e).0 == d;
    }
  }

  ghost predicate AllFaithful(disputes: seq<Dispute>) {
    forall i :: 0 <= i < |disputes| ==> Faithful(disputes[i])
  }

  /** No dispute is lost or moved to another split, and every trail is kept as a prefix. */
  ghost predicate Extends(before: seq<Dispute>, after: seq<Dispute>) {
    && |before| <= |after|
    && forall i :: 0 <= i < |before| ==>
      before[i].auditTrail <= after[i].auditTrail && before[i].splitId == after[i].splitId
  }

  lemma StepExtends(db: Db, e: Event)
    ensures Extends(db.disputes, Step(db, e).db.disputes)
  {
  }

  /** A dispute after a step is as before, the one that was filed, or the one that was changed. */
  lemma StepChangesOne(db: Db, e: Event, i: nat)
    requires i < |Step(db, e).db.disputes|
    ensures var d := Step(db, e).db.disputes[i];
      || (i < |db.disputes| && d == db.disputes[i])
      || (e.File? && d == Filed(e.splitId, e.actor, e.onchainFreeze))
      || (!e.File? && i == e.id < |db.disputes| && d == Changed(db.disputes[i], e).0)
  {
  }

  lemma StepIsFaithful(db: Db, e: Event)
    requires AllFaithful(db.disputes)
    ensures AllFaithful(Step(db, e).db.disputes)
  {
    var after := Step(db, e).db.disputes;
    forall i | 0 <= i < |after|
      ensures Faithful(after[i])
    {
      StepChangesOne(db, e, i);
      if e.File? {
        FiledIsFaithful(e.splitId, e.actor, e.onchainFreeze);
      } else if i == e.id && i < |db.disputes| {
        ChangedIsFaithful(db.disputes[i], e);
      }
    }
  }

  lemma {:induction false} DecidedHasVerdict(trail: seq<AuditTrailEntry>) returns (k: nat)
    requires Decided(Replay(trail))
    ensures k < |trail| && StatusAfter(trail[k].action, Open) == Replay(trail) && IsVerdict(trail[k].action)
  {
    k := |trail| - 1;
    if !IsVerdict(trail[k].action) {
      k := DecidedHasVerdict(trail[..k]);
    }
  }

  /** A faithful trail of a decided dispute: evidence collection, then a submission for review, then the verdict. */
  lemma DecidedWasReviewed(d: Dispute) returns (i: nat, j: nat, k: nat)
    requires Faithful(d) && Decided(d.status)
    ensures i < j < k < |d.auditTrail|
    ensures d.auditTrail[i].action == StatusChangedToEvidenceCollection
    ensures d.auditTrail[j].action == SubmittedForReview
    ensures d.auditTrail[k].action == if d.status == Resolved then DisputeResolved else DisputeRejected
  {
    k := DecidedHasVerdict(d.auditTrail);
    var before := d.auditTrail[..k];
    i, j :|
      0 <= i < j < k && before[i].action == StatusChangedToEvidenceCollection && before[j].action == SubmittedForReview;
  }
}
