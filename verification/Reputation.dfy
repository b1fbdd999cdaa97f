/**
  User reputations and the event log they are derived from.

  A record that was never stored has unset counters, and incrementing one gives no number. The
  event row is saved before the user row, so a user row that cannot be saved leaves its event
  behind unless the caller's transaction is rolled back.
 */
module Reputation {
  import opened Options
  import opened Sums

  type UserId = string
  type SplitId = nat

  datatype EventType = PaidOnTime | PaidLate | UnpaidExpired | DisputeRaised | DisputeLost | DisputeWon

  datatype ReputationEvent = ReputationEvent(userId: UserId, splitId: SplitId, eventType: EventType, scoreImpact: int)

  datatype HistoryEntry = HistoryEntry(score: int, reason: EventType)

  datatype UserReputation = UserReputation(
    trustScore: int,
    totalSplitsParticipated: nat,
    totalSplitsPaidOnTime: nat,
    totalSplitsLate: nat,
    totalSplitsUnpaid: nat,
    scoreHistory: seq<HistoryEntry>)

  datatype State = State(users: map<UserId, UserReputation>, events: seq<ReputationEvent>)

  /** A counter of a record in memory. */
  datatype Counter = Unset | Count(n: nat) | NotANumber
  {
    function Incremented(): Counter {
      if Count? then Count(n + 1) else NotANumber
    }

    /** What is stored: an unset field takes the default of its column. */
    function Value(): nat {
      if Count? then n else 0
    }
  }

  /** A record in memory. */
  datatype Draft = Draft(
    trustScore: int,
    participated: Counter,
    paidOnTime: Counter,
    late: Counter,
    unpaid: Counter,
    scoreHistory: seq<HistoryEntry>)
  {
    predicate Storable() {
      !participated.NotANumber? && !paidOnTime.NotANumber? && !late.NotANumber? && !unpaid.NotANumber?
    }

    function Stored(): UserReputation {
      UserReputation(
        trustScore, participated.Value(), paidOnTime.Value(), late.Value(), unpaid.Value(), scoreHistory)
    }
  }

  const CREATED := Draft(50, Unset, Unset, Unset, Unset, [])

  function Loaded(r: UserReputation): Draft {
    Draft(
      r.trustScore, Count(r.totalSplitsParticipated), Count(r.totalSplitsPaidOnTime),
      Count(r.totalSplitsLate), Count(r.totalSplitsUnpaid), r.scoreHistory)
  }

  /** `inTransaction`: the caller passes its transaction and rolls it back if the call fails. */
  datatype Call = Call(userId: UserId, splitId: SplitId, eventType: EventType, inTransaction: bool)

  datatype Response = Returned(record: Option<UserReputation>) | SaveFailed

  function GetImpact(t: EventType): int {
    match t
    case PaidOnTime => 5
    case PaidLate => -3
    case UnpaidExpired => -10
    case DisputeWon => 2
    case DisputeLost => -8
    case DisputeRaised => 0
  }

  function Clamp(x: int): int {
    if x < 0 then 0 else if x > 100 then 100 else x
  }

  // ----- What the log says -----

  function Of(u: UserId): ReputationEvent -> bool {
    (e: ReputationEvent) => e.userId == u
  }

  function LogOf(events: seq<ReputationEvent>, u: UserId): seq<ReputationEvent> {
    Filter(events, Of(u))
  }

  /** The clamped fold of the impacts from 50. */
  function Score(log: seq<ReputationEvent>): int {
    if log == [] then 50 else Clamp(Score(log[..|log| - 1]) + GetImpact(log[|log| - 1].eventType))
  }

  function IsType(t: EventType): ReputationEvent -> int {
    (e: ReputationEvent) => if e.eventType == t then 1 else 0
  }

  function CountOf(log: seq<ReputationEvent>, t: EventType): int {
    Sum(log, IsType(t))
  }

  function SplitsOf(log: seq<ReputationEvent>): set<SplitId> {
    set e <- log :: e.splitId
  }

  /** One history entry per event, with the score after it. */
  ghost predicate HistoryFollows(history: seq<HistoryEntry>, log: seq<ReputationEvent>) {
    if history == [] || log == [] then history == [] && log == []
    else
      var last := |log| - 1;
      && history[|history| - 1] == HistoryEntry(Score(log), log[last].eventType)
      && HistoryFollows(history[..|history| - 1], log[..last])
  }

  /** A reputation record is what replaying the user's log gives. */
  ghost predicate Agrees(r: UserReputation, log: seq<ReputationEvent>) {
    && r.trustScore == Score(log)
    && r.totalSplitsParticipated == |SplitsOf(log)|
    && r.totalSplitsPaidOnTime == CountOf(log, PaidOnTime)
    && r.totalSplitsLate == CountOf(log, PaidLate)
    && r.totalSplitsUnpaid == CountOf(log, UnpaidExpired)
    && HistoryFollows(r.scoreHistory, log)
  }

  /** No event type is recorded twice for the same user and split. */
  ghost predicate RecordedOnce(events: seq<ReputationEvent>) {
    forall i, j :: 0 <= i < j < |events| ==>
      !(events[i].userId == events[j].userId && events[i].splitId == events[j].splitId
        && events[i].eventType == events[j].eventType)
  }

  /** No event type twice for a split, the right impacts, and scores from 0 to 100. */
  ghost predicate Sound(s: State) {
    && RecordedOnce(s.events)
    && (forall e <- s.events :: e.scoreImpact == GetImpact(e.eventType))
    && (forall u <- s.users :: 0 <= s.users[u].trustScore <= 100)
  }

  // ----- Recording -----

  predicate Recorded(events: seq<ReputationEvent>, u: UserId, split: SplitId, t: EventType) {
    exists e <- events :: e.userId == u && e.splitId == split && e.eventType == t
  }

  predicate HasEventFor(events: seq<ReputationEvent>, u: UserId, split: SplitId) {
    exists e <- events :: e.userId == u && e.splitId == split
  }

  function EventOf(c: Call): ReputationEvent {
    ReputationEvent(c.userId, c.splitId, c.eventType, GetImpact(c.eventType))
  }

  function DraftOf(s: State, u: UserId): Draft {
    if u in s.users then Loaded(s.users[u]) else CREATED
  }

  function Updated(d: Draft, newSplit: bool, t: EventType): Draft {
    var score := Clamp(d.trustScore + GetImpact(t));
    Draft(
      score,
      if newSplit then d.participated.Incremented() else d.participated,
      if t == PaidOnTime then d.paidOnTime.Incremented() else d.paidOnTime,
      if t == PaidLate then d.late.Incremented() else d.late,
      if t == UnpaidExpired then d.unpaid.Incremented() else d.unpaid,
      d.scoreHistory + [HistoryEntry(score, t)])
  }

  function UpdatedBy(s: State, c: Call): Draft {
    Updated(DraftOf(s, c.userId), !HasEventFor(s.events, c.userId, c.splitId), c.eventType)
  }

  predicate IsRecorded(s: State, c: Call) {
    Recorded(s.events, c.userId, c.splitId, c.eventType)
  }

  function AfterRecord(s: State, c: Call): State {
    if IsRecorded(s, c) then s
    else if UpdatedBy(s, c).Storable() then
      State(s.users[c.userId := UpdatedBy(s, c).Stored()], s.events + [EventOf(c)])
    else if c.inTransaction then s
    else State(s.users, s.events + [EventOf(c)])
  }

  /** The call throws: the user row cannot be stored. */
  predicate SaveFails(s: State, c: Call) {
    !IsRecorded(s, c) && !UpdatedBy(s, c).Storable()
  }

  class ReputationService {
    var users: map<UserId, UserReputation>
    var events: seq<ReputationEvent>

    ghost function Abs(): State
      reads this
    {
      State(users, events)
    }

    /** The rollback of a failed call in a transaction is the caller's and shown here. */
    method RecordEvent(c: Call) returns (r: Response)
      modifies this
      ensures Abs() == AfterRecord(old(Abs()), c)
      ensures r.SaveFailed? <==> SaveFails(old(Abs()), c)
      ensures r.Returned? ==> r.record == if c.userId in users then Some(users[c.userId]) else None
    {
      var impact := GetImpact(c.eventType);
      var existing := Exists(c.userId, c.splitId, Some(c.eventType));
      if existing {
        return Returned(if c.userId in users then Some(users[c.userId]) else None);
      }
      var reputation := if c.userId in users then Loaded(users[c.userId]) else CREATED;
      var hasAny := Exists(c.userId, c.splitId, None);
      if !hasAny {
        reputation := reputation.(participated := reputation.participated.Incremented());
      }
      reputation := reputation.(trustScore := Clamp(reputation.trustScore + impact));
      reputation := reputation.(
        scoreHistory := reputation.scoreHistory + [HistoryEntry(reputation.trustScore, c.eventType)]);
      if c.eventType == PaidOnTime {
        reputation := reputation.(paidOnTime := reputation.paidOnTime.Incremented());
      }
      if c.eventType == PaidLate {
        reputation := reputation.(late := reputation.late.Incremented());
      }
      if c.eventType == UnpaidExpired {
        reputation := reputation.(unpaid := reputation.unpaid.Incremented());
      }
      var before := events;
      events := events + [ReputationEvent(c.userId, c.splitId, c.eventType, impact)];
      if !reputation.Storable() {
        if c.inTransaction {
          events := before;
        }
        return SaveFailed;
      }
      users := users[c.userId := reputation.Stored()];
      return Returned(Some(users[c.userId]));
    }

    /** `findOne` on the event table, by type too if one is given. */
    method Exists(userId: UserId, splitId: SplitId, eventType: Option<EventType>) returns (found: bool)
      ensures found == if eventType.Some?
        then Recorded(events, userId, splitId, eventType.value)
        else HasEventFor(events, userId, splitId)
    {
      for i := 0 to |events|
        invariant forall j :: 0 <= j < i ==>
          !(events[j].userId == userId && events[j].splitId == splitId
            && (eventType.None? || events[j].eventType == eventType.value))
      {
        var e := events[i];
        if e.userId == userId && e.splitId == splitId && (eventType.None? || e.eventType == eventType.value) {
          assert e in events;
          return true;
        }
      }
      return false;
    }
  }

  // ----- One call -----

  function Run(s: State, calls: seq<Call>): State
    decreases calls
  {
    if calls == [] then s else Run(AfterRecord(s, calls[0]), calls[1..])
  }

  /** A call that takes effect appends its own event, and touches no other user's record. */
  lemma RecordExactly(s: State, c: Call)
    ensures var t := AfterRecord(s, c);
      var repeated := exists i :: 0 <= i < |s.events| && s.events[i].userId == c.userId
                                  && s.events[i].splitId == c.splitId && s.events[i].eventType == c.eventType;
      && (repeated ==> t == s)
      && (t.events == s.events || (
          && |t.events| == |s.events| + 1 && t.events[..|s.events|] == s.events
          && var e := t.events[|s.events|];
          e.userId == c.userId && e.splitId == c.splitId && e.eventType == c.eventType))
      && (c.userId in s.users && !repeated ==> |t.events| == |s.events| + 1)
      && (forall u :: u != c.userId ==> (u in t.users <==> u in s.users) && (u in s.users ==> t.users[u] == s.users[u]))
  {
  }

  /** A stored record that is updated by one event is the replay of the longer log. */
  lemma UpdatedAgrees(r: UserReputation, log: seq<ReputationEvent>, e: ReputationEvent, newSplit: bool)
    requires Agrees(r, log)
    requires newSplit <==> e.splitId !in SplitsOf(log)
    ensures var d := Updated(Loaded(r), newSplit, e.eventType);
      d.Storable() && Agrees(d.Stored(), log + [e])
  {
    var longer, updated := log + [e], Updated(Loaded(r), newSplit, e.eventType).Stored();
    assert longer[..|log|] == log;
    assert updated.scoreHistory[..|r.scoreHistory|] == r.scoreHistory;
    SplitsOfLonger(log, e);
    SumAppend(log, e, IsType(PaidOnTime));
    SumAppend(log, e, IsType(PaidLate));
    SumAppend(log, e, IsType(UnpaidExpired));
  }

  lemma SplitsOfLonger(log: seq<ReputationEvent>, e: ReputationEvent)
    ensures |SplitsOf(log + [e])| == |SplitsOf(log)| + if e.splitId in SplitsOf(log) then 0 else 1
  {
    assert SplitsOf(log + [e]) == SplitsOf(log) + {e.splitId};
    if e.splitId in SplitsOf(log) {
      assert SplitsOf(log) + {e.splitId} == SplitsOf(log);
    }
  }

  lemma RecordLog(events: seq<ReputationEvent>, u: UserId, e: ReputationEvent)
    ensures LogOf(events + [e], u) == if e.userId == u then LogOf(events, u) + [e] else LogOf(events, u)
  {
    FilterConcat(events, [e], Of(u));
  }

  lemma KnownSplits(events: seq<ReputationEvent>, u: UserId, split: SplitId)
    ensures HasEventFor(events, u, split) <==> split in SplitsOf(LogOf(events, u))
  {
    FilterMembers(events, Of(u));
    if HasEventFor(events, u, split) {
      var d :| d in events && d.userId == u && d.splitId == split;
      assert d in LogOf(events, u);
    }
  }

  /** The user's record is the replay of the user's log, or there is neither. */
  ghost predicate Holds(s: State, u: UserId) {
    var log := LogOf(s.events, u);
    if u in s.users then Agrees(s.users[u], log) else log == []
  }

  /** Whoever calls, a stored record that agrees with its log is stored and agrees afterwards. */
  lemma RecordAgrees(s: State, c: Call, u: UserId)
    requires u in s.users && Holds(s, u)
    ensures u in AfterRecord(s, c).users && Holds(AfterRecord(s, c), u)
  {
    RecordLog(s.events, u, EventOf(c));
    if c.userId == u && !IsRecorded(s, c) {
      KnownSplits(s.events, u, c.splitId);
      UpdatedAgrees(s.users[u], LogOf(s.events, u), EventOf(c), !HasEventFor(s.events, u, c.splitId));
    }
  }

  lemma NothingLogged(s: State, c: Call)
    requires LogOf(s.events, c.userId) == []
    ensures !IsRecorded(s, c) && !HasEventFor(s.events, c.userId, c.splitId)
  {
    assert IsRecorded(s, c) ==> HasEventFor(s.events, c.userId, c.splitId);
    KnownSplits(s.events, c.userId, c.splitId);
  }

  /**
    The first event of a user without a stored record: the user row cannot be saved, so the event
    is left without it, or the caller's transaction is rolled back.
   */
  lemma FirstEventFails(s: State, c: Call)
    requires c.userId !in s.users && LogOf(s.events, c.userId) == []
    ensures AfterRecord(s, c) == if c.inTransaction then s else State(s.users, s.events + [EventOf(c)])
  {
    NothingLogged(s, c);
  }

  /** Events were logged that the record, if there is one, does not show. */
  ghost predicate Broken(s: State, u: UserId) {
    var log := LogOf(s.events, u);
    if u in s.users then |s.users[u].scoreHistory| < |log| else log != []
  }

  lemma BrokenStays(s: State, c: Call, u: UserId)
    requires Broken(s, u)
    ensures Broken(AfterRecord(s, c), u)
  {
    RecordLog(s.events, u, EventOf(c));
  }

  lemma {:induction false} HistoryLength(history: seq<HistoryEntry>, log: seq<ReputationEvent>)
    requires HistoryFollows(history, log)
    ensures |history| == |log|
  {
    if history != [] && log != [] {
      HistoryLength(history[..|history| - 1], log[..|log| - 1]);
    }
  }

  lemma BrokenDoesNotHold(s: State, u: UserId)
    requires Broken(s, u)
    ensures !Holds(s, u)
  {
    if Holds(s, u) && u in s.users {
      HistoryLength(s.users[u].scoreHistory, LogOf(s.events, u));
    }
  }

  /** A call that is not a repetition leaves a record that agrees with the log exactly for a user who had one. */
  lemma RecordHoldsExactly(s: State, c: Call)
    requires Holds(s, c.userId) && !IsRecorded(s, c)
    ensures var next := AfterRecord(s, c);
      c.userId in next.users && Holds(next, c.userId) <==> c.userId in s.users
  {
    if c.userId in s.users {
      RecordAgrees(s, c, c.userId);
    } else {
      FirstEventFails(s, c);
    }
  }

  /** A payment outcome cannot be stored exactly for a user without a record, unless it was logged before. */
  lemma OutcomeFailsExactly(s: State, c: Call)
    requires c.eventType == PaidOnTime || c.eventType == PaidLate
    ensures SaveFails(s, c) <==> c.userId !in s.users && !IsRecorded(s, c)
  {
  }

  // ----- What the score adds up to -----

  /** The score that the events add up to if it never has to be kept within its bounds. */
  function Balance(log: seq<ReputationEvent>): int {
    50 + 5 * CountOf(log, PaidOnTime) - 3 * CountOf(log, PaidLate) - 10 * CountOf(log, UnpaidExpired)
    + 2 * CountOf(log, DisputeWon) - 8 * CountOf(log, DisputeLost)
  }

  lemma BalanceLast(log: seq<ReputationEvent>)
    requires log != []
    ensures Balance(log) == Balance(log[..|log| - 1]) + GetImpact(log[|log| - 1].eventType)
  {
    SumInit(log, IsType(PaidOnTime));
    SumInit(log, IsType(PaidLate));
    SumInit(log, IsType(UnpaidExpired));
    SumInit(log, IsType(DisputeWon));
    SumInit(log, IsType(DisputeLost));
  }

  /**
    Where the running balance of the weighted events stays from 0 to 100, it is the score; one event
    moves the score by its weight, or as far as the bound.
   */
  lemma {:induction false} ScoreIsBalance(log: seq<ReputationEvent>)
    requires forall n :: 0 <= n <= |log| ==> 0 <= Balance(log[..n]) <= 100
    ensures Score(log) == Balance(log)
  {
    assert log[..|log|] == log;
    if log != [] {
      var front := log[..|log| - 1];
      assert forall n :: 0 <= n <= |front| ==> front[..n] == log[..n];
      ScoreIsBalance(front);
      BalanceLast(log);
    }
  }

  lemma ScoreStep(log: seq<ReputationEvent>, e: ReputationEvent)
    ensures var before, after, balance := Score(log), Score(log + [e]), Balance(log + [e]) - Balance(log);
      if before + balance < 0 then after == 0
      else if before + balance > 100 then after == 100
      else after == before + balance
  {
    assert (log + [e])[..|log|] == log;
    BalanceLast(log + [e]);
  }

  // ----- Runs -----

  lemma {:induction false} BrokenForever(s: State, calls: seq<Call>, u: UserId)
    requires Broken(s, u)
    ensures Broken(Run(s, calls), u)
    decreases calls
  {
    if calls != [] {
      BrokenStays(s, calls[0], u);
      BrokenForever(AfterRecord(s, calls[0]), calls[1..], u);
    }
  }

  /** Every call for the user runs in a transaction of its caller. */
  predicate OnlyInTransactions(calls: seq<Call>, u: UserId) {
    forall c <- calls :: c.userId == u ==> c.inTransaction
  }

  /**
    Over all runs, a user's record stays the replay of the user's log exactly if the user had a
    stored record to begin with or every one of the user's calls can be rolled back, and then is.
   */
  lemma {:induction false} ReputationHoldsExactly(s: State, calls: seq<Call>, u: UserId)
    requires Holds(s, u)
    ensures Holds(Run(s, calls), u) <==> u in s.users || OnlyInTransactions(calls, u)
    ensures u in Run(s, calls).users ==> u in s.users || !Holds(Run(s, calls), u)
    ensures u in s.users ==> u in Run(s, calls).users
    decreases calls
  {
    if calls != [] {
      var c, next := calls[0], AfterRecord(s, calls[0]);
      assert OnlyInTransactions(calls, u) <==> (c.userId == u ==> c.inTransaction) && OnlyInTransactions(calls[1..], u);
      RecordLog(s.events, u, EventOf(c));
      if u in s.users {
        RecordAgrees(s, c, u);
        ReputationHoldsExactly(next, calls[1..], u);
      } else if c.userId == u && !c.inTransaction {
        FirstEventFails(s, c);
        BrokenForever(next, calls[1..], u);
        BrokenDoesNotHold(Run(next, calls[1..]), u);
      } else {
        if c.userId == u {
          FirstEventFails(s, c);
        }
        ReputationHoldsExactly(next, calls[1..], u);
      }
    }
  }

  lemma StillRecordedOnce(events: seq<ReputationEvent>, e: ReputationEvent)
    requires RecordedOnce(events) && !Recorded(events, e.userId, e.splitId, e.eventType)
    ensures RecordedOnce(events + [e])
  {
    assert forall i :: 0 <= i < |events| ==> events[i] in events;
  }

  lemma RecordKeepsSound(s: State, c: Call)
    requires Sound(s)
    ensures Sound(AfterRecord(s, c))
  {
    if !IsRecorded(s, c) {
      StillRecordedOnce(s.events, EventOf(c));
      assert forall e :: e in s.events + [EventOf(c)] ==> e in s.events || e == EventOf(c);
    }
  }

  lemma {:induction false} RunKeepsSound(s: State, calls: seq<Call>)
    requires Sound(s)
    ensures Sound(Run(s, calls))
    decreases calls
  {
    if calls != [] {
      RecordKeepsSound(s, calls[0]);
      RunKeepsSound(AfterRecord(s, calls[0]), calls[1..]);
    }
  }

  /**
    After any calls for any users, the record of every user who had a stored record that agreed
    with the log is the replay of that user's log; no event was recorded twice, and every stored
    score, whoever's it is, is between 0 and 100.
   */
  lemma ReputationFollowsLog(s: State, calls: seq<Call>)
    requires Sound(s) && forall u <- s.users :: Holds(s, u)
    ensures Sound(Run(s, calls))
    ensures forall u <- s.users ::
      u in Run(s, calls).users && Agrees(Run(s, calls).users[u], LogOf(Run(s, calls).events, u))
  {
    RunKeepsSound(s, calls);
    forall u | u in s.users
      ensures u in Run(s, calls).users && Holds(Run(s, calls), u)
    {
      ReputationHoldsExactly(s, calls, u);
    }
  }

  /** A call whose event was recorded, however long ago, changes nothing when it is repeated. */
  lemma {:induction false} RepeatedCallIsIgnored(s: State, calls: seq<Call>, c: Call, again: Call)
    requires again == c.(inTransaction := again.inTransaction)
    requires IsRecorded(s, c) || (c in calls && (c.userId in s.users || !c.inTransaction))
    ensures AfterRecord(Run(s, calls), again) == Run(s, calls)
    decreases calls
  {
    if calls != [] {
      var d, next := calls[0], AfterRecord(s, calls[0]);
      assert forall x :: x in s.events ==> x in next.events;
      if d == c && !IsRecorded(s, c) {
        assert EventOf(c) in next.events;
      }
      RepeatedCallIsIgnored(next, calls[1..], c, again);
    }
  }

  /** A dispute outcome for a new user whose only event is the filing of that dispute. */
  lemma OutcomeAfterFiling(u: UserId, split: SplitId)
    ensures var raised, won := Call(u, split, DisputeRaised, false), Call(u, split, DisputeWon, false);
      var stored := UserReputation(52, 0, 0, 0, 0, [HistoryEntry(52, DisputeWon)]);
      AfterRecord(State(map[], [EventOf(raised)]), won)
        == State(map[u := stored], [EventOf(raised)] + [EventOf(won)])
  {
    var raised, won := Call(u, split, DisputeRaised, false), Call(u, split, DisputeWon, false);
    var s := State(map[], [EventOf(raised)]);
    assert EventOf(raised) in s.events && HasEventFor(s.events, u, split) && !IsRecorded(s, won);
    var d := UpdatedBy(s, won);
    assert d == Draft(52, Unset, Unset, Unset, Unset, [] + [HistoryEntry(52, DisputeWon)]);
    assert d.Storable() && d.Stored() == UserReputation(52, 0, 0, 0, 0, [HistoryEntry(52, DisputeWon)]);
  }

  /**
    What the dispute listener makes of a user without a record: the filing logs an event but stores
    no record, and winning then stores one that counts no split and shows one event of two.
   */
  lemma DisputeUndercounts(u: UserId, split: SplitId)
    ensures var raised, won := Call(u, split, DisputeRaised, false), Call(u, split, DisputeWon, false);
      && Run(State(map[], []), [raised]) == State(map[], [EventOf(raised)])
      && var stored := UserReputation(52, 0, 0, 0, 0, [HistoryEntry(52, DisputeWon)]);
      Run(State(map[], []), [raised, won]) == State(map[u := stored], [EventOf(raised), EventOf(won)])
  {
    var raised, won := Call(u, split, DisputeRaised, false), Call(u, split, DisputeWon, false);
    var s0, s1 := State(map[], []), State(map[], [EventOf(raised)]);
    FirstEventFails(s0, raised);
    assert [] + [EventOf(raised)] == [EventOf(raised)];
    RunOnce(s0, raised, []);
    RunOnce(s0, raised, [won]);
    RunOnce(s1, won, []);
    assert [raised] == [raised] + [] && [raised, won] == [raised] + [won] && [won] == [won] + [];
    OutcomeAfterFiling(u, split);
    assert [EventOf(raised)] + [EventOf(won)] == [EventOf(raised), EventOf(won)];
  }

  lemma RunOnce(s: State, c: Call, rest: seq<Call>)
    ensures Run(s, [c] + rest) == Run(AfterRecord(s, c), rest)
  {
    assert ([c] + rest)[1..] == rest;
  }
}
