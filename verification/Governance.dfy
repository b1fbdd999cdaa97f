/**
  Proposals, votes, the timelock and vetoes. Each call is one atomic step at a time given by its
  caller; the configuration is read anew by every call and may change between calls.
 */
module Governance {
  import opened Options
  import opened Sums

  type Address = string
  type ProposalId = nat

  datatype ProposalStatus = Pending | Active | Succeeded | Defeated | Queued | Executed | Vetoed | Expired

  datatype VoteType = For | Against | Abstain

  datatype Vote = Vote(voter: Address, voteType: VoteType, votingPower: nat)

  datatype Action = Action(target: string, executed: bool)

  datatype Config = Config(
    quorumPercentage: nat,
    votingPeriod: nat,
    timelockDelay: nat,
    proposalThreshold: nat,
    vetoAddresses: seq<Address>)

  datatype Proposal = Proposal(
    status: ProposalStatus,
    votesFor: nat,
    votesAgainst: nat,
    votesAbstain: nat,
    votingStartTime: int,
    votingEndTime: int,
    executionTime: Option<int>,
    executedAt: Option<int>,
    quorumPercentage: nat,
    totalVotingPower: nat,
    votes: seq<Vote>,
    actions: seq<Action>)

  datatype Outcome =
    | Ok
    | NotFound
    | VotingNotStarted
    | VotingEnded
    | VotingNotEnded
    | WrongStatus
    | AlreadyVoted
    | NoVotingPower
    | Timelocked
    | NoVetoPower
    | BelowThreshold

  /** `later` is the second clock reading of an execution that finalizes first. */
  datatype Event =
    | CastVote(now: int, voter: Address, support: bool, power: nat)
    | CastVoteWithType(now: int, voter: Address, voteType: VoteType, power: nat)
    | Finalize(now: int, config: Config)
    | Execute(now: int, later: int, config: Config)
    | Veto(vetoer: Address, config: Config)

  datatype Result = Result(proposal: Proposal, outcome: Outcome)

  // ----- Steps -----

  predicate HasVoted(p: Proposal, voter: Address) {
    exists v <- p.votes :: v.voter == voter
  }

  function WithVote(p: Proposal, v: Vote): Proposal {
    p.(votes := p.votes + [v],
       votesFor := p.votesFor + if v.voteType == For then v.votingPower else 0,
       votesAgainst := p.votesAgainst + if v.voteType == Against then v.votingPower else 0,
       votesAbstain := p.votesAbstain + if v.voteType == Abstain then v.votingPower else 0)
  }

  /** The shared tail of both ways to vote. */
  function Recorded(p: Proposal, v: Vote): Result {
    if HasVoted(p, v.voter) then Result(p, AlreadyVoted)
    else if v.votingPower == 0 then Result(p, NoVotingPower)
    else Result(WithVote(p, v), Ok)
  }

  predicate QuorumReached(p: Proposal) {
    (p.votesFor + p.votesAgainst + p.votesAbstain) * 100 >= p.totalVotingPower * p.quorumPercentage
  }

  predicate Carried(p: Proposal) {
    QuorumReached(p) && p.votesFor > p.votesAgainst
  }

  function Finalized(p: Proposal, now: int, config: Config): Result {
    if now < p.votingEndTime then Result(p, VotingNotEnded)
    else if Carried(p) then Result(p.(status := Queued, executionTime := Some(now + config.timelockDelay * 1000)), Ok)
    else Result(p.(status := Defeated), Ok)
  }

  function AllExecuted(actions: seq<Action>): seq<Action> {
    seq(|actions|, i requires 0 <= i < |actions| => actions[i].(executed := true))
  }

  function ExecutedQueue(p: Proposal, now: int): Result {
    if p.status != Queued then Result(p, WrongStatus)
    else if p.executionTime.Some? && now < p.executionTime.value then Result(p, Timelocked)
    else Result(p.(status := Executed, executedAt := Some(now), actions := AllExecuted(p.actions)), Ok)
  }

  function Step(p: Proposal, e: Event): Result {
    match e
    case CastVote(now, voter, support, power) =>
      if now < p.votingStartTime then Result(p, VotingNotStarted)
      else if now > p.votingEndTime then Result(p, VotingEnded)
      else if p.status != Active && p.status != Pending then Result(p, WrongStatus)
      else Recorded(p.(status := Active), Vote(voter, if support then For else Against, power))
    case CastVoteWithType(now, voter, voteType, power) =>
      if now < p.votingStartTime || now > p.votingEndTime then Result(p, VotingEnded)
      else Recorded(p, Vote(voter, voteType, power))
    case Finalize(now, config) =>
      Finalized(p, now, config)
    case Execute(now, later, config) =>
      if now < p.votingEndTime then Result(p, VotingNotEnded)
      else if p.status != Active then ExecutedQueue(p, now)
      else
        var finalized := Finalized(p, later, config);
        if finalized.outcome != Ok then finalized else ExecutedQueue(finalized.proposal, now)
    case Veto(vetoer, config) =>
      if vetoer !in config.vetoAddresses then Result(p, NoVetoPower)
      else if p.status == Executed then Result(p, WrongStatus)
      else Result(p.(status := Vetoed), Ok)
  }

  function Created(
    now: int, quorumPercentage: nat, totalVotingPower: nat, targets: seq<string>, config: Config): Proposal
  {
    var start := now + 60000;
    Proposal(
      Pending, 0, 0, 0, start, start + config.votingPeriod * 1000, None, None,
      if quorumPercentage != 0 then quorumPercentage else config.quorumPercentage,
      totalVotingPower, [],
      seq(|targets|, i requires 0 <= i < |targets| => Action(targets[i], false)))
  }

  /** The proposal after a run; the last event is applied last. */
  function Run(p: Proposal, run: seq<Event>): Proposal {
    if run == [] then p else Step(Run(p, run[..|run| - 1]), run[|run| - 1]).proposal
  }

  // ----- The service -----

  class GovernanceService {
    var proposals: map<ProposalId, Proposal>

    ghost predicate Steps(before: map<ProposalId, Proposal>, id: ProposalId, e: Event, outcome: Outcome)
      reads this
    {
      if id !in before then proposals == before && outcome == NotFound
      else proposals == before[id := Step(before[id], e).proposal] && outcome == Step(before[id], e).outcome
    }

    method CreateProposal(
      id: ProposalId, proposerPower: nat, quorumPercentage: nat, totalVotingPower: nat, targets: seq<string>,
      now: int, config: Config) returns (outcome: Outcome)
      requires id !in proposals
      modifies this
      ensures outcome == if proposerPower < config.proposalThreshold then BelowThreshold else Ok
      ensures proposals == if outcome == BelowThreshold then old(proposals)
        else old(proposals)[id := Created(now, quorumPercentage, totalVotingPower, targets, config)]
    {
      if proposerPower < config.proposalThreshold {
        return BelowThreshold;
      }
      var votingStartTime := now + 60000;
      var votingEndTime := votingStartTime + config.votingPeriod * 1000;
      var quorum := if quorumPercentage != 0 then quorumPercentage else config.quorumPercentage;
      var actions := [];
      for i := 0 to |targets|
        invariant actions == seq(i, j requires 0 <= j < i => Action(targets[j], false))
      {
        actions := actions + [Action(targets[i], false)];
      }
      proposals := proposals[id := Proposal(
        Pending, 0, 0, 0, votingStartTime, votingEndTime, None, None, quorum, totalVotingPower, [], actions)];
      return Ok;
    }

    method CastVote(id: ProposalId, voter: Address, support: bool, power: nat, now: int) returns (outcome: Outcome)
      modifies this
      ensures Steps(old(proposals), id, Event.CastVote(now, voter, support, power), outcome)
    {
      if id !in proposals {
        return NotFound;
      }
      var p := proposals[id];
      if now < p.votingStartTime {
        return VotingNotStarted;
      }
      if now > p.votingEndTime {
        return VotingEnded;
      }
      if p.status != Active && p.status != Pending {
        return WrongStatus;
      }
      if p.status == Pending && now >= p.votingStartTime {
        p := p.(status := Active);
        proposals := proposals[id := p];
      }
      if exists v <- p.votes :: v.voter == voter {
        return AlreadyVoted;
      }
      if power == 0 {
        return NoVotingPower;
      }
      var voteType := if support then For else Against;
      p := p.(votes := p.votes + [Vote(voter, voteType, power)]);
      if voteType == For {
        p := p.(votesFor := p.votesFor + power);
      } else {
        p := p.(votesAgainst := p.votesAgainst + power);
      }
      proposals := proposals[id := p];
      return Ok;
    }

    method CastVoteWithType(id: ProposalId, voter: Address, voteType: VoteType, power: nat, now: int)
      returns (outcome: Outcome)
      modifies this
      ensures Steps(old(proposals), id, Event.CastVoteWithType(now, voter, voteType, power), outcome)
    {
      if id !in proposals {
        return NotFound;
      }
      var p := proposals[id];
      if now < p.votingStartTime || now > p.votingEndTime {
        return VotingEnded;
      }
      if exists v <- p.votes :: v.voter == voter {
        return AlreadyVoted;
      }
      if power == 0 {
        return NoVotingPower;
      }
      p := p.(votes := p.votes + [Vote(voter, voteType, power)]);
      match voteType {
        case For => p := p.(votesFor := p.votesFor + power);
        case Against => p := p.(votesAgainst := p.votesAgainst + power);
        case Abstain => p := p.(votesAbstain := p.votesAbstain + power);
      }
      proposals := proposals[id := p];
      return Ok;
    }

    method FinalizeProposal(id: ProposalId, now: int, config: Config) returns (outcome: Outcome)
      modifies this
      ensures Steps(old(proposals), id, Finalize(now, config), outcome)
      ensures outcome == Ok <==> id in old(proposals) && now >= old(proposals)[id].votingEndTime
      ensures outcome == Ok ==>
        && id in proposals
        && var p, q := old(proposals)[id], proposals[id];
        var cast := p.votesFor + p.votesAgainst + p.votesAbstain;
        var carried := cast * 100 >= p.totalVotingPower * p.quorumPercentage && p.votesFor > p.votesAgainst;
        q.status == if carried then Queued else Defeated
    {
      if id !in proposals {
        return NotFound;
      }
      var p := proposals[id];
      if now < p.votingEndTime {
        return VotingNotEnded;
      }
      var totalVotes := p.votesFor + p.votesAgainst + p.votesAbstain;
      var quorumReached := totalVotes * 100 >= p.totalVotingPower * p.quorumPercentage;
      if !quorumReached {
        p := p.(status := Defeated);
      } else if p.votesFor > p.votesAgainst {
        p := p.(status := Queued, executionTime := Some(now + config.timelockDelay * 1000));
      } else {
        p := p.(status := Defeated);
      }
      proposals := proposals[id := p];
      return Ok;
    }

    method ExecuteProposal(id: ProposalId, now: int, later: int, config: Config) returns (outcome: Outcome)
      modifies this
      ensures Steps(old(proposals), id, Execute(now, later, config), outcome)
    {
      if id !in proposals {
        return NotFound;
      }
      var p := proposals[id];
      if now < p.votingEndTime {
        return VotingNotEnded;
      }
      if p.status == Active {
        outcome := FinalizeProposal(id, later, config);
        if outcome != Ok {
          return;
        }
      }
      p := proposals[id];
      if p.status != Queued {
        return WrongStatus;
      }
      if p.executionTime.Some? && now < p.executionTime.value {
        return Timelocked;
      }
      var actions := p.actions;
      for i := 0 to |actions|
        invariant |actions| == |p.actions|
        invariant forall j :: 0 <= j < i ==> actions[j] == p.actions[j].(executed := true)
        invariant forall j :: i <= j < |actions| ==> actions[j] == p.actions[j]
      {
        actions := actions[i := actions[i].(executed := true)];
      }
      assert actions == AllExecuted(p.actions);
      proposals := proposals[id := p.(status := Executed, executedAt := Some(now), actions := actions)];
      return Ok;
    }

    method VetoProposal(id: ProposalId, vetoer: Address, config: Config) returns (outcome: Outcome)
      modifies this
      ensures Steps(old(proposals), id, Veto(vetoer, config), outcome)
    {
      if id !in proposals {
        return NotFound;
      }
      var p := proposals[id];
      if vetoer !in config.vetoAddresses {
        return NoVetoPower;
      }
      if p.status == Executed {
        return WrongStatus;
      }
      proposals := proposals[id := p.(status := Vetoed)];
      return Ok;
    }
  }

  // ----- What each call does, in terms of the proposal -----

  predicate Voted(p: Proposal, voter: Address) {
    exists i :: 0 <= i < |p.votes| && p.votes[i].voter == voter
  }

  /** A simple vote counts once, in the window, for or against as it says. */
  lemma CastVoteExactly(p: Proposal, now: int, voter: Address, support: bool, power: nat)
    ensures var s := Step(p, CastVote(now, voter, support, power));
      && (s.outcome == Ok <==>
        && p.votingStartTime <= now <= p.votingEndTime && (p.status == Active || p.status == Pending)
        && !Voted(p, voter) && power > 0)
      && (s.outcome == Ok ==> s.proposal == p.(
        status := Active,
        votes := p.votes + [Vote(voter, if support then For else Against, power)],
        votesFor := if support then p.votesFor + power else p.votesFor,
        votesAgainst := if support then p.votesAgainst else p.votesAgainst + power))
      && (s.outcome != Ok ==> s.proposal == p || (p.status == Pending && s.proposal == p.(status := Active)))
  {
    assert Voted(p, voter) <==> HasVoted(p, voter);
  }

  /** A typed vote counts once, in the window, whatever the status is. */
  lemma CastVoteWithTypeExactly(p: Proposal, now: int, voter: Address, voteType: VoteType, power: nat)
    ensures var s := Step(p, CastVoteWithType(now, voter, voteType, power));
      && (s.outcome == Ok <==> p.votingStartTime <= now <= p.votingEndTime && !Voted(p, voter) && power > 0)
      && (s.outcome == Ok ==>
        && s.proposal.votes == p.votes + [Vote(voter, voteType, power)]
        && s.proposal.votesFor == p.votesFor + (if voteType == For then power else 0)
        && s.proposal.votesAgainst == p.votesAgainst + (if voteType == Against then power else 0)
        && s.proposal.votesAbstain == p.votesAbstain + (if voteType == Abstain then power else 0)
        && s.proposal.status == p.status)
      && (s.outcome != Ok ==> s.proposal == p)
  {
    assert Voted(p, voter) <==> HasVoted(p, voter);
  }

  /** A finalization from the end of voting on queues exactly what quorum and majority carry, and defeats the rest. */
  lemma FinalizeExactly(p: Proposal, now: int, config: Config)
    ensures var s := Step(p, Finalize(now, config));
      var cast := p.votesFor + p.votesAgainst + p.votesAbstain;
      var carried := cast * 100 >= p.totalVotingPower * p.quorumPercentage && p.votesFor > p.votesAgainst;
      && (s.outcome == Ok <==> now >= p.votingEndTime)
      && (s.outcome != Ok ==> s.proposal == p)
      && (s.outcome == Ok && carried ==>
        s.proposal == p.(status := Queued, executionTime := Some(now + config.timelockDelay * 1000)))
      && (s.outcome == Ok && !carried ==> s.proposal == p.(status := Defeated))
  {
  }

  /** An execution needs a queued proposal, or an active one that is carried, and its timelock over. */
  lemma ExecuteExactly(p: Proposal, now: int, later: int, config: Config)
    ensures var s := Step(p, Execute(now, later, config));
      var cast := p.votesFor + p.votesAgainst + p.votesAbstain;
      var carried := cast * 100 >= p.totalVotingPower * p.quorumPercentage && p.votesFor > p.votesAgainst;
      && (s.outcome == Ok <==>
        && now >= p.votingEndTime
        && (|| (p.status == Queued && (p.executionTime.Some? ==> p.executionTime.value <= now))
            || (p.status == Active && later >= p.votingEndTime && carried
                && later + config.timelockDelay * 1000 <= now)))
      && (s.outcome == Ok ==>
        && s.proposal.status == Executed && s.proposal.executedAt == Some(now)
        && |s.proposal.actions| == |p.actions|
        && forall i :: 0 <= i < |p.actions| ==> s.proposal.actions[i] == Action(p.actions[i].target, true))
  {
  }

  /** Exactly the listed addresses can veto, and exactly what is not executed. */
  lemma VetoExactly(p: Proposal, vetoer: Address, config: Config)
    ensures var s := Step(p, Veto(vetoer, config));
      && (s.outcome == Ok <==> vetoer in config.vetoAddresses && p.status != Executed)
      && s.proposal == if s.outcome == Ok then p.(status := Vetoed) else p
  {
  }

  /** A new proposal: voting opens in a minute for the voting period, with nothing cast, executed or decided. */
  lemma CreatedExactly(now: int, quorumPercentage: nat, totalVotingPower: nat, targets: seq<string>, config: Config)
    ensures var p := Created(now, quorumPercentage, totalVotingPower, targets, config);
      && p.status == Pending && p.votes == [] && p.votesFor == p.votesAgainst == p.votesAbstain == 0
      && p.votingStartTime == now + 60 * 1000
      && p.votingEndTime == now + 60 * 1000 + config.votingPeriod * 1000
      && p.executionTime == None && p.executedAt == None && p.totalVotingPower == totalVotingPower
      && (quorumPercentage > 0 ==> p.quorumPercentage == quorumPercentage)
      && (quorumPercentage == 0 ==> p.quorumPercentage == config.quorumPercentage)
      && |p.actions| == |targets| && forall i :: 0 <= i < |targets| ==> p.actions[i] == Action(targets[i], false)
  {
  }

  // ----- Tallies -----

  function PowerOf(t: VoteType): Vote -> int {
    (v: Vote) => if v.voteType == t then v.votingPower else 0
  }

  /** The tallies are the powers of the stored votes, and nobody voted twice. */
  ghost predicate Tallied(p: Proposal) {
    && p.votesFor == Sum(p.votes, PowerOf(For))
    && p.votesAgainst == Sum(p.votes, PowerOf(Against))
    && p.votesAbstain == Sum(p.votes, PowerOf(Abstain))
    && forall i, j :: 0 <= i < j < |p.votes| ==> p.votes[i].voter != p.votes[j].voter
  }

  lemma WithVoteTallied(p: Proposal, v: Vote)
    requires Tallied(p) && !HasVoted(p, v.voter)
    ensures Tallied(WithVote(p, v))
  {
    SumAppend(p.votes, v, PowerOf(For));
    SumAppend(p.votes, v, PowerOf(Against));
    SumAppend(p.votes, v, PowerOf(Abstain));
  }

  lemma StepTallied(p: Proposal, e: Event)
    requires Tallied(p)
    ensures Tallied(Step(p, e).proposal)
  {
    match e {
      case CastVote(now, voter, support, power) =>
        if !HasVoted(p, voter) {
          WithVoteTallied(p.(status := Active), Vote(voter, if support then For else Against, power));
        }
      case CastVoteWithType(now, voter, voteType, power) =>
        if !HasVoted(p, voter) {
          WithVoteTallied(p, Vote(voter, voteType, power));
        }
      case _ =>
    }
  }

  lemma {:induction false} TalliesMatchVotes(p: Proposal, run: seq<Event>)
    requires Tallied(p)
    ensures Tallied(Run(p, run))
  {
    if run != [] {
      TalliesMatchVotes(p, run[..|run| - 1]);
      StepTallied(Run(p, run[..|run| - 1]), run[|run| - 1]);
    }
  }

  // ----- Execution -----

  /** The time at which an event finalizes, if it does. */
  function FinalizeTime(p: Proposal, e: Event): Option<int> {
    if e.Finalize? && e.now >= p.votingEndTime then Some(e.now)
    else if e.Execute? && p.status == Active && e.now >= p.votingEndTime && e.later >= p.votingEndTime
    then Some(e.later)
    else None
  }

  /** Event `i` of the run found the vote carried after its end and queued it until `until`. */
  ghost predicate QueuedAt(p: Proposal, run: seq<Event>, i: nat, until: int) {
    && i < |run|
    && var before, e := Run(p, run[..i]), run[i];
    && (e.Finalize? || (e.Execute? && before.status == Active && e.now >= before.votingEndTime))
    && var t := if e.Finalize? then e.now else e.later;
    && t >= before.votingEndTime
    && (before.votesFor + before.votesAgainst + before.votesAbstain) * 100
      >= before.totalVotingPower * before.quorumPercentage
    && before.votesFor > before.votesAgainst
    && until == t + e.config.timelockDelay * 1000
  }

  lemma QueuedEarlier(p: Proposal, run: seq<Event>, e: Event, i: nat, until: int)
    requires QueuedAt(p, run, i, until)
    ensures QueuedAt(p, run + [e], i, until)
  {
    assert (run + [e])[..i] == run[..i];
  }

  /** Some event of the run queued the proposal, until `until`. */
  ghost predicate WasQueued(p: Proposal, run: seq<Event>, until: int) {
    exists i :: QueuedAt(p, run, i, until)
  }

  lemma WasQueuedEarlier(p: Proposal, run: seq<Event>, e: Event, until: int)
    requires WasQueued(p, run, until)
    ensures WasQueued(p, run + [e], until)
  {
    var i :| QueuedAt(p, run, i, until);
    QueuedEarlier(p, run, e, i, until);
  }

  ghost predicate Justified(p: Proposal, run: seq<Event>) {
    var q := Run(p, run);
    && (q.status == Queued ==> q.executionTime.Some? && WasQueued(p, run, q.executionTime.value))
    && (q.status == Executed ==>
      q.executedAt.Some? && exists until :: WasQueued(p, run, until) && until <= q.executedAt.value)
  }

  /** What the status is after a step, as far as queueing and execution go. */
  lemma StatusAfterStep(q: Proposal, e: Event)
    ensures var after, t := Step(q, e).proposal, FinalizeTime(q, e);
      && (after.status == Queued ==>
        if t.Some? && Carried(q)
        then after.executionTime == Some(t.value + e.config.timelockDelay * 1000)
        else q.status == Queued && after.executionTime == q.executionTime)
      && (after.status == Executed ==>
        || (q.status == Executed && after.executedAt == q.executedAt)
        || (e.Execute? && after.executedAt == Some(e.now) && q.status == Queued
            && (q.executionTime.Some? ==> q.executionTime.value <= e.now))
        || (e.Execute? && after.executedAt == Some(e.now) && t.Some? && Carried(q)
            && t.value + e.config.timelockDelay * 1000 <= e.now))
  {
  }

  /**
    A queued or executed proposal was queued by a finalization at or after the end of voting whose
    tally met quorum and majority, and was executed no earlier than the timelock allowed.
   */
  lemma {:induction false} ExecutionIsJustified(p: Proposal, run: seq<Event>)
    requires p.status != Queued && p.status != Executed
    ensures Justified(p, run)
  {
    if run != [] {
      var n := |run| - 1;
      var front, e := run[..n], run[n];
      assert run == front + [e];
      ExecutionIsJustified(p, front);
      StepIsJustified(p, front, e);
    }
  }

  lemma StepIsJustified(p: Proposal, front: seq<Event>, e: Event)
    requires Justified(p, front)
    ensures Justified(p, front + [e])
  {
    var run := front + [e];
    var before, after := Run(p, front), Run(p, run);
    assert run[..|front|] == front;
    StatusAfterStep(before, e);
    var t := FinalizeTime(before, e);
    if t.Some? && Carried(before) {
      var until := t.value + e.config.timelockDelay * 1000;
      assert QueuedAt(p, run, |front|, until);
      assert WasQueued(p, run, until);
    }
    if before.status == Queued {
      WasQueuedEarlier(p, front, e, before.executionTime.value);
    } else if before.status == Executed {
      var until :| WasQueued(p, front, until) && until <= before.executedAt.value;
      WasQueuedEarlier(p, front, e, until);
    }
  }

  /** Votes of each type, by power. */
  function PowerFor(p: Proposal, t: VoteType): int {
    Sum(p.votes, (v: Vote) => if v.voteType == t then v.votingPower else 0)
  }

  /** An execution at `executedAt` rests on a tally of the stored votes that met quorum and majority. */
  ghost predicate RestsOnVotes(p: Proposal, run: seq<Event>, i: nat, executedAt: int) {
    && i < |run|
    && var before, e := Run(p, run[..i]), run[i];
    var pro, con, abstain := PowerFor(before, For), PowerFor(before, Against), PowerFor(before, Abstain);
    && (pro + con + abstain) * 100 >= before.totalVotingPower * before.quorumPercentage && pro > con
    && (e.Finalize? || e.Execute?)
    && var t := if e.Finalize? then e.now else e.later;
    t >= before.votingEndTime && t + e.config.timelockDelay * 1000 <= executedAt
  }

  lemma {:induction false} SamePower(votes: seq<Vote>, t: VoteType)
    ensures Sum(votes, PowerOf(t)) == Sum(votes, (v: Vote) => if v.voteType == t then v.votingPower else 0)
  {
    if votes != [] {
      SamePower(votes[1..], t);
    }
  }

  lemma QueuedRestsOnVotes(p: Proposal, run: seq<Event>, i: nat, until: int, executedAt: int)
    requires Tallied(p) && QueuedAt(p, run, i, until) && until <= executedAt
    ensures RestsOnVotes(p, run, i, executedAt)
  {
    var before := Run(p, run[..i]);
    TalliesMatchVotes(p, run[..i]);
    SamePower(before.votes, For);
    SamePower(before.votes, Against);
    SamePower(before.votes, Abstain);
  }

  /** An executed proposal was carried by its stored votes at the end of voting, a timelock before. */
  lemma ExecutionRestsOnVotes(p: Proposal, run: seq<Event>) returns (i: nat)
    requires p.status != Queued && p.status != Executed && Tallied(p)
    requires Run(p, run).status == Executed
    ensures Run(p, run).executedAt.Some? && RestsOnVotes(p, run, i, Run(p, run).executedAt.value)
  {
    ExecutionIsJustified(p, run);
    var until :| WasQueued(p, run, until) && until <= Run(p, run).executedAt.value;
    i :| QueuedAt(p, run, i, until);
    QueuedRestsOnVotes(p, run, i, until, Run(p, run).executedAt.value);
  }

  /** A proposal as it is created satisfies all of this through every run. */
  lemma CreatedProposal(
    now: int, quorumPercentage: nat, totalVotingPower: nat, targets: seq<string>, config: Config, run: seq<Event>)
    ensures var p := Created(now, quorumPercentage, totalVotingPower, targets, config);
      Tallied(Run(p, run)) && Justified(p, run) && Run(p, run).votingEndTime == p.votingEndTime
  {
    var p := Created(now, quorumPercentage, totalVotingPower, targets, config);
    TalliesMatchVotes(p, run);
    ExecutionIsJustified(p, run);
    EndTimeFixed(p, run);
  }

  // ----- How long a verdict lasts -----

  lemma {:induction false} EndTimeFixed(p: Proposal, run: seq<Event>)
    ensures Run(p, run).votingEndTime == p.votingEndTime
  {
    if run != [] {
      EndTimeFixed(p, run[..|run| - 1]);
    }
  }

  /** No event of the run is a finalization at or after the end of voting. */
  ghost predicate NeverFinalized(p: Proposal, run: seq<Event>) {
    run == [] ||
    var last := |run| - 1;
    !(run[last].Finalize? && run[last].now >= p.votingEndTime) && NeverFinalized(p, run[..last])
  }

  /** The status is the same after every prefix of the run. */
  ghost predicate KeepsStatus(p: Proposal, run: seq<Event>) {
    Run(p, run).status == p.status && (run == [] || KeepsStatus(p, run[..|run| - 1]))
  }

  /**
    A veto or an execution stands through a run exactly if nobody finalizes the proposal again:
    finalization has no status guard, so an accepted one replaces the verdict, and nothing else does.
   */
  lemma {:induction false} VerdictStandsUntilFinalized(p: Proposal, run: seq<Event>)
    requires p.status == Vetoed || p.status == Executed
    ensures KeepsStatus(p, run) <==> NeverFinalized(p, run)
  {
    if run != [] {
      VerdictStandsUntilFinalized(p, run[..|run| - 1]);
      EndTimeFixed(p, run[..|run| - 1]);
    }
  }

  /** A vetoed proposal with a carried vote can be executed after all. */
  lemma VetoCanBeUndone(p: Proposal, config: Config)
    requires p.status == Vetoed && Carried(p)
    ensures var t := p.votingEndTime;
      var later := t + config.timelockDelay * 1000;
      Run(p, [Finalize(t, config), Execute(later, later, config)]).status == Executed
  {
    var t := p.votingEndTime;
    var later := t + config.timelockDelay * 1000;
    var run := [Finalize(t, config), Execute(later, later, config)];
    assert run[..1] == [Finalize(t, config)] && run[..1][..0] == [];
    assert Run(p, run[..1]) == Finalized(p, t, config).proposal;
    assert Run(p, run) == Step(Run(p, run[..1]), run[1]).proposal;
  }
}
