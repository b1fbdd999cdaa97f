/**
  The batch lookup of historical rates: dates are deduplicated and looked up through a limiter
  that runs a bounded number of lookups at a time. Lookups settle in any order, each with a price
  or with none, so a run is a sequence of settlements.
 */
module HistoricalRates {
  import opened Options
  import opened Sums
  import opened Time

  /** The calendar day of a timestamp in UTC stands for its YYYY-MM-DD string. */
  type Day = int
  type Price = Option<real>

  function DayOf(date: int): Day {
    date / MS_PER_DAY
  }

  /** The limiter with its batch: `running` are the lookups under way, `started` all that began. */
  datatype State = State(
    concurrency: nat,
    activeCount: nat,
    queue: seq<Day>,
    running: set<Day>,
    started: seq<Day>,
    result: map<Day, Price>)

  datatype Settlement = Settlement(day: Day, price: Price)

  function Initial(concurrency: nat): State {
    State(concurrency, 0, [], {}, [], map[])
  }

  /** `run`: the lookup starts. */
  function Started(s: State, d: Day): State {
    s.(activeCount := s.activeCount + 1, running := s.running + {d}, started := s.started + [d])
  }

  function Submitted(s: State, d: Day): State {
    if s.activeCount < s.concurrency then Started(s, d) else s.(queue := s.queue + [d])
  }

  /** The lookup records its price, then `next` frees the slot and starts the oldest queued one. */
  function Settled(s: State, e: Settlement): State
    requires s.activeCount > 0
  {
    var freed := s.(
      activeCount := s.activeCount - 1, running := s.running - {e.day}, result := s.result[e.day := e.price]);
    if freed.queue == [] then freed else Started(freed.(queue := freed.queue[1..]), freed.queue[0])
  }

  function SubmittedAll(s: State, days: seq<Day>): State
    decreases days
  {
    if days == [] then s else SubmittedAll(Submitted(s, days[0]), days[1..])
  }

  function Distinct(dates: seq<int>): seq<Day> {
    if dates == [] then []
    else
      var front := Distinct(dates[..|dates| - 1]);
      var d := DayOf(dates[|dates| - 1]);
      if d in front then front else front + [d]
  }

  predicate IsRun(s: State, run: seq<Settlement>)
    decreases run
  {
    run == [] || (s.activeCount > 0 && run[0].day in s.running && IsRun(Settled(s, run[0]), run[1..]))
  }

  function Final(s: State, run: seq<Settlement>): State
    requires IsRun(s, run)
    decreases run
  {
    if run == [] then s else Final(Settled(s, run[0]), run[1..])
  }

  // ----- The limiter as the service runs it -----

  class Limiter {
    const concurrency: nat
    var activeCount: nat
    var queue: seq<Day>
    ghost var running: set<Day>
    ghost var started: seq<Day>
    var result: map<Day, Price>

    ghost function Abs(): State
      reads this
    {
      State(concurrency, activeCount, queue, running, started, result)
    }

    constructor (concurrency: nat)
      ensures Abs() == Initial(concurrency)
    {
      this.concurrency, activeCount, queue := concurrency, 0, [];
      running, started, result := {}, [], map[];
    }

    method Run(d: Day)
      modifies this
      ensures Abs() == Started(old(Abs()), d)
    {
      activeCount := activeCount + 1;
      running, started := running + {d}, started + [d];
    }

    method Submit(d: Day)
      modifies this
      ensures Abs() == Submitted(old(Abs()), d)
    {
      if activeCount < concurrency {
        Run(d);
      } else {
        queue := queue + [d];
      }
    }

    method Settle(d: Day, price: Price)
      requires activeCount > 0
      modifies this
      ensures Abs() == Settled(old(Abs()), Settlement(d, price))
    {
      result := result[d := price];
      running := running - {d};
      Next();
    }

    method Next()
      requires activeCount > 0
      modifies this
      ensures Abs() == (
        var freed := old(Abs()).(activeCount := old(activeCount) - 1);
        if old(queue) == [] then freed else Started(freed.(queue := old(queue)[1..]), old(queue)[0]))
    {
      activeCount := activeCount - 1;
      if |queue| > 0 {
        var d := queue[0];
        queue := queue[1..];
        Run(d);
      }
    }
  }

  /** Deduplicates the dates and submits one lookup per day; the settlements follow. */
  method SubmitDates(dates: seq<int>) returns (limit: Limiter)
    ensures fresh(limit)
    ensures limit.Abs() == SubmittedAll(Initial(2), Distinct(dates))
  {
    var uniqueDays := [];
    for i := 0 to |dates|
      invariant uniqueDays == Distinct(dates[..i])
    {
      assert dates[..i + 1][..i] == dates[..i];
      if DayOf(dates[i]) !in uniqueDays {
        uniqueDays := uniqueDays + [DayOf(dates[i])];
      }
    }
    assert dates[..|dates|] == dates;
    limit := new Limiter(2);
    for i := 0 to |uniqueDays|
      invariant fresh(limit)
      invariant SubmittedAll(limit.Abs(), uniqueDays[i..]) == SubmittedAll(Initial(2), uniqueDays)
    {
      assert uniqueDays[i..][1..] == uniqueDays[i + 1..];
      limit.Submit(uniqueDays[i]);
    }
  }

  // ----- What every run keeps -----

  /** `submitted` is everything handed to the limiter so far, in order. */
  ghost predicate Inv(s: State, submitted: seq<Day>) {
    && s.activeCount == |s.running| <= s.concurrency
    && (s.queue != [] ==> s.activeCount == s.concurrency)
    && s.started + s.queue == submitted
    && s.result.Keys !! s.running
    && (forall d :: d in s.started <==> d in s.result || d in s.running)
  }

  lemma SubmitInv(s: State, submitted: seq<Day>, d: Day)
    requires Inv(s, submitted) && NoDuplicates(submitted + [d])
    ensures Inv(Submitted(s, d), submitted + [d])
  {
    var t := Submitted(s, d);
    assert (submitted + [d])[|submitted|] == d;
    if s.activeCount < s.concurrency {
      assert s.queue == [] && s.started == submitted;
      assert forall i :: 0 <= i < |submitted| ==> (submitted + [d])[i] == submitted[i];
      assert t.started + t.queue == submitted + [d];
    } else {
      assert t.started + t.queue == s.started + s.queue + [d];
    }
  }

  lemma {:induction false} SubmitAllInv(s: State, submitted: seq<Day>, days: seq<Day>)
    requires Inv(s, submitted) && NoDuplicates(submitted + days)
    ensures Inv(SubmittedAll(s, days), submitted + days)
    ensures SubmittedAll(s, days).concurrency == s.concurrency
    decreases days
  {
    if days == [] {
      assert submitted + days == submitted;
    } else {
      assert submitted + days == (submitted + [days[0]]) + days[1..];
      assert forall i :: 0 <= i < |submitted + [days[0]]| ==> (submitted + [days[0]])[i] == (submitted + days)[i];
      SubmitInv(s, submitted, days[0]);
      SubmitAllInv(Submitted(s, days[0]), submitted + [days[0]], days[1..]);
    }
  }

  lemma SettleInv(s: State, submitted: seq<Day>, e: Settlement)
    requires Inv(s, submitted) && NoDuplicates(submitted) && e.day in s.running
    ensures s.activeCount > 0 && Inv(Settled(s, e), submitted)
  {
    var t := Settled(s, e);
    if s.queue != [] {
      var d := s.queue[0];
      assert submitted[|s.started|] == d;
      assert forall i :: 0 <= i < |s.started| ==> s.started[i] == submitted[i];
      assert t.started + t.queue == s.started + ([d] + s.queue[1..]);
      assert [d] + s.queue[1..] == s.queue;
    }
  }

  /** The limiter's bound, its queue discipline and its start order hold in every run. */
  lemma {:induction false} LimiterSafety(s: State, submitted: seq<Day>, run: seq<Settlement>)
    requires Inv(s, submitted) && NoDuplicates(submitted) && IsRun(s, run)
    ensures Inv(Final(s, run), submitted)
    ensures Final(s, run).concurrency == s.concurrency
    decreases run
  {
    if run != [] {
      SettleInv(s, submitted, run[0]);
      LimiterSafety(Settled(s, run[0]), submitted, run[1..]);
    }
  }

  /** Each settlement leaves one lookup fewer to settle, so a run that cannot be extended is over. */
  lemma {:induction false} RunLength(s: State, submitted: seq<Day>, run: seq<Settlement>)
    requires Inv(s, submitted) && NoDuplicates(submitted) && IsRun(s, run)
    ensures |run| + |Final(s, run).running| + |Final(s, run).queue| == |s.running| + |s.queue|
    decreases run
  {
    if run != [] {
      SettleInv(s, submitted, run[0]);
      RunLength(Settled(s, run[0]), submitted, run[1..]);
    }
  }

  lemma {:induction false} DistinctDays(dates: seq<int>)
    ensures NoDuplicates(Distinct(dates))
    ensures forall d :: d in Distinct(dates) <==> exists i :: 0 <= i < |dates| && DayOf(dates[i]) == d
  {
    if dates != [] {
      var front := dates[..|dates| - 1];
      DistinctDays(front);
      assert forall i :: 0 <= i < |front| ==> front[i] == dates[i];
      var last := DayOf(dates[|dates| - 1]);
      forall d | d in Distinct(dates)
        ensures exists i :: 0 <= i < |dates| && DayOf(dates[i]) == d
      {
        if d == last {
          assert DayOf(dates[|dates| - 1]) == d;
        } else {
          var i :| 0 <= i < |front| && DayOf(front[i]) == d;
          assert DayOf(dates[i]) == d;
        }
      }
      forall i | 0 <= i < |dates|
        ensures DayOf(dates[i]) in Distinct(dates)
      {
        assert i < |front| ==> DayOf(front[i]) in Distinct(front);
      }
    }
  }

  /**
    A batch under any completion order: it is stuck only when it is done, and then every distinct
    day was looked up exactly once, in order of first mention, and the result has an entry for
    each of them and for nothing else.
   */
  lemma BatchResult(dates: seq<int>, run: seq<Settlement>)
    requires IsRun(SubmittedAll(Initial(2), Distinct(dates)), run)
    ensures var s := Final(SubmittedAll(Initial(2), Distinct(dates)), run);
      && s.activeCount == |s.running| <= 2
      && (s.running == {} <==> |run| == |Distinct(dates)|)
      && (s.running == {} ==>
        && s.started == Distinct(dates)
        && forall d :: d in s.result <==> exists i :: 0 <= i < |dates| && DayOf(dates[i]) == d)
  {
    DistinctDays(dates);
    BatchInv(Distinct(dates), run);
    BatchCompletes(Distinct(dates), run);
  }

  /** The limiter invariant after a batch and any run of settlements. */
  lemma BatchInv(days: seq<Day>, run: seq<Settlement>)
    requires NoDuplicates(days) && IsRun(SubmittedAll(Initial(2), days), run)
    ensures Inv(SubmittedAll(Initial(2), days), days)
    ensures var s := Final(SubmittedAll(Initial(2), days), run); Inv(s, days) && s.concurrency == 2
  {
    assert [] + days == days;
    SubmitAllInv(Initial(2), [], days);
    LimiterSafety(SubmittedAll(Initial(2), days), days, run);
  }

  /** Every settled lookup has the price it settled with, null if it failed. */
  lemma {:induction false} PricesAreKept(s: State, submitted: seq<Day>, run: seq<Settlement>, d: Day)
    requires Inv(s, submitted) && NoDuplicates(submitted) && IsRun(s, run)
    ensures d in s.result ==> d in Final(s, run).result && Final(s, run).result[d] == s.result[d]
    ensures forall i :: 0 <= i < |run| && run[i].day == d ==>
      d in Final(s, run).result && Final(s, run).result[d] == run[i].price
    decreases run
  {
    if run != [] {
      var t := Settled(s, run[0]);
      SettleInv(s, submitted, run[0]);
      PricesAreKept(t, submitted, run[1..], d);
      assert d in s.result ==> d !in s.running && d != run[0].day;
      assert forall i :: 0 < i < |run| ==> run[i] == run[1..][i - 1];
    }
  }

  /** In a batch the result has, for every day, the price that its lookup settled with. */
  lemma BatchPrices(dates: seq<int>, run: seq<Settlement>, i: nat)
    requires IsRun(SubmittedAll(Initial(2), Distinct(dates)), run) && i < |run|
    ensures var s := Final(SubmittedAll(Initial(2), Distinct(dates)), run);
      run[i].day in s.result && s.result[run[i].day] == run[i].price
  {
    DistinctDays(dates);
    BatchInv(Distinct(dates), run);
    PricesAreKept(SubmittedAll(Initial(2), Distinct(dates)), Distinct(dates), run, run[i].day);
  }

  /** The day of a timestamp is the one in whose 24 hours from midnight UTC it lies. */
  lemma DayOfExactly(date: int)
    ensures DayOf(date) * (24 * 60 * 60 * 1000) <= date < (DayOf(date) + 1) * (24 * 60 * 60 * 1000)
  {
  }

  /** Nothing runs exactly when every day has settled, and then the result has the days as keys. */
  lemma BatchCompletes(days: seq<Day>, run: seq<Settlement>)
    requires NoDuplicates(days) && IsRun(SubmittedAll(Initial(2), days), run)
    ensures var s := Final(SubmittedAll(Initial(2), days), run);
      && (s.running == {} <==> |run| == |days|)
      && (s.running == {} ==> s.started == days && forall d :: d in s.result <==> d in days)
  {
    var s0 := SubmittedAll(Initial(2), days);
    var s := Final(s0, run);
    BatchInv(days, run);
    RunLength(s0, days, run);
    RunningOrQueued(Initial(2), days);
    if s.running == {} {
      assert s.queue == [] && s.started + [] == s.started;
    } else {
      assert |s.running| > 0;
    }
  }

  lemma {:induction false} RunningOrQueued(s: State, days: seq<Day>)
    requires |s.running| == s.activeCount && NoDuplicates(days) && forall d <- days :: d !in s.running
    ensures var t := SubmittedAll(s, days);
      |t.running| + |t.queue| == |s.running| + |s.queue| + |days|
    decreases days
  {
    if days != [] {
      RunningOrQueued(Submitted(s, days[0]), days[1..]);
    }
  }
}
