/**
  Recurring splits: the calendar arithmetic of JavaScript dates in UTC (section 21.4.1 of
  ECMA-262), iterated over generations.

  A date is a count of milliseconds; its day is that count divided by the length of a day. Months
  are counted from year 0, so month m of year y is 12 * y + m with m from 0.
 */
module RecurringSplits {
  import opened Options
  import opened Time

  datatype Frequency = Weekly | Biweekly | Monthly

  // ----- Calendar -----

  predicate IsLeap(y: int) {
    y % 4 == 0 && (y % 100 != 0 || y % 400 == 0)
  }

  /** DayFromYear: the day number of 1 January. */
  function DayFromYear(y: int): int {
    365 * (y - 1970) + (y - 1969) / 4 - (y - 1901) / 100 + (y - 1601) / 400
  }

  /** Days of the year before month `m`. */
  function DaysBeforeMonth(y: int, m: int): int
    requires 0 <= m < 12
  {
    [0, 31, 59, 90, 120, 151, 181, 212, 243, 273, 304, 334][m] + if m >= 2 && IsLeap(y) then 1 else 0
  }

  /** MakeDay of the first of a month. */
  function FirstOfMonth(month: int): int {
    DayFromYear(month / 12) + DaysBeforeMonth(month / 12, month % 12)
  }

  function DaysInMonth(month: int): (n: nat)
    ensures 28 <= n <= 31
  {
    var y, m := month / 12, month % 12;
    if m == 1 then (if IsLeap(y) then 29 else 28)
    else if m == 3 || m == 5 || m == 8 || m == 10 then 30
    else 31
  }

  lemma YearLength(y: int)
    ensures DayFromYear(y + 1) - DayFromYear(y) == if IsLeap(y) then 366 else 365
  {
    FloorStep(y - 1969, 4);
    FloorStep(y - 1901, 100);
    FloorStep(y - 1601, 400);
  }

  lemma FloorStep(k: int, n: int)
    requires n > 0
    ensures (k + 1) / n - k / n == if (k + 1) % n == 0 then 1 else 0
  {
    var q, r := k / n, k % n;
    assert k == q * n + r;
    if r + 1 == n {
      assert k + 1 == (q + 1) * n;
    } else {
      assert k + 1 == q * n + (r + 1);
    }
    DivUnique(k + 1, n, if r + 1 == n then q + 1 else q, if r + 1 == n then 0 else r + 1);
  }

  lemma DivUnique(k: int, n: int, q: int, r: int)
    requires n > 0 && 0 <= r < n && k == q * n + r
    ensures k / n == q && k % n == r
  {
    var d := k / n - q;
    assert d * n == r - k % n;
    if d > 0 {
      assert false;
    } else if d < 0 {
      assert false;
    }
  }

  /** The table of days agrees with the lengths of the months, across years too. */
  lemma MonthLength(month: int)
    ensures FirstOfMonth(month + 1) - FirstOfMonth(month) == DaysInMonth(month)
  {
    var y, m := month / 12, month % 12;
    if m == 11 {
      assert (month + 1) / 12 == y + 1 && (month + 1) % 12 == 0;
      YearLength(y);
    } else {
      assert (month + 1) / 12 == y && (month + 1) % 12 == m + 1;
    }
  }

  const EPOCH_MONTH := 12 * 1970

  /** The first day of a month by counting the months since 1970, in either direction. */
  function FirstDay(month: int): int
    decreases if month >= EPOCH_MONTH then month - EPOCH_MONTH else EPOCH_MONTH - month
  {
    if month == EPOCH_MONTH then 0
    else if month > EPOCH_MONTH then FirstDay(month - 1) + DaysInMonth(month - 1)
    else FirstDay(month + 1) - DaysInMonth(month)
  }

  lemma FirstDayNext(month: int)
    ensures FirstDay(month + 1) == FirstDay(month) + DaysInMonth(month)
  {
  }

  lemma {:induction false} CountingIsUnique(f: int -> int, month: int)
    requires f(EPOCH_MONTH) == 0
    requires forall m :: f(m + 1) == f(m) + DaysInMonth(m)
    ensures f(month) == FirstDay(month)
    decreases if month >= EPOCH_MONTH then month - EPOCH_MONTH else EPOCH_MONTH - month
  {
    if month > EPOCH_MONTH {
      CountingIsUnique(f, month - 1);
      assert f((month - 1) + 1) == f(month - 1) + DaysInMonth(month - 1);
    } else if month < EPOCH_MONTH {
      CountingIsUnique(f, month + 1);
    }
  }

  /** The closed formula counts the days of the months. */
  lemma FormulaCounts(month: int)
    ensures FirstOfMonth(month) == FirstDay(month)
  {
    forall m
      ensures FirstOfMonth(m + 1) == FirstOfMonth(m) + DaysInMonth(m)
    {
      MonthLength(m);
    }
    CountingIsUnique(FirstOfMonth, month);
  }

  /** The month that a day falls in. */
  function MonthOf(day: int): (month: int)
    ensures FirstDay(month) <= day < FirstDay(month + 1)
    decreases if day >= 0 then day else -day
  {
    if 0 <= day < 31 then
      FirstDayNext(EPOCH_MONTH);
      EPOCH_MONTH
    else if day > 0 then MonthOfNext(MonthOf(day - 1), day)
    else MonthOfPrevious(MonthOf(day + 1), day)
  }

  /** The month of a day, from the month of the day before. */
  function MonthOfNext(month: int, day: int): (m: int)
    requires FirstDay(month) <= day - 1 < FirstDay(month + 1)
    ensures FirstDay(m) <= day < FirstDay(m + 1)
  {
    FirstDayNext(month + 1);
    if day < FirstDay(month + 1) then month else month + 1
  }

  /** The month of a day, from the month of the day after. */
  function MonthOfPrevious(month: int, day: int): (m: int)
    requires FirstDay(month) <= day + 1 < FirstDay(month + 1)
    ensures FirstDay(m) <= day < FirstDay(m + 1)
  {
    FirstDayNext(month - 1);
    if day >= FirstDay(month) then month else month - 1
  }

  /** The day of the month, from 1. */
  function DateOf(day: int): (d: int)
    ensures d >= 1
  {
    day - FirstDay(MonthOf(day)) + 1
  }

  /** MakeDay: day `date` of a month, where dates beyond its end run on into the next months. */
  function MakeDay(month: int, date: int): int {
    FirstDay(month) + date - 1
  }

  /** Which is what the closed formula of the standard computes. */
  lemma MakeDayIsFormula(month: int, date: int)
    ensures MakeDay(month, date) == FirstOfMonth(month) + date - 1
  {
    FormulaCounts(month);
  }

  lemma {:induction false} FirstDayIncreases(m: int, n: int)
    requires m < n
    ensures FirstDay(m + 1) <= FirstDay(n)
    decreases n - m
  {
    if m + 1 < n {
      FirstDayIncreases(m, n - 1);
      FirstDayNext(n - 1);
    }
  }

  /** Reading back a day that exists in a month gives that month and date. */
  lemma MakeDayRoundTrip(month: int, date: int)
    requires 1 <= date <= DaysInMonth(month)
    ensures MonthOf(MakeDay(month, date)) == month
    ensures DateOf(MakeDay(month, date)) == date
  {
    FirstDayNext(month);
    var day := FirstDay(month) + date - 1;
    assert MakeDay(month, date) == day;
    if MonthOf(day) < month {
      FirstDayIncreases(MonthOf(day), month);
    } else if month < MonthOf(day) {
      FirstDayIncreases(month, MonthOf(day));
    }
  }

  /** And every day is rebuilt from its month and date. */
  lemma MakeDayOfParts(day: int)
    ensures MakeDay(MonthOf(day), DateOf(day)) == day
    ensures 1 <= DateOf(day) <= DaysInMonth(MonthOf(day))
  {
    FirstDayNext(MonthOf(day));
  }

  // ----- Occurrences -----

  function DayPart(date: int): int {
    date / MS_PER_DAY
  }

  /** `date` moved to another day at the same time of day. */
  function OnDay(date: int, day: int): int {
    day * MS_PER_DAY + date % MS_PER_DAY
  }

  /** `setDate(getDate() + n)`. */
  function AddDays(date: int, n: int): int {
    var day := DayPart(date);
    OnDay(date, MakeDay(MonthOf(day), DateOf(day) + n))
  }

  /** `setMonth(getMonth() + n)`. */
  function AddMonths(date: int, n: int): int {
    var day := DayPart(date);
    OnDay(date, MakeDay(MonthOf(day) + n, DateOf(day)))
  }

  function CalculateNextOccurrence(baseDate: int, frequency: Frequency): int {
    match frequency
    case Weekly => AddDays(baseDate, 7)
    case Biweekly => AddDays(baseDate, 14)
    case Monthly => AddMonths(baseDate, 1)
  }

  function Next(frequency: Frequency): int -> int {
    (date: int) => CalculateNextOccurrence(date, frequency)
  }

  /** The occurrence after `n` generations. */
  function Iterate(next: int -> int, date: int, n: nat): int {
    if n == 0 then date else next(Iterate(next, date, n - 1))
  }

  lemma OnDayParts(date: int, day: int)
    ensures DayPart(OnDay(date, day)) == day
    ensures OnDay(date, day) % MS_PER_DAY == date % MS_PER_DAY
    ensures OnDay(date, day) == date + (day - DayPart(date)) * MS_PER_DAY
  {
  }

  lemma AddDaysAdds(date: int, n: int)
    ensures AddDays(date, n) == date + n * MS_PER_DAY
  {
    MakeDayOfParts(DayPart(date));
  }

  lemma NextMonthDay(day: int)
    ensures MakeDay(MonthOf(day) + 1, DateOf(day)) == day + DaysInMonth(MonthOf(day))
  {
    MakeDayOfParts(day);
    FirstDayNext(MonthOf(day));
  }

  /** A monthly step advances by exactly the number of days of the month it leaves. */
  lemma MonthlyStep(date: int)
    ensures AddMonths(date, 1) == date + DaysInMonth(MonthOf(DayPart(date))) * MS_PER_DAY
  {
    var day := DayPart(date);
    NextMonthDay(day);
    OnDayParts(date, day + DaysInMonth(MonthOf(day)));
  }

  lemma NextIsLater(date: int, frequency: Frequency)
    ensures CalculateNextOccurrence(date, frequency) >= date + 7 * MS_PER_DAY
  {
    match frequency {
      case Weekly => AddDaysAdds(date, 7);
      case Biweekly => AddDaysAdds(date, 14);
      case Monthly => MonthlyStep(date);
    }
  }

  lemma {:induction false} IterateAdds(next: int -> int, date: int, n: nat, k: int)
    requires forall x :: next(x) == x + k
    ensures Iterate(next, date, n) == date + n * k
  {
    if n > 0 {
      IterateAdds(next, date, n - 1, k);
    }
  }

  lemma WeeklyStep(date: int)
    ensures Next(Weekly)(date) == date + 7 * MS_PER_DAY
    ensures Next(Biweekly)(date) == date + 14 * MS_PER_DAY
  {
    AddDaysAdds(date, 7);
    AddDaysAdds(date, 14);
  }

  lemma WeeklyGenerations(date: int, n: nat)
    ensures Iterate(Next(Weekly), date, n) == date + n * (7 * MS_PER_DAY)
    ensures Iterate(Next(Biweekly), date, n) == date + n * (14 * MS_PER_DAY)
  {
    forall x
      ensures Next(Weekly)(x) == x + 7 * MS_PER_DAY && Next(Biweekly)(x) == x + 14 * MS_PER_DAY
    {
      WeeklyStep(x);
    }
    IterateAdds(Next(Weekly), date, n, 7 * MS_PER_DAY);
    IterateAdds(Next(Biweekly), date, n, 14 * MS_PER_DAY);
  }

  /** `later` is the same date and time of day as `date`, `n` months on. */
  predicate SameDateMonthsLater(date: int, later: int, n: int) {
    && MonthOf(DayPart(later)) == MonthOf(DayPart(date)) + n
    && DateOf(DayPart(later)) == DateOf(DayPart(date))
    && later % MS_PER_DAY == date % MS_PER_DAY
  }

  lemma OnDayKeepsDate(date: int, day: int)
    requires MonthOf(day) == MonthOf(DayPart(date)) + 1 && DateOf(day) == DateOf(DayPart(date))
    ensures SameDateMonthsLater(date, OnDay(date, day), 1)
  {
  }

  lemma MonthlyKeepsDate(date: int)
    requires DateOf(DayPart(date)) <= 28
    ensures SameDateMonthsLater(date, Next(Monthly)(date), 1)
  {
    MakeDayRoundTrip(MonthOf(DayPart(date)) + 1, DateOf(DayPart(date)));
    OnDayKeepsDate(date, MakeDay(MonthOf(DayPart(date)) + 1, DateOf(DayPart(date))));
  }

  /** From a date that every month has, n monthly steps land on it n months later. */
  lemma {:induction false} MonthlyGenerations(date: int, n: nat)
    requires DateOf(DayPart(date)) <= 28
    ensures SameDateMonthsLater(date, Iterate(Next(Monthly), date, n), n)
  {
    if n > 0 {
      MonthlyGenerations(date, n - 1);
      MonthlyKeepsDate(Iterate(Next(Monthly), date, n - 1));
    }
  }

  // ----- The recurring split -----

  datatype ParticipantStatus = Pending | Partial | Paid
  datatype SplitStatus = Active | PartiallyPaid | Completed

  datatype Participant = Participant(
    walletAddress: string, amountOwed: int, amountPaid: int, status: ParticipantStatus)

  datatype Split = Split(totalAmount: int, amountPaid: int, status: SplitStatus, participants: seq<Participant>)

  datatype Schedule = Schedule(
    frequency: Frequency, nextOccurrence: int, endDate: Option<int>, isActive: bool)
  {
    predicate Ended(now: int) {
      endDate.Some? && endDate.value <= now
    }

    /** The scheduler's query for splits to process. */
    predicate IsDue(now: int) {
      isActive && !Ended(now) && nextOccurrence <= now
    }
  }

  datatype Event = Generate(now: int) | Pause(now: int) | Resume(now: int)

  function Step(s: Schedule, e: Event): Schedule {
    match e
    case Generate(now) =>
      if !s.isActive then s
      else if s.Ended(now) then s.(isActive := false)
      else s.(nextOccurrence := CalculateNextOccurrence(s.nextOccurrence, s.frequency))
    case Pause(_) => s.(isActive := false)
    case Resume(now) =>
      if s.isActive then s
      else s.(isActive := true, nextOccurrence := CalculateNextOccurrence(now, s.frequency))
  }

  /** The occurrence that an event consumes, if it generates a split. */
  function ConsumedAt(s: Schedule, e: Event): seq<int> {
    if e.Generate? && s.isActive && !s.Ended(e.now) then [s.nextOccurrence] else []
  }

  datatype Creation = NoTemplate | EndDateNotInFuture | Created(split: RecurringSplit)

  /** A recurring split is created if its template exists and its end date, if any, lies ahead. */
  method CreateRecurringSplit(templateExists: bool, frequency: Frequency, endDate: Option<int>, now: int)
    returns (r: Creation)
    ensures r.NoTemplate? <==> !templateExists
    ensures r.EndDateNotInFuture? <==> templateExists && endDate.Some? && endDate.value <= now
    ensures r.Created? ==>
      && fresh(r.split)
      && r.split.schedule == Schedule(frequency, CalculateNextOccurrence(now, frequency), endDate, true)
  {
    if !templateExists {
      return NoTemplate;
    }
    if endDate.Some? && endDate.value <= now {
      return EndDateNotInFuture;
    }
    var split := new RecurringSplit(frequency, endDate, now);
    return Created(split);
  }

  datatype Generation = Skipped | TemplateNotFound | Generated(split: Split)

  class RecurringSplit {
    var schedule: Schedule

    constructor (frequency: Frequency, endDate: Option<int>, now: int)
      ensures schedule == Schedule(frequency, CalculateNextOccurrence(now, frequency), endDate, true)
    {
      schedule := Schedule(frequency, CalculateNextOccurrence(now, frequency), endDate, true);
    }

    /** A generated split owes what the template owes, with nothing paid. */
    method GenerateSplitFromTemplate(template: Option<Split>, now: int) returns (r: Generation)
      modifies this
      ensures schedule == if r.TemplateNotFound? then old(schedule) else Step(old(schedule), Generate(now))
      ensures r.TemplateNotFound? <==> ConsumedAt(old(schedule), Generate(now)) != [] && template.None?
      ensures r.Generated? <==> ConsumedAt(old(schedule), Generate(now)) != [] && template.Some?
      ensures r.Generated? ==>
        var t := template.value;
        && r.split.totalAmount == t.totalAmount && r.split.amountPaid == 0 && r.split.status == Active
        && |r.split.participants| == |t.participants|
        && forall i :: 0 <= i < |t.participants| ==>
          var p := t.participants[i];
          r.split.participants[i] == Participant(p.walletAddress, p.amountOwed, 0, Pending)
    {
      if !schedule.isActive {
        return Skipped;
      }
      if schedule.endDate.Some? && schedule.endDate.value <= now {
        schedule := schedule.(isActive := false);
        return Skipped;
      }
      if template.None? {
        return TemplateNotFound;
      }
      var t := template.value;
      var participants := [];
      for i := 0 to |t.participants|
        invariant |participants| == i
        invariant forall j :: 0 <= j < i ==>
          participants[j] == Participant(t.participants[j].walletAddress, t.participants[j].amountOwed, 0, Pending)
      {
        var p := t.participants[i];
        participants := participants + [Participant(p.walletAddress, p.amountOwed, 0, Pending)];
      }
      schedule := schedule.(nextOccurrence := CalculateNextOccurrence(schedule.nextOccurrence, schedule.frequency));
      return Generated(Split(t.totalAmount, 0, Active, participants));
    }

    /** False: the split is already paused and nothing changes. */
    method PauseRecurringSplit(now: int) returns (ok: bool)
      modifies this
      ensures ok == old(schedule).isActive && schedule == Step(old(schedule), Pause(now))
    {
      if !schedule.isActive {
        return false;
      }
      schedule := schedule.(isActive := false);
      return true;
    }

    /** False: the split is already active and nothing changes. */
    method ResumeRecurringSplit(now: int) returns (ok: bool)
      modifies this
      ensures ok == !old(schedule).isActive && schedule == Step(old(schedule), Resume(now))
    {
      if schedule.isActive {
        return false;
      }
      schedule := schedule.(isActive := true, nextOccurrence := CalculateNextOccurrence(now, schedule.frequency));
      return true;
    }
  }

  // ----- What each event does, in terms of the schedule -----

  /** The step from one occurrence to the next, told in days. */
  predicate OneStepOn(frequency: Frequency, date: int, next: int) {
    match frequency
    case Weekly => next == date + 7 * MS_PER_DAY
    case Biweekly => next == date + 14 * MS_PER_DAY
    case Monthly => next == date + DaysInMonth(MonthOf(DayPart(date))) * MS_PER_DAY
  }

  lemma NextIsOneStepOn(date: int, frequency: Frequency)
    ensures OneStepOn(frequency, date, CalculateNextOccurrence(date, frequency))
  {
    WeeklyStep(date);
    MonthlyStep(date);
  }

  /**
    A generation consumes the next occurrence of an active split whose end date, if any, lies ahead; it
    deactivates one that has ended; and the scheduler asks for it exactly when the occurrence is due.
   */
  lemma GenerateExactly(s: Schedule, now: int)
    ensures var t, ahead := Step(s, Generate(now)), s.endDate.Some? ==> s.endDate.value > now;
      && (ConsumedAt(s, Generate(now)) == if s.isActive && ahead then [s.nextOccurrence] else [])
      && t == s.(isActive := t.isActive, nextOccurrence := t.nextOccurrence)
      && (t.isActive <==> s.isActive && ahead)
      && (if s.isActive && ahead then OneStepOn(s.frequency, s.nextOccurrence, t.nextOccurrence)
          else t.nextOccurrence == s.nextOccurrence)
      && (s.IsDue(now) <==> s.isActive && ahead && s.nextOccurrence <= now)
  {
    NextIsOneStepOn(s.nextOccurrence, s.frequency);
  }

  /** A pause only deactivates; a resume of a paused split restarts one step from now. */
  lemma PauseAndResumeExactly(s: Schedule, now: int)
    ensures Step(s, Pause(now)) == s.(isActive := false)
    ensures s.isActive ==> Step(s, Resume(now)) == s
    ensures !s.isActive ==>
      var t := Step(s, Resume(now));
      t == s.(isActive := true, nextOccurrence := t.nextOccurrence) && OneStepOn(s.frequency, now, t.nextOccurrence)
  {
    NextIsOneStepOn(now, s.frequency);
  }

  // ----- No occurrence is consumed twice -----

  function Consumed(s: Schedule, run: seq<Event>): seq<int>
    decreases run
  {
    if run == [] then [] else ConsumedAt(s, run[0]) + Consumed(Step(s, run[0]), run[1..])
  }

  predicate Increasing(last: int, occurrences: seq<int>)
    decreases occurrences
  {
    occurrences == [] || (last < occurrences[0] && Increasing(occurrences[0], occurrences[1..]))
  }

  /** Every effective resume restarts after the last consumed occurrence. */
  predicate ResumesAhead(s: Schedule, run: seq<Event>, last: int)
    decreases run
  {
    run == [] ||
    var e := run[0];
    var consumed := ConsumedAt(s, e);
    && (e.Resume? && !s.isActive ==> last < CalculateNextOccurrence(e.now, s.frequency))
    && ResumesAhead(Step(s, e), run[1..], if consumed == [] then last else consumed[0])
  }

  /** The scheduler's runs: the clock does not go back and only due splits are generated. */
  predicate Scheduled(s: Schedule, run: seq<Event>, clock: int)
    decreases run
  {
    run == [] ||
    (&& clock <= run[0].now
     && (run[0].Generate? ==> s.IsDue(run[0].now))
     && Scheduled(Step(s, run[0]), run[1..], run[0].now))
  }

  lemma {:induction false} ConsumedIncreases(s: Schedule, run: seq<Event>, last: int)
    requires last < s.nextOccurrence && ResumesAhead(s, run, last)
    ensures Increasing(last, Consumed(s, run))
    decreases run
  {
    if run != [] {
      var e, consumed, t := run[0], ConsumedAt(s, run[0]), Step(s, run[0]);
      NextIsLater(s.nextOccurrence, s.frequency);
      ConsumedIncreases(t, run[1..], if consumed == [] then last else consumed[0]);
      var rest := Consumed(t, run[1..]);
      assert consumed == [] ==> consumed + rest == rest;
      assert consumed != [] ==> (consumed + rest)[1..] == rest;
    }
  }

  lemma {:induction false} ScheduledResumesAhead(s: Schedule, run: seq<Event>, last: int, clock: int)
    requires Scheduled(s, run, clock) && last <= clock
    ensures ResumesAhead(s, run, last)
    decreases run
  {
    if run != [] {
      var e, consumed := run[0], ConsumedAt(s, run[0]);
      NextIsLater(e.now, s.frequency);
      ScheduledResumesAhead(Step(s, e), run[1..], if consumed == [] then last else consumed[0], e.now);
    }
  }

  /** Under the scheduler, through any pauses and resumes, occurrences strictly increase. */
  lemma ScheduledConsumesOnce(s: Schedule, run: seq<Event>, last: int, clock: int)
    requires last < s.nextOccurrence && last <= clock && Scheduled(s, run, clock)
    ensures Increasing(last, Consumed(s, run))
  {
    ScheduledResumesAhead(s, run, last, clock);
    ConsumedIncreases(s, run, last);
  }

  function Schedules(s: Schedule, run: seq<Event>): Schedule
    decreases run
  {
    if run == [] then s else Schedules(Step(s, run[0]), run[1..])
  }

  lemma {:induction false} IterateFirst(next: int -> int, date: int, n: nat)
    ensures Iterate(next, next(date), n) == Iterate(next, date, n + 1)
  {
    if n > 0 {
      IterateFirst(next, date, n - 1);
    }
  }

  /** Without a resume, a step takes the next occurrence forward if it consumes one and keeps it otherwise. */
  lemma StepConsumes(s: Schedule, e: Event)
    requires !e.Resume?
    ensures var t := Step(s, e);
      && t.frequency == s.frequency
      && ConsumedAt(s, e) == (if t.nextOccurrence == s.nextOccurrence then [] else [s.nextOccurrence])
      && (ConsumedAt(s, e) != [] ==> t.nextOccurrence == Next(s.frequency)(s.nextOccurrence))
  {
    NextIsLater(s.nextOccurrence, s.frequency);
  }

  /**
    Between two resumes, whatever pauses and skipped generations there are, the occurrences consumed
    are the iterates of the calendar step from the first one on, and the next one follows them.
   */
  lemma {:induction false} ConsumesIterates(s: Schedule, run: seq<Event>, i: nat)
    requires NoResume(run) && i <= |Consumed(s, run)|
    ensures (if i < |Consumed(s, run)| then Consumed(s, run)[i] else Schedules(s, run).nextOccurrence)
      == Iterate(Next(s.frequency), s.nextOccurrence, i)
    decreases run
  {
    if run != [] {
      assert run[0] in run;
      var consumed, t := ConsumedAt(s, run[0]), Step(s, run[0]);
      StepConsumes(s, run[0]);
      if consumed == [] {
        assert Consumed(s, run) == Consumed(t, run[1..]);
        ConsumesIterates(t, run[1..], i);
      } else if i > 0 {
        assert Consumed(s, run) == consumed + Consumed(t, run[1..]);
        ConsumesIterates(t, run[1..], i - 1);
        IterateFirst(Next(s.frequency), s.nextOccurrence, i - 1);
      }
    }
  }

  /** So generation i of a split is 7i or 14i days after the first, or on its date i months later. */
  lemma GenerationDates(s: Schedule, run: seq<Event>, i: nat)
    requires NoResume(run) && i < |Consumed(s, run)|
    ensures s.frequency == Weekly ==> Consumed(s, run)[i] == s.nextOccurrence + i * (7 * MS_PER_DAY)
    ensures s.frequency == Biweekly ==> Consumed(s, run)[i] == s.nextOccurrence + i * (14 * MS_PER_DAY)
    ensures s.frequency == Monthly && DateOf(DayPart(s.nextOccurrence)) <= 28 ==>
      SameDateMonthsLater(s.nextOccurrence, Consumed(s, run)[i], i)
  {
    ConsumesIterates(s, run, i);
    WeeklyGenerations(s.nextOccurrence, i);
    if DateOf(DayPart(s.nextOccurrence)) <= 28 {
      MonthlyGenerations(s.nextOccurrence, i);
    }
  }

  predicate NoResume(run: seq<Event>) {
    forall e <- run :: !e.Resume?
  }

  /** Exactly when a resume is safe: every continuation up to the next resume keeps increasing. */
  lemma ResumeKeepsOrder(s: Schedule, now: int, last: int)
    requires !s.isActive
    ensures (forall run :: NoResume(run) ==> Increasing(last, Consumed(Step(s, Resume(now)), run)))
      <==> last < CalculateNextOccurrence(now, s.frequency)
  {
    var t := Step(s, Resume(now));
    if last < CalculateNextOccurrence(now, s.frequency) {
      forall run | NoResume(run)
        ensures Increasing(last, Consumed(t, run))
      {
        NoResumeIsAhead(t, run, last);
        ConsumedIncreases(t, run, last);
      }
    } else {
      var e := Generate(if s.endDate.Some? then s.endDate.value - 1 else 0);
      ConsumedFirst(t, e, []);
      assert NoResume([e] + []) && Consumed(t, [e] + []) == [t.nextOccurrence];
    }
  }

  lemma {:induction false} NoResumeIsAhead(s: Schedule, run: seq<Event>, last: int)
    requires NoResume(run)
    ensures ResumesAhead(s, run, last)
    decreases run
  {
    if run != [] {
      var consumed := ConsumedAt(s, run[0]);
      NoResumeIsAhead(Step(s, run[0]), run[1..], if consumed == [] then last else consumed[0]);
    }
  }

  predicate Resumes(s: Schedule, e: Event) {
    e.Resume? && !s.isActive
  }

  /** An occurrence is consumed before the next resume that takes effect. */
  predicate ConsumesBeforeResume(s: Schedule, run: seq<Event>)
    decreases run
  {
    run != [] &&
    (ConsumedAt(s, run[0]) != [] || (!Resumes(s, run[0]) && ConsumesBeforeResume(Step(s, run[0]), run[1..])))
  }

  /** Every resume that a generation follows before the next one restarts after the last consumed occurrence. */
  predicate UsedResumesAhead(s: Schedule, run: seq<Event>, last: int)
    decreases run
  {
    run == [] ||
    var e := run[0];
    var consumed, t := ConsumedAt(s, e), Step(s, e);
    && (Resumes(s, e) && ConsumesBeforeResume(t, run[1..]) ==> last < CalculateNextOccurrence(e.now, s.frequency))
    && UsedResumesAhead(t, run[1..], if consumed == [] then last else consumed[0])
  }

  lemma StepAfterConsuming(s: Schedule, e: Event)
    ensures Resumes(s, e) ==> Step(s, e).nextOccurrence == CalculateNextOccurrence(e.now, s.frequency)
    ensures !Resumes(s, e) && ConsumedAt(s, e) == [] ==> Step(s, e).nextOccurrence == s.nextOccurrence
    ensures ConsumedAt(s, e) != [] ==> ConsumedAt(s, e) == [s.nextOccurrence] && !Resumes(s, e)
    ensures ConsumedAt(s, e) != [] ==> Step(s, e).nextOccurrence > s.nextOccurrence
  {
    NextIsLater(s.nextOccurrence, s.frequency);
  }

  lemma {:induction false} IncreasesFrom(s: Schedule, run: seq<Event>, last: int)
    ensures Increasing(last, Consumed(s, run)) <==>
      (ConsumesBeforeResume(s, run) ==> last < s.nextOccurrence) && UsedResumesAhead(s, run, last)
    decreases run
  {
    if run != [] {
      var consumed, t := ConsumedAt(s, run[0]), Step(s, run[0]);
      var rest := Consumed(t, run[1..]);
      StepAfterConsuming(s, run[0]);
      IncreasesFrom(t, run[1..], if consumed == [] then last else consumed[0]);
      assert consumed == [] ==> consumed + rest == rest;
      assert consumed != [] ==> (consumed + rest)[1..] == rest;
    }
  }

  /**
    Over any run at all, manual generations included, the occurrences consumed strictly increase if
    and only if every resume that is used restarts after the last one consumed before it.
   */
  lemma IncreasesExactly(s: Schedule, run: seq<Event>, last: int)
    requires last < s.nextOccurrence
    ensures Increasing(last, Consumed(s, run)) <==> UsedResumesAhead(s, run, last)
  {
    IncreasesFrom(s, run, last);
  }

  /** A manual generation ahead of time followed by a pause and a resume consumes an occurrence twice. */
  lemma EarlyGenerationRepeats(now: int)
    ensures var week := 7 * MS_PER_DAY;
      Consumed(Schedule(Weekly, now + week, None, true), [Generate(now), Pause(now), Resume(now), Generate(now)])
        == [now + week, now + week]
  {
    var week := 7 * MS_PER_DAY;
    AddDaysAdds(now, 7);
    var s0 := Schedule(Weekly, now + week, None, true);
    var s1 := Step(s0, Generate(now));
    var s2 := Step(s1, Pause(now));
    assert Step(s2, Resume(now)) == s0;
    ConsumedFirst(s0, Generate(now), []);
    ConsumedFirst(s2, Resume(now), [Generate(now)]);
    ConsumedFirst(s1, Pause(now), [Resume(now)] + [Generate(now)]);
    ConsumedFirst(s0, Generate(now), [Pause(now)] + ([Resume(now)] + [Generate(now)]));
    assert [Generate(now)] + ([Pause(now)] + ([Resume(now)] + [Generate(now)]))
      == [Generate(now), Pause(now), Resume(now), Generate(now)];
  }

  lemma ConsumedFirst(s: Schedule, e: Event, rest: seq<Event>)
    ensures Consumed(s, [e] + rest) == ConsumedAt(s, e) + Consumed(Step(s, e), rest)
  {
  }
}
