/**
  The bounded pool of OCR workers and the scans that borrow from it.

  A scan acquires a worker, works outside the pool, and releases the worker on success and on
  failure alike. Scans interleave at these two calls, so a run is a sequence of them.
 */
module OcrWorkerPool {
  import opened Options
  import opened Sums

  type Worker = nat
  type Scan = nat

  /** The pool's lists, with who holds which worker. */
  datatype State = State(
    workers: seq<Worker>,
    available: seq<Worker>,
    queue: seq<Scan>,
    held: map<Scan, Worker>)

  /** `Start` is the acquire of a scan, `Finish` the release in its `finally`. */
  datatype Event = Start(scan: Scan) | Finish(scan: Scan)

  function Initial(workers: seq<Worker>): State {
    State(workers, workers, [], map[])
  }

  predicate Enabled(s: State, e: Event) {
    match e
    case Start(c) => c !in s.held && c !in s.queue
    case Finish(c) => c in s.held
  }

  function Acquired(s: State, c: Scan): State {
    if s.available != [] then
      var last := |s.available| - 1;
      s.(available := s.available[..last], held := s.held[c := s.available[last]])
    else
      s.(queue := s.queue + [c])
  }

  function Released(s: State, c: Scan): State
    requires c in s.held
  {
    var rest := s.held - {c};
    if s.queue != [] then s.(queue := s.queue[1..], held := rest[s.queue[0] := s.held[c]])
    else s.(available := s.available + [s.held[c]], held := rest)
  }

  function Step(s: State, e: Event): State
    requires Enabled(s, e)
  {
    match e
    case Start(c) => Acquired(s, c)
    case Finish(c) => Released(s, c)
  }

  predicate IsRun(s: State, run: seq<Event>)
    decreases run
  {
    run == [] || (Enabled(s, run[0]) && IsRun(Step(s, run[0]), run[1..]))
  }

  function Final(s: State, run: seq<Event>): State
    requires IsRun(s, run)
    decreases run
  {
    if run == [] then s else Final(Step(s, run[0]), run[1..])
  }

  // ----- The pool as the service keeps it -----

  class Pool {
    var workers: seq<Worker>
    var available: seq<Worker>
    var queue: seq<Scan>
    var initialized: bool
    ghost var held: map<Scan, Worker>

    ghost function Abs(): State
      reads this
    {
      State(workers, available, queue, held)
    }

    constructor ()
      ensures !initialized && Abs() == Initial([])
    {
      workers, available, queue, initialized, held := [], [], [], false, map[];
    }

    /** `created` are the workers that the library creates, two unless a size is given. */
    method Initialize(poolSize: Option<nat>, created: seq<Worker>)
      requires !initialized ==> queue == [] && held == map[]
      requires |created| == if poolSize.Some? then poolSize.value else 2
      modifies this
      ensures initialized
      ensures if old(initialized) then Abs() == old(Abs()) else Abs() == Initial(created)
    {
      if initialized {
        return;
      }
      workers := created;
      available := created;
      initialized := true;
    }

    /** None: all workers are busy and the scan waits in the queue. */
    method Acquire(c: Scan) returns (worker: Option<Worker>)
      requires Enabled(Abs(), Start(c))
      modifies this
      ensures Abs() == Step(old(Abs()), Start(c))
      ensures worker == if c in held then Some(held[c]) else None
      ensures old(available) == [] ==> worker == None && available == [] && queue == old(queue) + [c]
      ensures old(available) != [] ==>
        && worker == Some(old(available)[|old(available)| - 1])
        && available == old(available)[..|old(available)| - 1] && queue == old(queue)
      ensures initialized == old(initialized)
    {
      if available != [] {
        worker := Some(available[|available| - 1]);
        available := available[..|available| - 1];
        held := held[c := worker.value];
      } else {
        worker := None;
        queue := queue + [c];
      }
    }

    /** Hands the worker to the longest waiting scan, which is returned, or back to the pool. */
    method Release(worker: Worker, ghost c: Scan) returns (next: Option<Scan>)
      requires c in held && held[c] == worker
      requires forall d <- queue :: d !in held
      modifies this
      ensures Abs() == Step(old(Abs()), Finish(c))
      ensures next == if old(queue) == [] then None else Some(old(queue)[0])
      ensures next.Some? ==> next.value in held && held[next.value] == worker
      ensures old(queue) == [] ==> queue == [] && available == old(available) + [worker]
      ensures old(queue) != [] ==> queue == old(queue)[1..] && available == old(available)
      ensures initialized == old(initialized)
    {
      held := held - {c};
      if queue != [] {
        next := Some(queue[0]);
        queue := queue[1..];
        held := held[next.value := worker];
      } else {
        next := None;
        available := available + [worker];
      }
    }
  }

  // ----- What every run keeps -----

  /** No worker is idle twice, held twice, or both. */
  ghost predicate Exclusive(s: State) {
    && NoDuplicates(s.available)
    && (forall w, c :: w in s.available && c in s.held ==> s.held[c] != w)
    && (forall c, d :: c in s.held && d in s.held && c != d ==> s.held[c] != s.held[d])
  }

  /** The workers are the idle ones and the held ones. */
  ghost predicate Covered(s: State) {
    && (forall w <- s.available :: w in s.workers)
    && (forall c <- s.held :: s.held[c] in s.workers)
    && (forall w <- s.workers :: w !in s.available ==> exists c :: c in s.held && s.held[c] == w)
    && |s.available| + |s.held| == |s.workers|
  }

  /** Scans wait only when no worker is idle. */
  ghost predicate Queued(s: State) {
    && (s.queue != [] ==> s.available == [])
    && NoDuplicates(s.queue)
    && (forall c <- s.queue :: c !in s.held)
  }

  ghost predicate Inv(s: State) {
    Exclusive(s) && Covered(s) && Queued(s)
  }

  lemma InitialInv(workers: seq<Worker>)
    requires NoDuplicates(workers)
    ensures Inv(Initial(workers))
  {
  }

  lemma AcquireExclusive(s: State, c: Scan)
    requires Inv(s) && Enabled(s, Start(c))
    ensures Exclusive(Acquired(s, c)) && Queued(Acquired(s, c))
  {
    if s.available != [] {
      var last := |s.available| - 1;
      assert s.available[last] in s.available;
      assert forall v :: v in s.available[..last] ==> v in s.available && v != s.available[last];
    }
  }

  lemma AcquireCovers(s: State, c: Scan)
    requires Inv(s) && Enabled(s, Start(c))
    ensures Covered(Acquired(s, c))
  {
    if s.available != [] {
      var t, last := Acquired(s, c), |s.available| - 1;
      assert t.held.Keys == s.held.Keys + {c};
      forall v | v in s.workers && v !in t.available
        ensures exists d :: d in t.held && t.held[d] == v
      {
        if v == s.available[last] {
          assert t.held[c] == v;
        } else {
          assert s.available == t.available + [s.available[last]];
          var d :| d in s.held && s.held[d] == v;
          assert t.held[d] == v;
        }
      }
    }
  }

  lemma ReleaseExclusive(s: State, c: Scan)
    requires Inv(s) && c in s.held
    ensures Exclusive(Released(s, c)) && Queued(Released(s, c))
  {
    if s.queue != [] {
      assert s.queue[0] in s.queue;
      assert forall d :: d in s.queue[1..] ==> d in s.queue && d != s.queue[0];
    }
  }

  lemma ReleaseCovers(s: State, c: Scan)
    requires Inv(s) && c in s.held
    ensures Covered(Released(s, c))
  {
    var t, w := Released(s, c), s.held[c];
    assert t.held.Keys == s.held.Keys - {c} + if s.queue == [] then {} else {s.queue[0]};
    assert s.queue != [] ==> s.queue[0] in s.queue;
    if s.queue == [] {
      assert t.available[|s.available|] == w;
    }
    forall v | v in s.workers && v !in t.available
      ensures exists d :: d in t.held && t.held[d] == v
    {
      if v == w {
        assert t.held[s.queue[0]] == v;
      } else {
        assert v !in s.available;
        var d :| d in s.held && s.held[d] == v;
        assert t.held[d] == v;
      }
    }
  }

  /**
    Over any run: idle plus held is the pool size, at most that many recognitions run at once, no
    worker serves two scans, and scans wait only while no worker is idle.
   */
  lemma {:induction false} PoolSafety(s: State, run: seq<Event>)
    requires Inv(s) && IsRun(s, run)
    ensures Inv(Final(s, run)) && Final(s, run).workers == s.workers
    ensures |Final(s, run).held| <= |s.workers|
    decreases run
  {
    if run != [] {
      match run[0] {
        case Start(c) =>
          AcquireExclusive(s, c);
          AcquireCovers(s, c);
        case Finish(c) =>
          ReleaseExclusive(s, c);
          ReleaseCovers(s, c);
      }
      PoolSafety(Step(s, run[0]), run[1..]);
    }
  }

  // ----- Who is served -----

  function WaitsAt(s: State, e: Event): seq<Scan> {
    if e.Start? && s.available == [] then [e.scan] else []
  }

  function ServedAt(s: State, e: Event): seq<Scan> {
    if e.Finish? && s.queue != [] then [s.queue[0]] else []
  }

  /** The scans that had to wait, in the order in which they asked. */
  function Waited(s: State, run: seq<Event>): seq<Scan>
    requires IsRun(s, run)
    decreases run
  {
    if run == [] then [] else WaitsAt(s, run[0]) + Waited(Step(s, run[0]), run[1..])
  }

  /** The scans that got a worker out of the queue, in the order in which they got it. */
  function Served(s: State, run: seq<Event>): seq<Scan>
    requires IsRun(s, run)
    decreases run
  {
    if run == [] then [] else ServedAt(s, run[0]) + Served(Step(s, run[0]), run[1..])
  }

  function Finishes(run: seq<Event>): nat {
    if run == [] then 0 else (if run[0].Finish? then 1 else 0) + Finishes(run[1..])
  }

  lemma StepInOrder(s: State, e: Event)
    requires Enabled(s, e)
    ensures ServedAt(s, e) + Step(s, e).queue == s.queue + WaitsAt(s, e)
  {
  }

  lemma Assoc<T>(a: seq<T>, b: seq<T>, c: seq<T>)
    ensures (a + b) + c == a + (b + c)
  {
  }

  /** First in, first out: whoever was served, followed by whoever still waits, is the order of asking. */
  lemma {:induction false} ServedInOrder(s: State, run: seq<Event>)
    requires IsRun(s, run)
    ensures Served(s, run) + Final(s, run).queue == s.queue + Waited(s, run)
    decreases run
  {
    if run != [] {
      var e, t, rest := run[0], Step(s, run[0]), run[1..];
      ServedInOrder(t, rest);
      StepInOrder(s, e);
      Assoc(ServedAt(s, e), Served(t, rest), Final(t, rest).queue);
      Assoc(ServedAt(s, e), t.queue, Waited(t, rest));
      Assoc(s.queue, WaitsAt(s, e), Waited(t, rest));
    }
  }

  /** A scan at position k of the queue has its worker after k + 1 releases, whoever else comes. */
  lemma WaiterGetsWorker(s: State, run: seq<Event>, k: nat)
    requires IsRun(s, run) && k < |s.queue| && Finishes(run) > k
    ensures |Served(s, run)| > k && Served(s, run)[k] == s.queue[k]
  {
    ReleasesServe(s, run);
    ServedInOrder(s, run);
    assert (Served(s, run) + Final(s, run).queue)[k] == (s.queue + Waited(s, run))[k];
  }

  lemma {:induction false} ReleasesServe(s: State, run: seq<Event>)
    requires IsRun(s, run)
    ensures |Served(s, run)| >= if Finishes(run) < |s.queue| then Finishes(run) else |s.queue|
    decreases run
  {
    if run != [] {
      ReleasesServe(Step(s, run[0]), run[1..]);
    }
  }
}
