/** The parallel nonce search: workers stride over the 32-bit nonces and share a
    flag and a result cell. Every atomic access is one step of a state machine,
    so a schedule is any sequence of worker numbers. */
module Grinder {
  import opened Arithmetic
  import opened Bits

  /** Where a worker stands: about to load the flag, to check its nonce, to swap
      the flag, to store its nonce, or done. */
  datatype Phase = Loading | Checking | Swapping | Storing | Returned

  datatype Worker = Worker(phase: Phase, nonce: nat)

  /** The shared cells; `stored` is the history of stores into the result cell. */
  datatype State = State(workers: seq<Worker>, found: bool, proposed: nat, stored: seq<nat>)

  /** How many workers there are, and which nonces meet the target. */
  datatype Job = Job(count: nat, meets: nat -> bool)

  predicate ValidJob(job: Job) { 1 <= job.count <= U32_MAX }

  function Start(job: Job): (s: State)
    ensures |s.workers| == job.count
  {
    State(seq(job.count, (w: nat) => Worker(Loading, w)), false, 0, [])
  }

  /** One atomic step of worker `w`; a returned worker does nothing. */
  function Step(job: Job, s: State, w: nat): (r: State)
    requires w < |s.workers|
    ensures |r.workers| == |s.workers|
  {
    var me := s.workers[w];
    match me.phase
    case Loading =>
      s.(workers := s.workers[w := me.(phase := if s.found then Returned else Checking)])
    case Checking =>
      if job.meets(me.nonce) then s.(workers := s.workers[w := me.(phase := Swapping)])
      else if me.nonce > U32_MAX - job.count then s.(workers := s.workers[w := me.(phase := Returned)])
      else s.(workers := s.workers[w := Worker(Loading, me.nonce + job.count)])
    case Swapping =>
      s.(workers := s.workers[w := me.(phase := if s.found then Returned else Storing)], found := true)
    case Storing =>
      s.(workers := s.workers[w := me.(phase := Returned)], proposed := me.nonce, stored := s.stored + [w])
    case Returned => s
  }

  // ----- What every step keeps -----

  /** No nonce of worker `w`'s stride below `limit` meets the target. */
  ghost predicate Tried(job: Job, w: nat, limit: nat)
    requires job.count > 0
  {
    forall n: nat :: n < limit && n % job.count == w ==> !job.meets(n)
  }

  ghost predicate WorkerInv(job: Job, s: State, w: nat)
    requires job.count > 0 && w < |s.workers|
  {
    var me := s.workers[w];
    && me.nonce <= U32_MAX && me.nonce % job.count == w && Tried(job, w, me.nonce)
    && (me.phase.Swapping? || me.phase.Storing? ==> job.meets(me.nonce))
    && (me.phase.Returned? ==> s.found || Tried(job, w, U32_MAX + 1))
    && (me.phase.Storing? ==> s.found && s.stored == [])
  }

  /** At most one worker is about to store, or one has stored. */
  ghost predicate OneWinner(job: Job, s: State) {
    && (forall v, w :: 0 <= v < w < |s.workers| ==>
          !(s.workers[v].phase.Storing? && s.workers[w].phase.Storing?))
    && (s.stored != [] ==> |s.stored| == 1 && s.found && s.proposed <= U32_MAX && job.meets(s.proposed))
    && (s.found && s.stored == [] ==> exists w :: 0 <= w < |s.workers| && s.workers[w].phase.Storing?)
  }

  ghost predicate Inv(job: Job, s: State) {
    && ValidJob(job) && |s.workers| == job.count
    && (forall w :: 0 <= w < job.count ==> WorkerInv(job, s, w))
    && OneWinner(job, s)
  }

  lemma StartInv(job: Job)
    requires ValidJob(job)
    ensures Inv(job, Start(job))
  {
    hide Tried;
    var s := Start(job);
    forall w | 0 <= w < job.count ensures WorkerInv(job, s, w) {
      StartTried(job, w);
    }
  }

  lemma StartTried(job: Job, w: nat)
    requires w < job.count
    ensures Tried(job, w, w) && w % job.count == w
  {
    DivisionUnique(w, job.count, 0, w);
    forall n: nat | n < w ensures n % job.count == n {
      DivisionUnique(n, job.count, 0, n);
    }
  }

  /** After a failed check the stride is tried up to its next nonce. */
  lemma TriedFurther(job: Job, w: nat, nonce: nat)
    requires job.count > 0 && nonce % job.count == w && Tried(job, w, nonce) && !job.meets(nonce)
    ensures Tried(job, w, nonce + job.count)
  {
    forall n: nat | n < nonce + job.count && n % job.count == w ensures !job.meets(n) {
      if n > nonce {
        CongruentApart(nonce, n, job.count);
      }
    }
  }

  lemma OwnStep(job: Job, s: State, w: nat)
    requires Inv(job, s) && w < job.count
    ensures WorkerInv(job, Step(job, s, w), w)
  {
    var me := s.workers[w];
    assert WorkerInv(job, s, w);
    if me.phase.Checking? && !job.meets(me.nonce) {
      TriedFurther(job, w, me.nonce);
      ModOfSum(me.nonce, job.count);
      if me.nonce > U32_MAX - job.count {
        assert Tried(job, w, U32_MAX + 1);
      }
    }
  }

  lemma StepInv(job: Job, s: State, w: nat)
    requires Inv(job, s) && w < job.count
    ensures Inv(job, Step(job, s, w))
  {
    hide Tried;
    var r := Step(job, s, w);
    OwnStep(job, s, w);
    forall v | 0 <= v < job.count ensures WorkerInv(job, r, v) {
      assert WorkerInv(job, s, v);
      if v != w {
        assert r.workers[v] == s.workers[v];
      }
    }
    StepOneWinner(job, s, w);
  }

  lemma StepOneWinner(job: Job, s: State, w: nat)
    requires Inv(job, s) && w < job.count
    ensures OneWinner(job, Step(job, s, w))
  {
    hide Tried;
    var me, r := s.workers[w], Step(job, s, w);
    assert WorkerInv(job, s, w);
    if r.found && r.stored == [] {
      if s.found {
        var v :| 0 <= v < |s.workers| && s.workers[v].phase.Storing?;
        assert v != w;
        assert r.workers[v].phase.Storing?;
      } else {
        assert r.workers[w].phase.Storing?;
      }
    }
    forall v, u | 0 <= v < u < |r.workers| ensures !(r.workers[v].phase.Storing? && r.workers[u].phase.Storing?) {
      assert WorkerInv(job, s, v) && WorkerInv(job, s, u);
      assert !(s.workers[v].phase.Storing? && s.workers[u].phase.Storing?);
    }
  }

  // ----- Schedules -----

  predicate ValidSchedule(job: Job, schedule: seq<nat>) {
    forall i :: 0 <= i < |schedule| ==> schedule[i] < job.count
  }

  function Run(job: Job, schedule: seq<nat>): (s: State)
    requires ValidSchedule(job, schedule)
    ensures |s.workers| == job.count
  {
    if schedule == [] then Start(job)
    else Step(job, Run(job, schedule[..|schedule| - 1]), schedule[|schedule| - 1])
  }

  lemma {:induction false} RunInv(job: Job, schedule: seq<nat>)
    requires ValidJob(job) && ValidSchedule(job, schedule)
    ensures Inv(job, Run(job, schedule))
  {
    hide Inv, Step;
    if schedule == [] {
      StartInv(job);
    } else {
      RunInv(job, schedule[..|schedule| - 1]);
      StepInv(job, Run(job, schedule[..|schedule| - 1]), schedule[|schedule| - 1]);
    }
  }

  predicate AllReturned(s: State) {
    forall w :: 0 <= w < |s.workers| ==> s.workers[w].phase.Returned?
  }

  ghost predicate Satisfiable(job: Job) {
    exists n: nat :: n <= U32_MAX && job.meets(n)
  }

  /** Once all workers have returned, the flag tells whether any 32-bit nonce meets
      the target, and if so the result cell holds one, stored exactly once. */
  lemma FinalState(job: Job, s: State)
    requires Inv(job, s) && AllReturned(s)
    ensures s.found <==> Satisfiable(job)
    ensures s.found ==> s.proposed <= U32_MAX && job.meets(s.proposed) && |s.stored| == 1
  {
    if !s.found {
      forall n: nat | n <= U32_MAX ensures !job.meets(n) {
        var w := n % job.count;
        assert WorkerInv(job, s, w);
        assert Tried(job, w, U32_MAX + 1);
      }
    }
  }

  /** Every schedule that lets all workers return answers correctly. */
  lemma EveryScheduleAnswers(job: Job, schedule: seq<nat>)
    requires ValidJob(job) && ValidSchedule(job, schedule) && AllReturned(Run(job, schedule))
    ensures var s := Run(job, schedule);
      && (s.found <==> Satisfiable(job))
      && (s.found ==> s.proposed <= U32_MAX && job.meets(s.proposed) && |s.stored| == 1)
  {
    hide Inv, AllReturned, Satisfiable;
    RunInv(job, schedule);
    FinalState(job, Run(job, schedule));
  }

  // ----- Termination -----

  function Rank(w: Worker): nat
  {
    var left := if w.nonce <= U32_MAX then U32_MAX - w.nonce else 0;
    match w.phase
    case Loading => 2 * left + 4
    case Checking => 2 * left + 3
    case Swapping => 2
    case Storing => 1
    case Returned => 0
  }

  function Work(workers: seq<Worker>): nat {
    if workers == [] then 0 else Rank(workers[0]) + Work(workers[1..])
  }

  lemma {:induction false} WorkUpdate(workers: seq<Worker>, w: nat, me: Worker)
    requires w < |workers|
    ensures Work(workers[w := me]) == Work(workers) - Rank(workers[w]) + Rank(me)
  {
    hide Rank;
    if w == 0 {
      assert workers[0 := me][1..] == workers[1..];
    } else {
      WorkUpdate(workers[1..], w - 1, me);
      assert workers[w := me][1..] == workers[1..][w - 1 := me];
    }
  }

  /** Every step of a worker that has not returned makes progress. */
  lemma StepProgress(job: Job, s: State, w: nat)
    requires Inv(job, s) && w < job.count && !s.workers[w].phase.Returned?
    ensures Work(Step(job, s, w).workers) < Work(s.workers)
  {
    hide Tried, Work;
    var r := Step(job, s, w);
    assert WorkerInv(job, s, w);
    WorkUpdate(s.workers, w, r.workers[w]);
    assert s.workers[w := r.workers[w]] == r.workers;
  }

  /** A schedule that only runs workers that have not returned. */
  predicate Busy(job: Job, schedule: seq<nat>)
    requires ValidSchedule(job, schedule)
  {
    schedule == [] ||
    var rest, w := schedule[..|schedule| - 1], schedule[|schedule| - 1];
    Busy(job, rest) && !Run(job, rest).workers[w].phase.Returned?
  }

  /** No schedule keeps the workers busy forever: its length is bounded. */
  lemma {:induction false} SchedulesEnd(job: Job, schedule: seq<nat>)
    requires ValidJob(job) && ValidSchedule(job, schedule) && Busy(job, schedule)
    ensures |schedule| + Work(Run(job, schedule).workers) <= Work(Start(job).workers)
  {
    hide Inv, Step, Work, Start;
    if schedule != [] {
      var rest, w := schedule[..|schedule| - 1], schedule[|schedule| - 1];
      SchedulesEnd(job, rest);
      RunInv(job, rest);
      StepProgress(job, Run(job, rest), w);
    }
  }

  /** The search under an arbitrary scheduler: it always ends, with a nonce that
      meets the target exactly when there is one. */
  method Grind(job: Job) returns (nonce: Option<nat>)
    requires ValidJob(job)
    ensures nonce.Some? <==> Satisfiable(job)
    ensures nonce.Some? ==> nonce.value <= U32_MAX && job.meets(nonce.value)
  {
    hide Inv, Step, Work, Satisfiable, Start;
    var s := Start(job);
    StartInv(job);
    var w: Option<nat> := NextActive(s);
    while w.Some?
      invariant Inv(job, s) && |s.workers| == job.count
      invariant w.Some? ==> 0 <= w.value < job.count && !s.workers[w.value].phase.Returned?
      invariant w.None? ==> AllReturned(s)
      decreases Work(s.workers)
    {
      StepInv(job, s, w.value);
      StepProgress(job, s, w.value);
      s := Step(job, s, w.value);
      w := NextActive(s);
    }
    FinalState(job, s);
    return if s.found then Some(s.proposed) else None;
  }

  /** Any worker that has not returned. */
  method NextActive(s: State) returns (w: Option<nat>)
    ensures w.Some? ==> w.value < |s.workers| && !s.workers[w.value].phase.Returned?
    ensures w.None? ==> AllReturned(s)
  {
    if exists i :: 0 <= i < |s.workers| && !s.workers[i].phase.Returned? {
      var i :| 0 <= i < |s.workers| && !s.workers[i].phase.Returned?;
      return Some(i);
    }
    return None;
  }
}
