/**
 * The collector's worker pool as a state machine: one caller, any number of workers, one start
 * semaphore for each worker and one join semaphore.  A run is any interleaving of the atomic
 * steps of the caller's `run_on_thread_pool` and of the workers' endless loops.
 *
 * `calls` and the two `ran` fields are history: the actions the caller was asked to run, in
 * order, and those each thread has completed.
 */
module ThreadPool {
  import opened Options

  /** The address of a C function. */
  type Act = nat

  /** Where a worker is in its loop; a `Crashed` worker called the null action. */
  datatype Worker = Waiting | Woken | Inside(act: Act) | Posting | Crashed

  /** Where the caller is in `run_on_thread_pool`, if anywhere. */
  datatype Caller = Idle | Waking(act: Act, posted: nat) | Acting(act: Act) | Joining(act: Act, joined: nat)

  datatype State = State(
    action: Option<Act>,
    start: seq<nat>,
    join: nat,
    workers: seq<Worker>,
    caller: Caller,
    calls: seq<Act>,
    ran: seq<seq<Act>>,
    callerRan: seq<Act>
  )

  datatype Event =
    | Call(act: Act) | Post | Enter | Leave | Join | Return
    | Wait(w: nat) | Read(w: nat) | Finish(w: nat) | Signal(w: nat)

  /** The pool as `thread_pool_init` leaves it, with `n` workers. */
  function Initial(n: nat): (s: State) {
    State(None, seq(n, _ => 0), 0, seq(n, _ => Waiting), Idle, [], seq(n, _ => []), [])
  }

  predicate Shape(s: State, n: nat) {
    |s.start| == n && |s.workers| == n && |s.ran| == n
  }

  predicate Enabled(s: State, n: nat, e: Event)
    requires Shape(s, n)
  {
    match e
    case Call(_) => s.caller.Idle?
    case Post => s.caller.Waking? && s.caller.posted < n
    case Enter => s.caller.Waking? && s.caller.posted >= n
    case Leave => s.caller.Acting?
    case Join => s.caller.Joining? && s.caller.joined < n && s.join > 0
    case Return => s.caller.Joining? && s.caller.joined >= n
    case Wait(w) => w < n && s.workers[w].Waiting? && s.start[w] > 0
    case Read(w) => w < n && s.workers[w].Woken?
    case Finish(w) => w < n && s.workers[w].Inside?
    case Signal(w) => w < n && s.workers[w].Posting?
  }

  function Step(s: State, n: nat, e: Event): (t: State)
    requires Shape(s, n) && Enabled(s, n, e)
    ensures Shape(t, n)
  {
    match e
    case Call(act) => s.(action := Some(act), caller := Waking(act, 0), calls := s.calls + [act])
    case Post =>
      var i := s.caller.posted;
      s.(start := s.start[i := s.start[i] + 1], caller := Waking(s.caller.act, i + 1))
    case Enter => s.(caller := Acting(s.caller.act))
    case Leave => s.(caller := Joining(s.caller.act, 0), callerRan := s.callerRan + [s.caller.act])
    case Join => s.(join := s.join - 1, caller := Joining(s.caller.act, s.caller.joined + 1))
    case Return => s.(action := None, caller := Idle)
    case Wait(w) => s.(start := s.start[w := s.start[w] - 1], workers := s.workers[w := Woken])
    case Read(w) =>
      s.(workers := s.workers[w := if s.action.Some? then Inside(s.action.value) else Crashed])
    case Finish(w) =>
      s.(ran := s.ran[w := s.ran[w] + [s.workers[w].act]], workers := s.workers[w := Posting])
    case Signal(w) => s.(join := s.join + 1, workers := s.workers[w := Waiting])
  }

  /** The state after a whole run, if each of its steps was possible. */
  function Run(n: nat, events: seq<Event>): (s: Option<State>)
    ensures s.Some? ==> Shape(s.value, n)
  {
    if events == [] then Some(Initial(n)) else
    var last := |events| - 1;
    match Run(n, events[..last])
    case None => None
    case Some(s) => if Enabled(s, n, events[last]) then Some(Step(s, n, events[last])) else None
  }

  // What every reachable state satisfies.

  /** The worker has completed the current call and gone back to wait. */
  predicate Finished(worker: Worker, ran: seq<Act>, calls: seq<Act>) {
    worker.Waiting? && |ran| == |calls|
  }

  /**
   * One worker during a call: `before` are the calls already over, `act` the current one,
   * `posted` whether its start semaphore has been posted for it.
   */
  predicate WorkerInCall(worker: Worker, start: nat, ran: seq<Act>, before: seq<Act>, act: Act, posted: bool) {
    match worker
    case Waiting =>
      if ran == before then start == (if posted then 1 else 0)
      else posted && start == 0 && ran == before + [act]
    case Woken => posted && start == 0 && ran == before
    case Inside(a) => posted && start == 0 && ran == before && a == act
    case Posting => posted && start == 0 && ran == before + [act]
    case Crashed => false
  }

  predicate WorkersInCall(s: State, n: nat, before: seq<Act>, act: Act, posted: nat)
    requires Shape(s, n)
  {
    forall w | 0 <= w < n :: WorkerInCall(s.workers[w], s.start[w], s.ran[w], before, act, w < posted)
  }

  /** Between calls: nobody inside an action, nothing pending, and every call run by everyone. */
  predicate Quiet(s: State, n: nat)
    requires Shape(s, n)
  {
    && s.join == 0
    && s.callerRan == s.calls
    && (forall w | 0 <= w < n :: s.workers[w] == Waiting && s.start[w] == 0 && s.ran[w] == s.calls)
  }

  function CountFinished(workers: seq<Worker>, ran: seq<seq<Act>>, calls: seq<Act>): (c: nat)
    requires |workers| == |ran|
    ensures c <= |workers|
  {
    if workers == [] then 0 else
    var last := |workers| - 1;
    CountFinished(workers[..last], ran[..last], calls)
      + if Finished(workers[last], ran[last], calls) then 1 else 0
  }

  /** The state inside a call of `act`. */
  predicate InCall(s: State, n: nat, act: Act, posted: nat, joined: nat)
    requires Shape(s, n)
  {
    && s.action == Some(act)
    && |s.calls| > 0 && s.calls[|s.calls| - 1] == act
    && WorkersInCall(s, n, s.calls[..|s.calls| - 1], act, posted)
    && s.join + joined == CountFinished(s.workers, s.ran, s.calls)
    && s.callerRan == if s.caller.Joining? then s.calls else s.calls[..|s.calls| - 1]
  }

  predicate Inv(s: State, n: nat)
    requires Shape(s, n)
  {
    match s.caller
    case Idle => Quiet(s, n)
    case Waking(act, posted) => posted <= n && InCall(s, n, act, posted, 0)
    case Acting(act) => InCall(s, n, act, n, 0)
    case Joining(act, joined) => joined <= n && InCall(s, n, act, n, joined)
  }

  lemma {:induction false} CountUpdate(workers: seq<Worker>, ran: seq<seq<Act>>, calls: seq<Act>, w: nat, worker: Worker, mine: seq<Act>)
    requires |workers| == |ran| && w < |workers|
    ensures CountFinished(workers[w := worker], ran[w := mine], calls)
         == CountFinished(workers, ran, calls)
            - (if Finished(workers[w], ran[w], calls) then 1 else 0)
            + (if Finished(worker, mine, calls) then 1 else 0)
  {
    var last := |workers| - 1;
    if w < last {
      CountUpdate(workers[..last], ran[..last], calls, w, worker, mine);
      assert workers[w := worker][..last] == workers[..last][w := worker];
      assert ran[w := mine][..last] == ran[..last][w := mine];
    } else {
      assert workers[w := worker][..last] == workers[..last];
      assert ran[w := mine][..last] == ran[..last];
    }
  }

  /** All workers finished exactly when the count is the number of workers. */
  lemma {:induction false} CountAll(workers: seq<Worker>, ran: seq<seq<Act>>, calls: seq<Act>)
    requires |workers| == |ran|
    ensures CountFinished(workers, ran, calls) == |workers|
       <==> forall w | 0 <= w < |workers| :: Finished(workers[w], ran[w], calls)
  {
    if workers != [] {
      var last := |workers| - 1;
      CountAll(workers[..last], ran[..last], calls);
    }
  }

  lemma {:induction false} CountNone(workers: seq<Worker>, ran: seq<seq<Act>>, calls: seq<Act>)
    requires |workers| == |ran|
    requires forall w | 0 <= w < |workers| :: !Finished(workers[w], ran[w], calls)
    ensures CountFinished(workers, ran, calls) == 0
  {
    if workers != [] {
      var last := |workers| - 1;
      CountNone(workers[..last], ran[..last], calls);
    }
  }

  lemma CallKeeps(s: State, n: nat, act: Act)
    requires Shape(s, n) && Enabled(s, n, Call(act)) && Inv(s, n)
    ensures Inv(Step(s, n, Call(act)), n)
  {
    var t := Step(s, n, Call(act));
    assert t.calls[..|t.calls| - 1] == s.calls;
    CountNone(t.workers, t.ran, t.calls);
  }

  lemma ReturnKeeps(s: State, n: nat)
    requires Shape(s, n) && Enabled(s, n, Return) && Inv(s, n)
    ensures Inv(Step(s, n, Return), n)
  {
    var before := s.calls[..|s.calls| - 1];
    assert s.calls == before + [s.caller.act];
    CountAll(s.workers, s.ran, s.calls);
    forall w | 0 <= w < n
      ensures s.workers[w] == Waiting && s.start[w] == 0 && s.ran[w] == s.calls
    {
      assert Finished(s.workers[w], s.ran[w], s.calls);
      assert WorkerInCall(s.workers[w], s.start[w], s.ran[w], before, s.caller.act, true);
    }
  }

  lemma CallerKeeps(s: State, n: nat, e: Event)
    requires Shape(s, n) && Enabled(s, n, e) && Inv(s, n)
    requires e.Enter? || e.Leave? || e.Join?
    ensures Inv(Step(s, n, e), n)
  {
    hide CountFinished, Finished, WorkerInCall;
    if e.Leave? {
      assert s.calls == s.calls[..|s.calls| - 1] + [s.caller.act];
    }
  }

  lemma PostKeeps(s: State, n: nat)
    requires Shape(s, n) && Enabled(s, n, Post) && Inv(s, n)
    ensures Inv(Step(s, n, Post), n)
  {
    hide CountFinished, Finished;
    var t := Step(s, n, Post);
    var before := s.calls[..|s.calls| - 1];
    forall w | 0 <= w < n
      ensures WorkerInCall(t.workers[w], t.start[w], t.ran[w], before, s.caller.act, w < t.caller.posted)
    {
      assert WorkerInCall(s.workers[w], s.start[w], s.ran[w], before, s.caller.act, w < s.caller.posted);
    }
  }

  lemma WorkerKeeps(s: State, n: nat, e: Event, w: nat)
    requires Shape(s, n) && Enabled(s, n, e) && Inv(s, n)
    requires e == Wait(w) || e == Read(w) || e == Finish(w) || e == Signal(w)
    ensures Inv(Step(s, n, e), n)
  {
    hide CountFinished;
    var t := Step(s, n, e);
    assert t.ran == s.ran[w := t.ran[w]];
    CountUpdate(s.workers, s.ran, s.calls, w, t.workers[w], t.ran[w]);
  }

  lemma StepKeeps(s: State, n: nat, e: Event)
    requires Shape(s, n) && Enabled(s, n, e) && Inv(s, n)
    ensures Inv(Step(s, n, e), n)
  {
    hide Inv, Step, Enabled;
    match e
    case Call(act) => CallKeeps(s, n, act);
    case Post => PostKeeps(s, n);
    case Return => ReturnKeeps(s, n);
    case Wait(w) => WorkerKeeps(s, n, e, w);
    case Read(w) => WorkerKeeps(s, n, e, w);
    case Finish(w) => WorkerKeeps(s, n, e, w);
    case Signal(w) => WorkerKeeps(s, n, e, w);
    case _ => CallerKeeps(s, n, e);
  }

  lemma {:induction false} RunKeeps(n: nat, events: seq<Event>)
    requires Run(n, events).Some?
    ensures Inv(Run(n, events).value, n)
  {
    hide Inv, Step, Enabled;
    if events == [] {
      InitialInv(n);
    } else {
      RunKeeps(n, events[..|events| - 1]);
      StepKeeps(Run(n, events[..|events| - 1]).value, n, events[|events| - 1]);
    }
  }

  lemma InitialInv(n: nat)
    ensures Inv(Initial(n), n)
  {
  }

  /** The actions passed to `run_on_thread_pool` in a run, in order. */
  function CallsOf(events: seq<Event>): (acts: seq<Act>) {
    if events == [] then [] else
    var last := |events| - 1;
    CallsOf(events[..last]) + if events[last].Call? then [events[last].act] else []
  }

  lemma {:induction false} CallsRecorded(n: nat, events: seq<Event>)
    requires Run(n, events).Some?
    ensures Run(n, events).value.calls == CallsOf(events)
  {
    if events != [] { CallsRecorded(n, events[..|events| - 1]); }
  }

  /**
   * Whenever no call is in progress, every worker and the caller have run exactly the actions
   * of all the calls, once each and in order; no worker is inside an action and every
   * semaphore is zero.
   */
  lemma EachCallRunsOnceEverywhere(n: nat, events: seq<Event>)
    requires Run(n, events).Some? && Run(n, events).value.caller == Idle
    ensures var s := Run(n, events).value;
      && s.callerRan == CallsOf(events)
      && (forall w | 0 <= w < n ::
           s.ran[w] == CallsOf(events) && s.workers[w] == Waiting && s.start[w] == 0)
      && s.join == 0
  {
    RunKeeps(n, events);
    CallsRecorded(n, events);
  }

  /** At every moment a worker is in no other action than the one being called, and none crashes. */
  lemma OnlyTheCurrentAction(n: nat, events: seq<Event>, w: nat)
    requires Run(n, events).Some? && w < n
    ensures var s := Run(n, events).value;
      && s.workers[w] != Crashed
      && (s.workers[w].Inside? ==> !s.caller.Idle? && s.workers[w].act == s.caller.act)
  {
    hide CountFinished;
    RunKeeps(n, events);
    var s := Run(n, events).value;
    if !s.caller.Idle? {
      var before := s.calls[..|s.calls| - 1];
      assert WorkerInCall(s.workers[w], s.start[w], s.ran[w], before, s.caller.act,
                          w < if s.caller.Waking? then s.caller.posted else n);
    }
  }

  // Every call returns, whatever the scheduler does.

  function WorkerRank(worker: Worker, ran: seq<Act>, calls: seq<Act>): (r: nat) {
    match worker
    case Waiting => if |ran| == |calls| then 0 else 4
    case Woken => 3
    case Inside(_) => 2
    case Posting => 1
    case Crashed => 0
  }

  function WorkersRank(workers: seq<Worker>, ran: seq<seq<Act>>, calls: seq<Act>): (r: nat)
    requires |workers| == |ran|
  {
    if workers == [] then 0 else
    var last := |workers| - 1;
    WorkersRank(workers[..last], ran[..last], calls) + WorkerRank(workers[last], ran[last], calls)
  }

  /** A bound on the steps left until the current call returns. */
  function Measure(s: State, n: nat): (m: int)
    requires Shape(s, n)
  {
    WorkersRank(s.workers, s.ran, s.calls)
      + match s.caller
        case Idle => 0
        case Waking(_, posted) => (n - posted) + n + 3
        case Acting(_) => n + 2
        case Joining(_, joined) => (n - joined) + 1
  }

  lemma {:induction false} RankUpdate(workers: seq<Worker>, ran: seq<seq<Act>>, calls: seq<Act>, w: nat, worker: Worker, mine: seq<Act>)
    requires |workers| == |ran| && w < |workers|
    ensures WorkersRank(workers[w := worker], ran[w := mine], calls)
         == WorkersRank(workers, ran, calls)
            - WorkerRank(workers[w], ran[w], calls) + WorkerRank(worker, mine, calls)
  {
    var last := |workers| - 1;
    if w < last {
      RankUpdate(workers[..last], ran[..last], calls, w, worker, mine);
      assert workers[w := worker][..last] == workers[..last][w := worker];
      assert ran[w := mine][..last] == ran[..last][w := mine];
    } else {
      assert workers[w := worker][..last] == workers[..last];
      assert ran[w := mine][..last] == ran[..last];
    }
  }

  /** Every step but the start of a call brings the current call nearer to its return. */
  lemma StepProgresses(s: State, n: nat, e: Event)
    requires Shape(s, n) && Enabled(s, n, e) && Inv(s, n) && !e.Call?
    ensures 0 <= Measure(Step(s, n, e), n) < Measure(s, n)
  {
    hide CountFinished, WorkersRank;
    var t := Step(s, n, e);
    StepKeeps(s, n, e);
    if e.Wait? || e.Read? || e.Finish? || e.Signal? {
      var w := e.w;
      assert t.ran == s.ran[w := t.ran[w]];
      RankUpdate(s.workers, s.ran, s.calls, w, t.workers[w], t.ran[w]);
      if !s.caller.Idle? {
        var before := s.calls[..|s.calls| - 1];
        assert WorkerInCall(s.workers[w], s.start[w], s.ran[w], before, s.caller.act,
                            w < if s.caller.Waking? then s.caller.posted else n);
      }
    }
  }

  /** While a call is in progress some thread can take a step. */
  lemma SomeStepEnabled(s: State, n: nat) returns (e: Event)
    requires Shape(s, n) && Inv(s, n) && !s.caller.Idle?
    ensures Enabled(s, n, e) && !e.Call?
  {
    if s.caller.Waking? {
      e := if s.caller.posted < n then Post else Enter;
    } else if s.caller.Acting? {
      e := Leave;
    } else if s.caller.joined >= n {
      e := Return;
    } else if s.join > 0 {
      e := Join;
    } else {
      CountAll(s.workers, s.ran, s.calls);
      var w: nat :| w < n && !Finished(s.workers[w], s.ran[w], s.calls);
      var before := s.calls[..|s.calls| - 1];
      assert WorkerInCall(s.workers[w], s.start[w], s.ran[w], before, s.caller.act, w < n);
      e := match s.workers[w]
           case Waiting => Wait(w)
           case Woken => Read(w)
           case Inside(_) => Finish(w)
           case _ => Signal(w);
    }
  }

  /**
   * A call cannot hang: a run that continues a reachable state without a new call is no longer
   * than the measure of that state, and if no thread can go on then the call has returned.
   */
  lemma {:induction false} CallsReturn(n: nat, events: seq<Event>, more: seq<Event>)
    requires Run(n, events).Some? && Run(n, events + more).Some?
    requires forall i | 0 <= i < |more| :: !more[i].Call?
    ensures 0 <= Measure(Run(n, events + more).value, n) <= Measure(Run(n, events).value, n) - |more|
    ensures (forall e: Event | !e.Call? :: !Enabled(Run(n, events + more).value, n, e))
       <==> Run(n, events + more).value.caller == Idle
  {
    hide Inv, Step, Measure;
    var s := Run(n, events + more).value;
    RunKeeps(n, events + more);
    if s.caller != Idle {
      var e := SomeStepEnabled(s, n);
    } else {
      IdleWaits(s, n);
    }
    if more == [] {
      assert events + more == events;
      MeasureNat(s, n);
    } else {
      var last := |more| - 1;
      assert (events + more)[..|events + more| - 1] == events + more[..last];
      CallsReturn(n, events, more[..last]);
      RunKeeps(n, events + more[..last]);
      StepProgresses(Run(n, events + more[..last]).value, n, more[last]);
    }
  }

  lemma IdleWaits(s: State, n: nat)
    requires Shape(s, n) && Inv(s, n) && s.caller == Idle
    ensures forall e: Event | !e.Call? :: !Enabled(s, n, e)
  {
  }

  lemma MeasureNat(s: State, n: nat)
    requires Shape(s, n) && Inv(s, n)
    ensures Measure(s, n) >= 0
  {
  }
}
