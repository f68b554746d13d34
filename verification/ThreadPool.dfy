/** threadpool/threadpool.h: any number of workers, any number of threads in append, and one in stop(),
as interleaved steps.  A step is a stretch of code that touches shared state once. */
module ThreadPool {
  import opened Counting

  /** run().  Test to Popping hold the mutex: Test is about to evaluate the predicate of wait, WillSleep
      found it false, Passed found it true, Popping has seen that it must not leave. */
  datatype Worker = Ready | Test | WillSleep | Asleep | Passed | Popping | Running(request: nat) | Exited

  /** append() and append_p().  Locked and Pushed hold the mutex. */
  datatype Producer = Idle | WantLock(request: nat) | Locked(request: nat) | Pushed | NeedNotify

  /** stop(): m_stop set, notify_all called, all workers joined. */
  datatype Stopper = Open | Flagged | Notified | Joined

  /** `accepted` and `taken` are the requests append accepted and the workers took, in order; `inFlight` are
      the appends between their look at m_stop and the mutex when m_stop was set, `late` the workers between
      predicate and sleep when notify_all was called. */
  datatype State = State(workers: seq<Worker>, producers: seq<Producer>, locked: bool, queue: seq<nat>,
                         stopper: Stopper, accepted: seq<nat>, taken: seq<nat>, inFlight: nat, late: nat)

  predicate Stop(s: State) {
    !s.stopper.Open?
  }

  function Initial(workers: nat, producers: nat): State {
    State(seq(workers, i => Ready), seq(producers, i => Idle), false, [], Open, [], [], 0, 0)
  }

  datatype Step =
    | Acquire(w: nat) | Evaluate(w: nat) | Sleep(w: nat) | Spurious(w: nat) | Decide(w: nat) | Pop(w: nat) | Finish(w: nat)
    | Append(p: nat, request: nat) | Lock(p: nat) | Push(p: nat) | Unlock(p: nat) | NotifyOne(p: nat, woken: nat)
    | SetStop | NotifyAll | Join

  ghost predicate At(s: State, w: nat, pc: Worker) {
    w < |s.workers| && s.workers[w] == pc
  }

  ghost predicate Enabled(s: State, step: Step) {
    match step
    case Acquire(w) => At(s, w, Ready) && !s.locked
    case Evaluate(w) => At(s, w, Test)
    case Sleep(w) => At(s, w, WillSleep)
    case Spurious(w) => At(s, w, Asleep)
    case Decide(w) => At(s, w, Passed)
    case Pop(w) => At(s, w, Popping)
    case Finish(w) => w < |s.workers| && s.workers[w].Running?
    case Append(p, r) => p < |s.producers| && s.producers[p].Idle?
    case Lock(p) => p < |s.producers| && s.producers[p].WantLock? && !s.locked
    case Push(p) => p < |s.producers| && s.producers[p].Locked?
    case Unlock(p) => p < |s.producers| && s.producers[p].Pushed?
    case NotifyOne(p, w) =>
      p < |s.producers| && s.producers[p].NeedNotify? && (At(s, w, Asleep) || Asleep !in s.workers)
    case SetStop => s.stopper.Open?
    case NotifyAll => s.stopper.Flagged?
    case Join => s.stopper.Notified? && forall w :: 0 <= w < |s.workers| ==> s.workers[w].Exited?
  }

  function Woken(w: Worker): Worker {
    if w.Asleep? then Ready else w
  }

  function WakeAll(ws: seq<Worker>): (r: seq<Worker>)
    ensures |r| == |ws| && forall i :: 0 <= i < |ws| ==> r[i] == Woken(ws[i])
  {
    seq(|ws|, i requires 0 <= i < |ws| => Woken(ws[i]))
  }

  function Go(s: State, w: nat, to: Worker): State
    requires w < |s.workers|
  {
    s.(workers := s.workers[w := to])
  }

  function Turn(s: State, p: nat, to: Producer): State
    requires p < |s.producers|
  {
    s.(producers := s.producers[p := to])
  }

  /** One step; `max` is m_max_requests.  Front and pop of an empty queue leave everything as it is. */
  ghost function Apply(s: State, step: Step, max: nat): State
    requires Enabled(s, step)
  {
    match step
    case Acquire(w) => Go(s, w, Test).(locked := true)
    case Evaluate(w) => Go(s, w, if Stop(s) || s.queue != [] then Passed else WillSleep)
    case Sleep(w) => Go(s, w, Asleep).(locked := false)
    case Spurious(w) => Go(s, w, Ready)
    case Decide(w) => if Stop(s) && s.queue == [] then Go(s, w, Exited).(locked := false) else Go(s, w, Popping)
    case Pop(w) =>
      if s.queue == [] then s
      else Go(s, w, Running(s.queue[0])).(locked := false, queue := s.queue[1..], taken := s.taken + [s.queue[0]])
    case Finish(w) => Go(s, w, Ready)
    case Append(p, r) => if Stop(s) then s else Turn(s, p, WantLock(r))
    case Lock(p) => Turn(s, p, Locked(s.producers[p].request)).(locked := true)
    case Push(p) =>
      var r := s.producers[p].request;
      if |s.queue| >= max then Turn(s, p, Idle).(locked := false)
      else Turn(s, p, Pushed).(queue := s.queue + [r], accepted := s.accepted + [r])
    case Unlock(p) => Turn(s, p, NeedNotify).(locked := false)
    case NotifyOne(p, w) => Turn(if At(s, w, Asleep) then Go(s, w, Ready) else s, p, Idle)
    case SetStop => s.(stopper := Flagged, inFlight := Count(InFlight, s.producers))
    case NotifyAll => s.(stopper := Notified, workers := WakeAll(s.workers), late := Count(LateWorker, s.workers))
    case Join => s.(stopper := Joined)
  }

  ghost predicate ValidRun(workers: nat, producers: nat, max: nat, steps: seq<Step>)
    decreases |steps|, 0
  {
    steps == [] ||
    (var init := steps[..|steps| - 1];
     ValidRun(workers, producers, max, init) && Enabled(Run(workers, producers, max, init), steps[|steps| - 1]))
  }

  ghost function Run(workers: nat, producers: nat, max: nat, steps: seq<Step>): State
    requires ValidRun(workers, producers, max, steps)
    decreases |steps|, 1
  {
    if steps == [] then Initial(workers, producers)
    else Apply(Run(workers, producers, max, steps[..|steps| - 1]), steps[|steps| - 1], max)
  }

  // ----- who is where -----

  function HoldsLock(w: Worker): bool { w.Test? || w.WillSleep? || w.Passed? || w.Popping? }
  function ProducerHolds(p: Producer): bool { p.Locked? || p.Pushed? }
  /** Has seen m_stop unset and does not have the mutex yet. */
  function InFlight(p: Producer): bool { p.WantLock? }
  function Unpushed(p: Producer): bool { p.WantLock? || p.Locked? }
  function WillNotify(p: Producer): bool { p.Pushed? || p.NeedNotify? }
  function Sleeper(w: Worker): bool { w.Asleep? }
  function LateWorker(w: Worker): bool { w.WillSleep? }
  /** Awake and about to look at the queue, or to take from it. */
  function WillCheck(w: Worker): bool { w.Ready? || w.Test? || w.Passed? || w.Popping? }
  function Gone(w: Worker): bool { w.Exited? }

  // ----- the invariant -----

  /** The mutex has one holder or none. */
  ghost predicate Mutex(s: State) {
    Count(HoldsLock, s.workers) + Count(ProducerHolds, s.producers) == Bit(s.locked)
  }

  /** What a worker that holds the mutex has found out still holds. */
  ghost predicate Found(s: State) {
    forall w :: 0 <= w < |s.workers| ==>
      && (s.workers[w].WillSleep? ==> s.queue == [])
      && (s.workers[w].Passed? ==> Stop(s) || s.queue != [])
      && (s.workers[w].Popping? ==> s.queue != [])
      && (s.workers[w].Exited? ==> Stop(s))
  }

  ghost predicate Conserved(s: State, max: nat) {
    s.accepted == s.taken + s.queue && |s.queue| <= max
  }

  /** While somebody sleeps, every queued request has a notify to come or a worker about to look. */
  ghost predicate Covered(s: State) {
    Count(Sleeper, s.workers) > 0 ==> |s.queue| <= Count(WillNotify, s.producers) + Count(WillCheck, s.workers)
  }

  /** After stop() no append starts, and after the first worker left the queue only gets what was in flight. */
  ghost predicate Closing(s: State) {
    && (Stop(s) ==> Count(InFlight, s.producers) <= s.inFlight)
    && (Count(Gone, s.workers) > 0 ==> |s.queue| + Count(Unpushed, s.producers) <= s.inFlight)
  }

  /** After notify_all only a late worker can still be asleep, and it was alone. */
  ghost predicate Awake(s: State) {
    && s.late <= 1
    && (s.stopper.Notified? || s.stopper.Joined? ==> Count(Sleeper, s.workers) + Count(LateWorker, s.workers) <= s.late)
  }

  ghost predicate Inv(s: State, max: nat) {
    Mutex(s) && Found(s) && Conserved(s, max) && Covered(s) && Closing(s) && Awake(s)
  }

  // ----- every step keeps it -----

  lemma InitialInv(workers: nat, producers: nat, max: nat)
    ensures Inv(Initial(workers, producers), max)
  {
    var s := Initial(workers, producers);
    CountSome(HoldsLock, s.workers);
    CountSome(ProducerHolds, s.producers);
    CountSome(Sleeper, s.workers);
    CountSome(Gone, s.workers);
    CountSome(InFlight, s.producers);
  }

  /** The counts after one worker has moved. */
  lemma WorkerMoves(s: State, w: nat, to: Worker)
    requires w < |s.workers|
    ensures var t, from := s.workers[w := to], s.workers[w];
      && Count(HoldsLock, t) == Count(HoldsLock, s.workers) - Bit(HoldsLock(from)) + Bit(HoldsLock(to))
      && Count(Sleeper, t) == Count(Sleeper, s.workers) - Bit(Sleeper(from)) + Bit(Sleeper(to))
      && Count(LateWorker, t) == Count(LateWorker, s.workers) - Bit(LateWorker(from)) + Bit(LateWorker(to))
      && Count(WillCheck, t) == Count(WillCheck, s.workers) - Bit(WillCheck(from)) + Bit(WillCheck(to))
      && Count(Gone, t) == Count(Gone, s.workers) - Bit(Gone(from)) + Bit(Gone(to))
  {
    hide Count;
    CountUpdate(HoldsLock, s.workers, w, to);
    CountUpdate(Sleeper, s.workers, w, to);
    CountUpdate(LateWorker, s.workers, w, to);
    CountUpdate(WillCheck, s.workers, w, to);
    CountUpdate(Gone, s.workers, w, to);
  }

  lemma ProducerMoves(s: State, p: nat, to: Producer)
    requires p < |s.producers|
    ensures var t, from := s.producers[p := to], s.producers[p];
      && Count(ProducerHolds, t) == Count(ProducerHolds, s.producers) - Bit(ProducerHolds(from)) + Bit(ProducerHolds(to))
      && Count(InFlight, t) == Count(InFlight, s.producers) - Bit(InFlight(from)) + Bit(InFlight(to))
      && Count(Unpushed, t) == Count(Unpushed, s.producers) - Bit(Unpushed(from)) + Bit(Unpushed(to))
      && Count(WillNotify, t) == Count(WillNotify, s.producers) - Bit(WillNotify(from)) + Bit(WillNotify(to))
  {
    hide Count;
    CountUpdate(ProducerHolds, s.producers, p, to);
    CountUpdate(InFlight, s.producers, p, to);
    CountUpdate(Unpushed, s.producers, p, to);
    CountUpdate(WillNotify, s.producers, p, to);
  }

  lemma AllWake(ws: seq<Worker>)
    ensures Count(HoldsLock, WakeAll(ws)) == Count(HoldsLock, ws)
    ensures Count(Sleeper, WakeAll(ws)) == 0
    ensures Count(LateWorker, WakeAll(ws)) == Count(LateWorker, ws)
    ensures Count(Gone, WakeAll(ws)) == Count(Gone, ws)
  {
    hide Count;
    CountAll(HoldsLock, HoldsLock, WakeAll(ws), ws);
    CountAll(LateWorker, LateWorker, WakeAll(ws), ws);
    CountAll(Gone, Gone, WakeAll(ws), ws);
    CountSome(Sleeper, WakeAll(ws));
  }

  lemma LoneProducer(s: State, p: nat)
    requires Mutex(s) && p < |s.producers| && ProducerHolds(s.producers[p])
    ensures forall w :: 0 <= w < |s.workers| ==> !HoldsLock(s.workers[w])
    ensures s.locked
  {
    hide Count;
    CountSome(HoldsLock, s.workers);
    CountSome(ProducerHolds, s.producers);
  }

  lemma Lone(s: State, w: nat)
    requires Mutex(s) && w < |s.workers| && HoldsLock(s.workers[w])
    ensures forall v :: 0 <= v < |s.workers| && v != w ==> !HoldsLock(s.workers[v])
    ensures forall p :: 0 <= p < |s.producers| ==> !ProducerHolds(s.producers[p])
    ensures s.locked
  {
    hide Count;
    CountSome(HoldsLock, s.workers);
    CountSome(ProducerHolds, s.producers);
    forall v | 0 <= v < |s.workers| && v != w ensures !HoldsLock(s.workers[v]) {
      if HoldsLock(s.workers[v]) { OnlyOne(HoldsLock, s.workers, v, w); }
    }
  }

  lemma LateIsAlone(s: State)
    requires Mutex(s)
    ensures Count(LateWorker, s.workers) <= 1
  {
    LateHolds(s.workers);
  }

  lemma {:induction false} LateHolds(ws: seq<Worker>)
    ensures Count(LateWorker, ws) <= Count(HoldsLock, ws)
    decreases |ws|
  {
    if ws != [] { LateHolds(ws[1..]); }
  }

  lemma AcquireKeeps(s: State, w: nat, max: nat)
    requires Inv(s, max) && Enabled(s, Acquire(w))
    ensures Inv(Apply(s, Acquire(w), max), max)
  {
    hide Count;
    WorkerMoves(s, w, Test);
  }

  lemma EvaluateKeeps(s: State, w: nat, max: nat)
    requires Inv(s, max) && Enabled(s, Evaluate(w))
    ensures Inv(Apply(s, Evaluate(w), max), max)
  {
    hide Count;
    WorkerMoves(s, w, if Stop(s) || s.queue != [] then Passed else WillSleep);
  }

  lemma SleepKeeps(s: State, w: nat, max: nat)
    requires Inv(s, max) && Enabled(s, Sleep(w))
    ensures Inv(Apply(s, Sleep(w), max), max)
  {
    hide Count;
    WorkerMoves(s, w, Asleep);
    Lone(s, w);
  }

  lemma SpuriousKeeps(s: State, w: nat, max: nat)
    requires Inv(s, max) && Enabled(s, Spurious(w))
    ensures Inv(Apply(s, Spurious(w), max), max)
  {
    hide Count;
    WorkerMoves(s, w, Ready);
  }

  lemma DecideKeeps(s: State, w: nat, max: nat)
    requires Inv(s, max) && Enabled(s, Decide(w))
    ensures Inv(Apply(s, Decide(w), max), max)
  {
    hide Count;
    WorkerMoves(s, w, if Stop(s) && s.queue == [] then Exited else Popping);
    Lone(s, w);
    CountAll(Unpushed, InFlight, s.producers, s.producers);
  }

  lemma PopKeeps(s: State, w: nat, max: nat)
    requires Inv(s, max) && Enabled(s, Pop(w))
    ensures Inv(Apply(s, Pop(w), max), max)
  {
    hide Count;
    WorkerMoves(s, w, Running(s.queue[0]));
    Lone(s, w);
  }

  lemma FinishKeeps(s: State, w: nat, max: nat)
    requires Inv(s, max) && Enabled(s, Finish(w))
    ensures Inv(Apply(s, Finish(w), max), max)
  {
    hide Count;
    WorkerMoves(s, w, Ready);
  }

  lemma AppendKeeps(s: State, p: nat, r: nat, max: nat)
    requires Inv(s, max) && Enabled(s, Append(p, r))
    ensures Inv(Apply(s, Append(p, r), max), max)
  {
    hide Count;
    ProducerMoves(s, p, WantLock(r));
    CountSome(Gone, s.workers);
  }

  lemma LockKeeps(s: State, p: nat, max: nat)
    requires Inv(s, max) && Enabled(s, Lock(p))
    ensures Inv(Apply(s, Lock(p), max), max)
  {
    hide Count;
    ProducerMoves(s, p, Locked(s.producers[p].request));
  }

  lemma PushKeeps(s: State, p: nat, max: nat)
    requires Inv(s, max) && Enabled(s, Push(p))
    ensures Inv(Apply(s, Push(p), max), max)
  {
    hide Count;
    ProducerMoves(s, p, if |s.queue| >= max then Idle else Pushed);
    LoneProducer(s, p);
  }

  lemma UnlockKeeps(s: State, p: nat, max: nat)
    requires Inv(s, max) && Enabled(s, Unlock(p))
    ensures Inv(Apply(s, Unlock(p), max), max)
  {
    hide Count;
    ProducerMoves(s, p, NeedNotify);
  }

  lemma NotifyOneKeeps(s: State, p: nat, w: nat, max: nat)
    requires Inv(s, max) && Enabled(s, NotifyOne(p, w))
    ensures Inv(Apply(s, NotifyOne(p, w), max), max)
  {
    hide Count;
    ProducerMoves(s, p, Idle);
    if At(s, w, Asleep) { WorkerMoves(s, w, Ready); } else { CountSome(Sleeper, s.workers); }
  }

  lemma SetStopKeeps(s: State, max: nat)
    requires Inv(s, max) && Enabled(s, SetStop)
    ensures Inv(Apply(s, SetStop, max), max)
  {
    hide Count;
    CountSome(Gone, s.workers);
  }

  lemma NotifyAllKeeps(s: State, max: nat)
    requires Inv(s, max) && Enabled(s, NotifyAll)
    ensures Inv(Apply(s, NotifyAll, max), max)
  {
    hide Count;
    AllWake(s.workers);
    LateIsAlone(s);
  }

  lemma StepKeepsInv(s: State, step: Step, max: nat)
    requires Inv(s, max) && Enabled(s, step)
    ensures Inv(Apply(s, step, max), max)
  {
    hide Inv, Apply;
    match step
    case Acquire(w) => AcquireKeeps(s, w, max);
    case Evaluate(w) => EvaluateKeeps(s, w, max);
    case Sleep(w) => SleepKeeps(s, w, max);
    case Spurious(w) => SpuriousKeeps(s, w, max);
    case Decide(w) => DecideKeeps(s, w, max);
    case Pop(w) => PopKeeps(s, w, max);
    case Finish(w) => FinishKeeps(s, w, max);
    case Append(p, r) => AppendKeeps(s, p, r, max);
    case Lock(p) => LockKeeps(s, p, max);
    case Push(p) => PushKeeps(s, p, max);
    case Unlock(p) => UnlockKeeps(s, p, max);
    case NotifyOne(p, w) => NotifyOneKeeps(s, p, w, max);
    case SetStop => SetStopKeeps(s, max);
    case NotifyAll => NotifyAllKeeps(s, max);
    case Join => JoinKeeps(s, max);
  }

  lemma JoinKeeps(s: State, max: nat)
    requires Inv(s, max) && Enabled(s, Join)
    ensures Inv(Apply(s, Join, max), max)
  {
  }

  lemma {:induction false} RunInv(workers: nat, producers: nat, max: nat, steps: seq<Step>)
    requires ValidRun(workers, producers, max, steps)
    ensures Inv(Run(workers, producers, max, steps), max)
    decreases |steps|
  {
    hide Inv, Enabled, Apply;
    if steps == [] {
      InitialInv(workers, producers, max);
    } else {
      var init := steps[..|steps| - 1];
      RunInv(workers, producers, max, init);
      StepKeepsInv(Run(workers, producers, max, init), steps[|steps| - 1], max);
    }
  }

  // ----- what it means for whole runs -----

  predicate AllAsleep(s: State) {
    forall w :: 0 <= w < |s.workers| ==> s.workers[w].Asleep?
  }

  predicate NoNotifyToCome(s: State) {
    forall p :: 0 <= p < |s.producers| ==> !WillNotify(s.producers[p])
  }

  /** No lost wake-up: while anybody sleeps, the queued requests are no more than the notifies to come and
      the workers about to look; so a queue never waits with everybody asleep and no notify to come.  The
      requests taken and those still queued are those accepted, once each and in order, and the queue is
      never longer than it may be. */
  lemma NoLostWakeUp(workers: nat, producers: nat, max: nat, steps: seq<Step>)
    requires ValidRun(workers, producers, max, steps)
    ensures var s := Run(workers, producers, max, steps);
      && (Asleep in s.workers ==> |s.queue| <= Count(WillNotify, s.producers) + Count(WillCheck, s.workers))
      && (workers > 0 && AllAsleep(s) && NoNotifyToCome(s) ==> s.queue == [])
      && s.accepted == s.taken + s.queue && |s.queue| <= max
  {
    hide Count, Apply, Enabled;
    RunInv(workers, producers, max, steps);
    RunSizes(workers, producers, max, steps);
    var s := Run(workers, producers, max, steps);
    CountSome(Sleeper, s.workers);
    CountSome(WillNotify, s.producers);
    CountSome(WillCheck, s.workers);
    if workers > 0 && AllAsleep(s) {
      assert s.workers[0].Asleep?;
    }
  }

  /** What no step changes: how many threads there are and, once taken, the counts of stop(). */
  lemma StepKeepsRest(s: State, step: Step, max: nat)
    requires Enabled(s, step)
    ensures var t := Apply(s, step, max);
      && |t.workers| == |s.workers| && |t.producers| == |s.producers|
      && (Stop(s) ==> Stop(t) && t.inFlight == s.inFlight)
      && (s.stopper.Notified? || s.stopper.Joined? ==> (t.stopper.Notified? || t.stopper.Joined?) && t.late == s.late)
  {
    hide Count;
  }

  lemma {:induction false} RunSizes(workers: nat, producers: nat, max: nat, steps: seq<Step>)
    requires ValidRun(workers, producers, max, steps)
    ensures var s := Run(workers, producers, max, steps); |s.workers| == workers && |s.producers| == producers
    decreases |steps|
  {
    hide Enabled, Apply;
    if steps != [] {
      var init := steps[..|steps| - 1];
      RunSizes(workers, producers, max, init);
      StepKeepsRest(Run(workers, producers, max, init), steps[|steps| - 1], max);
    }
  }

  /** A step of a worker, or of an append or stop() that is under way. */
  predicate Progress(step: Step) {
    !step.Spurious? && !step.Append? && !step.SetStop?
  }

  lemma HolderGoesOn(s: State)
    requires Mutex(s) && s.locked
    ensures exists step :: Progress(step) && Enabled(s, step)
  {
    hide Count;
    CountSome(HoldsLock, s.workers);
    CountSome(ProducerHolds, s.producers);
    if w :| 0 <= w < |s.workers| && HoldsLock(s.workers[w]) {
      var step := match s.workers[w]
        case Test => Evaluate(w)
        case WillSleep => Sleep(w)
        case Passed => Decide(w)
        case Popping => Pop(w);
      assert Progress(step) && Enabled(s, step);
    } else {
      var p :| 0 <= p < |s.producers| && ProducerHolds(s.producers[p]);
      var step := if s.producers[p].Locked? then Push(p) else Unlock(p);
      assert Progress(step) && Enabled(s, step);
    }
  }

  predicate AllGone(s: State) {
    forall w :: 0 <= w < |s.workers| ==> s.workers[w].Exited?
  }

  /** When all workers have left, no more requests are stranded than appends were in flight when m_stop was
      set; so with none in flight each accepted request was taken, once and in order. */
  lemma ShutdownDrains(workers: nat, producers: nat, max: nat, steps: seq<Step>)
    requires workers > 0 && ValidRun(workers, producers, max, steps) && AllGone(Run(workers, producers, max, steps))
    ensures var s := Run(workers, producers, max, steps);
      && |s.queue| <= s.inFlight
      && (s.inFlight == 0 ==> s.queue == [] && s.taken == s.accepted)
  {
    hide Count, Apply, Enabled;
    RunInv(workers, producers, max, steps);
    RunSizes(workers, producers, max, steps);
    var s := Run(workers, producers, max, steps);
    assert Gone(s.workers[0]);
    CountSome(Gone, s.workers);
  }

  lemma RunAppend(workers: nat, producers: nat, max: nat, steps: seq<Step>, step: Step)
    requires ValidRun(workers, producers, max, steps) && Enabled(Run(workers, producers, max, steps), step)
    ensures ValidRun(workers, producers, max, steps + [step])
    ensures Run(workers, producers, max, steps + [step]) == Apply(Run(workers, producers, max, steps), step, max)
  {
    hide Enabled, Apply;
    assert (steps + [step])[..|steps|] == steps;
  }

  // ----- when stop() is safe -----

  /** `more` leads from `s` to `t`. */
  ghost predicate Leads(s: State, more: seq<Step>, max: nat, t: State)
    decreases |more|
  {
    if more == [] then s == t else Enabled(s, more[0]) && Leads(Apply(s, more[0], max), more[1..], max, t)
  }

  lemma {:induction false} RunLeads(workers: nat, producers: nat, max: nat, steps: seq<Step>, more: seq<Step>, t: State)
    requires ValidRun(workers, producers, max, steps) && Leads(Run(workers, producers, max, steps), more, max, t)
    ensures ValidRun(workers, producers, max, steps + more) && Run(workers, producers, max, steps + more) == t
    decreases |more|
  {
    hide Enabled, Apply, Run, ValidRun;
    if more == [] {
      assert steps + more == steps;
    } else {
      RunAppend(workers, producers, max, steps, more[0]);
      RunLeads(workers, producers, max, steps + [more[0]], more[1..], t);
      assert steps + [more[0]] + more[1..] == steps + more;
    }
  }

  function WorkerWeight(w: Worker): nat {
    match w
    case Exited => 0
    case Popping => 1
    case Passed => 2
    case Test => 3
    case Ready => 4
    case WillSleep => 6
    case _ => 5
  }

  function ProducerWeight(p: Producer): nat {
    if p.Locked? then 30 else if p.Pushed? then 1 else 0
  }

  /** How far the workers are from having left, while no append starts or takes the mutex. */
  function Distance(s: State): nat {
    20 * |s.queue| + Total(WorkerWeight, s.workers) + Total(ProducerWeight, s.producers)
  }

  ghost predicate Settled(s: State) {
    AllGone(s) && !s.locked
  }

  predicate SameInFlight(s: State, t: State) {
    |s.producers| == |t.producers| && forall p :: 0 <= p < |s.producers| && s.producers[p].WantLock? ==> t.producers[p] == s.producers[p]
  }

  lemma WorkerDrains(s: State, w: nat, max: nat) returns (step: Step)
    requires Inv(s, max) && (Stop(s) || s.queue != []) && w < |s.workers| && !s.workers[w].Exited?
    requires HoldsLock(s.workers[w]) || !s.locked
    ensures Enabled(s, step) && Distance(Apply(s, step, max)) < Distance(s)
    ensures (Stop(s) ==> Stop(Apply(s, step, max))) && SameInFlight(s, Apply(s, step, max))
    ensures var t := Apply(s, step, max);
      && t.workers == s.workers[w := t.workers[w]] && t.producers == s.producers && t.stopper == s.stopper
      && |t.queue| <= |s.queue| && t.accepted == s.accepted && (t.workers[w].Asleep? ==> s.workers[w].WillSleep?)
      && (!s.workers[w].Asleep? ==> Progress(step)) && (t.workers[w].Exited? ==> s.queue == [])
  {
    hide Total, Count;
    step := match s.workers[w]
      case Ready => Acquire(w)
      case Test => Evaluate(w)
      case WillSleep => Sleep(w)
      case Asleep => Spurious(w)
      case Passed => Decide(w)
      case Popping => Pop(w)
      case Running(_) => Finish(w);
    TotalUpdate(WorkerWeight, s.workers, w, Apply(s, step, max).workers[w]);
  }

  lemma ProducerDrains(s: State, p: nat, max: nat) returns (step: Step)
    requires Inv(s, max) && p < |s.producers| && ProducerHolds(s.producers[p])
    ensures Enabled(s, step) && Progress(step) && Distance(Apply(s, step, max)) < Distance(s)
    ensures (Stop(s) ==> Stop(Apply(s, step, max))) && SameInFlight(s, Apply(s, step, max))
    ensures Apply(s, step, max).workers == s.workers && s.accepted <= Apply(s, step, max).accepted
  {
    hide Total, Count;
    step := if s.producers[p].Locked? then Push(p) else Unlock(p);
    TotalUpdate(ProducerWeight, s.producers, p, Apply(s, step, max).producers[p]);
  }

  lemma DrainStep(s: State, max: nat) returns (step: Step)
    requires Inv(s, max) && Stop(s) && !Settled(s)
    ensures Enabled(s, step) && Distance(Apply(s, step, max)) < Distance(s)
    ensures Stop(Apply(s, step, max)) && SameInFlight(s, Apply(s, step, max))
  {
    hide Total, Count, Apply, Enabled, Distance, SameInFlight;
    CountSome(HoldsLock, s.workers);
    CountSome(ProducerHolds, s.producers);
    if p :| 0 <= p < |s.producers| && ProducerHolds(s.producers[p]) {
      step := ProducerDrains(s, p, max);
    } else if w :| 0 <= w < |s.workers| && HoldsLock(s.workers[w]) {
      step := WorkerDrains(s, w, max);
    } else {
      var w :| 0 <= w < |s.workers| && !s.workers[w].Exited?;
      step := WorkerDrains(s, w, max);
    }
  }

  /** Once m_stop is set, the workers can all leave while the appends in flight stay where they are. */
  lemma {:induction false} Drains(s: State, max: nat) returns (more: seq<Step>, t: State)
    requires Inv(s, max) && Stop(s)
    ensures Leads(s, more, max, t) && Settled(t) && SameInFlight(s, t)
    decreases Distance(s)
  {
    hide Apply, Enabled, Inv, Distance, Settled;
    if Settled(s) {
      more, t := [], s;
    } else {
      var step := DrainStep(s, max);
      StepKeepsInv(s, step, max);
      var rest;
      rest, t := Drains(Apply(s, step, max), max);
      more := [step] + rest;
      assert more[1..] == rest;
    }
  }

  // ----- every request is taken -----

  predicate SomeLeft(s: State) {
    exists w :: 0 <= w < |s.workers| && !s.workers[w].Exited?
  }

  lemma NotifyWakes(s: State, p: nat, w: nat, max: nat)
    requires Inv(s, max) && Enabled(s, NotifyOne(p, w)) && At(s, w, Asleep)
    ensures var t := Apply(s, NotifyOne(p, w), max);
      Distance(t) < Distance(s) && t.workers == s.workers[w := Ready] && t.accepted == s.accepted
  {
    hide Total, Count;
    TotalUpdate(WorkerWeight, s.workers, w, Ready);
    TotalUpdate(ProducerWeight, s.producers, p, Idle);
  }

  /** While a request waits and a worker is left, some thread can go on, nearer to the request being taken:
      the holder of the mutex, a worker that is awake, or a notify that wakes one. */
  lemma WorkIsServed(s: State, max: nat) returns (step: Step)
    requires Inv(s, max) && s.queue != [] && SomeLeft(s)
    ensures Progress(step) && Enabled(s, step) && Distance(Apply(s, step, max)) < Distance(s)
    ensures SomeLeft(Apply(s, step, max)) && s.accepted <= Apply(s, step, max).accepted
  {
    hide Total, Count, Apply, Distance, SameInFlight;
    CountSome(HoldsLock, s.workers);
    CountSome(ProducerHolds, s.producers);
    CountSome(Sleeper, s.workers);
    CountSome(WillNotify, s.producers);
    CountSome(WillCheck, s.workers);
    if p :| 0 <= p < |s.producers| && ProducerHolds(s.producers[p]) {
      step := ProducerDrains(s, p, max);
    } else if w :| 0 <= w < |s.workers| && HoldsLock(s.workers[w]) {
      step := WorkerDrains(s, w, max);
      assert !Apply(s, step, max).workers[w].Exited?;
    } else if w :| 0 <= w < |s.workers| && (s.workers[w].Ready? || s.workers[w].Running?) {
      step := WorkerDrains(s, w, max);
      assert !Apply(s, step, max).workers[w].Exited?;
    } else {
      var w :| 0 <= w < |s.workers| && !s.workers[w].Exited?;
      assert Sleeper(s.workers[w]);
      var p :| 0 <= p < |s.producers| && WillNotify(s.producers[p]);
      assert !ProducerHolds(s.producers[p]);
      step := NotifyOne(p, w);
      NotifyWakes(s, p, w, max);
      assert Apply(s, step, max).workers[w] == Ready;
    }
  }

  /** From every reachable state with a worker left, the threads can go on, without another append and
      without a spurious wake-up, so that the requests `goal` accepted so far have been taken. */
  lemma {:induction false} RequestsAreServed(s: State, goal: seq<nat>, max: nat) returns (more: seq<Step>, t: State)
    requires Inv(s, max) && goal <= s.accepted && (s.queue != [] ==> SomeLeft(s))
    ensures Leads(s, more, max, t) && goal <= t.taken
    ensures forall i :: 0 <= i < |more| ==> Progress(more[i])
    decreases Distance(s)
  {
    hide Count, Apply, Enabled, Distance, SomeLeft;
    if goal <= s.taken {
      more, t := [], s;
    } else {
      QueueHolds(s, goal, max);
      var step := WorkIsServed(s, max);
      StepKeepsInv(s, step, max);
      var rest;
      rest, t := RequestsAreServed(Apply(s, step, max), goal, max);
      more := [step] + rest;
      assert more[1..] == rest;
    }
  }

  lemma QueueHolds(s: State, goal: seq<nat>, max: nat)
    requires Inv(s, max) && goal <= s.accepted && !(goal <= s.taken)
    ensures s.queue != []
  {
    assert s.queue == [] ==> s.taken + s.queue == s.taken;
  }

  /** Every run with a worker left can be so continued that all requests accepted so far have been taken. */
  lemma EveryRequestIsTaken(workers: nat, producers: nat, max: nat, steps: seq<Step>)
    requires ValidRun(workers, producers, max, steps) && SomeLeft(Run(workers, producers, max, steps))
    ensures exists more ::
      && ValidRun(workers, producers, max, steps + more)
      && Run(workers, producers, max, steps).accepted <= Run(workers, producers, max, steps + more).taken
      && (forall i :: 0 <= i < |more| ==> Progress(more[i]))
  {
    hide Run, ValidRun, Inv;
    RunInv(workers, producers, max, steps);
    var s := Run(workers, producers, max, steps);
    var more, t := RequestsAreServed(s, s.accepted, max);
    RunLeads(workers, producers, max, steps, more, t);
  }

  /** With an append in flight there is a way to go on from stop() that strands a request. */
  lemma InFlightCanStrand(workers: nat, producers: nat, max: nat, steps: seq<Step>, p: nat) returns (more: seq<Step>)
    requires max > 0 && ValidRun(workers, producers, max, steps)
    requires var s := Run(workers, producers, max, steps);
      s.stopper.Open? && p < |s.producers| && s.producers[p].WantLock?
    ensures ValidRun(workers, producers, max, steps + [SetStop] + more)
    ensures var t := Run(workers, producers, max, steps + [SetStop] + more); AllGone(t) && t.queue != []
  {
    hide Run, ValidRun, Inv, Count;
    RunInv(workers, producers, max, steps);
    var s := Run(workers, producers, max, steps);
    RunAppend(workers, producers, max, steps, SetStop);
    StepKeepsInv(s, SetStop, max);
    var t;
    more, t := Drains(Apply(s, SetStop, max), max);
    RunLeads(workers, producers, max, steps + [SetStop], more, t);
    if t.queue == [] {
      var now := steps + [SetStop] + more;
      RunAppend(workers, producers, max, now, Lock(p));
      RunAppend(workers, producers, max, now + [Lock(p)], Push(p));
      assert now + [Lock(p)] + [Push(p)] == steps + [SetStop] + (more + [Lock(p), Push(p)]);
      more := more + [Lock(p), Push(p)];
    }
  }

  lemma SetStopCounts(s: State, max: nat)
    requires Enabled(s, SetStop)
    ensures Stop(Apply(s, SetStop, max)) && Apply(s, SetStop, max).inFlight == Count(InFlight, s.producers)
  {
  }

  lemma NotifyAllCounts(s: State, max: nat)
    requires Enabled(s, NotifyAll)
    ensures Apply(s, NotifyAll, max).stopper.Notified? && Apply(s, NotifyAll, max).late == Count(LateWorker, s.workers)
  {
  }

  /** The count taken when m_stop was set stays. */
  lemma {:induction false} InFlightStays(workers: nat, producers: nat, max: nat, steps: seq<Step>, more: seq<Step>)
    requires ValidRun(workers, producers, max, steps + [SetStop] + more)
    ensures ValidRun(workers, producers, max, steps) && Enabled(Run(workers, producers, max, steps), SetStop)
    ensures var t := Run(workers, producers, max, steps + [SetStop] + more);
      Stop(t) && t.inFlight == Count(InFlight, Run(workers, producers, max, steps).producers)
    decreases |more|
  {
    hide Count, Enabled, Apply;
    var all := steps + [SetStop] + more;
    if more == [] {
      assert all[..|all| - 1] == steps;
      SetStopCounts(Run(workers, producers, max, steps), max);
    } else {
      var init := more[..|more| - 1];
      assert all[..|all| - 1] == steps + [SetStop] + init;
      InFlightStays(workers, producers, max, steps, init);
      StepKeepsRest(Run(workers, producers, max, steps + [SetStop] + init), more[|more| - 1], max);
    }
  }

  ghost predicate NeverStrands(workers: nat, producers: nat, max: nat, steps: seq<Step>) {
    forall more :: ValidRun(workers, producers, max, steps + [SetStop] + more)
      && AllGone(Run(workers, producers, max, steps + [SetStop] + more))
      ==> Run(workers, producers, max, steps + [SetStop] + more).queue == []
  }

  /** Calling stop() now strands no request, however things go on, if and only if no append is between its
      look at m_stop and the mutex. */
  lemma StopIsSafeIff(workers: nat, producers: nat, max: nat, steps: seq<Step>)
    requires workers > 0 && max > 0 && ValidRun(workers, producers, max, steps)
    requires Run(workers, producers, max, steps).stopper.Open?
    ensures NeverStrands(workers, producers, max, steps) <==>
      forall p :: 0 <= p < |Run(workers, producers, max, steps).producers| ==>
        !Run(workers, producers, max, steps).producers[p].WantLock?
  {
    hide Run, ValidRun, Enabled, Apply, Count;
    var s := Run(workers, producers, max, steps);
    CountSome(InFlight, s.producers);
    if p :| 0 <= p < |s.producers| && s.producers[p].WantLock? {
      var more := InFlightCanStrand(workers, producers, max, steps, p);
    } else {
      forall more | ValidRun(workers, producers, max, steps + [SetStop] + more)
        && AllGone(Run(workers, producers, max, steps + [SetStop] + more))
        ensures Run(workers, producers, max, steps + [SetStop] + more).queue == []
      {
        InFlightStays(workers, producers, max, steps, more);
        ShutdownDrains(workers, producers, max, steps + [SetStop] + more);
      }
    }
  }

  /** One worker and one producer, after `steps`. */
  ghost predicate Reaches(steps: seq<Step>, s: State) {
    ValidRun(1, 1, 10, steps) && Run(1, 1, 10, steps) == s
  }

  lemma ReachesStart()
    ensures Reaches([], State([Ready], [Idle], false, [], Open, [], [], 0, 0))
  {
  }

  lemma ReachesNext(steps: seq<Step>, s: State, step: Step, t: State)
    requires Reaches(steps, s) && Enabled(s, step) && Apply(s, step, 10) == t
    ensures Reaches(steps + [step], t)
  {
    RunAppend(1, 1, 10, steps, step);
  }

  const STRANDING := [Append(0, 7), SetStop, NotifyAll, Acquire(0), Evaluate(0), Decide(0), Lock(0), Push(0)]

  lemma StrandingStarts()
    ensures Reaches([Append(0, 7), SetStop, NotifyAll, Acquire(0)],
                    State([Test], [WantLock(7)], true, [], Notified, [], [], 1, 0))
  {
    hide Reaches;
    ReachesStart();
    var c0: seq<Step> := [];
    var c2 := c0 + [Append(0, 7)] + [SetStop];
    ReachesNext(c0, State([Ready], [Idle], false, [], Open, [], [], 0, 0), Append(0, 7),
                State([Ready], [WantLock(7)], false, [], Open, [], [], 0, 0));
    ReachesNext(c0 + [Append(0, 7)], State([Ready], [WantLock(7)], false, [], Open, [], [], 0, 0), SetStop,
                State([Ready], [WantLock(7)], false, [], Flagged, [], [], 1, 0));
    ReachesNext(c2, State([Ready], [WantLock(7)], false, [], Flagged, [], [], 1, 0), NotifyAll,
                State([Ready], [WantLock(7)], false, [], Notified, [], [], 1, 0));
    ReachesNext(c2 + [NotifyAll], State([Ready], [WantLock(7)], false, [], Notified, [], [], 1, 0), Acquire(0),
                State([Test], [WantLock(7)], true, [], Notified, [], [], 1, 0));
    assert c2 + [NotifyAll] + [Acquire(0)] == [Append(0, 7), SetStop, NotifyAll, Acquire(0)];
  }

  lemma StrandingEnds()
    ensures Reaches(STRANDING, State([Exited], [Pushed], true, [7], Notified, [7], [], 1, 0))
  {
    hide Reaches;
    StrandingStarts();
    var c4 := [Append(0, 7), SetStop, NotifyAll, Acquire(0)];
    var c6 := c4 + [Evaluate(0)] + [Decide(0)];
    ReachesNext(c4, State([Test], [WantLock(7)], true, [], Notified, [], [], 1, 0), Evaluate(0),
                State([Passed], [WantLock(7)], true, [], Notified, [], [], 1, 0));
    ReachesNext(c4 + [Evaluate(0)], State([Passed], [WantLock(7)], true, [], Notified, [], [], 1, 0), Decide(0),
                State([Exited], [WantLock(7)], false, [], Notified, [], [], 1, 0));
    ReachesNext(c6, State([Exited], [WantLock(7)], false, [], Notified, [], [], 1, 0), Lock(0),
                State([Exited], [Locked(7)], true, [], Notified, [], [], 1, 0));
    ReachesNext(c6 + [Lock(0)], State([Exited], [Locked(7)], true, [], Notified, [], [], 1, 0), Push(0),
                State([Exited], [Pushed], true, [7], Notified, [7], [], 1, 0));
    assert c6 + [Lock(0)] + [Push(0)] == STRANDING;
  }

  /** An append in flight across stop(): request 7 is accepted after the only worker has left. */
  lemma InFlightIsStranded()
    ensures ValidRun(1, 1, 10, STRANDING)
    ensures var s := Run(1, 1, 10, STRANDING);
      AllGone(s) && s.inFlight == 1 && s.accepted == s.queue == [7] && s.taken == []
  {
    hide Run, ValidRun;
    StrandingEnds();
  }

  // ----- the wake-up of stop() -----

  /** After notify_all, no more workers are asleep or about to be than were late, which is one at most; with
      none late, stop() gets on until it has joined all workers. */
  lemma StopGetsOn(workers: nat, producers: nat, max: nat, steps: seq<Step>)
    requires ValidRun(workers, producers, max, steps) && Run(workers, producers, max, steps).stopper.Notified?
    ensures var s := Run(workers, producers, max, steps);
      && Count(Sleeper, s.workers) + Count(LateWorker, s.workers) <= s.late <= 1
      && (s.late == 0 ==> exists step :: Progress(step) && Enabled(s, step))
  {
    hide Count, Apply, Enabled;
    RunInv(workers, producers, max, steps);
    var s := Run(workers, producers, max, steps);
    if s.late == 0 { NobodySleeps(s); }
  }

  lemma NobodySleeps(s: State)
    requires Mutex(s) && s.stopper.Notified? && Count(Sleeper, s.workers) == 0
    ensures exists step :: Progress(step) && Enabled(s, step)
  {
    hide Count;
    CountSome(Sleeper, s.workers);
    CountSome(HoldsLock, s.workers);
    if s.locked {
      HolderGoesOn(s);
    } else if AllGone(s) {
      assert Enabled(s, Join);
    } else {
      var w :| 0 <= w < |s.workers| && !s.workers[w].Exited?;
      assert !Sleeper(s.workers[w]) && !HoldsLock(s.workers[w]);
      assert Enabled(s, if s.workers[w].Running? then Finish(w) else Acquire(w));
    }
  }

  /** stop() waits in join, and nobody can go on without a spurious wake-up. */
  ghost predicate Hung(s: State) {
    s.stopper.Notified? && forall step :: Progress(step) ==> !Enabled(s, step)
  }

  ghost predicate NeverHangs(workers: nat, producers: nat, max: nat, steps: seq<Step>) {
    forall more :: ValidRun(workers, producers, max, steps + [NotifyAll] + more)
      ==> !Hung(Run(workers, producers, max, steps + [NotifyAll] + more))
  }

  function Busy(p: Producer): bool { !p.Idle? }

  /** With an append in flight at notify_all, a worker that is late or sleeps has a notify ahead of it. */
  ghost predicate WillBeWoken(s: State) {
    && (s.stopper.Notified? || s.stopper.Joined?)
    && (Count(LateWorker, s.workers) > 0 ==> Count(InFlight, s.producers) > 0)
    && (Count(Sleeper, s.workers) > 0 ==> Count(Busy, s.producers) > 0)
    && (Count(Sleeper, s.workers) > 0 && s.queue != [] ==> Count(WillNotify, s.producers) > 0)
  }

  lemma {:induction false} FewerAre<T>(f: T -> bool, g: T -> bool, s: seq<T>)
    requires forall i :: 0 <= i < |s| && f(s[i]) ==> g(s[i])
    ensures Count(f, s) <= Count(g, s)
    decreases |s|
  {
    if s != [] { FewerAre(f, g, s[1..]); }
  }

  lemma WorkerKeepsWoken(s: State, step: Step, w: nat, max: nat)
    requires Inv(s, max) && WillBeWoken(s) && Enabled(s, step) && w < |s.workers|
    requires step == Acquire(w) || step == Evaluate(w) || step == Sleep(w) || step == Spurious(w)
          || step == Decide(w) || step == Pop(w) || step == Finish(w)
    ensures WillBeWoken(Apply(s, step, max))
  {
    hide Count;
    WorkerMoves(s, w, Apply(s, step, max).workers[w]);
    FewerAre(InFlight, Busy, s.producers);
  }

  lemma ProducerKeepsWoken(s: State, step: Step, p: nat, max: nat)
    requires max > 0 && Inv(s, max) && WillBeWoken(s) && Enabled(s, step) && p < |s.producers|
    requires (step.Append? && step.p == p) || step == Lock(p) || step == Push(p) || step == Unlock(p)
    ensures WillBeWoken(Apply(s, step, max))
  {
    hide Count;
    var to := Apply(s, step, max).producers[p];
    ProducerMoves(s, p, to);
    CountUpdate(Busy, s.producers, p, to);
    FewerAre(LateWorker, HoldsLock, s.workers);
    FewerAre(WillNotify, Busy, s.producers[p := to]);
  }

  lemma NotifyKeepsWoken(s: State, p: nat, w: nat, max: nat)
    requires Inv(s, max) && WillBeWoken(s) && Enabled(s, NotifyOne(p, w))
    ensures WillBeWoken(Apply(s, NotifyOne(p, w), max))
  {
    hide Count;
    ProducerMoves(s, p, Idle);
    CountSome(Sleeper, s.workers);
    if At(s, w, Asleep) { WorkerMoves(s, w, Ready); }
  }

  lemma StepKeepsWoken(s: State, step: Step, max: nat)
    requires max > 0 && Inv(s, max) && WillBeWoken(s) && Enabled(s, step)
    ensures WillBeWoken(Apply(s, step, max))
  {
    hide Count, Inv;
    match step
    case Append(p, _) => ProducerKeepsWoken(s, step, p, max);
    case Lock(p) => ProducerKeepsWoken(s, step, p, max);
    case Push(p) => ProducerKeepsWoken(s, step, p, max);
    case Unlock(p) => ProducerKeepsWoken(s, step, p, max);
    case NotifyOne(p, w) => NotifyKeepsWoken(s, p, w, max);
    case Join =>
    case Acquire(w) => WorkerKeepsWoken(s, step, w, max);
    case Evaluate(w) => WorkerKeepsWoken(s, step, w, max);
    case Sleep(w) => WorkerKeepsWoken(s, step, w, max);
    case Spurious(w) => WorkerKeepsWoken(s, step, w, max);
    case Decide(w) => WorkerKeepsWoken(s, step, w, max);
    case Pop(w) => WorkerKeepsWoken(s, step, w, max);
    case Finish(w) => WorkerKeepsWoken(s, step, w, max);
  }

  /** Whoever is left asleep has somebody to wake it. */
  lemma WokenGoesOn(s: State, max: nat)
    requires Inv(s, max) && WillBeWoken(s)
    ensures !Hung(s)
  {
    hide Count;
    CountSome(Sleeper, s.workers);
    CountSome(Busy, s.producers);
    CountSome(ProducerHolds, s.producers);
    if s.stopper.Notified? {
      if s.locked {
        HolderGoesOn(s);
      } else if Count(Sleeper, s.workers) == 0 {
        NobodySleeps(s);
      } else {
        var w :| 0 <= w < |s.workers| && s.workers[w].Asleep?;
        var p :| 0 <= p < |s.producers| && Busy(s.producers[p]);
        assert !ProducerHolds(s.producers[p]);
        assert Enabled(s, if s.producers[p].WantLock? then Lock(p) else NotifyOne(p, w));
      }
    }
  }

  lemma {:induction false} WokenRun(workers: nat, producers: nat, max: nat, steps: seq<Step>, more: seq<Step>)
    requires max > 0 && ValidRun(workers, producers, max, steps + [NotifyAll] + more)
    requires ValidRun(workers, producers, max, steps)
    requires Count(InFlight, Run(workers, producers, max, steps).producers) > 0
    ensures WillBeWoken(Run(workers, producers, max, steps + [NotifyAll] + more))
    decreases |more|
  {
    hide Count, Inv, Enabled;
    var all := steps + [NotifyAll] + more;
    if more == [] {
      assert all[..|all| - 1] == steps;
      AllWake(Run(workers, producers, max, steps).workers);
    } else {
      var init := more[..|more| - 1];
      assert all[..|all| - 1] == steps + [NotifyAll] + init;
      WokenRun(workers, producers, max, steps, init);
      RunInv(workers, producers, max, steps + [NotifyAll] + init);
      StepKeepsWoken(Run(workers, producers, max, steps + [NotifyAll] + init), more[|more| - 1], max);
    }
  }

  /** The count taken at notify_all stays. */
  lemma {:induction false} LateStays(workers: nat, producers: nat, max: nat, steps: seq<Step>, more: seq<Step>)
    requires ValidRun(workers, producers, max, steps + [NotifyAll] + more)
    ensures ValidRun(workers, producers, max, steps) && Enabled(Run(workers, producers, max, steps), NotifyAll)
    ensures var t := Run(workers, producers, max, steps + [NotifyAll] + more);
      (t.stopper.Notified? || t.stopper.Joined?) && t.late == Count(LateWorker, Run(workers, producers, max, steps).workers)
    decreases |more|
  {
    hide Count, Enabled, Apply;
    var all := steps + [NotifyAll] + more;
    if more == [] {
      assert all[..|all| - 1] == steps;
      NotifyAllCounts(Run(workers, producers, max, steps), max);
    } else {
      var init := more[..|more| - 1];
      assert all[..|all| - 1] == steps + [NotifyAll] + init;
      LateStays(workers, producers, max, steps, init);
      StepKeepsRest(Run(workers, producers, max, steps + [NotifyAll] + init), more[|more| - 1], max);
    }
  }

  // ----- the run in which the wake-up is lost -----

  /** Worker `w` is not the one to move, and no append is under way but for notifies. */
  ghost predicate Quiet(s: State, w: nat) {
    && s.stopper.Notified? && w < |s.workers| && s.queue == []
    && (forall v :: 0 <= v < |s.workers| && v != w ==> !s.workers[v].Asleep?)
    && (forall p :: 0 <= p < |s.producers| ==> s.producers[p].Idle? || s.producers[p].NeedNotify?)
  }

  /** All notifies to come find nobody asleep while the late worker still holds the mutex. */
  lemma {:induction false} NotifiesAreLost(s: State, w: nat, max: nat) returns (more: seq<Step>, t: State)
    requires Inv(s, max) && Quiet(s, w) && s.workers[w].WillSleep?
    ensures Leads(s, more, max, t) && Inv(t, max) && Quiet(t, w) && t.workers == s.workers
    ensures forall p :: 0 <= p < |t.producers| ==> t.producers[p].Idle?
    decreases Count(WillNotify, s.producers)
  {
    hide Count, Inv;
    if p :| 0 <= p < |s.producers| && s.producers[p].NeedNotify? {
      var step := NotifyOne(p, w);
      StepKeepsInv(s, step, max);
      CountUpdate(WillNotify, s.producers, p, Idle);
      var rest;
      rest, t := NotifiesAreLost(Apply(s, step, max), w, max);
      more := [step] + rest;
      assert more[1..] == rest;
    } else {
      more, t := [], s;
    }
  }

  lemma OtherLeaves(s: State, w: nat, v: nat, max: nat) returns (step: Step)
    requires Inv(s, max) && Quiet(s, w) && s.workers[w].Asleep? && v < |s.workers| && v != w && !s.workers[v].Exited?
    requires HoldsLock(s.workers[v]) || !s.locked
    ensures Enabled(s, step) && Distance(Apply(s, step, max)) < Distance(s)
    ensures var t := Apply(s, step, max); Quiet(t, w) && t.workers[w].Asleep? && t.producers == s.producers
  {
    hide Count, Total;
    CountSome(Sleeper, s.workers);
    CountSome(LateWorker, s.workers);
    step := WorkerDrains(s, v, max);
  }

  lemma InvParts(s: State, max: nat)
    ensures Inv(s, max) ==> Mutex(s) && Found(s)
  {
  }

  /** The other workers leave, one after the other, and the late one sleeps on. */
  lemma {:induction false} OthersLeave(s: State, w: nat, max: nat) returns (more: seq<Step>, t: State)
    requires Inv(s, max) && Quiet(s, w) && s.workers[w].Asleep?
    requires forall p :: 0 <= p < |s.producers| ==> s.producers[p].Idle?
    ensures Leads(s, more, max, t) && t.workers != [] && w < |t.workers| && t.workers[w].Asleep? && Hung(t)
    decreases Distance(s)
  {
    hide Count, Inv, Apply, Distance;
    InvParts(s, max);
    CountSome(HoldsLock, s.workers);
    CountSome(ProducerHolds, s.producers);
    if v :| 0 <= v < |s.workers| && v != w && !s.workers[v].Exited? && (HoldsLock(s.workers[v]) || !s.locked) {
      var step := OtherLeaves(s, w, v, max);
      StepKeepsInv(s, step, max);
      var rest;
      rest, t := OthersLeave(Apply(s, step, max), w, max);
      more := [step] + rest;
      assert more[1..] == rest;
    } else {
      more, t := [], s;
    }
  }

  predicate SomeLate(s: State) {
    exists w :: 0 <= w < |s.workers| && s.workers[w].WillSleep?
  }

  predicate SomeInFlight(s: State) {
    exists p :: 0 <= p < |s.producers| && s.producers[p].WantLock?
  }

  /** From notify_all with a late worker and no append in flight, the run can end with that worker asleep
      and nobody able to go on. */
  lemma LateCanHang(workers: nat, producers: nat, max: nat, steps: seq<Step>) returns (more: seq<Step>)
    requires ValidRun(workers, producers, max, steps) && Run(workers, producers, max, steps).stopper.Flagged?
    requires SomeLate(Run(workers, producers, max, steps)) && !SomeInFlight(Run(workers, producers, max, steps))
    ensures ValidRun(workers, producers, max, steps + [NotifyAll] + more)
    ensures var t := Run(workers, producers, max, steps + [NotifyAll] + more); Asleep in t.workers && Hung(t)
  {
    hide Run, ValidRun, Inv, Count;
    var s := Run(workers, producers, max, steps);
    var w :| 0 <= w < |s.workers| && s.workers[w].WillSleep?;
    RunInv(workers, producers, max, steps);
    InvParts(s, max);
    Lone(s, w);
    RunAppend(workers, producers, max, steps, NotifyAll);
    StepKeepsInv(s, NotifyAll, max);
    var start := steps + [NotifyAll];
    var first, s1 := NotifiesAreLost(Apply(s, NotifyAll, max), w, max);
    RunLeads(workers, producers, max, start, first, s1);
    RunAppend(workers, producers, max, start + first, Sleep(w));
    StepKeepsInv(s1, Sleep(w), max);
    var second, t := OthersLeave(Apply(s1, Sleep(w), max), w, max);
    RunLeads(workers, producers, max, start + first + [Sleep(w)], second, t);
    more := first + [Sleep(w)] + second;
    assert start + first + [Sleep(w)] + second == steps + [NotifyAll] + more;
  }

  /** The notify_all of stop() can leave it waiting for ever if and only if at that moment a worker is between
      its test and its sleep and no append is between its look at m_stop and the mutex. */
  lemma StopHangsIff(workers: nat, producers: nat, max: nat, steps: seq<Step>)
    requires max > 0 && ValidRun(workers, producers, max, steps)
    requires Run(workers, producers, max, steps).stopper.Flagged?
    ensures var s := Run(workers, producers, max, steps);
      !NeverHangs(workers, producers, max, steps) <==> SomeLate(s) && !SomeInFlight(s)
  {
    hide Run, ValidRun, Enabled, Apply, Count, Inv;
    var s := Run(workers, producers, max, steps);
    CountSome(InFlight, s.producers);
    CountSome(LateWorker, s.workers);
    if SomeLate(s) && !SomeInFlight(s) {
      var more := LateCanHang(workers, producers, max, steps);
    } else {
      forall more | ValidRun(workers, producers, max, steps + [NotifyAll] + more)
        ensures !Hung(Run(workers, producers, max, steps + [NotifyAll] + more))
      {
        var t := Run(workers, producers, max, steps + [NotifyAll] + more);
        if SomeInFlight(s) {
          WokenRun(workers, producers, max, steps, more);
          RunInv(workers, producers, max, steps + [NotifyAll] + more);
          WokenGoesOn(t, max);
        } else {
          LateStays(workers, producers, max, steps, more);
          if t.stopper.Notified? { StopGetsOn(workers, producers, max, steps + [NotifyAll] + more); }
        }
      }
    }
  }

  const LOSING := [Acquire(0), Evaluate(0), SetStop, NotifyAll, Sleep(0)]

  lemma LosingEnds()
    ensures Reaches(LOSING, State([Asleep], [Idle], false, [], Notified, [], [], 0, 1))
  {
    hide Reaches;
    ReachesStart();
    var c0: seq<Step> := [];
    var c2 := c0 + [Acquire(0)] + [Evaluate(0)];
    ReachesNext(c0, State([Ready], [Idle], false, [], Open, [], [], 0, 0), Acquire(0),
                State([Test], [Idle], true, [], Open, [], [], 0, 0));
    ReachesNext(c0 + [Acquire(0)], State([Test], [Idle], true, [], Open, [], [], 0, 0), Evaluate(0),
                State([WillSleep], [Idle], true, [], Open, [], [], 0, 0));
    ReachesNext(c2, State([WillSleep], [Idle], true, [], Open, [], [], 0, 0), SetStop,
                State([WillSleep], [Idle], true, [], Flagged, [], [], 0, 0));
    ReachesNext(c2 + [SetStop], State([WillSleep], [Idle], true, [], Flagged, [], [], 0, 0), NotifyAll,
                State([WillSleep], [Idle], true, [], Notified, [], [], 0, 1));
    ReachesNext(c2 + [SetStop] + [NotifyAll], State([WillSleep], [Idle], true, [], Notified, [], [], 0, 1), Sleep(0),
                State([Asleep], [Idle], false, [], Notified, [], [], 0, 1));
    assert c2 + [SetStop] + [NotifyAll] + [Sleep(0)] == LOSING;
  }

  /** Such a run, with one worker: short of a spurious wake-up nothing goes on, for good. */
  lemma StopCanHang()
    ensures ValidRun(1, 1, 10, LOSING)
    ensures var s := Run(1, 1, 10, LOSING);
      && Hung(s) && s.late == 1 && !AllGone(s)
      && (forall p, r :: Enabled(s, Append(p, r)) ==> Apply(s, Append(p, r), 10) == s)
  {
    hide Run, ValidRun;
    LosingEnds();
    var s := State([Asleep], [Idle], false, [], Notified, [], [], 0, 1);
    assert s.workers[0] == Asleep;
  }
}
