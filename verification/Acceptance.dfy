/** When append accepts a request, and that what it accepts is taken. */
module Acceptance {
  import opened Counting
  import opened ThreadPool

  /** append refuses a request if and only if the queue is full; otherwise exactly that request is queued, last. */
  lemma PushAccepts(s: State, p: nat, max: nat)
    requires Inv(s, max) && Enabled(s, Push(p))
    ensures var t, r := Apply(s, Push(p), max), s.producers[p].request;
      if |s.queue| == max then t.accepted == s.accepted && t.queue == s.queue && t.producers[p] == Idle && !t.locked
      else t.accepted == s.accepted + [r] && t.queue == s.queue + [r] && t.producers[p] == Pushed
  {
    hide Count;
  }

  /** Before stop() append goes for the mutex with the request it was given; after it, it does nothing. */
  lemma AppendAsks(s: State, p: nat, r: nat, max: nat)
    requires Enabled(s, Append(p, r))
    ensures var t := Apply(s, Append(p, r), max);
      if s.stopper == Open then t == s.(producers := s.producers[p := WantLock(r)]) else t == s
  {
  }

  // ----- everybody but one append comes to rest -----

  function WorkerWork(w: Worker): nat {
    match w
    case Exited => 0
    case Asleep => 1
    case WillSleep => 2
    case Popping => 2
    case Passed => 3
    case Test => 4
    case Ready => 5
    case Running(_) => 6
  }

  function ProducerWork(p: Producer): nat {
    match p
    case Idle => 0
    case NeedNotify => 12
    case Pushed => 15
    case Locked(_) => 50
    case WantLock(_) => 60
  }

  /** Every step but append, stop and a spurious wake-up takes something off this. */
  function Work(s: State): nat {
    20 * |s.queue| + Total(WorkerWork, s.workers) + Total(ProducerWork, s.producers)
  }

  lemma WorkerWorks(s: State, w: nat, max: nat) returns (step: Step)
    requires Inv(s, max) && w < |s.workers| && !s.workers[w].Asleep? && !s.workers[w].Exited?
    requires HoldsLock(s.workers[w]) || !s.locked
    ensures Enabled(s, step) && Progress(step) && Work(Apply(s, step, max)) < Work(s)
    ensures var t := Apply(s, step, max);
      t.producers == s.producers && t.stopper == s.stopper && t.accepted == s.accepted && |t.workers| == |s.workers|
  {
    hide Count, Total;
    step := match s.workers[w]
      case Ready => Acquire(w)
      case Test => Evaluate(w)
      case WillSleep => Sleep(w)
      case Passed => Decide(w)
      case Popping => Pop(w)
      case Running(_) => Finish(w);
    TotalUpdate(WorkerWork, s.workers, w, Apply(s, step, max).workers[w]);
  }

  lemma ProducerWorks(s: State, q: nat, max: nat) returns (step: Step)
    requires Inv(s, max) && q < |s.producers| && !s.producers[q].Idle?
    requires ProducerHolds(s.producers[q]) || !s.locked
    ensures Enabled(s, step) && Progress(step) && Work(Apply(s, step, max)) < Work(s)
    ensures var t := Apply(s, step, max);
      && |t.producers| == |s.producers| && t.producers == s.producers[q := t.producers[q]] && t.stopper == s.stopper
      && s.accepted <= t.accepted && |t.workers| == |s.workers|
  {
    hide Count, Total;
    CountSome(Sleeper, s.workers);
    var w := 0;
    if s.producers[q].NeedNotify? && Asleep in s.workers {
      w :| 0 <= w < |s.workers| && s.workers[w] == Asleep;
      TotalUpdate(WorkerWork, s.workers, w, Ready);
    }
    step := match s.producers[q]
      case WantLock(_) => Lock(q)
      case Locked(_) => Push(q)
      case Pushed => Unlock(q)
      case NeedNotify => NotifyOne(q, w);
    TotalUpdate(ProducerWork, s.producers, q, Apply(s, step, max).producers[q]);
  }

  /** Only append `p` has something left to do. */
  predicate Calm(s: State, p: nat) {
    && !s.locked
    && (forall w :: 0 <= w < |s.workers| ==> s.workers[w].Asleep? || s.workers[w].Exited?)
    && (forall q :: 0 <= q < |s.producers| && q != p ==> s.producers[q].Idle?)
  }

  lemma CalmStep(s: State, p: nat, max: nat) returns (step: Step)
    requires Inv(s, max) && p < |s.producers| && s.producers[p].WantLock? && !Calm(s, p)
    ensures Enabled(s, step) && Progress(step) && Work(Apply(s, step, max)) < Work(s)
    ensures var t := Apply(s, step, max);
      && |t.producers| == |s.producers| && t.producers[p] == s.producers[p] && t.stopper == s.stopper
      && s.accepted <= t.accepted && |t.workers| == |s.workers|
  {
    hide Count, Apply, Enabled, Work;
    CountSome(HoldsLock, s.workers);
    CountSome(ProducerHolds, s.producers);
    if w :| 0 <= w < |s.workers| && HoldsLock(s.workers[w]) {
      step := WorkerWorks(s, w, max);
    } else if q :| 0 <= q < |s.producers| && ProducerHolds(s.producers[q]) {
      step := ProducerWorks(s, q, max);
    } else if w :| 0 <= w < |s.workers| && !s.workers[w].Asleep? && !s.workers[w].Exited? {
      step := WorkerWorks(s, w, max);
    } else {
      var q :| 0 <= q < |s.producers| && q != p && !s.producers[q].Idle?;
      step := ProducerWorks(s, q, max);
    }
  }

  predicate AllProgress(more: seq<Step>) {
    forall i :: 0 <= i < |more| ==> Progress(more[i])
  }

  lemma {:induction false} Calms(s: State, p: nat, max: nat) returns (more: seq<Step>, t: State)
    requires Inv(s, max) && p < |s.producers| && s.producers[p].WantLock?
    ensures Leads(s, more, max, t) && AllProgress(more) && Inv(t, max) && |t.workers| == |s.workers|
    ensures p < |t.producers| && Calm(t, p) && t.producers[p] == s.producers[p] && t.stopper == s.stopper
    ensures s.accepted <= t.accepted
    decreases Work(s)
  {
    hide Count, Apply, Enabled, Inv, Work, Calm, Progress;
    if Calm(s, p) {
      more, t := [], s;
    } else {
      var step := CalmStep(s, p, max);
      StepKeepsInv(s, step, max);
      var rest;
      rest, t := Calms(Apply(s, step, max), p, max);
      more := [step] + rest;
      assert more[1..] == rest;
    }
  }

  /** At rest, before stop(), nothing is queued. */
  lemma CalmIsEmpty(s: State, p: nat, max: nat)
    requires Inv(s, max) && Calm(s, p) && s.stopper.Open? && s.workers != []
    requires p < |s.producers| && s.producers[p].WantLock?
    ensures s.queue == []
  {
    hide Count;
    CountSome(Sleeper, s.workers);
    CountSome(WillNotify, s.producers);
    CountSome(WillCheck, s.workers);
    assert Sleeper(s.workers[0]);
  }

  /** With the others at rest, the append in flight queues its request. */
  lemma Queues(workers: nat, producers: nat, max: nat, steps: seq<Step>, p: nat)
    requires max > 0 && ValidRun(workers, producers, max, steps)
    requires var s := Run(workers, producers, max, steps);
      s.queue == [] && !s.locked && p < |s.producers| && s.producers[p].WantLock?
    ensures ValidRun(workers, producers, max, steps + [Lock(p)] + [Push(p)])
    ensures var s, t := Run(workers, producers, max, steps), Run(workers, producers, max, steps + [Lock(p)] + [Push(p)]);
      t.accepted == s.accepted + [s.producers[p].request] && |t.workers| == |s.workers| && t.workers == s.workers
  {
    hide Run, ValidRun;
    RunAppend(workers, producers, max, steps, Lock(p));
    RunAppend(workers, producers, max, steps + [Lock(p)], Push(p));
  }

  /** From every reachable state before stop(), a request given to an idle thread's append can be taken by a
      worker: without another append, without stop() and without a spurious wake-up. */
  lemma AppendIsTaken(workers: nat, producers: nat, max: nat, steps: seq<Step>, p: nat, r: nat)
    requires workers > 0 && max > 0 && ValidRun(workers, producers, max, steps)
    requires var s := Run(workers, producers, max, steps);
      s.stopper.Open? && p < |s.producers| && s.producers[p].Idle?
    ensures exists more ::
      && AllProgress(more) && ValidRun(workers, producers, max, steps + [Append(p, r)] + more)
      && r in Later(Run(workers, producers, max, steps + [Append(p, r)] + more).taken,
                    |Run(workers, producers, max, steps).accepted|)
  {
    hide Run, ValidRun, Inv, Count, Calm, AllProgress;
    var s := Run(workers, producers, max, steps);
    RunInv(workers, producers, max, steps);
    RunSizes(workers, producers, max, steps);
    RunAppend(workers, producers, max, steps, Append(p, r));
    StepKeepsInv(s, Append(p, r), max);
    var steps1 := steps + [Append(p, r)];
    var first, s1 := Calms(Apply(s, Append(p, r), max), p, max);
    RunLeads(workers, producers, max, steps1, first, s1);
    CalmIsEmpty(s1, p, max);
    assert !s1.locked by { Unlocked(s1, p); }
    Queues(workers, producers, max, steps1 + first, p);
    var steps2 := steps1 + first + [Lock(p)] + [Push(p)];
    var s2 := Run(workers, producers, max, steps2);
    RunInv(workers, producers, max, steps2);
    SomebodyLeft(s1, p, max);
    var second, t := RequestsAreServed(s2, s2.accepted, max);
    RunLeads(workers, producers, max, steps2, second, t);
    var more := first + [Lock(p)] + [Push(p)] + second;
    assert steps2 + second == steps1 + more;
    AllAreProgress(first, second, p);
    LaterHas(s2.accepted, t.taken, s1.accepted, s.accepted, r);
  }

  lemma Unlocked(s: State, p: nat)
    requires Calm(s, p)
    ensures !s.locked
  {
  }

  lemma SomebodyLeft(s: State, p: nat, max: nat)
    requires Inv(s, max) && s.stopper.Open? && s.workers != []
    ensures SomeLeft(s)
  {
    hide Count;
    assert !s.workers[0].Exited?;
  }

  lemma AllAreProgress(first: seq<Step>, second: seq<Step>, p: nat)
    requires AllProgress(first) && forall i :: 0 <= i < |second| ==> Progress(second[i])
    ensures AllProgress(first + [Lock(p)] + [Push(p)] + second)
  {
  }

  /** The elements from index `n` on. */
  function Later(s: seq<nat>, n: nat): seq<nat> {
    if n <= |s| then s[n..] else []
  }

  lemma LaterHas(goal: seq<nat>, taken: seq<nat>, mid: seq<nat>, start: seq<nat>, r: nat)
    requires goal <= taken && goal == mid + [r] && start <= mid
    ensures r in Later(taken, |start|)
  {
    assert taken[|mid|] == goal[|mid|] == r;
    assert taken[|start|..][|mid| - |start|] == r;
  }
}
