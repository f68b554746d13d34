/** When stop() can still return. */
module Shutdown {
  import opened Counting
  import opened ThreadPool

  /** How far stop() is from its return while no append starts. */
  function Effort(s: State): nat {
    Distance(s) + 40 * Count(InFlight, s.producers)
  }

  lemma HolderOrWorker(s: State, max: nat, w: nat) returns (step: Step)
    requires Inv(s, max) && s.stopper.Notified? && w < |s.workers|
    requires !s.workers[w].Exited? && !s.workers[w].Asleep? && (HoldsLock(s.workers[w]) || !s.locked)
    ensures Progress(step) && Enabled(s, step) && Effort(Apply(s, step, max)) < Effort(s)
  {
    hide Distance, Count, Apply, Enabled;
    step := WorkerDrains(s, w, max);
  }

  lemma HoldingProducer(s: State, max: nat, p: nat) returns (step: Step)
    requires p < |s.producers| && ProducerHolds(s.producers[p])
    ensures Progress(step) && Enabled(s, step) && Effort(Apply(s, step, max)) < Effort(s)
  {
    hide Total, Count;
    step := if s.producers[p].Locked? then Push(p) else Unlock(p);
    var to := Apply(s, step, max).producers[p];
    CountUpdate(InFlight, s.producers, p, to);
    TotalUpdate(ProducerWeight, s.producers, p, to);
  }

  lemma WaitingProducer(s: State, max: nat, p: nat)
    requires p < |s.producers| && s.producers[p].WantLock? && !s.locked
    ensures Enabled(s, Lock(p)) && Effort(Apply(s, Lock(p), max)) < Effort(s)
  {
    hide Count, Total;
    var to := Apply(s, Lock(p), max).producers[p];
    CountUpdate(InFlight, s.producers, p, to);
    TotalUpdate(ProducerWeight, s.producers, p, to);
  }

  lemma NotifyingProducer(s: State, max: nat, p: nat, w: nat)
    requires Inv(s, max) && Enabled(s, NotifyOne(p, w)) && At(s, w, Asleep)
    ensures Effort(Apply(s, NotifyOne(p, w), max)) < Effort(s)
  {
    hide Distance, Count;
    NotifyWakes(s, p, w, max);
    CountUpdate(InFlight, s.producers, p, Idle);
  }

  /** As long as a worker is left, and whoever sleeps has somebody to wake it, some thread brings stop() nearer
      to its return. */
  lemma ReturnStep(s: State, max: nat) returns (step: Step)
    requires Inv(s, max) && WillBeWoken(s) && s.stopper.Notified? && !AllGone(s)
    ensures Progress(step) && Enabled(s, step) && Effort(Apply(s, step, max)) < Effort(s)
  {
    hide Count, Apply, Effort;
    CountSome(HoldsLock, s.workers);
    CountSome(ProducerHolds, s.producers);
    CountSome(Sleeper, s.workers);
    CountSome(Busy, s.producers);
    if p :| 0 <= p < |s.producers| && ProducerHolds(s.producers[p]) {
      step := HoldingProducer(s, max, p);
    } else if w :| 0 <= w < |s.workers| && HoldsLock(s.workers[w]) {
      step := HolderOrWorker(s, max, w);
    } else if w :| 0 <= w < |s.workers| && !s.workers[w].Exited? && !s.workers[w].Asleep? {
      step := HolderOrWorker(s, max, w);
    } else {
      var w :| 0 <= w < |s.workers| && !s.workers[w].Exited?;
      assert Sleeper(s.workers[w]);
      var p :| 0 <= p < |s.producers| && Busy(s.producers[p]);
      assert !ProducerHolds(s.producers[p]);
      if s.producers[p].WantLock? {
        step := Lock(p);
        WaitingProducer(s, max, p);
      } else {
        step := NotifyOne(p, w);
        NotifyingProducer(s, max, p, w);
      }
    }
  }

  lemma {:induction false} Returns(s: State, max: nat) returns (more: seq<Step>, t: State)
    requires max > 0 && Inv(s, max) && WillBeWoken(s)
    ensures Leads(s, more, max, t) && t.stopper.Joined?
    ensures forall i :: 0 <= i < |more| ==> Progress(more[i])
    decreases !s.stopper.Joined?, Effort(s)
  {
    hide Count, Inv, Effort, Apply, WillBeWoken;
    if s.stopper.Joined? {
      more, t := [], s;
    } else {
      assert s.stopper.Notified? by { AfterNotify(s); }
      var step;
      if AllGone(s) {
        step := Join;
        assert Apply(s, step, max).stopper.Joined? by { JoinEnds(s, max); }
      } else {
        step := ReturnStep(s, max);
      }
      StepKeepsInv(s, step, max);
      StepKeepsWoken(s, step, max);
      var rest;
      rest, t := Returns(Apply(s, step, max), max);
      more := [step] + rest;
      assert more[1..] == rest;
    }
  }

  lemma AfterNotify(s: State)
    requires WillBeWoken(s)
    ensures s.stopper.Notified? || s.stopper.Joined?
  {
  }

  lemma JoinEnds(s: State, max: nat)
    requires Enabled(s, Join)
    ensures Apply(s, Join, max) == s.(stopper := Joined)
  {
  }

  /** After `steps` the threads can go on, without another append and without a spurious wake-up, until stop()
      has joined all workers. */
  ghost predicate CanReturn(workers: nat, producers: nat, max: nat, steps: seq<Step>) {
    exists more: seq<Step> ::
      && (forall i :: 0 <= i < |more| ==> Progress(more[i]))
      && ValidRun(workers, producers, max, steps + more)
      && Run(workers, producers, max, steps + more).stopper.Joined?
  }

  ghost predicate AlwaysCanReturn(workers: nat, producers: nat, max: nat, steps: seq<Step>) {
    forall more :: ValidRun(workers, producers, max, steps + more) ==> CanReturn(workers, producers, max, steps + more)
  }

  lemma WokenReturns(workers: nat, producers: nat, max: nat, steps: seq<Step>)
    requires max > 0 && ValidRun(workers, producers, max, steps)
    requires WillBeWoken(Run(workers, producers, max, steps))
    ensures CanReturn(workers, producers, max, steps)
  {
    hide Run, ValidRun, Inv, WillBeWoken;
    RunInv(workers, producers, max, steps);
    var more, t := Returns(Run(workers, producers, max, steps), max);
    RunLeads(workers, producers, max, steps, more, t);
  }

  lemma HungStays(workers: nat, producers: nat, max: nat, steps: seq<Step>)
    requires ValidRun(workers, producers, max, steps) && Hung(Run(workers, producers, max, steps))
    ensures !CanReturn(workers, producers, max, steps)
  {
    hide Run, ValidRun, Hung;
    forall more: seq<Step> | (forall i :: 0 <= i < |more| ==> Progress(more[i])) && ValidRun(workers, producers, max, steps + more)
      ensures !Run(workers, producers, max, steps + more).stopper.Joined?
    {
      HungEnds(workers, producers, max, steps, more);
    }
  }

  lemma HungEnds(workers: nat, producers: nat, max: nat, steps: seq<Step>, more: seq<Step>)
    requires ValidRun(workers, producers, max, steps) && ValidRun(workers, producers, max, steps + more)
    requires forall i :: 0 <= i < |more| ==> Progress(more[i])
    ensures Hung(Run(workers, producers, max, steps)) ==> !Run(workers, producers, max, steps + more).stopper.Joined?
  {
    if more == [] {
      assert steps + more == steps;
    } else {
      FirstIsEnabled(workers, producers, max, steps, more);
      assert Progress(more[0]);
    }
  }

  lemma {:induction false} FirstIsEnabled(workers: nat, producers: nat, max: nat, steps: seq<Step>, more: seq<Step>)
    requires more != [] && ValidRun(workers, producers, max, steps + more)
    ensures ValidRun(workers, producers, max, steps) && Enabled(Run(workers, producers, max, steps), more[0])
    decreases |more|
  {
    hide Enabled, Apply;
    var all := steps + more;
    if |more| == 1 {
      assert all[..|all| - 1] == steps;
    } else {
      assert all[..|all| - 1] == steps + more[..|more| - 1];
      FirstIsEnabled(workers, producers, max, steps, more[..|more| - 1]);
    }
  }

  /** From its notify_all on, stop() can return in every continuation, if and only if at that moment no worker was
      between its test and its sleep or some append was between its look at m_stop and the mutex. */
  lemma StopReturnsIff(workers: nat, producers: nat, max: nat, steps: seq<Step>)
    requires max > 0 && ValidRun(workers, producers, max, steps)
    requires Run(workers, producers, max, steps).stopper.Flagged?
    ensures var s := Run(workers, producers, max, steps);
      AlwaysCanReturn(workers, producers, max, steps + [NotifyAll]) <==> !SomeLate(s) || SomeInFlight(s)
  {
    hide Run, ValidRun, Enabled, Apply, Count, Inv, CanReturn, Hung;
    var s := Run(workers, producers, max, steps);
    CountSome(InFlight, s.producers);
    CountSome(LateWorker, s.workers);
    if SomeLate(s) && !SomeInFlight(s) {
      var more := LateCanHang(workers, producers, max, steps);
      HungStays(workers, producers, max, steps + [NotifyAll] + more);
    } else {
      forall more | ValidRun(workers, producers, max, steps + [NotifyAll] + more)
        ensures CanReturn(workers, producers, max, steps + [NotifyAll] + more)
      {
        if SomeInFlight(s) {
          WokenRun(workers, producers, max, steps, more);
        } else {
          LateStays(workers, producers, max, steps, more);
          RunInv(workers, producers, max, steps + [NotifyAll] + more);
          NobodyLate(Run(workers, producers, max, steps + [NotifyAll] + more), max);
        }
        WokenReturns(workers, producers, max, steps + [NotifyAll] + more);
      }
    }
  }

  lemma NobodyLate(s: State, max: nat)
    requires Inv(s, max) && (s.stopper.Notified? || s.stopper.Joined?) && s.late == 0
    ensures WillBeWoken(s)
  {
    hide Count;
  }
}
