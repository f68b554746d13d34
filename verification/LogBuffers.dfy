/** log/log.cpp: writers that queue messages and one thread that swaps the buffers and writes them out, as
interleaved steps. */
module LogBuffers {
  import opened Counting

  type Message = string

  /** write_log in asynchronous mode.  InCount holds the mutex for the line count, Writing and Pushed for the
      buffer. */
  datatype Writer = Idle | InCount(m: Message) | Between(m: Message) | Writing(m: Message) | Pushed

  /** async_write_log.  Looking, Swapping and Swapped hold the mutex; Flushing has written `done` messages of
      the output buffer. */
  datatype Backend = Ready | Looking | Waiting | Swapping | Swapped | Flushing(done: nat) | Cleared

  /** `written` is what fputs got, `queued` the messages in the order they were pushed, `owners` who pushed
      them, and `calls` what each thread has called write_log with, in order. */
  datatype State = State(writers: seq<Writer>, backend: Backend, locked: bool, input: seq<Message>, output: seq<Message>,
                         written: seq<Message>, queued: seq<Message>, owners: seq<nat>, calls: seq<seq<Message>>)

  function Initial(writers: nat): State {
    State(seq(writers, i => Idle), Ready, false, [], [], [], [], [], seq(writers, i => []))
  }

  datatype Step =
    | Enter(w: nat, m: Message) | Leave(w: nat) | Lock(w: nat) | PushBack(w: nat) | Unlock(w: nat)
    | Look | Test(timeout: bool) | Wake | Swap | Release | Put | Flush

  ghost predicate Enabled(s: State, step: Step) {
    match step
    case Enter(w, _) => w < |s.writers| && s.writers[w].Idle? && !s.locked
    case Leave(w) => w < |s.writers| && s.writers[w].InCount?
    case Lock(w) => w < |s.writers| && s.writers[w].Between? && !s.locked
    case PushBack(w) => w < |s.writers| && s.writers[w].Writing?
    case Unlock(w) => w < |s.writers| && s.writers[w].Pushed?
    case Look => s.backend.Ready? && !s.locked
    case Test(_) => s.backend.Looking?
    case Wake => s.backend.Waiting? && !s.locked
    case Swap => s.backend.Swapping?
    case Release => s.backend.Swapped?
    case Put => s.backend.Flushing?
    case Flush => s.backend.Cleared?
  }

  function Go(s: State, w: nat, to: Writer): State
    requires w < |s.writers|
  {
    s.(writers := s.writers[w := to])
  }

  ghost function Apply(s: State, step: Step): State
    requires Enabled(s, step)
  {
    match step
    case Enter(w, m) =>
      var calls := if w < |s.calls| then s.calls[w := s.calls[w] + [m]] else s.calls;
      Go(s, w, InCount(m)).(locked := true, calls := calls)
    case Leave(w) => Go(s, w, Between(s.writers[w].m)).(locked := false)
    case Lock(w) => Go(s, w, Writing(s.writers[w].m)).(locked := true)
    case PushBack(w) =>
      var m := s.writers[w].m;
      Go(s, w, Pushed).(input := s.input + [m], queued := s.queued + [m], owners := s.owners + [w])
    case Unlock(w) => Go(s, w, Idle).(locked := false)
    case Look => s.(backend := Looking, locked := true)
    case Test(timeout) =>
      if s.input != [] then s.(backend := Swapping)
      else s.(backend := if timeout then Ready else Waiting, locked := false)
    case Wake => s.(backend := Looking, locked := true)
    case Swap => s.(backend := Swapped, input := s.output, output := s.input)
    case Release => s.(backend := if s.output != [] then Flushing(0) else Ready, locked := false)
    case Put =>
      if s.backend.done < |s.output| then
        s.(backend := Flushing(s.backend.done + 1), written := s.written + [s.output[s.backend.done]])
      else s.(backend := Cleared, output := [])
    case Flush => s.(backend := Ready)
  }

  ghost predicate ValidRun(writers: nat, steps: seq<Step>)
    decreases |steps|, 0
  {
    steps == [] ||
    (var init := steps[..|steps| - 1]; ValidRun(writers, init) && Enabled(Run(writers, init), steps[|steps| - 1]))
  }

  ghost function Run(writers: nat, steps: seq<Step>): State
    requires ValidRun(writers, steps)
    decreases |steps|, 1
  {
    if steps == [] then Initial(writers)
    else Apply(Run(writers, steps[..|steps| - 1]), steps[|steps| - 1])
  }

  // ----- the invariant -----

  function Holds(w: Writer): bool { w.InCount? || w.Writing? || w.Pushed? }

  predicate BackendHolds(b: Backend) { b.Looking? || b.Swapping? || b.Swapped? }

  /** What the output buffer still has to give to fputs. */
  function Rest(s: State): seq<Message> {
    if s.backend.Flushing? && s.backend.done <= |s.output| then s.output[s.backend.done..] else s.output
  }

  ghost predicate Conserved(s: State) {
    s.written + Rest(s) + s.input == s.queued
  }

  ghost predicate Inv(s: State) {
    && Count(Holds, s.writers) + Bit(BackendHolds(s.backend)) == Bit(s.locked)
    && (!s.backend.Flushing? && !s.backend.Swapped? ==> s.output == [])
    && (s.backend.Flushing? ==> s.backend.done <= |s.output|)
    && (s.backend.Swapped? ==> s.input == [] && s.output != [])
    && (s.backend.Swapping? ==> s.input != [])
    && Conserved(s)
  }

  lemma WriterKeeps(s: State, step: Step)
    requires Inv(s) && Enabled(s, step)
    requires step.Enter? || step.Leave? || step.Lock? || step.PushBack? || step.Unlock?
    ensures Inv(Apply(s, step))
  {
    hide Count;
    CountUpdate(Holds, s.writers, step.w, Apply(s, step).writers[step.w]);
    CountSome(Holds, s.writers);
    if step.PushBack? {
      var m := s.writers[step.w].m;
      assert s.written + Rest(s) + (s.input + [m]) == s.written + Rest(s) + s.input + [m];
    }
  }

  lemma BackendKeeps(s: State, step: Step)
    requires Inv(s) && Enabled(s, step)
    requires step.Look? || step.Test? || step.Wake? || step.Swap? || step.Release? || step.Put? || step.Flush?
    ensures Inv(Apply(s, step))
  {
    hide Count, Conserved;
    CountSome(Holds, s.writers);
    BackendConserves(s, step);
  }

  lemma BackendConserves(s: State, step: Step)
    requires Inv(s) && Enabled(s, step)
    requires step.Look? || step.Test? || step.Wake? || step.Swap? || step.Release? || step.Put? || step.Flush?
    ensures Conserved(Apply(s, step))
  {
    hide Count;
    if step.Swap? {
      NothingBetween(s.written, s.input);
    } else if step.Put? && s.backend.done < |s.output| {
      OneMore(s.written, s.output, s.backend.done);
    }
  }

  lemma NothingBetween(a: seq<Message>, b: seq<Message>)
    ensures a + b + [] == a + [] + b
  {
  }

  lemma OneMore(a: seq<Message>, b: seq<Message>, k: nat)
    requires k < |b|
    ensures a + b[k..] == a + [b[k]] + b[k + 1..]
  {
  }

  lemma {:induction false} RunInv(writers: nat, steps: seq<Step>)
    requires ValidRun(writers, steps)
    ensures Inv(Run(writers, steps))
    decreases |steps|
  {
    hide Enabled, Apply;
    if steps == [] {
      CountSome(Holds, Initial(writers).writers);
    } else {
      var init, step := steps[..|steps| - 1], steps[|steps| - 1];
      RunInv(writers, init);
      if step.Enter? || step.Leave? || step.Lock? || step.PushBack? || step.Unlock? {
        WriterKeeps(Run(writers, init), step);
      } else {
        BackendKeeps(Run(writers, init), step);
      }
    }
  }

  /** At every step what is in the file, what the output buffer still holds and what the input buffer holds
      make up the messages queued so far, in order; the output buffer is empty at every swap, so that nothing
      goes back; and what was queued before a flush ends is in the file in front of everything else. */
  lemma NothingLost(writers: nat, steps: seq<Step>)
    requires ValidRun(writers, steps)
    ensures var s := Run(writers, steps);
      && s.written + Rest(s) + s.input == s.queued
      && (s.backend.Swapping? ==> s.output == [] && s.input != [])
      && (s.backend.Cleared? ==> s.queued == s.written + s.input)
  {
    hide Enabled, Apply, Count;
    RunInv(writers, steps);
    var s := Run(writers, steps);
    if s.backend.Cleared? { assert s.written + [] + s.input == s.written + s.input; }
  }

  // ----- progress -----

  /** `more` leads from `s` to `t`. */
  ghost predicate Leads(s: State, more: seq<Step>, t: State)
    decreases |more|
  {
    if more == [] then s == t else Enabled(s, more[0]) && Leads(Apply(s, more[0]), more[1..], t)
  }

  function WriterWeight(w: Writer): nat {
    match w
    case InCount(_) => 15
    case Between(_) => 14
    case Writing(_) => 13
    case Pushed => 2
    case Idle => 0
  }

  /** A look at an empty input buffer only lets go of the mutex. */
  function BackendWeight(s: State): nat {
    match s.backend
    case Swapped => 12
    case Flushing(_) => 11
    case Cleared => 10
    case Waiting => 9
    case Ready => 8
    case Looking => if s.input == [] then 10 else 7
    case Swapping => 6
  }

  /** How far the messages are from the file while nobody calls. */
  function Distance(s: State): nat {
    10 * |s.input| + 2 * |Rest(s)| + BackendWeight(s) + Total(WriterWeight, s.writers)
  }

  /** A step of the back end, or of a writer that has the mutex. */
  predicate NoNewcomer(step: Step) {
    !step.Enter? && !step.Lock?
  }

  lemma HolderMoves(s: State, w: nat) returns (step: Step)
    requires Inv(s) && w < |s.writers| && Holds(s.writers[w])
    ensures NoNewcomer(step) && Enabled(s, step) && Distance(Apply(s, step)) < Distance(s)
    ensures s.queued <= Apply(s, step).queued && Inv(Apply(s, step))
  {
    hide Count, Total;
    step := match s.writers[w]
      case InCount(_) => Leave(w)
      case Writing(_) => PushBack(w)
      case Pushed => Unlock(w);
    TotalUpdate(WriterWeight, s.writers, w, Apply(s, step).writers[w]);
    WriterKeeps(s, step);
  }

  /** With a message on its way and the mutex free or its own, the back end gets nearer to the file. */
  lemma BackendMoves(s: State) returns (step: Step)
    requires Inv(s) && s.written != s.queued && (forall w :: 0 <= w < |s.writers| ==> !Holds(s.writers[w]))
    ensures NoNewcomer(step) && Enabled(s, step) && Distance(Apply(s, step)) < Distance(s)
    ensures s.queued <= Apply(s, step).queued && Inv(Apply(s, step))
  {
    hide Count, Total, Conserved;
    CountSome(Holds, s.writers);
    NotYetWritten(s);
    step := match s.backend
      case Ready => Look
      case Looking => Test(false)
      case Waiting => Wake
      case Swapping => Swap
      case Swapped => Release
      case Flushing(_) => Put
      case Cleared => Flush;
    BackendKeeps(s, step);
  }

  lemma NotYetWritten(s: State)
    requires Conserved(s)
    ensures s.written != s.queued <==> Rest(s) != [] || s.input != []
  {
    assert |s.queued| == |s.written| + |Rest(s)| + |s.input|;
    assert s.written + [] + [] == s.written;
  }

  /** From every reachable state the back end and the holder of the mutex alone can bring every message
      queued so far into the file, in front of everything else. */
  lemma {:induction false} MessagesArrive(s: State) returns (more: seq<Step>, t: State)
    requires Inv(s)
    ensures Leads(s, more, t) && s.queued <= t.written
    ensures forall i :: 0 <= i < |more| ==> NoNewcomer(more[i])
    decreases Distance(s)
  {
    hide Count, Inv, Apply, Enabled, Distance;
    if s.written == s.queued {
      more, t := [], s;
    } else {
      var step;
      if w :| 0 <= w < |s.writers| && Holds(s.writers[w]) {
        step := HolderMoves(s, w);
      } else {
        step := BackendMoves(s);
      }
      var rest;
      rest, t := MessagesArrive(Apply(s, step));
      more := [step] + rest;
      assert more[1..] == rest;
    }
  }

  lemma {:induction false} RunLeads(writers: nat, steps: seq<Step>, more: seq<Step>, t: State)
    requires ValidRun(writers, steps) && Leads(Run(writers, steps), more, t)
    ensures ValidRun(writers, steps + more) && Run(writers, steps + more) == t
    decreases |more|
  {
    hide Enabled, Apply;
    if more == [] {
      assert steps + more == steps;
    } else {
      assert (steps + [more[0]])[..|steps|] == steps;
      RunLeads(writers, steps + [more[0]], more[1..], t);
      assert steps + [more[0]] + more[1..] == steps + more;
    }
  }

  /** Every run can be continued, without another message, so that all it has queued is in the file. */
  lemma EveryMessageArrives(writers: nat, steps: seq<Step>)
    requires ValidRun(writers, steps)
    ensures exists more ::
      && ValidRun(writers, steps + more)
      && Run(writers, steps).queued <= Run(writers, steps + more).written
      && (forall i :: 0 <= i < |more| ==> NoNewcomer(more[i]))
  {
    hide Run, ValidRun, Inv;
    RunInv(writers, steps);
    var more, t := MessagesArrive(Run(writers, steps));
    RunLeads(writers, steps, more, t);
  }

  // ----- every call is logged -----

  /** The messages of `queued` that thread `w` pushed, in order. */
  function Of(queued: seq<Message>, owners: seq<nat>, w: nat): seq<Message>
    decreases |queued|
  {
    if queued == [] || |owners| != |queued| then []
    else
      var n := |queued| - 1;
      Of(queued[..n], owners[..n], w) + if owners[n] == w then [queued[n]] else []
  }

  /** The message a thread has still to push. */
  function InHand(w: Writer): seq<Message> {
    match w
    case InCount(m) => [m]
    case Between(m) => [m]
    case Writing(m) => [m]
    case _ => []
  }

  ghost predicate InOrder(s: State) {
    && |s.calls| == |s.writers| && |s.owners| == |s.queued|
    && forall w :: 0 <= w < |s.writers| ==> s.calls[w] == Of(s.queued, s.owners, w) + InHand(s.writers[w])
  }

  lemma OfSnoc(queued: seq<Message>, owners: seq<nat>, m: Message, owner: nat, w: nat)
    requires |owners| == |queued|
    ensures Of(queued + [m], owners + [owner], w) == Of(queued, owners, w) + if owner == w then [m] else []
  {
    assert (queued + [m])[..|queued|] == queued && (owners + [owner])[..|owners|] == owners;
  }

  lemma StepInOrder(s: State, step: Step)
    requires InOrder(s) && Enabled(s, step)
    ensures InOrder(Apply(s, step))
  {
    hide Of;
    var t := Apply(s, step);
    if step.PushBack? {
      forall w | 0 <= w < |t.writers| ensures t.calls[w] == Of(t.queued, t.owners, w) + InHand(t.writers[w]) {
        OfSnoc(s.queued, s.owners, s.writers[step.w].m, step.w, w);
      }
    }
  }

  lemma {:induction false} RunInOrder(writers: nat, steps: seq<Step>)
    requires ValidRun(writers, steps)
    ensures InOrder(Run(writers, steps))
    decreases |steps|
  {
    hide Enabled, Apply;
    if steps != [] {
      RunInOrder(writers, steps[..|steps| - 1]);
      StepInOrder(Run(writers, steps[..|steps| - 1]), steps[|steps| - 1]);
    }
  }

  lemma SameCalls(s: State, step: Step)
    requires Enabled(s, step) && !step.Enter?
    ensures Apply(s, step).calls == s.calls
  {
  }

  /** With an empty input buffer a look lets go of the mutex. */
  lemma LookEnds(s: State) returns (step: Step)
    requires Inv(s) && s.backend.Looking? && s.input == []
    ensures !step.Enter? && Enabled(s, step) && Distance(Apply(s, step)) < Distance(s) && Inv(Apply(s, step))
  {
    hide Count, Total, Conserved;
    step := Test(true);
    BackendKeeps(s, step);
  }

  lemma FormattedGoesOn(s: State, w: nat) returns (step: Step)
    requires Inv(s) && w < |s.writers| && s.writers[w].Between? && !s.locked
    ensures !step.Enter? && Enabled(s, step) && Distance(Apply(s, step)) < Distance(s) && Inv(Apply(s, step))
  {
    hide Count, Total, Conserved;
    step := Lock(w);
    TotalUpdate(WriterWeight, s.writers, w, Apply(s, step).writers[w]);
    WriterKeeps(s, step);
  }

  /** The mutex is free when no writer has it and the back end is not looking at, swapping or releasing the buffers. */
  lemma NobodyHolds(s: State)
    requires Inv(s) && !s.backend.Looking? && s.input == []
    requires s.written == s.queued && forall w :: 0 <= w < |s.writers| ==> !Holds(s.writers[w])
    ensures !s.locked
  {
    hide Count;
    CountSome(Holds, s.writers);
    NotYetWritten(s);
  }

  /** Without a new call, the calls under way get nearer to the file. */
  lemma CallMoves(s: State) returns (step: Step)
    requires Inv(s) && !Settled(s)
    ensures !step.Enter? && Enabled(s, step) && Distance(Apply(s, step)) < Distance(s)
    ensures Inv(Apply(s, step)) && Apply(s, step).calls == s.calls
  {
    hide Inv, Apply, Enabled, Distance;
    if w :| 0 <= w < |s.writers| && Holds(s.writers[w]) {
      step := HolderMoves(s, w);
    } else if s.written != s.queued {
      step := BackendMoves(s);
    } else {
      assert s.input == [] by { NothingQueued(s); }
      if s.backend.Looking? {
        step := LookEnds(s);
      } else {
        var w :| 0 <= w < |s.writers| && s.writers[w] != Idle;
        NobodyHolds(s);
        step := FormattedGoesOn(s, w);
      }
    }
    SameCalls(s, step);
  }

  lemma NothingQueued(s: State)
    requires Inv(s) && s.written == s.queued
    ensures s.input == []
  {
    hide Count, Conserved;
    NotYetWritten(s);
  }

  /** All that was queued is in the file, and no thread is inside write_log. */
  predicate Settled(s: State) {
    s.written == s.queued && forall w :: 0 <= w < |s.writers| ==> s.writers[w] == Idle
  }

  lemma {:induction false} CallsArrive(s: State) returns (more: seq<Step>, t: State)
    requires Inv(s)
    ensures Leads(s, more, t) && Settled(t) && t.calls == s.calls
    ensures forall i :: 0 <= i < |more| ==> !more[i].Enter?
    decreases Distance(s)
  {
    hide Count, Inv, Apply, Enabled, Distance;
    if Settled(s) {
      more, t := [], s;
    } else {
      var step := CallMoves(s);
      var rest;
      rest, t := CallsArrive(Apply(s, step));
      more := [step] + rest;
      assert more[1..] == rest;
    }
  }

  /** Every run can be continued, without another call, so that the file holds what each thread has called
      write_log with: its messages, all of them, in the order of its calls, and nobody else's. */
  lemma EveryCallIsLogged(writers: nat, steps: seq<Step>)
    requires ValidRun(writers, steps)
    ensures exists more: seq<Step> ::
      && ValidRun(writers, steps + more)
      && (forall i :: 0 <= i < |more| ==> !more[i].Enter?)
      && var t := Run(writers, steps + more);
      && t.calls == Run(writers, steps).calls && |t.calls| == writers && |t.owners| == |t.written|
      && (forall w :: 0 <= w < writers ==> t.calls[w] == Of(t.written, t.owners, w))
  {
    hide Run, ValidRun, Inv, Of;
    RunInv(writers, steps);
    var more, t := CallsArrive(Run(writers, steps));
    RunLeads(writers, steps, more, t);
    RunInOrder(writers, steps + more);
    ManyWriters(writers, steps + more);
    forall w | 0 <= w < writers ensures t.calls[w] == Of(t.written, t.owners, w) {
      assert t.writers[w] == Idle;
    }
  }

  lemma {:induction false} ManyWriters(writers: nat, steps: seq<Step>)
    requires ValidRun(writers, steps)
    ensures |Run(writers, steps).writers| == writers
    decreases |steps|
  {
    if steps != [] { ManyWriters(writers, steps[..|steps| - 1]); }
  }

  /** A call is recorded as the thread's last one; between the count of the lines and the formatting, and after
      the call, nobody has the mutex. */
  lemma CallsAreRecorded(s: State, w: nat, m: Message)
    requires InOrder(s) && w < |s.writers|
    ensures Enabled(s, Enter(w, m)) ==> Apply(s, Enter(w, m)).calls == s.calls[w := s.calls[w] + [m]]
    ensures Enabled(s, Leave(w)) ==> !Apply(s, Leave(w)).locked && Apply(s, Leave(w)).writers[w] == Between(s.writers[w].m)
    ensures Enabled(s, Unlock(w)) ==> !Apply(s, Unlock(w)).locked && Apply(s, Unlock(w)).writers[w] == Idle
  {
  }
}
