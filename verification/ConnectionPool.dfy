/** CGImysql/sql_connection_pool.cpp on the semaphore of lock/locker.h: any number of threads that get and
release connections, as interleaved steps. */
module ConnectionPool {
  import opened Counting

  /** GetConnection: Ask to Held.  Testing holds the mutex of the semaphore; Locked, Popped and Counted hold
      that of the pool.  ReleaseConnection: Held to Idle.  Returning, Pushed and Restored hold the mutex of the
      pool, Posting that of the semaphore. */
  datatype Thread =
    | Idle | Waiting | Testing | Asleep | Token | Locked | Popped(con: nat) | Counted(con: nat) | Held(con: nat)
    | Returning(con: nat) | Pushed | Restored | ToPost | Posting

  /** `given` and `returned` are the connections taken off the list and put back on it, in order. */
  datatype State = State(threads: seq<Thread>, connList: seq<nat>, free: int, cur: int, count: int,
                         locked: bool, semLocked: bool, given: seq<nat>, returned: seq<nat>)

  function UpTo(from: nat, max: nat): (r: seq<nat>)
    requires from <= max
    ensures |r| == max - from
    decreases max - from
  {
    if from == max then [] else [from] + UpTo(from + 1, max)
  }

  /** init: `max` connections, numbered in the order they were opened. */
  function Initial(threads: nat, max: nat): State {
    State(seq(threads, i => Idle), UpTo(0, max), max, 0, max, false, false, [], [])
  }

  datatype Step =
    | Ask(t: nat) | SemLock(t: nat) | SemTest(t: nat) | Spurious(t: nat) | PoolLock(t: nat) | PopFront(t: nat) | CountOut(t: nat)
    | PoolUnlock(t: nat) | Release(t: nat) | PushBack(t: nat) | CountIn(t: nat) | Unlock(t: nat) | PostLock(t: nat)
    | Post(t: nat, woken: nat)

  ghost predicate Enabled(s: State, step: Step) {
    && step.t < |s.threads|
    && var at := s.threads[step.t];
       match step
       case Ask(_) => at.Idle?
       case SemLock(_) => at.Waiting? && !s.semLocked
       case SemTest(_) => at.Testing?
       case Spurious(_) => at.Asleep?
       case PoolLock(_) => at.Token? && !s.locked
       case PopFront(_) => at.Locked?
       case CountOut(_) => at.Popped?
       case PoolUnlock(_) => at.Counted?
       case Release(_) => at.Held? && !s.locked
       case PushBack(_) => at.Returning?
       case CountIn(_) => at.Pushed?
       case Unlock(_) => at.Restored?
       case PostLock(_) => at.ToPost? && !s.semLocked
       case Post(_, w) => at.Posting? && ((w < |s.threads| && s.threads[w].Asleep?) || Asleep !in s.threads)
  }

  function Go(s: State, t: nat, to: Thread): State
    requires t < |s.threads|
  {
    s.(threads := s.threads[t := to])
  }

  /** One step.  The front of an empty list leaves everything as it is. */
  ghost function Apply(s: State, step: Step): State
    requires Enabled(s, step)
  {
    match step
    case Ask(t) => if s.connList == [] then s else Go(s, t, Waiting)
    case SemLock(t) => Go(s, t, Testing).(semLocked := true)
    case SemTest(t) =>
      if s.count > 0 then Go(s, t, Token).(semLocked := false, count := s.count - 1)
      else Go(s, t, Asleep).(semLocked := false)
    case Spurious(t) => Go(s, t, Waiting)
    case PoolLock(t) => Go(s, t, Locked).(locked := true)
    case PopFront(t) =>
      if s.connList == [] then s else Go(s, t, Popped(s.connList[0])).(connList := s.connList[1..], given := s.given + [s.connList[0]])
    case CountOut(t) => Go(s, t, Counted(s.threads[t].con)).(free := s.free - 1, cur := s.cur + 1)
    case PoolUnlock(t) => Go(s, t, Held(s.threads[t].con)).(locked := false)
    case Release(t) => Go(s, t, Returning(s.threads[t].con)).(locked := true)
    case PushBack(t) => 
      Go(s, t, Pushed).(connList := s.connList + [s.threads[t].con], returned := s.returned + [s.threads[t].con])
    case CountIn(t) => Go(s, t, Restored).(free := s.free + 1, cur := s.cur - 1)
    case Unlock(t) => Go(s, t, ToPost).(locked := false)
    case PostLock(t) => Go(s, t, Posting).(semLocked := true)
    case Post(t, w) =>
      Go(if w < |s.threads| && s.threads[w].Asleep? then Go(s, w, Waiting) else s, t, Idle).
        (count := s.count + 1, semLocked := false)
  }

  ghost predicate ValidRun(threads: nat, max: nat, steps: seq<Step>)
    decreases |steps|, 0
  {
    steps == [] ||
    (var init := steps[..|steps| - 1]; ValidRun(threads, max, init) && Enabled(Run(threads, max, init), steps[|steps| - 1]))
  }

  ghost function Run(threads: nat, max: nat, steps: seq<Step>): State
    requires ValidRun(threads, max, steps)
    decreases |steps|, 1
  {
    if steps == [] then Initial(threads, max)
    else Apply(Run(threads, max, steps[..|steps| - 1]), steps[|steps| - 1])
  }

  // ----- who is where -----

  function HoldsPool(t: Thread): bool {
    t.Locked? || t.Popped? || t.Counted? || t.Returning? || t.Pushed? || t.Restored?
  }
  function HoldsSem(t: Thread): bool { t.Testing? || t.Posting? }
  /** Past sem::wait, not yet popped. */
  function HasToken(t: Thread): bool { t.Token? || t.Locked? }
  /** Pushed, not yet past sem::post. */
  function Unposted(t: Thread): bool { t.Pushed? || t.Restored? || t.ToPost? || t.Posting? }
  function WillTest(t: Thread): bool { t.Waiting? || t.Testing? }
  function Sleeper(t: Thread): bool { t.Asleep? }
  function OutUncounted(t: Thread): bool { t.Popped? }
  function InUncounted(t: Thread): bool { t.Pushed? }

  function HasConn(t: Thread, c: nat): bool {
    (t.Popped? || t.Counted? || t.Held? || t.Returning?) && t.con == c
  }
  function Has(c: nat): Thread -> bool { (t: Thread) => HasConn(t, c) }
  function Is(c: nat): nat -> bool { (x: nat) => x == c }

  // ----- the invariant -----

  ghost predicate Mutexes(s: State) {
    Count(HoldsPool, s.threads) == Bit(s.locked) && Count(HoldsSem, s.threads) == Bit(s.semLocked)
  }

  /** The semaphore never promises more than the list holds. */
  ghost predicate Tokens(s: State) {
    && s.count >= 0
    && |s.connList| == s.count + Count(HasToken, s.threads) + Count(Unposted, s.threads)
  }

  /** The counters differ from the list only by a thread between the list and the counters. */
  ghost predicate Counters(s: State, max: nat) {
    && s.free + s.cur == max
    && s.free == |s.connList| + Count(OutUncounted, s.threads) - Count(InUncounted, s.threads)
  }

  /** Every connection is in one place: the list or one thread. */
  ghost predicate OnePlace(s: State, max: nat) {
    forall c: nat :: Count(Is(c), s.connList) + Count(Has(c), s.threads) == Bit(c < max)
  }

  /** While anybody sleeps, there is a thread about to test for every free token. */
  ghost predicate NoneForgotten(s: State) {
    Count(Sleeper, s.threads) > 0 ==> s.count <= Count(WillTest, s.threads)
  }

  /** Nobody gets as far as the semaphore of an empty pool. */
  ghost predicate AskedForSome(s: State, max: nat) {
    max > 0 || forall t :: 0 <= t < |s.threads| ==> s.threads[t].Idle?
  }

  /** The list is a queue: first come, first given. */
  ghost predicate InOrder(s: State, max: nat) {
    UpTo(0, max) + s.returned == s.given + s.connList
  }

  ghost predicate Inv(s: State, max: nat) {
    InOrder(s, max) && Mutexes(s) && Tokens(s) && Counters(s, max) && OnePlace(s, max) && NoneForgotten(s) && AskedForSome(s, max)
  }

  // ----- every step keeps it -----

  lemma {:induction false} OneOfEach(from: nat, max: nat, c: nat)
    requires from <= max
    ensures Count(Is(c), UpTo(from, max)) == Bit(from <= c < max)
    decreases max - from
  {
    if from < max {
      assert UpTo(from, max)[1..] == UpTo(from + 1, max);
      OneOfEach(from + 1, max, c);
    }
  }

  lemma NoneHas(ts: seq<Thread>, c: nat)
    requires forall t :: 0 <= t < |ts| ==> ts[t].Idle?
    ensures Count(Has(c), ts) == 0
  {
    CountSome(Has(c), ts);
  }

  lemma InitialInv(threads: nat, max: nat)
    ensures Inv(Initial(threads, max), max)
  {
    hide Count, Is, Has;
    var s := Initial(threads, max);
    CountSome(HoldsPool, s.threads);
    CountSome(HoldsSem, s.threads);
    CountSome(HasToken, s.threads);
    CountSome(Unposted, s.threads);
    CountSome(OutUncounted, s.threads);
    CountSome(InUncounted, s.threads);
    CountSome(Sleeper, s.threads);
    forall c: nat ensures Count(Is(c), s.connList) + Count(Has(c), s.threads) == Bit(c < max) {
      NoneHas(s.threads, c);
      OneOfEach(0, max, c);
    }
  }

  /** The counts after one thread has moved. */
  lemma Moves(s: State, t: nat, to: Thread)
    requires t < |s.threads|
    ensures var r, from := s.threads[t := to], s.threads[t];
      && Count(HoldsPool, r) == Count(HoldsPool, s.threads) - Bit(HoldsPool(from)) + Bit(HoldsPool(to))
      && Count(HoldsSem, r) == Count(HoldsSem, s.threads) - Bit(HoldsSem(from)) + Bit(HoldsSem(to))
      && Count(HasToken, r) == Count(HasToken, s.threads) - Bit(HasToken(from)) + Bit(HasToken(to))
      && Count(Unposted, r) == Count(Unposted, s.threads) - Bit(Unposted(from)) + Bit(Unposted(to))
      && Count(WillTest, r) == Count(WillTest, s.threads) - Bit(WillTest(from)) + Bit(WillTest(to))
      && Count(Sleeper, r) == Count(Sleeper, s.threads) - Bit(Sleeper(from)) + Bit(Sleeper(to))
      && Count(OutUncounted, r) == Count(OutUncounted, s.threads) - Bit(OutUncounted(from)) + Bit(OutUncounted(to))
      && Count(InUncounted, r) == Count(InUncounted, s.threads) - Bit(InUncounted(from)) + Bit(InUncounted(to))
      && (forall c: nat :: Count(Has(c), r) == Count(Has(c), s.threads) - Bit(HasConn(from, c)) + Bit(HasConn(to, c)))
  {
    hide Count;
    CountUpdate(HoldsPool, s.threads, t, to);
    CountUpdate(HoldsSem, s.threads, t, to);
    CountUpdate(HasToken, s.threads, t, to);
    CountUpdate(Unposted, s.threads, t, to);
    CountUpdate(WillTest, s.threads, t, to);
    CountUpdate(Sleeper, s.threads, t, to);
    CountUpdate(OutUncounted, s.threads, t, to);
    CountUpdate(InUncounted, s.threads, t, to);
    forall c: nat
      ensures Count(Has(c), s.threads[t := to])
           == Count(Has(c), s.threads) - Bit(HasConn(s.threads[t], c)) + Bit(HasConn(to, c))
    {
      CountUpdate(Has(c), s.threads, t, to);
    }
  }

  lemma FrontOut(l: seq<nat>)
    ensures l != [] ==> forall c: nat :: Count(Is(c), l) == Bit(l[0] == c) + Count(Is(c), l[1..])
  {
  }

  lemma BackIn(l: seq<nat>, con: nat)
    ensures forall c: nat :: Count(Is(c), l + [con]) == Count(Is(c), l) + Bit(con == c)
  {
    forall c: nat ensures Count(Is(c), l + [con]) == Count(Is(c), l) + Bit(con == c) {
      CountConcat(Is(c), l, [con]);
    }
  }

  lemma AskKeeps(s: State, t: nat, max: nat)
    requires Inv(s, max) && Enabled(s, Ask(t))
    ensures Inv(Apply(s, Ask(t)), max)
  {
    hide Count, Has, Is;
    Moves(s, t, Waiting);
    if s.connList != [] {
      FrontOut(s.connList);
      assert Count(Is(s.connList[0]), s.connList) >= 1;
    }
  }

  lemma SemLockKeeps(s: State, t: nat, max: nat)
    requires Inv(s, max) && Enabled(s, SemLock(t))
    ensures Inv(Apply(s, SemLock(t)), max)
  {
    hide Count, Has, Is;
    Moves(s, t, Testing);
  }

  lemma SemTestKeeps(s: State, t: nat, max: nat)
    requires Inv(s, max) && Enabled(s, SemTest(t))
    ensures Inv(Apply(s, SemTest(t)), max)
  {
    hide Count, Has, Is;
    Moves(s, t, if s.count > 0 then Token else Asleep);
  }

  lemma SpuriousKeeps(s: State, t: nat, max: nat)
    requires Inv(s, max) && Enabled(s, Spurious(t))
    ensures Inv(Apply(s, Spurious(t)), max)
  {
    hide Count, Has, Is;
    Moves(s, t, Waiting);
  }

  lemma PoolLockKeeps(s: State, t: nat, max: nat)
    requires Inv(s, max) && Enabled(s, PoolLock(t))
    ensures Inv(Apply(s, PoolLock(t)), max)
  {
    hide Count, Has, Is;
    Moves(s, t, Locked);
  }

  lemma PopFrontKeeps(s: State, t: nat, max: nat)
    requires Inv(s, max) && Enabled(s, PopFront(t))
    ensures Inv(Apply(s, PopFront(t)), max)
  {
    hide Count, Has, Is;
    Moves(s, t, if s.connList == [] then Locked else Popped(s.connList[0]));
    FrontOut(s.connList);
  }

  lemma CountOutKeeps(s: State, t: nat, max: nat)
    requires Inv(s, max) && Enabled(s, CountOut(t))
    ensures Inv(Apply(s, CountOut(t)), max)
  {
    hide Count, Has, Is;
    Moves(s, t, Counted(s.threads[t].con));
  }

  lemma PoolUnlockKeeps(s: State, t: nat, max: nat)
    requires Inv(s, max) && Enabled(s, PoolUnlock(t))
    ensures Inv(Apply(s, PoolUnlock(t)), max)
  {
    hide Count, Has, Is;
    Moves(s, t, Held(s.threads[t].con));
  }

  lemma ReleaseKeeps(s: State, t: nat, max: nat)
    requires Inv(s, max) && Enabled(s, Release(t))
    ensures Inv(Apply(s, Release(t)), max)
  {
    hide Count, Has, Is;
    Moves(s, t, Returning(s.threads[t].con));
  }

  lemma PushBackKeeps(s: State, t: nat, max: nat)
    requires Inv(s, max) && Enabled(s, PushBack(t))
    ensures Inv(Apply(s, PushBack(t)), max)
  {
    hide Count, Has, Is;
    Moves(s, t, Pushed);
    BackIn(s.connList, s.threads[t].con);
    var con := s.threads[t].con;
    assert UpTo(0, max) + (s.returned + [con]) == UpTo(0, max) + s.returned + [con] == s.given + (s.connList + [con]);
  }

  lemma CountInKeeps(s: State, t: nat, max: nat)
    requires Inv(s, max) && Enabled(s, CountIn(t))
    ensures Inv(Apply(s, CountIn(t)), max)
  {
    hide Count, Has, Is;
    Moves(s, t, Restored);
  }

  lemma UnlockKeeps(s: State, t: nat, max: nat)
    requires Inv(s, max) && Enabled(s, Unlock(t))
    ensures Inv(Apply(s, Unlock(t)), max)
  {
    hide Count, Has, Is;
    Moves(s, t, ToPost);
  }

  lemma PostLockKeeps(s: State, t: nat, max: nat)
    requires Inv(s, max) && Enabled(s, PostLock(t))
    ensures Inv(Apply(s, PostLock(t)), max)
  {
    hide Count, Has, Is;
    Moves(s, t, Posting);
  }

  lemma PostWakesKeeps(s: State, t: nat, w: nat, max: nat)
    requires Inv(s, max) && Enabled(s, Post(t, w)) && w < |s.threads| && s.threads[w].Asleep?
    ensures Inv(Apply(s, Post(t, w)), max)
  {
    hide Count, Has, Is;
    Moves(s, w, Waiting);
    Moves(Go(s, w, Waiting), t, Idle);
  }

  lemma PostAloneKeeps(s: State, t: nat, w: nat, max: nat)
    requires Inv(s, max) && Enabled(s, Post(t, w)) && Asleep !in s.threads
    ensures Inv(Apply(s, Post(t, w)), max)
  {
    hide Count, Has, Is;
    CountSome(Sleeper, s.threads);
    Moves(s, t, Idle);
  }

  lemma StepKeepsInv(s: State, step: Step, max: nat)
    requires Inv(s, max) && Enabled(s, step)
    ensures Inv(Apply(s, step), max)
  {
    hide Inv, Apply;
    match step
    case Ask(t) => AskKeeps(s, t, max);
    case SemLock(t) => SemLockKeeps(s, t, max);
    case SemTest(t) => SemTestKeeps(s, t, max);
    case Spurious(t) => SpuriousKeeps(s, t, max);
    case PoolLock(t) => PoolLockKeeps(s, t, max);
    case PopFront(t) => PopFrontKeeps(s, t, max);
    case CountOut(t) => CountOutKeeps(s, t, max);
    case PoolUnlock(t) => PoolUnlockKeeps(s, t, max);
    case Release(t) => ReleaseKeeps(s, t, max);
    case PushBack(t) => PushBackKeeps(s, t, max);
    case CountIn(t) => CountInKeeps(s, t, max);
    case Unlock(t) => UnlockKeeps(s, t, max);
    case PostLock(t) => PostLockKeeps(s, t, max);
    case Post(t, w) => if Asleep in s.threads { PostWakesKeeps(s, t, w, max); } else { PostAloneKeeps(s, t, w, max); }
  }

  lemma {:induction false} RunInv(threads: nat, max: nat, steps: seq<Step>)
    requires ValidRun(threads, max, steps)
    ensures Inv(Run(threads, max, steps), max)
    decreases |steps|
  {
    hide Inv, Enabled, Apply;
    if steps == [] {
      InitialInv(threads, max);
    } else {
      var init := steps[..|steps| - 1];
      RunInv(threads, max, init);
      StepKeepsInv(Run(threads, max, init), steps[|steps| - 1], max);
    }
  }

  // ----- what it means for whole runs -----

  /** Whenever a thread is about to take the front of the list, there is one. */
  lemma FrontExists(threads: nat, max: nat, steps: seq<Step>, t: nat)
    requires ValidRun(threads, max, steps)
    requires t < |Run(threads, max, steps).threads| && Run(threads, max, steps).threads[t].Locked?
    ensures Run(threads, max, steps).connList != []
  {
    hide Inv, Apply, Enabled;
    RunInv(threads, max, steps);
    FrontIsThere(Run(threads, max, steps), t, max);
  }

  /** The semaphore, the counters and the list agree whenever the mutex of the pool is free. */
  lemma Accounts(threads: nat, max: nat, steps: seq<Step>)
    requires ValidRun(threads, max, steps)
    ensures var s := Run(threads, max, steps);
      && s.count >= 0 && s.free + s.cur == max
      && |s.connList| == s.count + Count(HasToken, s.threads) + Count(Unposted, s.threads)
      && (!s.locked ==> s.free == |s.connList|)
  {
    hide Count, Apply, Enabled;
    RunInv(threads, max, steps);
    var s := Run(threads, max, steps);
    CountSome(HoldsPool, s.threads);
    CountSome(OutUncounted, s.threads);
    CountSome(InUncounted, s.threads);
  }

  /** No connection has two holders, none that is held is in the list, and none gets lost. */
  lemma OneHolder(threads: nat, max: nat, steps: seq<Step>, c: nat)
    requires ValidRun(threads, max, steps) && c < max
    ensures var s := Run(threads, max, steps);
      && (forall t, u :: 0 <= t < u < |s.threads| ==> !(HasConn(s.threads[t], c) && HasConn(s.threads[u], c)))
      && (c in s.connList <==> forall t :: 0 <= t < |s.threads| ==> !HasConn(s.threads[t], c))
  {
    hide Count, Apply, Enabled;
    RunInv(threads, max, steps);
    var s := Run(threads, max, steps);
    assert Count(Is(c), s.connList) + Count(Has(c), s.threads) == 1;
    CountSome(Is(c), s.connList);
    CountSome(Has(c), s.threads);
    forall t, u | 0 <= t < u < |s.threads| ensures !(HasConn(s.threads[t], c) && HasConn(s.threads[u], c)) {
      if HasConn(s.threads[t], c) && HasConn(s.threads[u], c) { OnlyOne(Has(c), s.threads, t, u); }
    }
  }

  /** A step of a thread that has asked for a connection or has one. */
  predicate Progress(step: Step) {
    !step.Spurious? && !step.Ask?
  }

  /** With everybody idle or asleep, no connection would be anywhere. */
  lemma SomebodyAwake(s: State, max: nat)
    requires Inv(s, max) && Asleep in s.threads
    ensures exists t :: 0 <= t < |s.threads| && !s.threads[t].Idle? && !s.threads[t].Asleep?
  {
    hide Count;
    CountSome(HasToken, s.threads);
    CountSome(Unposted, s.threads);
    CountSome(WillTest, s.threads);
    CountSome(Sleeper, s.threads);
    CountSome(Has(0), s.threads);
    CountSome(Is(0), s.connList);
    assert Count(Is(0), s.connList) + Count(Has(0), s.threads) == Bit(0 < max);
  }

  /** Connections are given out in the order in which they were opened and, after that, returned. */
  lemma FirstComeFirstGiven(threads: nat, max: nat, steps: seq<Step>)
    requires ValidRun(threads, max, steps)
    ensures var s := Run(threads, max, steps); UpTo(0, max) + s.returned == s.given + s.connList
  {
    hide Apply, Enabled, Mutexes, Tokens, Counters, OnePlace, NoneForgotten, AskedForSome;
    RunInv(threads, max, steps);
  }

  // ----- every sleeper gets its connection -----

  /** `more` leads from `s` to `t`. */
  ghost predicate Leads(s: State, more: seq<Step>, t: State)
    decreases |more|
  {
    if more == [] then s == t else Enabled(s, more[0]) && Leads(Apply(s, more[0]), more[1..], t)
  }

  predicate AllProgress(more: seq<Step>) {
    forall i :: 0 <= i < |more| ==> Progress(more[i])
  }

  lemma {:induction false} LeadsOn(s: State, more: seq<Step>, t: State, later: seq<Step>, u: State)
    requires Leads(s, more, t) && Leads(t, later, u) && AllProgress(more) && AllProgress(later)
    ensures Leads(s, more + later, u) && AllProgress(more + later)
    decreases |more|
  {
    hide Enabled, Apply;
    if more == [] {
      assert more + later == later;
    } else {
      assert (more + later)[1..] == more[1..] + later;
      LeadsOn(Apply(s, more[0]), more[1..], t, later, u);
    }
  }

  lemma LeadsStep(s: State, step: Step, more: seq<Step>, t: State)
    requires Enabled(s, step) && Progress(step) && Leads(Apply(s, step), more, t) && AllProgress(more)
    ensures Leads(s, [step] + more, t) && AllProgress([step] + more)
  {
    hide Enabled, Apply;
    assert ([step] + more)[1..] == more;
  }

  lemma {:induction false} RunLeads(threads: nat, max: nat, steps: seq<Step>, more: seq<Step>, t: State)
    requires ValidRun(threads, max, steps) && Leads(Run(threads, max, steps), more, t)
    ensures ValidRun(threads, max, steps + more) && Run(threads, max, steps + more) == t
    decreases |more|
  {
    hide Enabled, Apply;
    if more == [] {
      assert steps + more == steps;
    } else {
      assert (steps + [more[0]])[..|steps|] == steps;
      RunLeads(threads, max, steps + [more[0]], more[1..], t);
      assert steps + [more[0]] + more[1..] == steps + more;
    }
  }

  /** How far a thread is from having nothing to do. */
  function Weight(t: Thread): nat {
    match t
    case Waiting => 14
    case Testing => 13
    case Token => 12
    case Locked => 11
    case Popped(_) => 10
    case Counted(_) => 9
    case Held(_) => 8
    case Returning(_) => 7
    case Pushed => 6
    case Restored => 5
    case ToPost => 4
    case Posting => 3
    case _ => 0
  }

  function Distance(s: State): nat {
    Total(Weight, s.threads)
  }

  /** Thread `u` may move: it holds the mutex it needs, or that mutex is free. */
  predicate MayMove(s: State, u: nat) {
    && u < |s.threads| && !s.threads[u].Idle? && !s.threads[u].Asleep? && !s.threads[u].Posting?
    && (HoldsPool(s.threads[u]) || HoldsSem(s.threads[u]) || (!s.locked && !s.semLocked))
  }

  lemma FrontIsThere(s: State, u: nat, max: nat)
    requires Inv(s, max) && u < |s.threads| && s.threads[u].Locked?
    ensures s.connList != []
  {
    hide Count;
    CountSome(HasToken, s.threads);
  }

  lemma ThreadMoves(s: State, u: nat, max: nat) returns (step: Step)
    requires Inv(s, max) && MayMove(s, u)
    ensures Enabled(s, step) && Progress(step) && Distance(Apply(s, step)) < Distance(s)
    ensures var t := Apply(s, step); t.threads == s.threads[u := t.threads[u]]
  {
    hide Count, Total, Inv, Mutexes;
    if s.threads[u].Locked? { FrontIsThere(s, u, max); }
    step := match s.threads[u]
      case Waiting => SemLock(u)
      case Testing => SemTest(u)
      case Token => PoolLock(u)
      case Locked => PopFront(u)
      case Popped(_) => CountOut(u)
      case Counted(_) => PoolUnlock(u)
      case Held(_) => Release(u)
      case Returning(_) => PushBack(u)
      case Pushed => CountIn(u)
      case Restored => Unlock(u)
      case ToPost => PostLock(u);
    TotalUpdate(Weight, s.threads, u, Apply(s, step).threads[u]);
  }

  /** While a thread sleeps, another one is about to post or may move. */
  lemma SomebodyMoves(s: State, max: nat) returns (u: nat)
    requires Inv(s, max) && Asleep in s.threads
    ensures u < |s.threads| && (s.threads[u].Posting? || MayMove(s, u))
  {
    hide Count;
    SomebodyAwake(s, max);
    CountSome(HoldsPool, s.threads);
    CountSome(HoldsSem, s.threads);
    if s.locked {
      u :| 0 <= u < |s.threads| && HoldsPool(s.threads[u]);
    } else if s.semLocked {
      u :| 0 <= u < |s.threads| && HoldsSem(s.threads[u]);
    } else {
      u :| 0 <= u < |s.threads| && !s.threads[u].Idle? && !s.threads[u].Asleep?;
    }
  }

  /** The others go on until one of them posts, and the sleeper `w` is the one woken. */
  lemma {:induction false} SomebodyPosts(s: State, w: nat, max: nat) returns (more: seq<Step>, t: State)
    requires Inv(s, max) && w < |s.threads| && s.threads[w].Asleep?
    ensures Leads(s, more, t) && AllProgress(more) && Inv(t, max)
    ensures w < |t.threads| && t.threads[w].Waiting? && !t.semLocked && t.count > 0
    decreases Distance(s)
  {
    hide Count, Distance, Leads, AllProgress, MayMove, Progress, Mutexes, Counters, OnePlace, NoneForgotten, AskedForSome;
    var u := SomebodyMoves(s, max);
    if s.threads[u].Posting? {
      StepKeepsInv(s, Post(u, w), max);
      t := Apply(s, Post(u, w));
      more := OneStep(s, Post(u, w));
    } else {
      var step := ThreadMoves(s, u, max);
      StepKeepsInv(s, step, max);
      Distinguish(s, u, w);
      var rest;
      rest, t := SomebodyPosts(Apply(s, step), w, max);
      LeadsStep(s, step, rest, t);
      more := [step] + rest;
    }
  }

  lemma Distinguish(s: State, u: nat, w: nat)
    requires MayMove(s, u) && w < |s.threads| && s.threads[w].Asleep?
    ensures u != w
  {
  }

  lemma OneStep(s: State, step: Step) returns (more: seq<Step>)
    requires Enabled(s, step) && step.Post?
    ensures Leads(s, more, Apply(s, step)) && AllProgress(more)
  {
    hide Enabled, Apply;
    more := [step];
    assert more[1..] == [];
  }

  /** A thread with a token and the mutex free takes its connection. */
  lemma TakesConnection(s: State, w: nat, max: nat) returns (more: seq<Step>, t: State)
    requires Inv(s, max) && w < |s.threads| && s.threads[w].Token? && !s.locked
    ensures Leads(s, more, t) && AllProgress(more) && w < |t.threads| && t.threads[w].Held?
  {
    hide Count;
    CountSome(HasToken, s.threads);
    var s1 := Apply(s, PoolLock(w));
    var s2 := Apply(s1, PopFront(w));
    var s3 := Apply(s2, CountOut(w));
    t := Apply(s3, PoolUnlock(w));
    LeadsStep(s3, PoolUnlock(w), [], t);
    LeadsStep(s2, CountOut(w), [PoolUnlock(w)] + [], t);
    LeadsStep(s1, PopFront(w), [CountOut(w)] + ([PoolUnlock(w)] + []), t);
    more := [PoolLock(w)] + ([PopFront(w)] + ([CountOut(w)] + ([PoolUnlock(w)] + [])));
    LeadsStep(s, PoolLock(w), [PopFront(w)] + ([CountOut(w)] + ([PoolUnlock(w)] + [])), t);
  }

  /** Whoever holds the mutex of the pool lets go of it, and the thread with the token takes it. */
  lemma {:induction false} TokenIsHonoured(s: State, w: nat, max: nat) returns (more: seq<Step>, t: State)
    requires Inv(s, max) && w < |s.threads| && s.threads[w].Token?
    ensures Leads(s, more, t) && AllProgress(more) && w < |t.threads| && t.threads[w].Held?
    decreases Distance(s)
  {
    hide Count, Distance, Leads, AllProgress, Progress, Apply, Enabled;
    if s.locked {
      CountSome(HoldsPool, s.threads);
      var u :| 0 <= u < |s.threads| && HoldsPool(s.threads[u]);
      var step := ThreadMoves(s, u, max);
      StepKeepsInv(s, step, max);
      var rest;
      rest, t := TokenIsHonoured(Apply(s, step), w, max);
      LeadsStep(s, step, rest, t);
      more := [step] + rest;
    } else {
      more, t := TakesConnection(s, w, max);
    }
  }

  /** A woken thread passes the semaphore while it has a token to give. */
  lemma PassesSemaphore(s: State, w: nat, max: nat) returns (more: seq<Step>, t: State)
    requires Inv(s, max) && w < |s.threads| && s.threads[w].Waiting? && !s.semLocked && s.count > 0
    ensures Leads(s, more, t) && AllProgress(more) && Inv(t, max) && w < |t.threads| && t.threads[w].Token?
  {
    hide Inv;
    var s1 := Apply(s, SemLock(w));
    t := Apply(s1, SemTest(w));
    StepKeepsInv(s, SemLock(w), max);
    StepKeepsInv(s1, SemTest(w), max);
    LeadsStep(s1, SemTest(w), [], t);
    more := [SemLock(w)] + ([SemTest(w)] + []);
    LeadsStep(s, SemLock(w), [SemTest(w)] + [], t);
  }

  /** Every run in which thread `w` sleeps on the semaphore can be so continued, without another request and
      without a spurious wake-up, that `w` has its connection. */
  lemma SleeperIsServed(threads: nat, max: nat, steps: seq<Step>, w: nat)
    requires ValidRun(threads, max, steps)
    requires w < |Run(threads, max, steps).threads| && Run(threads, max, steps).threads[w].Asleep?
    ensures exists more ::
      && AllProgress(more) && ValidRun(threads, max, steps + more)
      && w < |Run(threads, max, steps + more).threads| && Run(threads, max, steps + more).threads[w].Held?
  {
    hide Run, ValidRun, Inv, Leads, AllProgress;
    RunInv(threads, max, steps);
    var s := Run(threads, max, steps);
    var first, s1 := SomebodyPosts(s, w, max);
    var second, s2 := PassesSemaphore(s1, w, max);
    var third, t := TokenIsHonoured(s2, w, max);
    LeadsOn(s, first, s1, second, s2);
    LeadsOn(s, first + second, s2, third, t);
    RunLeads(threads, max, steps, first + second + third, t);
  }

  // ----- and so does everyone who asks while one is free -----

  /** GetConnection turns a thread away if and only if it finds the list empty; otherwise that thread goes for
      the semaphore and nothing else changes. */
  lemma AskTurnsAway(s: State, w: nat)
    requires Enabled(s, Ask(w))
    ensures var t := Apply(s, Ask(w));
      if s.connList == [] then t == s else t == s.(threads := s.threads[w := Waiting])
  {
  }

  /** Whoever holds the mutex of the semaphore lets go of it. */
  lemma SemaphoreIsFreed(s: State, w: nat, max: nat) returns (more: seq<Step>, t: State)
    requires Inv(s, max) && w < |s.threads| && s.threads[w].Waiting?
    ensures Leads(s, more, t) && AllProgress(more) && Inv(t, max)
    ensures w < |t.threads| && t.threads[w].Waiting? && !t.semLocked
  {
    hide Count, Inv;
    if s.semLocked {
      var u := SemaphoreHolder(s, max);
      if s.threads[u].Posting? {
        var v := if Asleep in s.threads then SomeSleeper(s) else 0;
        StepKeepsInv(s, Post(u, v), max);
        t := Apply(s, Post(u, v));
        more := OneStep(s, Post(u, v));
      } else {
        StepKeepsInv(s, SemTest(u), max);
        t := Apply(s, SemTest(u));
        LeadsStep(s, SemTest(u), [], t);
        more := [SemTest(u)] + [];
      }
    } else {
      more, t := [], s;
    }
  }

  lemma SemaphoreHolder(s: State, max: nat) returns (u: nat)
    requires Inv(s, max) && s.semLocked
    ensures u < |s.threads| && HoldsSem(s.threads[u])
  {
    hide Count;
    CountSome(HoldsSem, s.threads);
    u :| 0 <= u < |s.threads| && HoldsSem(s.threads[u]);
  }

  function SomeSleeper(s: State): (v: nat)
    requires Asleep in s.threads
    ensures v < |s.threads| && s.threads[v] == Asleep
  {
    SleeperFrom(s.threads)
  }

  function SleeperFrom(ts: seq<Thread>): (v: nat)
    requires Asleep in ts
    ensures v < |ts| && ts[v] == Asleep
  {
    if ts[0] == Asleep then 0 else 1 + SleeperFrom(ts[1..])
  }

  /** A thread at the semaphore gets its connection, at once or after a sleep. */
  lemma WaiterIsServed(s: State, w: nat, max: nat) returns (more: seq<Step>, t: State)
    requires Inv(s, max) && w < |s.threads| && s.threads[w].Waiting?
    ensures Leads(s, more, t) && AllProgress(more) && w < |t.threads| && t.threads[w].Held?
  {
    hide Count, Inv, Leads, AllProgress, Progress;
    var first, s1 := SemaphoreIsFreed(s, w, max);
    var second, s2 := TestsSemaphore(s1, w, max);
    LeadsOn(s, first, s1, second, s2);
    if s2.threads[w].Asleep? {
      var third, s3 := SomebodyPosts(s2, w, max);
      var fourth, s4 := PassesSemaphore(s3, w, max);
      LeadsOn(s, first + second, s2, third, s3);
      LeadsOn(s, first + second + third, s3, fourth, s4);
      var fifth;
      fifth, t := TokenIsHonoured(s4, w, max);
      LeadsOn(s, first + second + third + fourth, s4, fifth, t);
      more := first + second + third + fourth + fifth;
    } else {
      var third;
      third, t := TokenIsHonoured(s2, w, max);
      LeadsOn(s, first + second, s2, third, t);
      more := first + second + third;
    }
  }

  lemma TestsSemaphore(s: State, w: nat, max: nat) returns (more: seq<Step>, t: State)
    requires Inv(s, max) && w < |s.threads| && s.threads[w].Waiting? && !s.semLocked
    ensures Leads(s, more, t) && AllProgress(more) && Inv(t, max)
    ensures w < |t.threads| && (t.threads[w].Token? || t.threads[w].Asleep?)
  {
    hide Inv;
    var s1 := Apply(s, SemLock(w));
    t := Apply(s1, SemTest(w));
    StepKeepsInv(s, SemLock(w), max);
    StepKeepsInv(s1, SemTest(w), max);
    LeadsStep(s1, SemTest(w), [], t);
    more := [SemLock(w)] + ([SemTest(w)] + []);
    LeadsStep(s, SemLock(w), [SemTest(w)] + [], t);
  }

  /** From every reachable state with a free connection, an idle thread that asks can get one, without another
      request and without a spurious wake-up. */
  lemma AskerIsServed(threads: nat, max: nat, steps: seq<Step>, w: nat)
    requires ValidRun(threads, max, steps) && Run(threads, max, steps).connList != []
    requires w < |Run(threads, max, steps).threads| && Run(threads, max, steps).threads[w].Idle?
    ensures exists more ::
      && AllProgress(more) && ValidRun(threads, max, steps + [Ask(w)] + more)
      && w < |Run(threads, max, steps + [Ask(w)] + more).threads|
      && Run(threads, max, steps + [Ask(w)] + more).threads[w].Held?
  {
    hide Run, ValidRun, Inv, Leads, AllProgress;
    RunInv(threads, max, steps);
    var s := Run(threads, max, steps);
    StepKeepsInv(s, Ask(w), max);
    var more, t := WaiterIsServed(Apply(s, Ask(w)), w, max);
    RunStep(threads, max, steps, Ask(w));
    RunLeads(threads, max, steps + [Ask(w)], more, t);
  }

  lemma RunStep(threads: nat, max: nat, steps: seq<Step>, step: Step)
    requires ValidRun(threads, max, steps) && Enabled(Run(threads, max, steps), step)
    ensures ValidRun(threads, max, steps + [step]) && Run(threads, max, steps + [step]) == Apply(Run(threads, max, steps), step)
  {
    hide Enabled, Apply;
    assert (steps + [step])[..|steps|] == steps;
  }
}
