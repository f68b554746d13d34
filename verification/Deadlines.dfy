/** What the time wheel promises its users: runs of adds, deletes and ticks over the pool and a map from
timer to the ticks it still waits through.  Timers.TimeWheel.AddTimer, DelTimer and Tick refine one step
each. */
module Deadlines {
  import opened Pool
  import opened Timers

  datatype WheelOp = Add(p: int, timeout: int) | Delete(p: int) | TickOp

  function StepWheel(ranks: map<int, int>, op: WheelOp): map<int, int> {
    match op
    case Add(p, timeout) => ranks[p := TicksFor(timeout)]
    case Delete(p) => ranks - {p}
    case TickOp => TickModel(ranks)
  }

  /** The nodes of the wheel are the live cells of the pool. */
  datatype Wheel = Wheel(pool: PoolModel, ranks: map<int, int>)

  ghost predicate WheelOk(w: Wheel) {
    Partition(w.pool) && w.ranks.Keys == w.pool.live
  }

  /** add_timer(timeout), del_timer(p), and tick(), which meets the due timers in the order `fired`. */
  datatype Call = Insert(timeout: int) | Remove(p: int) | Turn(fired: seq<int>)

  predicate Possible(w: Wheel, call: Call) {
    match call
    case Insert(_) => true
    case Remove(p) => p in w.ranks
    case Turn(fired) => Distinct(fired) && Elems(fired) == Due(w.ranks)
  }

  function Next(w: Wheel, call: Call, blockSize: nat): Wheel
    requires blockSize >= 2
  {
    match call
    case Insert(timeout) =>
      if timeout < 0 then w
      else Wheel(AllocateModel(w.pool, blockSize), StepWheel(w.ranks, Add(NextAddress(w.pool), timeout)))
    case Remove(p) => Wheel(DeallocateModel(w.pool, p), StepWheel(w.ranks, Delete(p)))
    case Turn(fired) => Wheel(DeallocateAll(w.pool, fired), StepWheel(w.ranks, TickOp))
  }

  lemma {:induction false} DeallocateAllKeeps(m: PoolModel, fired: seq<int>)
    requires Partition(m) && Distinct(fired) && Elems(fired) <= m.live
    ensures Partition(DeallocateAll(m, fired)) && DeallocateAll(m, fired).live == m.live - Elems(fired)
    decreases |fired|
  {
    hide Partition;
    if fired == [] {
      assert m.live - Elems([]) == m.live;
    } else {
      var init, last := fired[..|fired| - 1], fired[|fired| - 1];
      ElemsLast(fired, m.live);
      DeallocateAllKeeps(m, init);
      DeallocateKeepsPartition(DeallocateAll(m, init), last);
    }
  }

  lemma ElemsLast(s: seq<int>, cells: set<int>)
    requires s != [] && Distinct(s) && Elems(s) <= cells
    ensures var init, last := s[..|s| - 1], s[|s| - 1];
      && Distinct(init) && Elems(init) <= cells && last in cells - Elems(init)
      && cells - Elems(s) == cells - Elems(init) - {last}
  {
    assert s == s[..|s| - 1] + [s[|s| - 1]] && s[|s| - 1] in Elems(s);
    assert Elems(s) == Elems(s[..|s| - 1]) + {s[|s| - 1]};
  }

  lemma NextOk(w: Wheel, call: Call, blockSize: nat)
    requires blockSize >= 2 && WheelOk(w) && Possible(w, call)
    ensures WheelOk(Next(w, call, blockSize)) && NextAddress(w.pool) !in w.ranks
  {
    AllocateKeepsPartition(w.pool, blockSize);
    hide Partition, AllocateModel, NextAddress;
    match call
    case Insert(_) =>
    case Remove(p) => DeallocateKeepsPartition(w.pool, p);
    case Turn(fired) => DeallocateAllKeeps(w.pool, fired);
  }

  // ----- runs -----

  predicate ValidCalls(w: Wheel, calls: seq<Call>, blockSize: nat)
    requires blockSize >= 2
    decreases |calls|
  {
    calls == [] ||
    (var init := calls[..|calls| - 1];
     ValidCalls(w, init, blockSize) && Possible(RunCalls(w, init, blockSize), calls[|calls| - 1]))
  }

  function RunCalls(w: Wheel, calls: seq<Call>, blockSize: nat): Wheel
    requires blockSize >= 2
    decreases |calls|
  {
    if calls == [] then w else Next(RunCalls(w, calls[..|calls| - 1], blockSize), calls[|calls| - 1], blockSize)
  }

  function Ticks(calls: seq<Call>): (n: nat)
    ensures n <= |calls|
  {
    if calls == [] then 0 else Ticks(calls[..|calls| - 1]) + if calls[|calls| - 1].Turn? then 1 else 0
  }

  lemma {:induction false} RunOk(w: Wheel, calls: seq<Call>, blockSize: nat)
    requires blockSize >= 2 && WheelOk(w) && ValidCalls(w, calls, blockSize)
    ensures WheelOk(RunCalls(w, calls, blockSize))
    decreases |calls|
  {
    hide WheelOk, Possible, Next;
    if calls != [] {
      var init := calls[..|calls| - 1];
      RunOk(w, init, blockSize);
      NextOk(RunCalls(w, init, blockSize), calls[|calls| - 1], blockSize);
    }
  }

  /** Timer `t` is not deleted in the calls made before it has fired, that is, up to tick `n` + 1. */
  predicate Kept(t: int, n: nat, calls: seq<Call>) {
    forall i :: 0 <= i < |calls| && Ticks(calls[..i]) <= n ==> calls[i] != Remove(t)
  }

  lemma {:induction false} TicksGrow(calls: seq<Call>, i: nat)
    requires i <= |calls|
    ensures Ticks(calls[..i]) <= Ticks(calls)
    decreases |calls|
  {
    if i < |calls| {
      var init := calls[..|calls| - 1];
      assert init[..i] == calls[..i];
      TicksGrow(init, i);
    } else {
      assert calls[..i] == calls;
    }
  }

  /** A timer that waits keeps its address to itself and comes nearer with every tick. */
  lemma {:induction false} Waits(w: Wheel, t: int, n: nat, calls: seq<Call>, blockSize: nat)
    requires blockSize >= 2 && WheelOk(w) && ValidCalls(w, calls, blockSize)
    requires t in w.ranks && w.ranks[t] == n && Kept(t, n, calls) && Ticks(calls) <= n
    ensures var v := RunCalls(w, calls, blockSize); t in v.ranks && v.ranks[t] == n - Ticks(calls)
    decreases |calls|
  {
    hide WheelOk, AllocateModel, DeallocateModel, DeallocateAll, NextAddress;
    if calls != [] {
      var init, last := calls[..|calls| - 1], calls[|calls| - 1];
      KeptPrefix(t, n, calls, |calls| - 1);
      TicksGrow(calls, |calls| - 1);
      Waits(w, t, n, init, blockSize);
      RunOk(w, init, blockSize);
      NextOk(RunCalls(w, init, blockSize), last, blockSize);
    }
  }

  lemma KeptPrefix(t: int, n: nat, calls: seq<Call>, i: nat)
    requires Kept(t, n, calls) && i <= |calls|
    ensures Kept(t, n, calls[..i]) && (i < |calls| && Ticks(calls[..i]) <= n ==> calls[i] != Remove(t))
  {
    forall k | 0 <= k < i && Ticks(calls[..i][..k]) <= n ensures calls[..i][k] != Remove(t) {
      assert calls[..i][..k] == calls[..k];
    }
  }

  lemma ValidPrefix(w: Wheel, calls: seq<Call>, i: nat, blockSize: nat)
    requires blockSize >= 2 && ValidCalls(w, calls, blockSize) && i <= |calls|
    ensures ValidCalls(w, calls[..i], blockSize)
    ensures i < |calls| ==> Possible(RunCalls(w, calls[..i], blockSize), calls[i])
    decreases |calls|
  {
    if i == |calls| {
      assert calls[..i] == calls;
    } else if i < |calls| - 1 {
      ValidPrefix(w, calls[..|calls| - 1], i, blockSize);
      assert calls[..|calls| - 1][..i] == calls[..i];
    }
  }

  /** Which ticks fire a timer: of all calls after it was added, up to and with tick number
      max(1, timeout) + 1, exactly that tick fires it, once; no add in between gets its address, and after
      that tick it is gone, so that whatever the address stands for later is another timer.  Adds and
      deletes besides, and what happens after the firing, are arbitrary. */
  lemma FiresExactlyOnce(w: Wheel, timeout: int, calls: seq<Call>, i: nat, blockSize: nat)
    requires blockSize >= 2 && WheelOk(w) && timeout >= 0
    requires ValidCalls(Next(w, Insert(timeout), blockSize), calls, blockSize)
    requires Kept(NextAddress(w.pool), TicksFor(timeout), calls)
    requires i < |calls| && Ticks(calls[..i]) <= TicksFor(timeout)
    ensures var t, n, v := NextAddress(w.pool), TicksFor(timeout), RunCalls(Next(w, Insert(timeout), blockSize), calls[..i], blockSize);
      && t in v.ranks && v.ranks[t] == n - Ticks(calls[..i])
      && match calls[i]
         case Insert(_) => NextAddress(v.pool) != t
         case Remove(p) => p != t
         case Turn(fired) =>
           && (t in fired <==> Ticks(calls[..i]) == n)
           && (t in Next(v, calls[i], blockSize).ranks <==> Ticks(calls[..i]) < n)
  {
    hide WheelOk, AllocateModel, DeallocateModel, DeallocateAll;
    var w1, t, n := Next(w, Insert(timeout), blockSize), NextAddress(w.pool), TicksFor(timeout);
    NextOk(w, Insert(timeout), blockSize);
    ValidPrefix(w1, calls, i, blockSize);
    KeptPrefix(t, n, calls, i);
    Waits(w1, t, n, calls[..i], blockSize);
    RunOk(w1, calls[..i], blockSize);
    NextOk(RunCalls(w1, calls[..i], blockSize), calls[i], blockSize);
    if calls[i].Turn? { assert t in calls[i].fired <==> t in Elems(calls[i].fired); }
  }

  lemma NotBefore(w: Wheel, timeout: int, calls: seq<Call>, i: nat, blockSize: nat)
    requires blockSize >= 2 && WheelOk(w) && timeout >= 0
    requires ValidCalls(Next(w, Insert(timeout), blockSize), calls, blockSize)
    requires Kept(NextAddress(w.pool), TicksFor(timeout), calls)
    requires i < |calls| && calls[i].Turn? && Ticks(calls[..i + 1]) <= TicksFor(timeout)
    ensures NextAddress(w.pool) !in calls[i].fired
  {
    assert calls[..i + 1][..i] == calls[..i];
    assert Ticks(calls[..i + 1]) == Ticks(calls[..i]) + 1;
    FiresExactlyOnce(w, timeout, calls, i, blockSize);
  }

  lemma FiresThen(w: Wheel, timeout: int, calls: seq<Call>, i: nat, blockSize: nat)
    requires blockSize >= 2 && WheelOk(w) && timeout >= 0
    requires ValidCalls(Next(w, Insert(timeout), blockSize), calls, blockSize)
    requires Kept(NextAddress(w.pool), TicksFor(timeout), calls)
    requires i < |calls| && calls[i].Turn? && Ticks(calls[..i]) == TicksFor(timeout)
    ensures NextAddress(w.pool) in calls[i].fired
  {
    FiresExactlyOnce(w, timeout, calls, i, blockSize);
  }

  /** The promise of the documentation is max(1, timeout) ticks; the wheel takes one tick more, because the
      cursor moves on only after a slot was served: after that many ticks the timer has not fired, and the
      next one fires it. */
  lemma OneTickLate(w: Wheel, timeout: int, calls: seq<Call>, last: Call, blockSize: nat)
    requires blockSize >= 2 && WheelOk(w) && timeout >= 0 && last.Turn? && Ticks(calls) == TicksFor(timeout)
    requires ValidCalls(Next(w, Insert(timeout), blockSize), calls + [last], blockSize)
    requires Kept(NextAddress(w.pool), TicksFor(timeout), calls + [last])
    ensures forall i :: 0 <= i < |calls| && calls[i].Turn? ==> NextAddress(w.pool) !in calls[i].fired
    ensures NextAddress(w.pool) in last.fired
  {
    hide WheelOk, ValidCalls, Kept, Next, NextAddress, TicksFor, RunCalls, Ticks;
    var all := calls + [last];
    forall i | 0 <= i < |calls| && calls[i].Turn? ensures NextAddress(w.pool) !in calls[i].fired {
      TicksGrow(calls, i + 1);
      assert all[..i + 1] == calls[..i + 1];
      NotBefore(w, timeout, all, i, blockSize);
    }
    assert all[..|calls|] == calls;
    FiresThen(w, timeout, all, |calls|, blockSize);
  }

  // ----- the wheel performs the calls -----

  /** What a caller asks for; the client of a new timer is its `user`. */
  datatype Command = AddTimer(timeout: int, user: int) | DelTimer(p: int) | Tick

  predicate Performs(command: Command, call: Call) {
    match command
    case AddTimer(timeout, _) => call == Insert(timeout)
    case DelTimer(p) => call == Remove(p)
    case Tick => call.Turn?
  }

  /** In whatever order ticks meet the due timers, only timers that wait are deleted, and clients are in range. */
  ghost predicate Sound(w: Wheel, commands: seq<Command>, clients: nat, blockSize: nat)
    requires blockSize >= 2
    decreases |commands|
  {
    commands == [] ||
    match commands[0]
    case AddTimer(timeout, user) => 0 <= user < clients && Sound(Next(w, Insert(timeout), blockSize), commands[1..], clients, blockSize)
    case DelTimer(p) => p in w.ranks && Sound(Next(w, Remove(p), blockSize), commands[1..], clients, blockSize)
    case Tick =>
      forall fired :: Possible(w, Turn(fired)) ==> Sound(Next(w, Turn(fired), blockSize), commands[1..], clients, blockSize)
  }

  /** The wheel as a value. */
  ghost function Now(wheel: TimeWheel): Wheel
    requires wheel.Valid()
    reads wheel, wheel.pool, wheel.slots
  {
    Wheel(wheel.pool.Model(), wheel.Ranks())
  }

  lemma NowIsOk(wheel: TimeWheel)
    requires wheel.Valid()
    ensures WheelOk(Now(wheel)) && InRange(wheel.pool.mem, wheel.pool.live) && wheel.pool.blockSize >= 2
    ensures wheel.Ranks().Keys == wheel.pool.live && NULL !in wheel.pool.live
  {
  }

  /** Every node has its callback and a client below `n`. */
  ghost predicate AllBound(mem: seq<Cell>, live: set<int>, n: nat) {
    forall p :: p in live ==> 0 <= p < |mem| && mem[p].callback && 0 <= mem[p].userData < n
  }

  lemma BoundIs(wheel: TimeWheel)
    requires wheel.Valid()
    ensures wheel.Bound() <==> AllBound(wheel.pool.mem, wheel.pool.live, wheel.host.sockfd.Length)
  {
  }

  lemma BoundAdded(mem: seq<Cell>, mem1: seq<Cell>, live: set<int>, t: int, user: int, n: nat)
    requires AllBound(mem, live, n) && SameCells(mem, mem1, live) && 0 <= t < |mem1| && 0 <= user < n
    ensures AllBound(mem1[t := mem1[t].(userData := user, callback := true)], live + {t}, n)
  {
  }

  lemma BoundKept(mem: seq<Cell>, mem1: seq<Cell>, live: set<int>, live1: set<int>, n: nat)
    requires AllBound(mem, live, n) && live1 <= live
    requires SameCells(mem, mem1, live1) || SameClients(mem, mem1, live1)
    ensures AllBound(mem1, live1, n)
  {
  }

  method PerformAdd(wheel: TimeWheel, timeout: int, user: int)
    requires wheel.Valid() && wheel.Bound() && 0 <= user < wheel.host.sockfd.Length
    modifies wheel`stamp, wheel`clock, wheel.pool, wheel.slots
    ensures wheel.Valid() && wheel.Bound()
    ensures wheel.pool.blockSize >= 2 && Now(wheel) == Next(old(Now(wheel)), Insert(timeout), wheel.pool.blockSize)
  {
    hide TimeWheel.Valid, TimeWheel.Bound, WheelOk, AllBound, RankMap, AllocateModel, NextAddress, SameCells;
    NowIsOk(wheel);
    BoundIs(wheel);
    ghost var mem, live := wheel.pool.mem, wheel.pool.live;
    var t := wheel.AddTimer(timeout);
    if t != NULL {
      ghost var mem1 := wheel.pool.mem;
      NowIsOk(wheel);
      wheel.Bind(t, user);
      BoundAdded(mem, mem1, live, t, user, wheel.host.sockfd.Length);
    } else {
      NowIsOk(wheel);
    }
    BoundIs(wheel);
  }

  method PerformDel(wheel: TimeWheel, p: int)
    requires wheel.Valid() && wheel.Bound() && p in wheel.Ranks()
    modifies wheel`stamp, wheel.pool, wheel.slots
    ensures wheel.Valid() && wheel.Bound() && Possible(old(Now(wheel)), Remove(p))
    ensures wheel.pool.blockSize >= 2 && Now(wheel) == Next(old(Now(wheel)), Remove(p), wheel.pool.blockSize)
  {
    hide TimeWheel.Valid, TimeWheel.Bound, WheelOk, AllBound, RankMap, SameCells;
    NowIsOk(wheel);
    BoundIs(wheel);
    ghost var mem, live := wheel.pool.mem, wheel.pool.live;
    wheel.DelTimer(p);
    BoundKept(mem, wheel.pool.mem, live, wheel.pool.live, wheel.host.sockfd.Length);
    BoundIs(wheel);
  }

  method PerformTick(wheel: TimeWheel) returns (ghost fired: seq<int>)
    requires wheel.Valid() && wheel.Bound()
    modifies wheel`stamp, wheel`curSlot, wheel.pool, wheel.slots, wheel.host`openFds, wheel.host`userCount
    ensures wheel.Valid() && wheel.Bound() && Possible(old(Now(wheel)), Turn(fired))
    ensures wheel.pool.blockSize >= 2 && Now(wheel) == Next(old(Now(wheel)), Turn(fired), wheel.pool.blockSize)
  {
    hide TimeWheel.Valid, TimeWheel.Bound, WheelOk, AllBound, RankMap, DeallocateAll, TickModel, Due, Elems, SameClients, Clients, ClosedFds, Distinct;
    NowIsOk(wheel);
    BoundIs(wheel);
    ghost var mem, live := wheel.pool.mem, wheel.pool.live;
    fired := wheel.Tick();
    BoundKept(mem, wheel.pool.mem, live, wheel.pool.live, wheel.host.sockfd.Length);
    BoundIs(wheel);
    CountedDistinct(fired);
  }

  /** A list as long as its set has no repeats. */
  lemma {:induction false} CountedDistinct(s: seq<int>)
    ensures |Elems(s)| <= |s| && (|Elems(s)| == |s| ==> Distinct(s))
    decreases |s|
  {
    if s != [] {
      var init, last := s[..|s| - 1], s[|s| - 1];
      CountedDistinct(init);
      assert s == init + [last];
      assert Elems(s) == Elems(init) + {last};
      assert last !in Elems(init) ==> last !in init;
    }
  }

  /** One command on the wheel is one call on its value. */
  method Perform(wheel: TimeWheel, command: Command) returns (ghost call: Call)
    requires wheel.Valid() && wheel.Bound()
    requires command.AddTimer? ==> 0 <= command.user < wheel.host.sockfd.Length
    requires command.DelTimer? ==> command.p in Now(wheel).ranks
    modifies wheel`stamp, wheel`clock, wheel`curSlot, wheel.pool, wheel.slots, wheel.host`openFds, wheel.host`userCount
    ensures wheel.Valid() && wheel.Bound() && Performs(command, call) && Possible(old(Now(wheel)), call)
    ensures wheel.pool.blockSize >= 2 && Now(wheel) == Next(old(Now(wheel)), call, wheel.pool.blockSize)
  {
    hide TimeWheel.Valid, TimeWheel.Bound, RankMap, Next;
    match command
    case AddTimer(timeout, user) =>
      PerformAdd(wheel, timeout, user);
      call := Insert(timeout);
    case DelTimer(p) =>
      PerformDel(wheel, p);
      call := Remove(p);
    case Tick =>
      ghost var fired := PerformTick(wheel);
      call := Turn(fired);
  }

  /** Any run of commands on the wheel is a run of calls on its value, to which the promises above apply. */
  method PerformAll(wheel: TimeWheel, commands: seq<Command>) returns (ghost calls: seq<Call>)
    requires wheel.Valid() && wheel.Bound()
    requires wheel.pool.blockSize >= 2 && Sound(Now(wheel), commands, wheel.host.sockfd.Length, wheel.pool.blockSize)
    modifies wheel`stamp, wheel`clock, wheel`curSlot, wheel.pool, wheel.slots, wheel.host`openFds, wheel.host`userCount
    ensures wheel.Valid() && wheel.Bound() && WheelOk(old(Now(wheel)))
    ensures |calls| == |commands| && forall i :: 0 <= i < |calls| ==> Performs(commands[i], calls[i])
    ensures ValidCalls(old(Now(wheel)), calls, wheel.pool.blockSize)
    ensures Now(wheel) == RunCalls(old(Now(wheel)), calls, wheel.pool.blockSize)
  {
    hide WheelOk, TimeWheel.Valid, TimeWheel.Bound, TimeWheel.Ranks, Next;
    NowIsOk(wheel);
    ghost var w0 := Now(wheel);
    calls := [];
    for i := 0 to |commands|
      invariant wheel.Valid() && wheel.Bound() && |calls| == i
      invariant forall k :: 0 <= k < i ==> Performs(commands[k], calls[k])
      invariant ValidCalls(w0, calls, wheel.pool.blockSize) && Now(wheel) == RunCalls(w0, calls, wheel.pool.blockSize)
      invariant Sound(Now(wheel), commands[i..], wheel.host.sockfd.Length, wheel.pool.blockSize)
    {
      assert commands[i..][0] == commands[i] && commands[i..][1..] == commands[i + 1..];
      ghost var call := Perform(wheel, commands[i]);
      assert (calls + [call])[..|calls|] == calls;
      calls := calls + [call];
    }
  }
}
