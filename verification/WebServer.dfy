/** webserver.cpp: the glue between connections and timers, and the event loop steps that touch them.
Descriptors, read and write results, accepted connections and the clock come in as parameters. */
module Server {
  import opened Pool
  import opened Timers
  import opened Deadlines

  const MAX_FD := 65536
  const TIMESLOT := 5

  /** Open client descriptors and live timers are in bijection: the table entry of an open descriptor
      points to its timer, the timer points back to the entry, and the user count counts both. */
  ghost predicate Bijection(mem: seq<Cell>, live: set<int>, sockfd: seq<int>, timer: seq<int>, open: set<int>, users: int)
  {
    && |timer| == |sockfd| && InRange(mem, live)
    && (forall fd :: fd in open ==> 0 <= fd < |sockfd| && Owns(mem, live, sockfd, timer, fd))
    && (forall p :: p in live ==> mem[p].callback && mem[p].userData in open && 0 <= mem[p].userData < |timer|
                                  && timer[mem[p].userData] == p)
    && users == |open| == |live|
  }

  ghost predicate Owns(mem: seq<Cell>, live: set<int>, sockfd: seq<int>, timer: seq<int>, fd: int)
    requires |timer| == |sockfd| && 0 <= fd < |sockfd|
  {
    sockfd[fd] == fd && timer[fd] in live && 0 <= timer[fd] < |mem| && mem[timer[fd]].userData == fd
  }

  /** Ticks each open descriptor may stay idle through. */
  ghost function IdleMap(ranks: map<int, int>, timer: seq<int>, open: set<int>): map<int, int>
    requires forall fd :: fd in open ==> 0 <= fd < |timer| && timer[fd] in ranks
  {
    map fd | fd in open :: ranks[timer[fd]]
  }

  lemma BijectionOpen(mem: seq<Cell>, mem': seq<Cell>, live: set<int>, sockfd: seq<int>, timer: seq<int>,
                      open: set<int>, users: int, fd: int, t: int)
    requires Bijection(mem, live, sockfd, timer, open, users)
    requires 0 <= fd < |sockfd| && fd !in open && t !in live && 0 <= t < |mem'|
    requires InRange(mem', live) && SameClients(mem, mem', live)
    requires mem'[t].callback && mem'[t].userData == fd
    ensures Bijection(mem', live + {t}, sockfd[fd := fd], timer[fd := t], open + {fd}, users + 1)
  {
    var sockfd', timer' := sockfd[fd := fd], timer[fd := t];
    forall x | x in open + {fd} ensures 0 <= x < |sockfd'| && Owns(mem', live + {t}, sockfd', timer', x) {
      if x in open { assert Owns(mem, live, sockfd, timer, x); }
    }
  }

  lemma BijectionClose(mem: seq<Cell>, mem': seq<Cell>, live: set<int>, sockfd: seq<int>, timer: seq<int>,
                       open: set<int>, users: int, fd: int)
    requires Bijection(mem, live, sockfd, timer, open, users) && fd in open
    requires InRange(mem', live - {timer[fd]}) && SameClients(mem, mem', live - {timer[fd]})
    ensures Bijection(mem', live - {timer[fd]}, sockfd, timer, open - {fd}, users - 1)
  {
    var t := timer[fd];
    assert Owns(mem, live, sockfd, timer, fd);
    forall x | x in open - {fd} ensures Owns(mem', live - {t}, sockfd, timer, x) {
      assert Owns(mem, live, sockfd, timer, x);
    }
  }

  /** The timers `fired` expired: their descriptors are exactly the ones closed. */
  lemma BijectionExpire(mem: seq<Cell>, mem': seq<Cell>, live: set<int>, sockfd: seq<int>, timer: seq<int>,
                        open: set<int>, users: int, fired: seq<int>)
    requires Bijection(mem, live, sockfd, timer, open, users) && Elems(fired) <= live && |Elems(fired)| == |fired|
    requires InRange(mem', live - Elems(fired)) && SameClients(mem, mem', live - Elems(fired))
    requires Clients(mem, sockfd, Elems(fired))
    ensures var closed := ClosedFds(mem, sockfd, Elems(fired));
      && Bijection(mem', live - Elems(fired), sockfd, timer, open - closed, users - |fired|)
      && (forall fd :: fd in closed <==> fd in open && timer[fd] in Elems(fired))
  {
    var ps := Elems(fired);
    var closed := ClosedFds(mem, sockfd, ps);
    forall p | p in ps ensures mem[p].userData in open && sockfd[mem[p].userData] == mem[p].userData {
      assert Owns(mem, live, sockfd, timer, mem[p].userData);
    }
    forall fd ensures fd in closed <==> fd in open && timer[fd] in ps {
      if fd in open && timer[fd] in ps {
        assert Owns(mem, live, sockfd, timer, fd);
      }
    }
    forall x | x in open - closed ensures Owns(mem', live - ps, sockfd, timer, x) {
      assert Owns(mem, live, sockfd, timer, x);
    }
    ClosedCount(mem, live, sockfd, timer, open, users, fired);
    assert closed <= open;
    assert |live - ps| == |live| - |ps| && |open - closed| == |open| - |closed|;
  }

  /** Distinct timers serve distinct descriptors. */
  lemma {:induction false} ClosedCount(mem: seq<Cell>, live: set<int>, sockfd: seq<int>, timer: seq<int>,
                                       open: set<int>, users: int, ps: seq<int>)
    requires Bijection(mem, live, sockfd, timer, open, users)
    requires Elems(ps) <= live && Clients(mem, sockfd, Elems(ps)) && |Elems(ps)| == |ps|
    ensures |ClosedFds(mem, sockfd, Elems(ps))| == |ps|
  {
    if ps == [] {
      assert ClosedFds(mem, sockfd, Elems(ps)) == {};
    } else {
      var init, p := ps[..|ps| - 1], ps[|ps| - 1];
      assert ps == init + [p];
      assert Elems(ps) == Elems(init) + {p};
      ElemsBound(init);
      ClosedCount(mem, live, sockfd, timer, open, users, init);
      assert p in live && Owns(mem, live, sockfd, timer, mem[p].userData);
      forall q | q in Elems(init) ensures sockfd[mem[q].userData] != mem[p].userData {
        assert q in live && Owns(mem, live, sockfd, timer, mem[q].userData);
      }
      assert ClosedFds(mem, sockfd, Elems(ps)) == ClosedFds(mem, sockfd, Elems(init)) + {mem[p].userData};
    }
  }

  lemma {:induction false} ElemsBound(s: seq<int>)
    ensures |Elems(s)| <= |s|
  {
    if s != [] {
      ElemsBound(s[..|s| - 1]);
      assert Elems(s) == Elems(s[..|s| - 1]) + {s[|s| - 1]};
    } else {
      assert Elems(s) == {};
    }
  }

  lemma BijectionInRange(mem: seq<Cell>, live: set<int>, sockfd: seq<int>, timer: seq<int>, open: set<int>, users: int)
    requires Bijection(mem, live, sockfd, timer, open, users)
    ensures forall fd :: fd in open ==> 0 <= fd < |timer| && timer[fd] in live
  {
    forall fd | fd in open ensures 0 <= fd < |timer| && timer[fd] in live {
      assert Owns(mem, live, sockfd, timer, fd);
    }
  }

  lemma BijectionOwner(mem: seq<Cell>, live: set<int>, sockfd: seq<int>, timer: seq<int>, open: set<int>, users: int, t: int)
    requires Bijection(mem, live, sockfd, timer, open, users) && t in live
    ensures var fd := mem[t].userData; fd in open && 0 <= fd < |timer| && timer[fd] == t && sockfd[fd] == fd && mem[t].callback
  {
    assert Owns(mem, live, sockfd, timer, mem[t].userData);
  }

  lemma BijectionEntry(mem: seq<Cell>, live: set<int>, sockfd: seq<int>, timer: seq<int>, open: set<int>, users: int, fd: int)
    requires Bijection(mem, live, sockfd, timer, open, users) && fd in open
    ensures 0 <= fd < |sockfd| && sockfd[fd] == fd
  {
    assert Owns(mem, live, sockfd, timer, fd);
  }

  lemma BijectionBound(mem: seq<Cell>, live: set<int>, sockfd: seq<int>, timer: seq<int>, open: set<int>, users: int)
    requires Bijection(mem, live, sockfd, timer, open, users)
    ensures forall p :: p in live ==> mem[p].callback && 0 <= mem[p].userData < |sockfd|
  {
  }

  lemma AddIdle(idle: map<int, int>, fd: int)
    ensures StepWheel(idle, Add(fd, 3 * TIMESLOT)) == idle[fd := 15]
  {
  }

  /** What a new timer of rank `rank` for `fd` does to the clients' view. */
  lemma IdleOpen(mem: seq<Cell>, live: set<int>, sockfd: seq<int>, timer: seq<int>,
                 open: set<int>, users: int, cur: int, fd: int, t: int, rank: int)
    requires Bijection(mem, live, sockfd, timer, open, users)
    requires 0 <= fd < |timer| && fd !in open && t !in live
    ensures forall x :: x in open ==> 0 <= x < |timer| && timer[x] in live
    ensures IdleMap(RankMap(mem, live, cur)[t := rank], timer[fd := t], open + {fd})
         == IdleMap(RankMap(mem, live, cur), timer, open)[fd := rank]
  {
    BijectionInRange(mem, live, sockfd, timer, open, users);
  }

  /** What deleting the timer of `fd` does to the clients' view. */
  lemma IdleClose(mem: seq<Cell>, live: set<int>, sockfd: seq<int>, timer: seq<int>,
                  open: set<int>, users: int, cur: int, fd: int)
    requires Bijection(mem, live, sockfd, timer, open, users) && fd in open
    ensures forall x :: x in open ==> 0 <= x < |timer| && timer[x] in live
    ensures forall x :: x in open - {fd} ==> timer[x] in RankMap(mem, live, cur) - {timer[fd]}
    ensures IdleMap(RankMap(mem, live, cur) - {timer[fd]}, timer, open - {fd})
         == IdleMap(RankMap(mem, live, cur), timer, open) - {fd}
  {
    BijectionInRange(mem, live, sockfd, timer, open, users);
    forall x | x in open ensures mem[timer[x]].userData == x {
      assert Owns(mem, live, sockfd, timer, x);
    }
  }

  lemma Restored(sockfd: seq<int>, timer: seq<int>, open: set<int>, fd: int, t: int)
    requires |timer| == |sockfd| && 0 <= fd < |timer| && timer[fd] == t && sockfd[fd] == fd && fd in open
    ensures timer[fd := t] == timer && sockfd[fd := fd] == sockfd && open - {fd} + {fd} == open
  {
  }

  lemma PutBack(live: set<int>, t: int)
    requires t in live
    ensures live - {t} + {t} == live
  {
  }

  lemma ClientsOf(mem: seq<Cell>, mem': seq<Cell>, live: set<int>)
    requires SameCells(mem, mem', live)
    ensures SameClients(mem, mem', live)
  {
  }

  lemma BoundClients(mem: seq<Cell>, mem': seq<Cell>, live: set<int>, t: int, fd: int)
    requires SameCells(mem, mem', live) && t !in live && 0 <= t < |mem'|
    ensures SameClients(mem, mem'[t := mem'[t].(userData := fd, callback := true)], live)
  {
  }

  /** What activity on `fd` does to its timer: delete it, add it anew. */
  function Touched(idle: map<int, int>, fd: int): map<int, int> {
    StepWheel(StepWheel(idle, Delete(fd)), Add(fd, 3 * TIMESLOT))
  }

  /** Timer `t` of `fd` deleted and a new one put at the same address. */
  lemma Rearmed(mem0: seq<Cell>, mem1: seq<Cell>, mem2: seq<Cell>, live: set<int>, sockfd: seq<int>, timer: seq<int>,
                open: set<int>, users: int, cur: int, fd: int, t: int)
    requires Bijection(mem0, live, sockfd, timer, open, users) && t in live && mem0[t].userData == fd
    requires InRange(mem1, live - {t}) && SameClients(mem0, mem1, live - {t})
    requires InRange(mem2, live) && SameClients(mem1, mem2, live - {t})
    requires mem2[t].callback && mem2[t].userData == fd
    requires RankMap(mem1, live - {t}, cur) == RankMap(mem0, live, cur) - {t}
    requires RankMap(mem2, live, cur) == RankMap(mem1, live - {t}, cur)[t := 15]
    ensures Bijection(mem2, live, sockfd, timer, open, users)
    ensures forall x :: x in open ==> 0 <= x < |timer| && timer[x] in live
    ensures IdleMap(RankMap(mem2, live, cur), timer, open) == Touched(IdleMap(RankMap(mem0, live, cur), timer, open), fd)
  {
    BijectionOwner(mem0, live, sockfd, timer, open, users, t);
    Restored(sockfd, timer, open, fd, t);
    assert live - {t} + {t} == live;
    hide Bijection, RankMap, IdleMap, SameClients;
    assert TicksFor(3 * TIMESLOT) == 15;
    IdleClose(mem0, live, sockfd, timer, open, users, cur, fd);
    BijectionClose(mem0, mem1, live, sockfd, timer, open, users, fd);
    BijectionOpen(mem1, mem2, live - {t}, sockfd, timer, open - {fd}, users - 1, fd, t);
    IdleOpen(mem1, live - {t}, sockfd, timer, open - {fd}, users - 1, cur, fd, t, 15);
  }

  /** One tick of the wheel, from the cells `mem`, `live` to `mem'`, `live'`. */
  ghost predicate Expired(mem: seq<Cell>, mem': seq<Cell>, live: set<int>, live': set<int>, sockfd: seq<int>,
                          cur: int, cur': int, fired: seq<int>)
  {
    && InRange(mem, live) && InRange(mem', live')
    && Elems(fired) == Due(RankMap(mem, live, cur)) && |Due(RankMap(mem, live, cur))| == |fired|
    && live' == live - Elems(fired) && SameClients(mem, mem', live')
    && Clients(mem, sockfd, Elems(fired))
    && RankMap(mem', live', cur') == TickModel(RankMap(mem, live, cur))
  }

  /** One tick of the wheel, as the clients see it. */
  lemma Ticked(mem: seq<Cell>, mem': seq<Cell>, live: set<int>, live': set<int>, sockfd: seq<int>, timer: seq<int>,
               open: set<int>, open': set<int>, users: int, cur: int, cur': int, fired: seq<int>)
    requires Bijection(mem, live, sockfd, timer, open, users)
    requires InRange(mem', live') && Expired(mem, mem', live, live', sockfd, cur, cur', fired)
    requires open' == open - ClosedFds(mem, sockfd, Elems(fired))
    ensures Bijection(mem', live', sockfd, timer, open', users - |fired|)
    ensures forall x :: x in open ==> 0 <= x < |timer| && timer[x] in live
    ensures forall x :: x in open' ==> x in open && timer[x] in live'
    ensures IdleMap(RankMap(mem', live', cur'), timer, open') == TickModel(IdleMap(RankMap(mem, live, cur), timer, open))
  {
    var ranks, closed := RankMap(mem, live, cur), ClosedFds(mem, sockfd, Elems(fired));
    assert ranks.Keys == live;
    assert Elems(fired) <= live;
    BijectionInRange(mem, live, sockfd, timer, open, users);
    BijectionExpire(mem, mem', live, sockfd, timer, open, users, fired);
    hide Bijection, RankMap, ClosedFds, Elems, Clients, SameClients;
    IdleTick(ranks, timer, open, closed);
  }

  lemma IdleTick(ranks: map<int, int>, timer: seq<int>, open: set<int>, closed: set<int>)
    requires forall x :: x in open ==> 0 <= x < |timer| && timer[x] in ranks
    requires forall x :: x in closed <==> x in open && timer[x] in Due(ranks)
    ensures forall x :: x in open - closed ==> timer[x] in TickModel(ranks)
    ensures IdleMap(TickModel(ranks), timer, open - closed) == TickModel(IdleMap(ranks, timer, open))
  {
  }

  lemma TouchedIs(idle: map<int, int>, fd: int)
    ensures Touched(idle, fd) == idle[fd := 15]
    ensures StepWheel(Touched(idle, fd), Delete(fd)) == StepWheel(idle, Delete(fd)) == idle - {fd}
  {
  }

  // ----- specification of the event loop -----

  /** What epoll_wait reports: connections to accept (the descriptors accept() will return before it
      fails), a peer that hung up, signals in the pipe, and readiness together with the result of
      read_once() or write(). */
  datatype Event =
    | Incoming(conns: seq<int>)
    | HangUp(fd: int)
    | Signals(alarm: bool, term: bool)
    | Readable(fd: int, ok: bool)
    | Writable(fd: int, ok: bool)

  function Accepted(idle: map<int, int>, conns: seq<int>, edge: bool): map<int, int>
    decreases |conns|
  {
    if conns == [] || |idle| >= MAX_FD then idle
    else if edge then Accepted(idle[conns[0] := 15], conns[1..], edge)
    else idle[conns[0] := 15]
  }

  function Handled(idle: map<int, int>, e: Event, edge: bool): map<int, int> {
    match e
    case Incoming(conns) => Accepted(idle, conns, edge)
    case HangUp(fd) => idle - {fd}
    case Signals(_, _) => idle
    case Readable(fd, ok) => if ok then idle[fd := 15] else idle - {fd}
    case Writable(fd, ok) => if ok then idle[fd := 15] else idle - {fd}
  }

  function HandledAll(idle: map<int, int>, events: seq<Event>, edge: bool): map<int, int> {
    if events == [] then idle
    else Handled(HandledAll(idle, events[..|events| - 1], edge), events[|events| - 1], edge)
  }

  predicate Alarmed(events: seq<Event>) {
    exists i :: 0 <= i < |events| && events[i].Signals? && events[i].alarm
  }

  predicate Terminated(events: seq<Event>) {
    exists i :: 0 <= i < |events| && events[i].Signals? && events[i].term
  }

  lemma FlagsSnoc(events: seq<Event>, i: nat)
    requires i < |events|
    ensures Alarmed(events[..i + 1]) == (Alarmed(events[..i]) || (events[i].Signals? && events[i].alarm))
    ensures Terminated(events[..i + 1]) == (Terminated(events[..i]) || (events[i].Signals? && events[i].term))
  {
    var before, after := events[..i], events[..i + 1];
    assert forall k :: 0 <= k < i ==> after[k] == before[k];
    assert after[i] == events[i];
  }

  /** One round of the loop: the reported events, then at most one tick. */
  function Round(idle: map<int, int>, events: seq<Event>, edge: bool): map<int, int> {
    var after := HandledAll(idle, events, edge);
    if Alarmed(events) then TickModel(after) else after
  }

  function Rounds(idle: map<int, int>, batches: seq<seq<Event>>, edge: bool): map<int, int> {
    if batches == [] then idle
    else Round(Rounds(idle, batches[..|batches| - 1], edge), batches[|batches| - 1], edge)
  }

  /** The kernel reports events of open descriptors only and opens fresh ones. */
  predicate FeasibleAccept(idle: map<int, int>, conns: seq<int>, edge: bool)
    decreases |conns|
  {
    conns != [] && |idle| < MAX_FD ==>
      && 0 <= conns[0] < MAX_FD && conns[0] !in idle
      && (edge ==> FeasibleAccept(idle[conns[0] := 15], conns[1..], edge))
  }

  lemma AcceptStep(idle: map<int, int>, conns: seq<int>, i: nat)
    requires i < |conns| && FeasibleAccept(idle, conns[i..], true)
    ensures |idle| >= MAX_FD ==> Accepted(idle, conns[i..], true) == idle
    ensures |idle| < MAX_FD ==>
      && 0 <= conns[i] < MAX_FD && conns[i] !in idle
      && FeasibleAccept(idle[conns[i] := 15], conns[i + 1..], true)
      && Accepted(idle, conns[i..], true) == Accepted(idle[conns[i] := 15], conns[i + 1..], true)
  {
    assert conns[i..][1..] == conns[i + 1..];
  }

  lemma AcceptOne(idle: map<int, int>, conns: seq<int>)
    ensures conns == [] || |idle| >= MAX_FD ==> Accepted(idle, conns, false) == idle
    ensures conns != [] && |idle| < MAX_FD ==> Accepted(idle, conns, false) == idle[conns[0] := 15]
    ensures conns != [] && |idle| < MAX_FD && FeasibleAccept(idle, conns, false) ==>
              0 <= conns[0] < MAX_FD && conns[0] !in idle
  {
  }

  lemma AcceptEnd(conns: seq<int>)
    ensures forall idle: map<int, int> {:trigger Accepted(idle, conns[|conns|..], true)} ::
              Accepted(idle, conns[|conns|..], true) == idle
  {
  }

  predicate FeasibleEvent(idle: map<int, int>, e: Event, edge: bool) {
    match e
    case Incoming(conns) => FeasibleAccept(idle, conns, edge)
    case Signals(_, _) => true
    case _ => e.fd in idle
  }

  lemma HandledCases(idle: map<int, int>, e: Event, edge: bool)
    requires FeasibleEvent(idle, e, edge)
    ensures e.Incoming? ==> FeasibleAccept(idle, e.conns, edge) && Handled(idle, e, edge) == Accepted(idle, e.conns, edge)
    ensures e.Signals? ==> Handled(idle, e, edge) == idle
    ensures !e.Incoming? && !e.Signals? ==> e.fd in idle
    ensures e.HangUp? ==> Handled(idle, e, edge) == idle - {e.fd}
  {
  }

  predicate Feasible(idle: map<int, int>, batches: seq<seq<Event>>, edge: bool) {
    forall b :: 0 <= b < |batches| ==> FeasibleBatch(Rounds(idle, batches[..b], edge), batches[b], edge)
  }

  predicate FeasibleBatch(idle: map<int, int>, events: seq<Event>, edge: bool) {
    forall i :: 0 <= i < |events| ==> FeasibleEvent(HandledAll(idle, events[..i], edge), events[i], edge)
  }

  lemma RoundsStep(idle: map<int, int>, batches: seq<seq<Event>>, r: nat, edge: bool)
    requires r < |batches| && Feasible(idle, batches, edge)
    ensures FeasibleBatch(Rounds(idle, batches[..r], edge), batches[r], edge)
    ensures Rounds(idle, batches[..r + 1], edge) == Round(Rounds(idle, batches[..r], edge), batches[r], edge)
  {
    assert batches[..r + 1][..r] == batches[..r];
  }

  /** The loop has run `r` rounds and saw SIGTERM in the last of them at most. */
  ghost predicate LoopState(idle0: map<int, int>, idle: map<int, int>, batches: seq<seq<Event>>, r: nat, edge: bool) {
    && r <= |batches|
    && idle == Rounds(idle0, batches[..r], edge)
    && forall b :: 0 <= b < r - 1 ==> !Terminated(batches[b])
  }

  lemma LoopStart(idle: map<int, int>, batches: seq<seq<Event>>, edge: bool)
    ensures LoopState(idle, idle, batches, 0, edge)
  {
    assert batches[..0] == [];
  }

  lemma LoopStep(idle0: map<int, int>, idle: map<int, int>, batches: seq<seq<Event>>, r: nat, edge: bool)
    requires r < |batches| && Feasible(idle0, batches, edge) && LoopState(idle0, idle, batches, r, edge)
    requires r > 0 ==> !Terminated(batches[r - 1])
    ensures FeasibleBatch(idle, batches[r], edge)
    ensures LoopState(idle0, Round(idle, batches[r], edge), batches, r + 1, edge)
  {
    RoundsStep(idle0, batches, r, edge);
  }

  lemma KeysAfter(idle: map<int, int>, fd: int)
    requires fd in idle
    ensures idle[fd := 15].Keys == idle.Keys && (idle - {fd}).Keys == idle.Keys - {fd}
  {
  }

  predicate Mentions(e: Event, fd: int) {
    match e
    case Incoming(conns) => fd in conns
    case Signals(_, _) => false
    case _ => e.fd == fd
  }

  lemma {:induction false} AcceptedFrame(idle: map<int, int>, conns: seq<int>, edge: bool, fd: int)
    requires fd !in conns
    ensures var after := Accepted(idle, conns, edge);
            (fd in after <==> fd in idle) && (fd in idle ==> after[fd] == idle[fd])
    decreases |conns|
  {
    if conns != [] && |idle| < MAX_FD && edge {
      AcceptedFrame(idle[conns[0] := 15], conns[1..], edge, fd);
    }
  }

  lemma {:induction false} HandledFrame(idle: map<int, int>, events: seq<Event>, edge: bool, fd: int)
    requires forall i :: 0 <= i < |events| ==> !Mentions(events[i], fd)
    ensures var after := HandledAll(idle, events, edge);
            (fd in after <==> fd in idle) && (fd in idle ==> after[fd] == idle[fd])
  {
    if events != [] {
      var init, e := events[..|events| - 1], events[|events| - 1];
      HandledFrame(idle, init, edge, fd);
      assert !Mentions(e, fd);
      if e.Incoming? { AcceptedFrame(HandledAll(idle, init, edge), e.conns, edge, fd); }
    }
  }

  function Alarms(batches: seq<seq<Event>>): nat {
    if batches == [] then 0
    else Alarms(batches[..|batches| - 1]) + if Alarmed(batches[|batches| - 1]) then 1 else 0
  }

  /** A connection on which nothing happens is closed during exactly the (k + 1)-th alarm, where k is
      its entry: 15 after the connection was accepted or last active, whatever the others do. */
  lemma {:induction false} IdleTimeout(idle: map<int, int>, batches: seq<seq<Event>>, edge: bool, fd: int)
    requires fd in idle && idle[fd] >= 0
    requires forall b, i :: 0 <= b < |batches| && 0 <= i < |batches[b]| ==> !Mentions(batches[b][i], fd)
    ensures var after := Rounds(idle, batches, edge);
            if Alarms(batches) <= idle[fd] then fd in after && after[fd] == idle[fd] - Alarms(batches)
            else fd !in after
  {
    if batches != [] {
      var init, last := batches[..|batches| - 1], batches[|batches| - 1];
      forall b, i | 0 <= b < |init| && 0 <= i < |init[b]| ensures !Mentions(init[b][i], fd) {
        assert !Mentions(batches[b][i], fd);
      }
      IdleTimeout(idle, init, edge, fd);
      HandledFrame(Rounds(idle, init, edge), last, edge, fd);
    }
  }

  // ----- the server -----

  class WebServer {
    const wheel: TimeWheel
    const table: ClientTable
    const reactor: bool    // m_actormodel == 1
    const edgeListen: bool // m_LISTENTrigmode == 1

    /** The objects are where they should be and the wheel is in order. */
    ghost predicate Wired()
      reads this, wheel, wheel.pool, wheel.slots
    {
      && wheel.host == table && table.sockfd != table.timer
      && table.sockfd.Length == MAX_FD && table.timer.Length == MAX_FD
      && wheel.slots != table.sockfd && wheel.slots != table.timer
      && wheel.Valid() && InRange(wheel.pool.mem, wheel.pool.live)
    }

    ghost predicate Valid()
      reads this, wheel, wheel.pool, wheel.slots, table, table.sockfd, table.timer
    {
      && Wired()
      && Bijection(wheel.pool.mem, wheel.pool.live, table.sockfd[..], table.timer[..], table.openFds, table.userCount)
    }

    /** The whole timer state, as its clients see it: open descriptor to idle ticks left. */
    ghost function Idle(): map<int, int>
      requires Valid()
      reads this, wheel, wheel.pool, wheel.slots, table, table.sockfd, table.timer
    {
      BijectionInRange(wheel.pool.mem, wheel.pool.live, table.sockfd[..], table.timer[..], table.openFds, table.userCount);
      IdleMap(RankMap(wheel.pool.mem, wheel.pool.live, wheel.curSlot), table.timer[..], table.openFds)
    }

    constructor (reactor: bool, edgeListen: bool)
      ensures Valid() && Idle() == map[]
      ensures this.reactor == reactor && this.edgeListen == edgeListen
    {
      var pool := new MemoryPool(4096);
      var t := new ClientTable(MAX_FD);
      table := t;
      wheel := new TimeWheel(pool, t);
      this.reactor, this.edgeListen := reactor, edgeListen;
    }

    /** add_timer, the two assignments to the node, and the table entry, as in timer() and
        adjust_timer(). */
    method Arm(fd: int) returns (t: int)
      requires Wired() && 0 <= fd < MAX_FD
      modifies wheel`stamp, wheel`clock, wheel.pool, wheel.slots, table.timer
      ensures Wired() && t == NextAddress(old(wheel.pool.Model())) && t !in old(wheel.pool.live)
      ensures wheel.pool.live == old(wheel.pool.live) + {t}
      ensures wheel.pool.mem[t].callback && wheel.pool.mem[t].userData == fd
      ensures SameClients(old(wheel.pool.mem), wheel.pool.mem, old(wheel.pool.live))
      ensures RankMap(wheel.pool.mem, wheel.pool.live, wheel.curSlot)
           == RankMap(old(wheel.pool.mem), old(wheel.pool.live), wheel.curSlot)[t := 15]
      ensures table.timer[..] == old(table.timer[..])[fd := t] && table.sockfd[..] == old(table.sockfd[..])
    {
      assert TicksFor(3 * TIMESLOT) == 15;
      ghost var mem0, live0 := wheel.pool.mem, wheel.pool.live;
      hide TimeWheel.Valid, MemoryPool.Valid, AllocateModel, NextAddress, SameCells, SameClients, RankMap, TicksFor;
      t := wheel.AddTimer(3 * TIMESLOT);
      wheel.Facts();
      BoundClients(mem0, wheel.pool.mem, live0, t, fd);
      wheel.Bind(t, fd);
      table.timer[fd] := t;
      wheel.Facts();
    }

    /** del_timer, as the callers here see it. */
    method Disarm(t: int)
      requires Wired() && t in wheel.pool.live
      modifies wheel`stamp, wheel.pool, wheel.slots
      ensures Wired() && wheel.pool.live == old(wheel.pool.live) - {t}
      ensures t != NULL && NextAddress(wheel.pool.Model()) == t
      ensures table.timer[..] == old(table.timer[..]) && table.sockfd[..] == old(table.sockfd[..])
      ensures SameClients(old(wheel.pool.mem), wheel.pool.mem, wheel.pool.live)
      ensures RankMap(wheel.pool.mem, wheel.pool.live, wheel.curSlot)
           == RankMap(old(wheel.pool.mem), old(wheel.pool.live), wheel.curSlot) - {t}
    {
      ghost var mem0, m0 := wheel.pool.mem, wheel.pool.Model();
      LastFreedIsNextAllocated(m0, t, wheel.pool.blockSize);
      LiveAfterDelete(m0, t);
      hide TimeWheel.Valid, MemoryPool.Valid, RankMap, NextAddress, SameClients, DeallocateModel, SameCells;
      wheel.DelTimer(t);
      wheel.Facts();
      ClientsOf(mem0, wheel.pool.mem, wheel.pool.live);
    }

    /** timer(): the kernel has opened `connfd`; give it a table entry and a timer. */
    method Timer(connfd: int)
      requires Valid() && connfd !in table.openFds && 0 <= connfd < MAX_FD
      modifies wheel`stamp, wheel`clock, wheel.pool, wheel.slots
      modifies table`openFds, table`userCount, table.sockfd, table.timer
      ensures Valid()
      ensures Idle() == StepWheel(old(Idle()), Add(connfd, 3 * TIMESLOT))
    {
      AddIdle(Idle(), connfd);
      ghost var mem0, live0, sockfd0, timer0 := wheel.pool.mem, wheel.pool.live, table.sockfd[..], table.timer[..];
      ghost var open0, users0 := table.openFds, table.userCount;
      hide TimeWheel.Valid, Bijection, IdleMap, RankMap, NextAddress, SameClients, StepWheel;
      table.openFds := table.openFds + {connfd};
      table.userCount := table.userCount + 1;
      table.sockfd[connfd] := connfd;
      var t := Arm(connfd);
      BijectionOpen(mem0, wheel.pool.mem, live0, sockfd0, timer0, open0, users0, connfd, t);
      IdleOpen(mem0, live0, sockfd0, timer0, open0, users0, wheel.curSlot, connfd, t, 15);
    }

    /** adjust_timer(): delete and add.  The pool hands the deleted node's address out again, so the
        pointer the caller still holds is the new timer. */
    method AdjustTimer(t: int)
      requires Valid() && t in wheel.pool.live
      modifies wheel`stamp, wheel`clock, wheel.pool, wheel.slots, table.timer
      ensures Valid() && table.timer[..] == old(table.timer[..]) && table.openFds == old(table.openFds)
      ensures Idle() == Touched(old(Idle()), old(wheel.pool.mem)[t].userData)
    {
      ghost var mem0, live0, sockfd0, timer0 := wheel.pool.mem, wheel.pool.live, table.sockfd[..], table.timer[..];
      ghost var open0, users0, cur := table.openFds, table.userCount, wheel.curSlot;
      BijectionOwner(mem0, live0, sockfd0, timer0, open0, users0, t);
      wheel.Facts();
      hide TimeWheel.Valid, MemoryPool.Valid, Bijection, IdleMap, RankMap, NextAddress, SameClients, Touched;
      var cData := wheel.pool.At(t).userData;
      Disarm(t);
      ghost var mem1 := wheel.pool.mem;
      var newTimer := Arm(table.sockfd[cData]);
      Restored(sockfd0, timer0, open0, cData, t);
      PutBack(live0, t);
      Rearmed(mem0, mem1, wheel.pool.mem, live0, sockfd0, timer0, open0, users0, cur, cData, t);
    }

    /** deal_timer(): close the connection and delete its timer. */
    method DealTimer(t: int, fd: int)
      requires Valid() && fd in table.openFds && t == table.timer[fd]
      modifies wheel`stamp, wheel.pool, wheel.slots, table`openFds, table`userCount
      ensures Valid()
      ensures Idle() == StepWheel(old(Idle()), Delete(fd))
    {
      ghost var mem0, live0, sockfd0, timer0 := wheel.pool.mem, wheel.pool.live, table.sockfd[..], table.timer[..];
      ghost var open0, users0 := table.openFds, table.userCount;
      BijectionInRange(mem0, live0, sockfd0, timer0, open0, users0);
      hide TimeWheel.Valid, MemoryPool.Valid, Bijection, IdleMap, RankMap, NextAddress, SameClients;
      IdleClose(mem0, live0, sockfd0, timer0, open0, users0, wheel.curSlot, fd);
      BijectionEntry(mem0, live0, sockfd0, timer0, open0, users0, fd);
      table.CbFunc(fd);
      Disarm(t);
      BijectionClose(mem0, wheel.pool.mem, live0, sockfd0, timer0, open0, users0, fd);
    }

    /** dealclinetdata(): accept one connection, or all waiting ones when edge-triggered. */
    method DealClientData(conns: seq<int>) returns (ok: bool)
      requires Valid() && FeasibleAccept(Idle(), conns, edgeListen)
      modifies wheel`stamp, wheel`clock, wheel.pool, wheel.slots
      modifies table`openFds, table`userCount, table.sockfd, table.timer
      ensures Valid() && Idle() == Accepted(old(Idle()), conns, edgeListen)
      ensures ok == (!edgeListen && conns != [] && |old(Idle())| < MAX_FD)
    {
      AcceptOne(Idle(), conns);
      hide Wired, Bijection, IdleMap, RankMap, StepWheel, Accepted, FeasibleAccept;
      if !edgeListen {
        if conns == [] {
          return false;
        }
        UserCount();
        if table.userCount >= MAX_FD {
          return false;
        }
        AddIdle(Idle(), conns[0]);
        Timer(conns[0]);
        return true;
      }
      AcceptAll(conns);
      return false;
    }

    method AcceptAll(conns: seq<int>)
      requires Valid() && FeasibleAccept(Idle(), conns, true)
      modifies wheel`stamp, wheel`clock, wheel.pool, wheel.slots
      modifies table`openFds, table`userCount, table.sockfd, table.timer
      ensures Valid() && Idle() == Accepted(old(Idle()), conns, true)
    {
      ghost var goal := Accepted(Idle(), conns, true);
      assert conns[0..] == conns;
      AcceptEnd(conns);
      hide Wired, Bijection, IdleMap, RankMap, StepWheel, Accepted, FeasibleAccept;
      var i := 0;
      while i < |conns|
        invariant 0 <= i <= |conns| && Valid()
        invariant FeasibleAccept(Idle(), conns[i..], true)
        invariant Accepted(Idle(), conns[i..], true) == goal
      {
        UserCount();
        AcceptStep(Idle(), conns, i);
        if table.userCount >= MAX_FD {
          break;
        }
        AddIdle(Idle(), conns[i]);
        Timer(conns[i]);
        i := i + 1;
      }
    }

    lemma UserCount()
      requires Valid()
      ensures Idle().Keys == table.openFds && |Idle()| == table.userCount
    {
      assert |Idle().Keys| == |Idle()|;
    }

    /** tick(), as the callers here see it. */
    method Turn() returns (ghost fired: seq<int>)
      requires Wired() && wheel.Bound()
      modifies wheel`stamp, wheel`curSlot, wheel.pool, wheel.slots, table`openFds, table`userCount
      ensures Wired() && table.sockfd[..] == old(table.sockfd[..]) && table.timer[..] == old(table.timer[..])
      ensures Expired(old(wheel.pool.mem), wheel.pool.mem, old(wheel.pool.live), wheel.pool.live,
                      table.sockfd[..], old(wheel.curSlot), wheel.curSlot, fired)
      ensures table.openFds == old(table.openFds) - ClosedFds(old(wheel.pool.mem), table.sockfd[..], Elems(fired))
      ensures table.userCount == old(table.userCount) - |fired|
    {
      hide TimeWheel.Valid, MemoryPool.Valid, RankMap, SameClients, TickModel;
      hide Due, Elems, Clients, ClosedFds, DeallocateAll, NextSlot;
      fired := wheel.Tick();
      wheel.Facts();
    }

    lemma TimersBound()
      requires Valid()
      ensures wheel.Bound()
    {
      BijectionBound(wheel.pool.mem, wheel.pool.live, table.sockfd[..], table.timer[..], table.openFds, table.userCount);
      hide Wired, Bijection;
    }

    /** Utils::timer_handler(). */
    method TimerHandler()
      requires Valid()
      modifies wheel`stamp, wheel`curSlot, wheel.pool, wheel.slots, table`openFds, table`userCount
      ensures Valid() && Idle() == TickModel(old(Idle()))
    {
      ghost var mem0, live0, sockfd0, timer0 := wheel.pool.mem, wheel.pool.live, table.sockfd[..], table.timer[..];
      ghost var open0, users0, cur0 := table.openFds, table.userCount, wheel.curSlot;
      TimersBound();
      hide TimeWheel.Valid, TimeWheel.Bound, Bijection, IdleMap, RankMap, TickModel, Expired, ClosedFds;
      ghost var fired := Turn();
      Ticked(mem0, wheel.pool.mem, live0, wheel.pool.live, sockfd0, timer0, open0, table.openFds, users0,
             cur0, wheel.curSlot, fired);
    }

    /** dealwithread(), given the result `ok` of read_once().  On failure in Reactor mode the pointer
        taken before adjust_timer is the one handed to deal_timer. */
    method DealWithRead(fd: int, ok: bool)
      requires Valid() && fd in table.openFds
      modifies wheel`stamp, wheel`clock, wheel.pool, wheel.slots, table`openFds, table`userCount, table.timer
      ensures Valid() && Idle() == Handled(old(Idle()), Readable(fd, ok), edgeListen)
      ensures ok ==> table.openFds == old(table.openFds) && TicksLeft(fd) == 15
      ensures !ok ==> table.openFds == old(table.openFds) - {fd}
    {
      hide Valid, Idle, TicksLeft;
      Handle(fd, ok);
    }

    /** dealwithwrite(), given the result `ok` of write(). */
    method DealWithWrite(fd: int, ok: bool)
      requires Valid() && fd in table.openFds
      modifies wheel`stamp, wheel`clock, wheel.pool, wheel.slots, table`openFds, table`userCount, table.timer
      ensures Valid() && Idle() == Handled(old(Idle()), Writable(fd, ok), edgeListen)
      ensures ok ==> table.openFds == old(table.openFds) && TicksLeft(fd) == 15
      ensures !ok ==> table.openFds == old(table.openFds) - {fd}
    {
      hide Valid, Idle, TicksLeft;
      Handle(fd, ok);
    }

    /** The timer steps that dealwithread and dealwithwrite share. */
    method Handle(fd: int, ok: bool)
      requires Valid() && fd in table.openFds
      modifies wheel`stamp, wheel`clock, wheel.pool, wheel.slots, table`openFds, table`userCount, table.timer
      ensures Valid() && Idle() == if ok then old(Idle())[fd := 15] else old(Idle()) - {fd}
      ensures ok ==> table.openFds == old(table.openFds) && TicksLeft(fd) == 15
      ensures !ok ==> table.openFds == old(table.openFds) - {fd}
    {
      UserCount();
      ghost var fds := Idle().Keys;
      Adjust(fd, ok);
      UserCount();
      assert Idle().Keys == if ok then fds else fds - {fd} by { KeysAfter(old(Idle()), fd); }
      if ok { EntryIs(fd); }
    }

    /** What is left to the wheel until the connection counts as idle. */
    ghost function TicksLeft(fd: int): int
      requires Valid() && fd in table.openFds
      reads this, wheel, wheel.pool, wheel.slots, table, table.sockfd, table.timer
    {
      EntryIs(fd);
      wheel.Ranks()[table.timer[fd]]
    }

    lemma EntryIs(fd: int)
      requires Valid() && fd in table.openFds
      ensures 0 <= fd < table.timer.Length && table.timer[fd] in wheel.Ranks() && fd in Idle()
      ensures Idle()[fd] == wheel.Ranks()[table.timer[fd]]
    {
      TimerOf(fd);
    }

    method Adjust(fd: int, ok: bool)
      requires Valid() && fd in table.openFds
      modifies wheel`stamp, wheel`clock, wheel.pool, wheel.slots, table`openFds, table`userCount, table.timer
      ensures Valid() && Idle() == if ok then old(Idle())[fd := 15] else old(Idle()) - {fd}
    {
      TouchedIs(Idle(), fd);
      TimerOf(fd);
      hide TimeWheel.Valid, MemoryPool.Valid, Bijection, IdleMap, RankMap, Touched, StepWheel;
      var timer := table.timer[fd];
      if reactor {
        if timer != NULL { AdjustTimer(timer); }
        if !ok {
          DealTimer(timer, fd);
        }
      } else {
        if ok {
          if timer != NULL { AdjustTimer(timer); }
        } else {
          DealTimer(timer, fd);
        }
      }
    }

    lemma TimerOf(fd: int)
      requires Valid() && fd in table.openFds
      ensures 0 <= fd < MAX_FD && table.timer[fd] in wheel.pool.live && table.timer[fd] != NULL
      ensures 0 <= table.timer[fd] < |wheel.pool.mem| && wheel.pool.mem[table.timer[fd]].userData == fd
    {
      assert Owns(wheel.pool.mem, wheel.pool.live, table.sockfd[..], table.timer[..], fd);
    }

    /** The branch of eventLoop() for EPOLLRDHUP, EPOLLHUP and EPOLLERR. */
    method Drop(fd: int)
      requires Valid() && fd in table.openFds
      modifies wheel`stamp, wheel.pool, wheel.slots, table`openFds, table`userCount
      ensures Valid() && Idle() == old(Idle()) - {fd}
    {
      TimerOf(fd);
      hide Wired, Bijection, IdleMap, RankMap;
      DealTimer(table.timer[fd], fd);
    }

    /** One dispatch of eventLoop(). */
    method Dispatch(e: Event) returns (timeout: bool, stop: bool)
      requires Valid() && FeasibleEvent(Idle(), e, edgeListen)
      modifies wheel`stamp, wheel`clock, wheel.pool, wheel.slots
      modifies table`openFds, table`userCount, table.sockfd, table.timer
      ensures Valid() && Idle() == Handled(old(Idle()), e, edgeListen)
      ensures timeout == (e.Signals? && e.alarm) && stop == (e.Signals? && e.term)
    {
      UserCount();
      HandledCases(Idle(), e, edgeListen);
      hide Valid, Idle, Accepted, FeasibleAccept, Handled, FeasibleEvent;
      timeout, stop := false, false;
      match e
      case Incoming(conns) => var _ := DealClientData(conns);
      case HangUp(fd) => Drop(fd);
      case Signals(alarm, term) => timeout, stop := alarm, term;
      case Readable(fd, ok) => DealWithRead(fd, ok);
      case Writable(fd, ok) => DealWithWrite(fd, ok);
    }

    /** The events of one epoll_wait. */
    method DispatchAll(events: seq<Event>) returns (timeout: bool, stop: bool)
      requires Valid() && FeasibleBatch(Idle(), events, edgeListen)
      modifies wheel`stamp, wheel`clock, wheel.pool, wheel.slots
      modifies table`openFds, table`userCount, table.sockfd, table.timer
      ensures Valid() && Idle() == HandledAll(old(Idle()), events, edgeListen)
      ensures timeout == Alarmed(events) && stop == Terminated(events)
    {
      ghost var idle0 := Idle();
      hide Wired, Bijection, IdleMap, RankMap, Handled, FeasibleEvent;
      timeout, stop := false, false;
      for i := 0 to |events|
        invariant Valid() && Idle() == HandledAll(idle0, events[..i], edgeListen)
        invariant timeout == Alarmed(events[..i]) && stop == Terminated(events[..i])
      {
        FlagsSnoc(events, i);
        assert events[..i + 1][..i] == events[..i];
        var t, s := Dispatch(events[i]);
        timeout, stop := timeout || t, stop || s;
      }
      assert events[..|events|] == events;
    }

    /** The body of the loop: the reported events, then the tick if an alarm was among them. */
    method OneRound(events: seq<Event>) returns (stop: bool)
      requires Valid() && FeasibleBatch(Idle(), events, edgeListen)
      modifies wheel`stamp, wheel`clock, wheel`curSlot, wheel.pool, wheel.slots
      modifies table`openFds, table`userCount, table.sockfd, table.timer
      ensures Valid() && Idle() == Round(old(Idle()), events, edgeListen) && stop == Terminated(events)
    {
      hide Wired, Bijection, IdleMap, RankMap, HandledAll, FeasibleBatch, TickModel, Alarmed, Terminated;
      var timeout;
      timeout, stop := DispatchAll(events);
      if timeout {
        TimerHandler();
      }
    }

    /** eventLoop(), on what successive calls of epoll_wait report; it leaves the loop after the
        round in which SIGTERM was seen. */
    method EventLoop(batches: seq<seq<Event>>) returns (rounds: nat)
      requires Valid() && Feasible(Idle(), batches, edgeListen)
      modifies wheel`stamp, wheel`clock, wheel`curSlot, wheel.pool, wheel.slots
      modifies table`openFds, table`userCount, table.sockfd, table.timer
      ensures Valid() && LoopState(old(Idle()), Idle(), batches, rounds, edgeListen)
      ensures rounds == |batches| || (rounds > 0 && Terminated(batches[rounds - 1]))
    {
      hide Valid, Idle, Round, FeasibleBatch, LoopState, Feasible, Terminated;
      var stopServer := false;
      rounds := 0;
      LoopStart(Idle(), batches, edgeListen);
      ghost var idle0 := Idle();
      while !stopServer && rounds < |batches|
        invariant rounds <= |batches| && Valid()
        invariant LoopState(idle0, Idle(), batches, rounds, edgeListen)
        invariant stopServer == (rounds > 0 && Terminated(batches[rounds - 1]))
        decreases |batches| - rounds
      {
        LoopStep(idle0, Idle(), batches, rounds, edgeListen);
        stopServer := OneRound(batches[rounds]);
        rounds := rounds + 1;
      }
    }
  }
}
