/** timer/lst_timer.h and timer/lst_timer.cpp: the 60-slot time wheel, whose nodes are pool cells in
doubly linked lists, and the expiry callback. */
module Timers {
  import opened Pool

  const N := 60
  const SI := 1

  // ----- specification: a map from timer to the ticks it still has to wait through -----

  /** Ticks that pass before the one that fires the timer. */
  function Rank(c: Cell, cur: int): int {
    c.rotation * N + (c.timeSlot - cur) % N
  }

  ghost function RankMap(mem: seq<Cell>, live: set<int>, cur: int): map<int, int>
    requires InRange(mem, live)
  {
    map p | p in live :: Rank(mem[p], cur)
  }

  lemma RankMapInsert(mem: seq<Cell>, mem': seq<Cell>, live: set<int>, cur: int, t: int, rank: int)
    requires InRange(mem, live) && InRange(mem', live + {t}) && t !in live
    requires Rank(mem'[t], cur) == rank && SameCells(mem, mem', live)
    ensures RankMap(mem', live + {t}, cur) == RankMap(mem, live, cur)[t := rank]
  {
  }

  lemma RankMapRemove(mem: seq<Cell>, mem': seq<Cell>, live: set<int>, cur: int, t: int)
    requires InRange(mem, live) && InRange(mem', live - {t}) && SameCells(mem, mem', live - {t})
    ensures RankMap(mem', live - {t}, cur) == RankMap(mem, live, cur) - {t}
  {
  }

  lemma LiveAfterDelete(m: PoolModel, t: int)
    ensures DeallocateModel(m, t).live == m.live - {t}
  {
  }

  function NextSlot(cur: int): (r: int)
    ensures 0 <= r < N
  {
    (cur + 1) % N
  }

  function SlotFor(cur: int, ticks: nat): (ts: int)
    ensures 0 <= ts < N
  {
    (cur + ticks % N) % N
  }

  /** The slot is as many places ahead of the cursor, around sixty. */
  lemma SlotForIs(cur: int, ticks: nat)
    requires 0 <= cur < 60
    ensures SlotFor(cur, ticks) == (cur + ticks) % 60
  {
  }

  /** A timer placed `ticks` ahead of the cursor waits through exactly `ticks` ticks. */
  lemma RankOfNew(ticks: nat, cur: int, c: Cell)
    requires 0 <= cur < N
    requires c.rotation == ticks / N && c.timeSlot == SlotFor(cur, ticks)
    ensures Rank(c, cur) == ticks
  {
    assert ticks == ticks / N * N + ticks % N;
    if cur + ticks % N < N {
      assert (cur + ticks % N) % N == cur + ticks % N;
    } else {
      assert (cur + ticks % N) % N == cur + ticks % N - N;
    }
  }

  function TicksFor(timeout: int): int {
    if timeout < SI then 1 else timeout / SI
  }

  /** A second is a tick, and the shortest wait is one tick. */
  lemma TicksForIs(timeout: int)
    requires timeout >= 0
    ensures TicksFor(timeout) == if timeout > 1 then timeout else 1
  {
  }

  function Due(ranks: map<int, int>): set<int> {
    set p | p in ranks && ranks[p] == 0
  }

  function TickModel(ranks: map<int, int>): map<int, int> {
    map p | p in ranks && ranks[p] != 0 :: ranks[p] - 1
  }

  // ----- shape of the slots -----

  /** Node `p`: its links are mutually inverse, stay inside its slot and lead from newer to older
      nodes; a null `prev` marks the head.  `stamp` numbers the nodes in order of insertion. */
  ghost predicate NodeOk(mem: seq<Cell>, live: set<int>, heads: seq<int>, stamp: map<int, int>, p: int)
    requires |heads| == N
  {
    && 0 <= p < |mem| && p in stamp
    && 0 <= mem[p].timeSlot < N && mem[p].rotation >= 0
    && (mem[p].prev == NULL ==> heads[mem[p].timeSlot] == p)
    && (mem[p].prev != NULL ==> LinkOk(mem, live, stamp, mem[p].prev, p))
    && (mem[p].next != NULL ==> LinkOk(mem, live, stamp, p, mem[p].next))
  }

  /** `p` is followed by `q` in a slot list. */
  ghost predicate LinkOk(mem: seq<Cell>, live: set<int>, stamp: map<int, int>, p: int, q: int) {
    && p in live && q in live && 0 <= p < |mem| && 0 <= q < |mem| && p in stamp && q in stamp
    && mem[p].next == q && mem[q].prev == p
    && mem[p].timeSlot == mem[q].timeSlot && stamp[q] < stamp[p]
  }

  /** Nothing of the slot lies between `p` and its successor: every older node is at or after it. */
  ghost predicate NoGap(mem: seq<Cell>, stamp: map<int, int>, p: int, q: int)
    requires 0 <= p < |mem| && 0 <= q < |mem| && p in stamp && q in stamp
  {
    mem[p].timeSlot == mem[q].timeSlot && stamp[q] < stamp[p] ==>
      mem[p].next in stamp && stamp[q] <= stamp[mem[p].next]
  }

  ghost predicate HeadOk(mem: seq<Cell>, live: set<int>, heads: seq<int>, s: int)
    requires |heads| == N && 0 <= s < N
  {
    heads[s] != NULL ==>
      heads[s] in live && 0 <= heads[s] < |mem| && mem[heads[s]].prev == NULL && mem[heads[s]].timeSlot == s
  }

  ghost predicate BelowHead(mem: seq<Cell>, heads: seq<int>, stamp: map<int, int>, p: int)
    requires |heads| == N && 0 <= p < |mem| && 0 <= mem[p].timeSlot < N && p in stamp
  {
    heads[mem[p].timeSlot] in stamp && stamp[p] <= stamp[heads[mem[p].timeSlot]]
  }

  /** The 60 slots hold the live cells as pairwise disjoint, acyclic, doubly linked lists. */
  ghost predicate Shape(mem: seq<Cell>, live: set<int>, heads: seq<int>, stamp: map<int, int>) {
    && |heads| == N && stamp.Keys == live
    && (forall s :: 0 <= s < N ==> HeadOk(mem, live, heads, s))
    && (forall p :: p in live ==> p != NULL && NodeOk(mem, live, heads, stamp, p))
    && (forall p :: p in live ==> BelowHead(mem, heads, stamp, p))
    && (forall p, q :: p in live && q in live ==> NoGap(mem, stamp, p, q))
    && (forall p, q :: p in live && q in live && stamp[p] == stamp[q] ==> p == q)
  }

  lemma ShapeParts(mem: seq<Cell>, live: set<int>, heads: seq<int>, stamp: map<int, int>)
    requires Shape(mem, live, heads, stamp)
    ensures |heads| == N && stamp.Keys == live
  {
  }

  lemma ShapeNoGap(mem: seq<Cell>, live: set<int>, heads: seq<int>, stamp: map<int, int>, p: int, q: int)
    requires Shape(mem, live, heads, stamp) && p in live && q in live
    ensures 0 <= p < |mem| && 0 <= q < |mem| && p in stamp && q in stamp && NoGap(mem, stamp, p, q)
    ensures p != q ==> stamp[p] != stamp[q]
  {
    assert NodeOk(mem, live, heads, stamp, p) && NodeOk(mem, live, heads, stamp, q);
  }

  lemma ShapeHead(mem: seq<Cell>, live: set<int>, heads: seq<int>, stamp: map<int, int>, s: int)
    requires Shape(mem, live, heads, stamp) && 0 <= s < N
    ensures HeadOk(mem, live, heads, s)
  {
  }

  lemma ShapeNode(mem: seq<Cell>, live: set<int>, heads: seq<int>, stamp: map<int, int>, p: int)
    requires Shape(mem, live, heads, stamp) && p in live
    ensures p != NULL && NodeOk(mem, live, heads, stamp, p) && BelowHead(mem, heads, stamp, p)
    ensures mem[p].prev != NULL ==> NodeOk(mem, live, heads, stamp, mem[p].prev)
    ensures mem[p].next != NULL ==> NodeOk(mem, live, heads, stamp, mem[p].next)
  {
  }

  /** `now` is newer than every node of the wheel. */
  ghost predicate Newest(stamp: map<int, int>, now: int) {
    now >= 0 && forall p :: p in stamp ==> 0 <= stamp[p] < now
  }

  ghost predicate InRange(mem: seq<Cell>, cells: set<int>) {
    forall p :: p in cells ==> 0 <= p < |mem|
  }

  /** The nodes met by following `next` from `p`. */
  ghost function ListFrom(mem: seq<Cell>, live: set<int>, heads: seq<int>, stamp: map<int, int>, now: int, p: int): seq<int>
    requires Shape(mem, live, heads, stamp) && Newest(stamp, now) && (p != NULL ==> p in live)
    decreases if p == NULL then 0 else stamp[p] + 1
  {
    if p == NULL then [] else
    ShapeNode(mem, live, heads, stamp, p);
    [p] + ListFrom(mem, live, heads, stamp, now, mem[p].next)
  }

  lemma {:induction false} ListFromMembers(mem: seq<Cell>, live: set<int>, heads: seq<int>, stamp: map<int, int>,
                                           now: int, p: int)
    requires Shape(mem, live, heads, stamp) && Newest(stamp, now) && p in live && InRange(mem, live)
    ensures forall q :: q in ListFrom(mem, live, heads, stamp, now, p) <==>
              q in live && mem[q].timeSlot == mem[p].timeSlot && stamp[q] <= stamp[p]
    decreases stamp[p]
  {
    ShapeNode(mem, live, heads, stamp, p);
    var next := mem[p].next;
    if next != NULL { ListFromMembers(mem, live, heads, stamp, now, next); }
    forall q | q in live && mem[q].timeSlot == mem[p].timeSlot
      ensures stamp[q] <= stamp[p] <==> q == p || (next != NULL && stamp[q] <= stamp[next])
    {
      assert NoGap(mem, stamp, p, q);
    }
  }

  function Follower(l: seq<int>, i: int): int
    requires 0 <= i < |l|
  {
    if i + 1 < |l| then l[i + 1] else NULL
  }

  function Leader(l: seq<int>, i: int, before: int): int
    requires 0 <= i < |l|
  {
    if i > 0 then l[i - 1] else before
  }

  /** The cells `l`, in order, without repeats, with inverse links, coming after node `before`. */
  ghost predicate DoublyLinked(mem: seq<Cell>, before: int, l: seq<int>) {
    && Distinct(l)
    && (forall i :: 0 <= i < |l| ==> 0 <= l[i] < |mem|)
    && (forall i :: 0 <= i < |l| ==> mem[l[i]].next == Follower(l, i) && mem[l[i]].prev == Leader(l, i, before))
  }

  lemma DoublyLinkedCons(mem: seq<Cell>, p: int, l: seq<int>)
    requires DoublyLinked(mem, p, l) && 0 <= p < |mem| && p !in l
    requires mem[p].next == if l == [] then NULL else l[0]
    ensures DoublyLinked(mem, mem[p].prev, [p] + l)
  {
    var l' := [p] + l;
    forall i | 0 < i < |l'|
      ensures l'[i] == l[i - 1]
      ensures mem[l'[i]].next == Follower(l', i) && mem[l'[i]].prev == Leader(l', i, mem[p].prev)
    {
      var k := i - 1;
      assert mem[l[k]].next == Follower(l, k) && mem[l[k]].prev == Leader(l, k, p);
    }
  }

  lemma {:induction false} ListFromLinks(mem: seq<Cell>, live: set<int>, heads: seq<int>, stamp: map<int, int>,
                                         now: int, p: int)
    requires Shape(mem, live, heads, stamp) && Newest(stamp, now) && p in live && InRange(mem, live)
    ensures DoublyLinked(mem, mem[p].prev, ListFrom(mem, live, heads, stamp, now, p))
    decreases stamp[p]
  {
    ShapeNode(mem, live, heads, stamp, p);
    var next := mem[p].next;
    var l := ListFrom(mem, live, heads, stamp, now, next);
    if next != NULL {
      ListFromLinks(mem, live, heads, stamp, now, next);
      ListFromMembers(mem, live, heads, stamp, now, next);
    }
    hide Shape;
    assert next != NULL ==> LinkOk(mem, live, stamp, p, next);
    DoublyLinkedCons(mem, p, l);
  }

  /** Slot `s` holds exactly the live cells labelled `s`, as one list without repeats whose `prev` and
      `next` links are inverse and null at the ends; so lists of different slots share no cell. */
  lemma SlotIsList(mem: seq<Cell>, live: set<int>, heads: seq<int>, stamp: map<int, int>, now: int, s: int)
    requires Shape(mem, live, heads, stamp) && Newest(stamp, now) && 0 <= s < N && InRange(mem, live)
    ensures heads[s] != NULL ==> heads[s] in live
    ensures var l := ListFrom(mem, live, heads, stamp, now, heads[s]);
            DoublyLinked(mem, NULL, l) && Elems(l) == (set p | p in live && mem[p].timeSlot == s)
  {
    ShapeHead(mem, live, heads, stamp, s);
    forall p | p in live && mem[p].timeSlot == s
      ensures heads[s] != NULL && stamp[p] <= stamp[heads[s]]
    {
      ShapeNode(mem, live, heads, stamp, p);
    }
    if heads[s] != NULL {
      ListFromMembers(mem, live, heads, stamp, now, heads[s]);
      ListFromLinks(mem, live, heads, stamp, now, heads[s]);
    }
  }

  function Elems(s: seq<int>): set<int> {
    set p | p in s
  }

  /** The cells in `cells` kept everything but their links. */
  ghost predicate SameCells(mem: seq<Cell>, mem': seq<Cell>, cells: set<int>) {
    && |mem| <= |mem'|
    && forall p :: p in cells && 0 <= p < |mem| ==> mem'[p] == mem[p].(prev := mem'[p].prev, next := mem'[p].next)
  }

  lemma SameCellsCompose(mem: seq<Cell>, mem': seq<Cell>, mem'': seq<Cell>, cells: set<int>, more: set<int>)
    requires SameCells(mem, mem', cells) && SameCells(mem', mem'', more) && cells <= more
    ensures SameCells(mem, mem'', cells)
  {
  }

  /** Cell `t` put in front of the node `head` of slot `slot`. */
  ghost predicate InsertedAtHead(mem: seq<Cell>, mem': seq<Cell>, live: set<int>, head: int, t: int, slot: int) {
    && |mem| <= |mem'| && 0 <= t < |mem'|
    && mem'[t].prev == NULL && mem'[t].next == head && mem'[t].timeSlot == slot && mem'[t].rotation >= 0
    && forall p :: p in live && 0 <= p < |mem| ==> mem'[p] == if p == head then mem[p].(prev := t) else mem[p]
  }

  lemma InsertKeepsNode(mem: seq<Cell>, mem': seq<Cell>, live: set<int>,
                        heads: seq<int>, stamp: map<int, int>, s: int, t: int, now: int, p: int)
    requires |heads| == N && 0 <= s < N && t !in live && stamp.Keys == live && Newest(stamp, now)
    requires InsertedAtHead(mem, mem', live, heads[s], t, s) && HeadOk(mem, live, heads, s)
    requires p in live && NodeOk(mem, live, heads, stamp, p)
    ensures NodeOk(mem', live + {t}, heads[s := t], stamp[t := now], p)
  {
  }

  lemma InsertKeepsShape(mem: seq<Cell>, mem': seq<Cell>, live: set<int>,
                         heads: seq<int>, stamp: map<int, int>, s: int, t: int, now: int)
    requires Shape(mem, live, heads, stamp) && 0 <= s < N && t !in live && Newest(stamp, now)
    requires InsertedAtHead(mem, mem', live, heads[s], t, s)
    ensures Shape(mem', live + {t}, heads[s := t], stamp[t := now])
  {
    hide HeadOk, BelowHead, NoGap;
    var live', heads', stamp' := live + {t}, heads[s := t], stamp[t := now];
    forall z | 0 <= z < N ensures HeadOk(mem', live', heads', z) {
      InsertKeepsHead(mem, mem', live, heads, stamp, s, t, now, z);
    }
    forall p | p in live'
      ensures p != NULL && NodeOk(mem', live', heads', stamp', p) && BelowHead(mem', heads', stamp', p)
    {
      InsertKeepsAt(mem, mem', live, heads, stamp, s, t, now, p);
    }
    forall p, q | p in live' && q in live'
      ensures 0 <= p < |mem'| && 0 <= q < |mem'| && NoGap(mem', stamp', p, q)
    {
      InsertKeepsNoGap(mem, mem', live, heads, stamp, s, t, now, p, q);
    }
  }

  lemma InsertKeepsHead(mem: seq<Cell>, mem': seq<Cell>, live: set<int>,
                        heads: seq<int>, stamp: map<int, int>, s: int, t: int, now: int, z: int)
    requires Shape(mem, live, heads, stamp) && 0 <= s < N && t !in live && Newest(stamp, now) && 0 <= z < N
    requires InsertedAtHead(mem, mem', live, heads[s], t, s)
    ensures HeadOk(mem', live + {t}, heads[s := t], z)
  {
    hide Shape;
    ShapeParts(mem, live, heads, stamp);
    ShapeHead(mem, live, heads, stamp, s);
    ShapeHead(mem, live, heads, stamp, z);
  }

  lemma InsertKeepsAt(mem: seq<Cell>, mem': seq<Cell>, live: set<int>,
                      heads: seq<int>, stamp: map<int, int>, s: int, t: int, now: int, p: int)
    requires Shape(mem, live, heads, stamp) && 0 <= s < N && t !in live && t != NULL && Newest(stamp, now)
    requires InsertedAtHead(mem, mem', live, heads[s], t, s) && p in live + {t}
    ensures p != NULL && NodeOk(mem', live + {t}, heads[s := t], stamp[t := now], p)
    ensures BelowHead(mem', heads[s := t], stamp[t := now], p)
  {
    ShapeHead(mem, live, heads, stamp, s);
    if p in live {
      ShapeNode(mem, live, heads, stamp, p);
      InsertKeepsNode(mem, mem', live, heads, stamp, s, t, now, p);
    }
  }

  lemma InsertKeepsNoGap(mem: seq<Cell>, mem': seq<Cell>, live: set<int>,
                         heads: seq<int>, stamp: map<int, int>, s: int, t: int, now: int, p: int, q: int)
    requires Shape(mem, live, heads, stamp) && 0 <= s < N && t !in live && Newest(stamp, now)
    requires InsertedAtHead(mem, mem', live, heads[s], t, s) && p in live + {t} && q in live + {t}
    ensures 0 <= p < |mem'| && 0 <= q < |mem'| && NoGap(mem', stamp[t := now], p, q)
  {
    hide Shape;
    ShapeParts(mem, live, heads, stamp);
    if p in live && q in live {
      ShapeNoGap(mem, live, heads, stamp, p, q);
    } else if p in live {
      ShapeNode(mem, live, heads, stamp, p);
    } else if q in live {
      ShapeNode(mem, live, heads, stamp, q);
    }
  }

  /** The neighbours of node `t` point past it; other live cells are untouched. */
  ghost predicate Unlinked(mem: seq<Cell>, mem': seq<Cell>, live: set<int>, t: int) {
    && 0 <= t < |mem| && |mem| == |mem'|
    && forall p :: p in live && p != t && 0 <= p < |mem| ==>
         mem'[p] == mem[p].(next := if p == mem[t].prev then mem[t].next else mem[p].next,
                            prev := if p == mem[t].next then mem[t].prev else mem[p].prev)
  }

  lemma LinkSurvives(mem: seq<Cell>, mem': seq<Cell>, live: set<int>, stamp: map<int, int>, t: int, p: int, q: int)
    requires LinkOk(mem, live, stamp, p, q) && p != t && q != t
    requires Unlinked(mem, mem', live, t)
    requires mem[t].prev != NULL ==> LinkOk(mem, live, stamp, mem[t].prev, t)
    requires mem[t].next != NULL ==> LinkOk(mem, live, stamp, t, mem[t].next)
    requires p != NULL && q != NULL
    ensures LinkOk(mem', live - {t}, stamp - {t}, p, q)
  {
  }

  lemma LinkBridges(mem: seq<Cell>, mem': seq<Cell>, live: set<int>, stamp: map<int, int>, t: int)
    requires Unlinked(mem, mem', live, t)
    requires mem[t].prev != NULL && LinkOk(mem, live, stamp, mem[t].prev, t)
    requires mem[t].next != NULL && LinkOk(mem, live, stamp, t, mem[t].next)
    ensures LinkOk(mem', live - {t}, stamp - {t}, mem[t].prev, mem[t].next)
  {
  }

  lemma UnlinkKeepsNode(mem: seq<Cell>, mem': seq<Cell>, live: set<int>,
                        heads: seq<int>, heads': seq<int>, stamp: map<int, int>, t: int, p: int)
    requires |heads| == N && Unlinked(mem, mem', live, t) && t != NULL && p != NULL
    requires NodeOk(mem, live, heads, stamp, t) && NodeOk(mem, live, heads, stamp, p)
    requires heads' == if heads[mem[t].timeSlot] == t then heads[mem[t].timeSlot := mem[t].next] else heads
    requires p in live && p != t
    requires HeadOk(mem, live, heads, mem[t].timeSlot)
    ensures NodeOk(mem', live - {t}, heads', stamp - {t}, p)
  {
    if mem[p].prev == t {
      if mem[t].prev != NULL { LinkBridges(mem, mem', live, stamp, t); }
    } else if mem[p].prev != NULL {
      LinkSurvives(mem, mem', live, stamp, t, mem[p].prev, p);
    }
    if mem[p].next == t {
      if mem[t].next != NULL { LinkBridges(mem, mem', live, stamp, t); }
    } else if mem[p].next != NULL {
      LinkSurvives(mem, mem', live, stamp, t, p, mem[p].next);
    }
  }

  lemma UnlinkKeepsBelowHead(mem: seq<Cell>, mem': seq<Cell>, live: set<int>,
                             heads: seq<int>, heads': seq<int>, stamp: map<int, int>, t: int, p: int)
    requires |heads| == N && stamp.Keys == live && NULL !in live && p in live && t in live && p != t
    requires NodeOk(mem, live, heads, stamp, p) && NodeOk(mem, live, heads, stamp, t)
    requires BelowHead(mem, heads, stamp, p) && NoGap(mem, stamp, t, p) && stamp[p] != stamp[t]
    requires HeadOk(mem, live, heads, mem[p].timeSlot)
    requires Unlinked(mem, mem', live, t)
    requires heads' == if heads[mem[t].timeSlot] == t then heads[mem[t].timeSlot := mem[t].next] else heads
    ensures BelowHead(mem', heads', stamp - {t}, p)
  {
    assert mem'[p].timeSlot == mem[p].timeSlot;
    if heads[mem[p].timeSlot] == t {
      assert stamp[p] < stamp[t] && mem[t].next != NULL;
      assert LinkOk(mem, live, stamp, t, mem[t].next);
    }
  }

  lemma UnlinkKeepsShape(mem: seq<Cell>, mem': seq<Cell>, live: set<int>,
                         heads: seq<int>, heads': seq<int>, stamp: map<int, int>, t: int)
    requires Shape(mem, live, heads, stamp) && t in live && Unlinked(mem, mem', live, t)
    requires heads' == if heads[mem[t].timeSlot] == t then heads[mem[t].timeSlot := mem[t].next] else heads
    ensures Shape(mem', live - {t}, heads', stamp - {t})
  {
    hide HeadOk, BelowHead, NoGap;
    var stamp' := stamp - {t};
    ShapeNode(mem, live, heads, stamp, t);
    forall s | 0 <= s < N ensures HeadOk(mem', live - {t}, heads', s) {
      UnlinkKeepsHead(mem, mem', live, heads, heads', stamp, t, s);
    }
    forall p | p in live - {t}
      ensures p != NULL && NodeOk(mem', live - {t}, heads', stamp', p) && BelowHead(mem', heads', stamp', p)
    {
      ShapeNode(mem, live, heads, stamp, p);
      UnlinkKeepsNode(mem, mem', live, heads, heads', stamp, t, p);
      UnlinkKeepsBelowHead(mem, mem', live, heads, heads', stamp, t, p);
    }
    forall p, q | p in live - {t} && q in live - {t}
      ensures 0 <= p < |mem'| && 0 <= q < |mem'| && NoGap(mem', stamp', p, q)
    {
      UnlinkKeepsNoGap(mem, mem', live, heads, stamp, t, p, q);
    }
  }

  lemma UnlinkKeepsHead(mem: seq<Cell>, mem': seq<Cell>, live: set<int>,
                        heads: seq<int>, heads': seq<int>, stamp: map<int, int>, t: int, s: int)
    requires Shape(mem, live, heads, stamp) && t in live && Unlinked(mem, mem', live, t) && 0 <= s < N
    requires heads' == if heads[mem[t].timeSlot] == t then heads[mem[t].timeSlot := mem[t].next] else heads
    ensures HeadOk(mem', live - {t}, heads', s)
  {
    ShapeNode(mem, live, heads, stamp, t);
    ShapeHead(mem, live, heads, stamp, s);
    if heads[s] != NULL { ShapeNode(mem, live, heads, stamp, heads[s]); }
  }

  lemma UnlinkKeepsNoGap(mem: seq<Cell>, mem': seq<Cell>, live: set<int>, heads: seq<int>, stamp: map<int, int>,
                         t: int, p: int, q: int)
    requires Shape(mem, live, heads, stamp) && t in live && Unlinked(mem, mem', live, t)
    requires p in live - {t} && q in live - {t}
    ensures 0 <= p < |mem'| && 0 <= q < |mem'| && NoGap(mem', stamp - {t}, p, q)
  {
    hide Shape;
    ShapeParts(mem, live, heads, stamp);
    ShapeNode(mem, live, heads, stamp, t);
    ShapeNode(mem, live, heads, stamp, p);
    ShapeNode(mem, live, heads, stamp, q);
    ShapeNoGap(mem, live, heads, stamp, p, q);
    ShapeNoGap(mem, live, heads, stamp, t, q);
  }

  lemma ShapeFrame(mem: seq<Cell>, mem': seq<Cell>, live: set<int>, heads: seq<int>, stamp: map<int, int>)
    requires Shape(mem, live, heads, stamp)
    requires |mem| <= |mem'| && forall p :: p in live && 0 <= p < |mem| ==> mem'[p] == mem[p]
    ensures Shape(mem', live, heads, stamp)
  {
    RoundsNonNegative(mem, live, heads, stamp);
    PayloadKeepsShape(mem, mem', live, heads, stamp);
  }

  lemma RoundsNonNegative(mem: seq<Cell>, live: set<int>, heads: seq<int>, stamp: map<int, int>)
    requires Shape(mem, live, heads, stamp)
    ensures forall p :: p in live ==> 0 <= p < |mem| && mem[p].rotation >= 0
  {
    forall p | p in live ensures 0 <= p < |mem| && mem[p].rotation >= 0 {
      assert NodeOk(mem, live, heads, stamp, p);
    }
  }

  /** The lists depend on links, labels and non-negative rounds only. */
  lemma PayloadKeepsShape(mem: seq<Cell>, mem': seq<Cell>, live: set<int>, heads: seq<int>, stamp: map<int, int>)
    requires Shape(mem, live, heads, stamp) && |mem| <= |mem'|
    requires forall p :: p in live && 0 <= p < |mem| ==>
      && mem'[p].prev == mem[p].prev && mem'[p].next == mem[p].next
      && mem'[p].timeSlot == mem[p].timeSlot && mem'[p].rotation >= 0
    ensures Shape(mem', live, heads, stamp)
  {
    forall s | 0 <= s < N ensures HeadOk(mem', live, heads, s) {
      assert HeadOk(mem, live, heads, s);
    }
    forall p | p in live ensures NodeOk(mem', live, heads, stamp, p) && BelowHead(mem', heads, stamp, p) {
      assert NodeOk(mem, live, heads, stamp, p) && BelowHead(mem, heads, stamp, p);
    }
    forall p, q | p in live && q in live ensures NoGap(mem', stamp, p, q) {
      assert NodeOk(mem, live, heads, stamp, p) && NodeOk(mem, live, heads, stamp, q) && NoGap(mem, stamp, p, q);
    }
  }

  // ----- one tick, seen from the list being walked -----

  /** In the list order of the walk, `p` comes before `tmp`. */
  ghost predicate Passed(stamp: map<int, int>, tmp: int, p: int) {
    tmp == NULL || (tmp in stamp && p in stamp && stamp[p] > stamp[tmp])
  }

  /** `c` is what the walk made of `c0`: one round fewer if it has passed and let it wait. */
  ghost predicate Walked(c0: Cell, c: Cell, passed: bool) {
    && c.timeSlot == c0.timeSlot && c.callback == c0.callback && c.userData == c0.userData && c.expire == c0.expire
    && c.rotation == (if passed then c0.rotation - 1 else c0.rotation)
    && (passed ==> c0.rotation > 0)
  }

  /** Fired in list order: each from the walked slot, in its last round, and behind the walk. */
  ghost predicate FiredSoFar(mem0: seq<Cell>, stamp0: map<int, int>, cur: int, tmp: int, fired: seq<int>) {
    && (forall i :: 0 <= i < |fired| ==>
          && fired[i] in stamp0 && 0 <= fired[i] < |mem0|
          && mem0[fired[i]].timeSlot == cur && mem0[fired[i]].rotation == 0 && Passed(stamp0, tmp, fired[i]))
    && (forall i, j :: 0 <= i < j < |fired| && fired[i] in stamp0 && fired[j] in stamp0 ==>
          stamp0[fired[i]] > stamp0[fired[j]])
  }

  /** The tick has walked up to `tmp`, firing `fired`, from the wheel (mem0, live0, stamp0). */
  ghost predicate TickState(mem0: seq<Cell>, live0: set<int>, stamp0: map<int, int>, cur: int,
                            mem: seq<Cell>, live: set<int>, stamp: map<int, int>, tmp: int, fired: seq<int>) {
    && InRange(mem0, live0) && InRange(mem, live) && stamp0.Keys == live0
    && live == live0 - Elems(fired) && stamp == stamp0 - Elems(fired)
    && (tmp != NULL ==> tmp in live && 0 <= tmp < |mem| && mem[tmp].timeSlot == cur)
    && (forall p :: p in live && 0 <= p < |mem0| && 0 <= p < |mem| ==>
          Walked(mem0[p], mem[p], mem0[p].timeSlot == cur && Passed(stamp0, tmp, p)))
    && FiredSoFar(mem0, stamp0, cur, tmp, fired)
  }

  lemma TickStart(mem: seq<Cell>, live: set<int>, heads: seq<int>, stamp: map<int, int>, cur: int)
    requires Shape(mem, live, heads, stamp) && 0 <= cur < N
    ensures TickState(mem, live, stamp, cur, mem, live, stamp, heads[cur], [])
  {
    assert HeadOk(mem, live, heads, cur);
    forall p | p in live ensures 0 <= p < |mem| && !(mem[p].timeSlot == cur && Passed(stamp, heads[cur], p)) {
      assert NodeOk(mem, live, heads, stamp, p) && BelowHead(mem, heads, stamp, p);
    }
    assert Elems([]) == {};
  }

  /** Moving on from a node to its successor passes that node and no other of the slot. */
  lemma NextPasses(mem: seq<Cell>, live: set<int>, heads: seq<int>, stamp: map<int, int>, tmp: int, p: int)
    requires Shape(mem, live, heads, stamp) && tmp in live && p in live
    requires InRange(mem, live) && mem[p].timeSlot == mem[tmp].timeSlot
    ensures Passed(stamp, mem[tmp].next, p) <==> Passed(stamp, tmp, p) || p == tmp
    ensures mem[tmp].next != NULL ==> mem[tmp].next in live && 0 <= mem[tmp].next < |mem|
                                      && mem[mem[tmp].next].timeSlot == mem[tmp].timeSlot
                                      && stamp[mem[tmp].next] < stamp[tmp]
  {
    assert NodeOk(mem, live, heads, stamp, tmp) && NodeOk(mem, live, heads, stamp, p);
    assert NoGap(mem, stamp, tmp, p);
  }

  /** What the loop body relies on when it looks at `tmp`. */
  lemma TickNode(mem0: seq<Cell>, live0: set<int>, stamp0: map<int, int>, cur: int,
                 mem: seq<Cell>, live: set<int>, heads: seq<int>, stamp: map<int, int>, clock: int,
                 tmp: int, fired: seq<int>, sockfds: seq<int>)
    requires TickState(mem0, live0, stamp0, cur, mem, live, stamp, tmp, fired) && tmp != NULL
    requires Shape(mem, live, heads, stamp) && Newest(stamp, clock)
    requires Clients(mem0, sockfds, live0)
    ensures InRange(mem, live) && tmp in live && mem[tmp].rotation >= 0
    ensures Clients(mem0, sockfds, Elems(fired + [tmp])) && 0 <= mem[tmp].userData < |sockfds|
    ensures mem[tmp].userData == mem0[tmp].userData
    ensures tmp in stamp && stamp[tmp] >= 0
    ensures mem[tmp].next != NULL ==> mem[tmp].next in stamp && mem[tmp].next != tmp && stamp[mem[tmp].next] < stamp[tmp]
  {
    assert NodeOk(mem, live, heads, stamp, tmp);
    NextPasses(mem, live, heads, stamp, tmp, tmp);
    assert Walked(mem0[tmp], mem[tmp], mem0[tmp].timeSlot == cur && Passed(stamp0, tmp, tmp));
  }

  lemma NothingFired(mem: seq<Cell>, sockfds: seq<int>, open: set<int>, m: PoolModel)
    ensures DeallocateAll(m, []) == m && Clients(mem, sockfds, Elems([])) && open - ClosedFds(mem, sockfds, Elems([])) == open
  {
  }

  lemma FireOneMore(mem: seq<Cell>, sockfds: seq<int>, open: set<int>, m: PoolModel, fired: seq<int>, t: int)
    requires Clients(mem, sockfds, Elems(fired)) && Clients(mem, sockfds, Elems(fired + [t]))
    ensures 0 <= t < |mem| && 0 <= mem[t].userData < |sockfds|
    ensures open - ClosedFds(mem, sockfds, Elems(fired + [t]))
         == open - ClosedFds(mem, sockfds, Elems(fired)) - {sockfds[mem[t].userData]}
    ensures DeallocateAll(m, fired + [t]) == DeallocateModel(DeallocateAll(m, fired), t)
  {
    assert t in Elems(fired + [t]);
    assert ClosedFds(mem, sockfds, Elems(fired + [t]))
        == ClosedFds(mem, sockfds, Elems(fired)) + {sockfds[mem[t].userData]};
    assert Elems(fired + [t]) == Elems(fired) + {t};
    assert (fired + [t])[..|fired|] == fired;
  }

  lemma TickWaits(mem0: seq<Cell>, live0: set<int>, stamp0: map<int, int>, cur: int,
                  mem: seq<Cell>, live: set<int>, heads: seq<int>, stamp: map<int, int>, tmp: int, fired: seq<int>,
                  mem': seq<Cell>)
    requires TickState(mem0, live0, stamp0, cur, mem, live, stamp, tmp, fired) && tmp != NULL
    requires Shape(mem, live, heads, stamp) && mem[tmp].rotation > 0
    requires mem' == mem[tmp := mem[tmp].(rotation := mem[tmp].rotation - 1)]
    ensures TickState(mem0, live0, stamp0, cur, mem', live, stamp, mem[tmp].next, fired)
  {
    var next := mem[tmp].next;
    forall p | p in live
      ensures Walked(mem0[p], mem'[p], mem0[p].timeSlot == cur && Passed(stamp0, next, p))
    {
      assert Walked(mem0[p], mem[p], mem0[p].timeSlot == cur && Passed(stamp0, tmp, p));
      if mem[p].timeSlot == cur { NextPasses(mem, live, heads, stamp, tmp, p); }
    }
    NextPasses(mem, live, heads, stamp, tmp, tmp);
  }

  lemma TickFires(mem0: seq<Cell>, live0: set<int>, stamp0: map<int, int>, cur: int,
                  mem: seq<Cell>, live: set<int>, heads: seq<int>, stamp: map<int, int>, tmp: int, fired: seq<int>,
                  mem': seq<Cell>)
    requires TickState(mem0, live0, stamp0, cur, mem, live, stamp, tmp, fired) && tmp != NULL
    requires Shape(mem, live, heads, stamp) && mem[tmp].rotation == 0
    requires SameCells(mem, mem', live - {tmp})
    ensures TickState(mem0, live0, stamp0, cur, mem', live - {tmp}, stamp - {tmp}, mem[tmp].next, fired + [tmp])
  {
    var next, fired' := mem[tmp].next, fired + [tmp];
    assert Walked(mem0[tmp], mem[tmp], mem0[tmp].timeSlot == cur && Passed(stamp0, tmp, tmp));
    forall p | p in live - {tmp}
      ensures Walked(mem0[p], mem'[p], mem0[p].timeSlot == cur && Passed(stamp0, next, p))
    {
      assert Walked(mem0[p], mem[p], mem0[p].timeSlot == cur && Passed(stamp0, tmp, p));
      if mem[p].timeSlot == cur { NextPasses(mem, live, heads, stamp, tmp, p); }
    }
    NextPasses(mem, live, heads, stamp, tmp, tmp);
    assert Elems(fired') == Elems(fired) + {tmp};
  }

  /** When the walk is over, the cursor moves on: the due timers are gone and all others are one
      tick closer. */
  lemma TickEnds(mem0: seq<Cell>, live0: set<int>, heads0: seq<int>, stamp0: map<int, int>, cur: int,
                 mem: seq<Cell>, live: set<int>, stamp: map<int, int>, fired: seq<int>)
    requires Shape(mem0, live0, heads0, stamp0) && 0 <= cur < N
    requires TickState(mem0, live0, stamp0, cur, mem, live, stamp, NULL, fired)
    ensures Elems(fired) == Due(RankMap(mem0, live0, cur)) && |Elems(fired)| == |fired|
    ensures live == live0 - Elems(fired) && SameClients(mem0, mem, live)
    ensures RankMap(mem, live, NextSlot(cur)) == TickModel(RankMap(mem0, live0, cur))
  {
    hide Shape, FiredSoFar, Rank;
    forall p | p in live0
      ensures p in Elems(fired) <==> Rank(mem0[p], cur) == 0
      ensures p in live ==> Rank(mem[p], NextSlot(cur)) == Rank(mem0[p], cur) - 1
    {
      TickEndsAt(mem0, live0, heads0, stamp0, cur, mem, live, stamp, fired, p);
    }
    FiredCount(mem0, stamp0, cur, fired);
  }

  lemma TickEndsAt(mem0: seq<Cell>, live0: set<int>, heads0: seq<int>, stamp0: map<int, int>, cur: int,
                   mem: seq<Cell>, live: set<int>, stamp: map<int, int>, fired: seq<int>, p: int)
    requires Shape(mem0, live0, heads0, stamp0) && 0 <= cur < N && p in live0
    requires TickState(mem0, live0, stamp0, cur, mem, live, stamp, NULL, fired)
    ensures p in Elems(fired) <==> Rank(mem0[p], cur) == 0
    ensures p in live ==> Rank(mem[p], NextSlot(cur)) == Rank(mem0[p], cur) - 1
  {
    hide Shape, Rank, NextSlot;
    ShapeNode(mem0, live0, heads0, stamp0, p);
    RankSteps(mem0[p], cur);
    if p in live {
      assert Walked(mem0[p], mem[p], mem0[p].timeSlot == cur && Passed(stamp0, NULL, p));
      RankOf(mem[p], if mem0[p].timeSlot == cur then mem0[p].(rotation := mem0[p].rotation - 1) else mem0[p], NextSlot(cur));
    } else {
      var i :| 0 <= i < |fired| && fired[i] == p;
    }
  }

  lemma RankOf(c: Cell, d: Cell, cur: int)
    requires c.rotation == d.rotation && c.timeSlot == d.timeSlot
    ensures Rank(c, cur) == Rank(d, cur)
  {
  }

  lemma FiredCount(mem0: seq<Cell>, stamp0: map<int, int>, cur: int, fired: seq<int>)
    requires FiredSoFar(mem0, stamp0, cur, NULL, fired)
    ensures |Elems(fired)| == |fired| && Elems(fired) <= stamp0.Keys
  {
    DistinctCount(fired, stamp0);
  }

  lemma RankSteps(c: Cell, cur: int)
    requires 0 <= cur < N && 0 <= c.timeSlot < N && c.rotation >= 0
    ensures Rank(c, cur) >= 0 && (Rank(c, cur) == 0 <==> c.timeSlot == cur && c.rotation == 0)
    ensures c.timeSlot == cur ==> Rank(c.(rotation := c.rotation - 1), NextSlot(cur)) == Rank(c, cur) - 1
    ensures c.timeSlot != cur ==> Rank(c, NextSlot(cur)) == Rank(c, cur) - 1
  {
  }

  lemma {:induction false} DistinctCount(s: seq<int>, stamp: map<int, int>)
    requires forall i :: 0 <= i < |s| ==> s[i] in stamp
    requires forall i, j :: 0 <= i < j < |s| ==> stamp[s[i]] > stamp[s[j]]
    ensures |Elems(s)| == |s|
  {
    if s != [] {
      var init := s[..|s| - 1];
      DistinctCount(init, stamp);
      assert Elems(s) == Elems(init) + {s[|s| - 1]};
      assert s[|s| - 1] !in init;
    }
  }

  /** The cells in `cells` still serve the clients they served. */
  ghost predicate SameClients(mem: seq<Cell>, mem': seq<Cell>, cells: set<int>) {
    forall p :: p in cells && 0 <= p < |mem| ==>
      p < |mem'| && mem'[p].callback == mem[p].callback && mem'[p].userData == mem[p].userData
  }

  ghost predicate Clients(mem: seq<Cell>, sockfds: seq<int>, ps: set<int>) {
    forall p :: p in ps ==> 0 <= p < |mem| && 0 <= mem[p].userData < |sockfds|
  }

  /** The descriptors the callback closes for the timers `ps`. */
  ghost function ClosedFds(mem: seq<Cell>, sockfds: seq<int>, ps: set<int>): set<int>
    requires Clients(mem, sockfds, ps)
  {
    set p | p in ps :: sockfds[mem[p].userData]
  }

  // ----- the client table and the callback -----

  /** users_timer[] (timer/lst_timer.h: struct client_data), the kernel's open client descriptors and
      http_conn::m_user_count.  A pointer to users_timer[i] is the index i. */
  class ClientTable {
    const sockfd: array<int>
    const timer: array<int>
    var openFds: set<int>
    var userCount: int

    constructor (maxFd: nat)
      ensures fresh(sockfd) && fresh(timer) && sockfd != timer
      ensures sockfd.Length == maxFd && timer.Length == maxFd
      ensures openFds == {} && userCount == 0
    {
      sockfd := new int[maxFd](_ => 0);
      timer := new int[maxFd](_ => NULL);
      openFds, userCount := {}, 0;
    }

    /** cb_func: close the descriptor, one user fewer. */
    method CbFunc(userData: int)
      requires 0 <= userData < sockfd.Length
      modifies this`openFds, this`userCount
      ensures openFds == old(openFds) - {sockfd[userData]}
      ensures userCount == old(userCount) - 1
    {
      openFds := openFds - {sockfd[userData]};
      userCount := userCount - 1;
    }
  }

  // ----- the wheel -----

  class TimeWheel {
    const pool: MemoryPool
    const slots: array<int>
    const host: ClientTable
    var curSlot: int
    ghost var stamp: map<int, int>
    ghost var clock: int

    ghost predicate Valid()
      reads this, pool, slots
    {
      && slots.Length == N && slots != host.sockfd && slots != host.timer
      && 0 <= curSlot < N
      && pool.Valid()
      && Shape(pool.mem, pool.live, slots[..], stamp)
      && Newest(stamp, clock)
    }

    ghost function Ranks(): map<int, int>
      requires Valid()
      reads this, pool, slots
    {
      RankMap(pool.mem, pool.live, curSlot)
    }

    /** Every timer in the wheel was given its callback and its client. */
    ghost predicate Bound()
      requires Valid()
      reads this, pool, slots
    {
      forall p :: p in pool.live ==> pool.mem[p].callback && 0 <= pool.mem[p].userData < host.sockfd.Length
    }

    constructor (pool: MemoryPool, host: ClientTable)
      requires pool.Valid() && pool.live == {}
      ensures Valid() && Ranks() == map[] && curSlot == 0
      ensures this.pool == pool && this.host == host && fresh(slots)
    {
      this.pool, this.host := pool, host;
      slots := new int[N](_ => NULL);
      curSlot := 0;
      stamp, clock := map[], 0;
    }

    /** The wheel is in order but for node `t`, which is allocated and in no slot list. */
    ghost predicate Loose(t: int)
      reads this, pool, slots
    {
      && slots.Length == N && slots != host.sockfd && slots != host.timer && 0 <= curSlot < N
      && pool.Valid() && t in pool.live && t != NULL
      && Shape(pool.mem, pool.live - {t}, slots[..], stamp) && Newest(stamp, clock)
    }

    /** Node `t` is labelled and about to be inserted. */
    ghost predicate Pending(t: int)
      reads this, pool, slots
    {
      && Loose(t)
      && var c := pool.mem[t];
         c.prev == NULL && c.next == NULL && 0 <= c.timeSlot < N && c.rotation >= 0
    }

    /** operator new, the util_timer constructor and the three assignments of add_timer; the callback
        and the client pointer keep what the memory happened to hold. */
    method NewUtilTimer(rotation: int, ts: int, expire: int) returns (t: int)
      requires Valid() && 0 <= ts < N && rotation >= 0
      modifies pool
      ensures Pending(t)
      ensures t == NextAddress(old(pool.Model())) && t !in old(pool.live)
      ensures pool.Model() == AllocateModel(old(pool.Model()), pool.blockSize)
      ensures pool.live == old(pool.live) + {t}
      ensures InRange(old(pool.mem), old(pool.live)) && InRange(pool.mem, pool.live)
      ensures SameCells(old(pool.mem), pool.mem, old(pool.live))
      ensures var c := pool.mem[t]; c.rotation == rotation && c.timeSlot == ts && c.expire == expire
    {
      hide Shape, Partition, Chain, AllocateModel, NextAddress;
      AllocateKeepsPartition(pool.Model(), pool.blockSize);
      t := pool.Allocate();
      pool.Put(t, pool.At(t).(prev := NULL, next := NULL, rotation := 0, timeSlot := 0));
      pool.Put(t, pool.At(t).(rotation := rotation, timeSlot := ts, expire := expire));
      assert pool.live - {t} == old(pool.live);
      ShapeFrame(old(pool.mem), pool.mem, old(pool.live), slots[..], stamp);
    }

    /** Head insertion into the list of the node's slot. */
    method PushFront(t: int)
      requires Pending(t)
      modifies this`stamp, this`clock, pool`mem, slots
      ensures Valid() && pool.Model() == old(pool.Model())
      ensures InRange(old(pool.mem), pool.live) && InRange(pool.mem, pool.live)
      ensures SameCells(old(pool.mem), pool.mem, pool.live)
    {
      hide Shape, Partition, Chain;
      ghost var mem0, heads0 := pool.mem, slots[..];
      var ts := pool.At(t).timeSlot;
      ShapeHead(pool.mem, pool.live - {t}, slots[..], stamp, ts);
      if slots[ts] != NULL {
        pool.Put(t, pool.At(t).(next := slots[ts]));
        pool.Put(slots[ts], pool.At(slots[ts]).(prev := t));
      }
      slots[ts] := t;
      assert slots[..] == heads0[ts := t];
      assert pool.live - {t} + {t} == pool.live;
      InsertKeepsShape(mem0, pool.mem, pool.live - {t}, heads0, stamp, ts, t, clock);
      stamp, clock := stamp[t := clock], clock + 1;
    }

    method AddTimer(timeout: int) returns (t: int)
      requires Valid()
      modifies this`stamp, this`clock, pool, slots
      ensures Valid()
      ensures timeout < 0 ==> t == NULL && pool.Model() == old(pool.Model()) && pool.mem == old(pool.mem)
      ensures timeout >= 0 ==>
        && t == NextAddress(old(pool.Model())) && t !in old(pool.live)
        && pool.Model() == AllocateModel(old(pool.Model()), pool.blockSize)
        && pool.live == old(pool.live) + {t}
        && Ranks() == old(Ranks())[t := TicksFor(timeout)]
        && SameCells(old(pool.mem), pool.mem, old(pool.live))
    {
      if timeout < 0 {
        return NULL;
      }
      var now: int := *; // time(NULL)
      var ticks := if timeout < SI then 1 else timeout / SI;
      var rotation := ticks / N;
      var ts := SlotFor(curSlot, ticks);
      hide Valid, MemoryPool.Valid, Shape, Partition, AllocateModel, NextAddress, Rank, RankMap, SameCells, Pending;
      t := NewUtilTimer(rotation, ts, now + timeout);
      ghost var mem1 := pool.mem;
      PushFront(t);
      SameCellsCompose(old(pool.mem), mem1, pool.mem, old(pool.live), pool.live);
      RankOfNew(ticks, curSlot, pool.mem[t]);
      RankMapInsert(old(pool.mem), pool.mem, old(pool.live), curSlot, t, ticks);
    }

    /** The assignments a caller of add_timer makes to the new node. */
    method Bind(t: int, userData: int)
      requires Valid() && t in pool.live
      modifies pool`mem
      ensures Valid() && pool.Model() == old(pool.Model()) && Ranks() == old(Ranks())
      ensures pool.mem == old(pool.mem)[t := old(pool.mem)[t].(userData := userData, callback := true)]
    {
      hide Shape, Partition, Chain;
      ghost var mem0 := pool.mem;
      pool.Put(t, pool.At(t).(userData := userData, callback := true));
      RoundsNonNegative(mem0, pool.live, slots[..], stamp);
      PayloadKeepsShape(mem0, pool.mem, pool.live, slots[..], stamp);
    }

    /** The pointer updates of a deletion: as the head of its slot, or between its neighbours. */
    method Unlink(t: int)
      requires Valid() && t in pool.live
      modifies this`stamp, pool`mem, slots
      ensures Loose(t) && pool.Model() == old(pool.Model()) && stamp == old(stamp) - {t}
      ensures InRange(old(pool.mem), pool.live) && InRange(pool.mem, pool.live)
      ensures pool.mem[t] == old(pool.mem)[t]
      ensures SameCells(old(pool.mem), pool.mem, pool.live)
    {
      hide Shape, Partition, Chain;
      ghost var mem0, heads0 := pool.mem, slots[..];
      ShapeNode(pool.mem, pool.live, slots[..], stamp, t);
      var ts := pool.At(t).timeSlot;
      ShapeHead(pool.mem, pool.live, slots[..], stamp, ts);
      if t == slots[ts] {
        slots[ts] := pool.At(slots[ts]).next;
        if slots[ts] != NULL {
          pool.Put(slots[ts], pool.At(slots[ts]).(prev := NULL));
        }
      } else {
        var c := pool.At(t);
        pool.Put(c.prev, pool.At(c.prev).(next := c.next));
        if c.next != NULL {
          pool.Put(c.next, pool.At(c.next).(prev := c.prev));
        }
      }
      UnlinkKeepsShape(mem0, pool.mem, pool.live, heads0, slots[..], stamp, t);
      stamp := stamp - {t};
    }

    /** operator delete of a node outside the lists. */
    method Delete(t: int)
      requires Loose(t)
      modifies pool
      ensures Valid() && pool.Model() == DeallocateModel(old(pool.Model()), t)
      ensures InRange(old(pool.mem), pool.live) && InRange(pool.mem, pool.live)
      ensures SameCells(old(pool.mem), pool.mem, pool.live)
    {
      hide Shape, Partition, Chain;
      pool.Deallocate(t);
      ShapeFrame(old(pool.mem), pool.mem, pool.live, slots[..], stamp);
    }

    method DelTimer(t: int)
      requires Valid() && (t != NULL ==> t in pool.live)
      modifies this`stamp, pool, slots
      ensures Valid()
      ensures t == NULL ==> pool.Model() == old(pool.Model()) && pool.mem == old(pool.mem)
      ensures t != NULL ==>
        && pool.Model() == DeallocateModel(old(pool.Model()), t)
        && Ranks() == old(Ranks()) - {t}
        && SameCells(old(pool.mem), pool.mem, pool.live)
    {
      if t == NULL {
        return;
      }
      hide Valid, MemoryPool.Valid, Shape, Partition, DeallocateModel, Rank, RankMap, SameCells, Loose;
      Unlink(t);
      ghost var mem1 := pool.mem;
      Delete(t);
      LiveAfterDelete(old(pool.Model()), t);
      SameCellsCompose(old(pool.mem), mem1, pool.mem, pool.live, pool.live);
      RankMapRemove(old(pool.mem), pool.mem, old(pool.live), curSlot, t);
    }

    /** tick, on a node with rounds left. */
    method Wait(t: int)
      requires Valid() && t in pool.live && pool.mem[t].rotation > 0
      modifies pool`mem
      ensures Valid() && pool.Model() == old(pool.Model())
      ensures pool.mem == old(pool.mem)[t := old(pool.mem)[t].(rotation := old(pool.mem)[t].rotation - 1)]
    {
      hide Shape, Partition, Chain;
      ghost var mem0 := pool.mem;
      pool.Put(t, pool.At(t).(rotation := pool.At(t).rotation - 1));
      RoundsNonNegative(mem0, pool.live, slots[..], stamp);
      PayloadKeepsShape(mem0, pool.mem, pool.live, slots[..], stamp);
    }

    /** tick, on a node in its last round: the callback, then the deletion. */
    method Fire(t: int)
      requires Valid() && t in pool.live && 0 <= pool.mem[t].userData < host.sockfd.Length
      modifies this`stamp, pool, slots, host`openFds, host`userCount
      ensures Valid() && pool.Model() == DeallocateModel(old(pool.Model()), t)
      ensures pool.live == old(pool.live) - {t} && stamp == old(stamp) - {t}
      ensures SameCells(old(pool.mem), pool.mem, pool.live)
      ensures host.openFds == old(host.openFds) - {host.sockfd[old(pool.mem)[t].userData]}
      ensures host.userCount == old(host.userCount) - 1
    {
      host.CbFunc(pool.At(t).userData);
      hide Valid, MemoryPool.Valid, Shape, Partition, DeallocateModel, SameCells, Loose;
      Unlink(t);
      ghost var mem1 := pool.mem;
      Delete(t);
      LiveAfterDelete(old(pool.Model()), t);
      SameCellsCompose(old(pool.mem), mem1, pool.mem, pool.live, pool.live);
    }

    lemma Facts()
      requires Valid()
      ensures pool.Valid() && slots.Length == N && slots != host.sockfd && slots != host.timer && 0 <= curSlot < N
      ensures Shape(pool.mem, pool.live, slots[..], stamp) && Newest(stamp, clock)
      ensures InRange(pool.mem, pool.live)
    {
    }

    method Advance()
      requires Valid()
      modifies this`curSlot
      ensures Valid() && curSlot == NextSlot(old(curSlot))
    {
      curSlot := NextSlot(curSlot);
    }

    /** One round of tick's loop, at node `tmp`; `next` is the node the loop goes on with. */
    method Visit(tmp: int, ghost mem0: seq<Cell>, ghost live0: set<int>, ghost stamp0: map<int, int>, ghost fired: seq<int>)
      returns (next: int, ghost fires: bool)
      requires Valid() && tmp != NULL
      requires TickState(mem0, live0, stamp0, curSlot, pool.mem, pool.live, stamp, tmp, fired)
      requires Clients(mem0, host.sockfd[..], live0)
      modifies this`stamp, pool, slots, host`openFds, host`userCount
      ensures Valid() && tmp in old(stamp) && old(stamp)[tmp] >= 0
      ensures next != NULL && next in stamp ==> stamp[next] < old(stamp)[tmp]
      ensures InRange(mem0, {tmp}) && 0 <= mem0[tmp].userData < host.sockfd.Length
      ensures TickState(mem0, live0, stamp0, curSlot, pool.mem, pool.live, stamp, next,
                        if fires then fired + [tmp] else fired)
      ensures fires ==>
        && pool.Model() == DeallocateModel(old(pool.Model()), tmp)
        && host.openFds == old(host.openFds) - {host.sockfd[mem0[tmp].userData]}
        && host.userCount == old(host.userCount) - 1
      ensures !fires ==>
        && pool.Model() == old(pool.Model())
        && host.openFds == old(host.openFds) && host.userCount == old(host.userCount)
      ensures host.sockfd[..] == old(host.sockfd[..]) && Clients(mem0, host.sockfd[..], Elems(fired + [tmp]))
    {
      hide Valid, MemoryPool.Valid, Shape, Partition, Chain, Newest, TickState, DeallocateModel, SameCells;
      Facts();
      ghost var mem1, live1, heads1, stamp1 := pool.mem, pool.live, slots[..], stamp;
      TickNode(mem0, live0, stamp0, curSlot, mem1, live1, heads1, stamp1, clock, tmp, fired, host.sockfd[..]);
      next := pool.At(tmp).next;
      if pool.At(tmp).rotation > 0 {
        fires := false;
        Wait(tmp);
        TickWaits(mem0, live0, stamp0, curSlot, mem1, live1, heads1, stamp1, tmp, fired, pool.mem);
      } else {
        fires := true;
        Fire(tmp);
        TickFires(mem0, live0, stamp0, curSlot, mem1, live1, heads1, stamp1, tmp, fired, pool.mem);
      }
    }

    /** tick's loop over the list of the current slot. */
    method Walk() returns (ghost fired: seq<int>)
      requires Valid() && Clients(pool.mem, host.sockfd[..], pool.live)
      modifies this`stamp, pool, slots, host`openFds, host`userCount
      ensures Valid() && host.sockfd[..] == old(host.sockfd[..])
      ensures TickState(old(pool.mem), old(pool.live), old(stamp), curSlot, pool.mem, pool.live, stamp, NULL, fired)
      ensures pool.Model() == DeallocateAll(old(pool.Model()), fired)
      ensures Clients(old(pool.mem), host.sockfd[..], Elems(fired))
      ensures host.openFds == old(host.openFds) - ClosedFds(old(pool.mem), host.sockfd[..], Elems(fired))
      ensures host.userCount == old(host.userCount) - |fired|
    {
      hide Valid, MemoryPool.Valid, Shape, Partition, Newest, TickState, DeallocateModel, DeallocateAll, Elems, ClosedFds, Clients;
      Facts();
      ghost var mem0, live0, stamp0 := pool.mem, pool.live, stamp;
      ghost var fds, open0, m0 := host.sockfd[..], host.openFds, pool.Model();
      fired := [];
      var tmp := slots[curSlot];
      TickStart(mem0, live0, slots[..], stamp0, curSlot);
      NothingFired(mem0, fds, open0, m0);
      while tmp != NULL
        invariant Valid() && fds == host.sockfd[..]
        invariant TickState(mem0, live0, stamp0, curSlot, pool.mem, pool.live, stamp, tmp, fired)
        invariant Clients(mem0, fds, Elems(fired))
        invariant pool.Model() == DeallocateAll(m0, fired)
        invariant host.userCount == old(host.userCount) - |fired|
        invariant host.openFds == open0 - ClosedFds(mem0, fds, Elems(fired))
        decreases if tmp != NULL && tmp in stamp then stamp[tmp] + 1 else 0
      {
        var next, fires := Visit(tmp, mem0, live0, stamp0, fired);
        if fires {
          FireOneMore(mem0, fds, open0, m0, fired, tmp);
          fired := fired + [tmp];
        }
        tmp := next;
      }
    }

    method Tick() returns (ghost fired: seq<int>)
      requires Valid() && Bound()
      modifies this`stamp, this`curSlot, pool, slots, host`openFds, host`userCount
      ensures Valid() && curSlot == NextSlot(old(curSlot))
      ensures host.sockfd[..] == old(host.sockfd[..]) && host.timer[..] == old(host.timer[..])
      ensures Ranks() == TickModel(old(Ranks()))
      ensures Elems(fired) == Due(old(Ranks())) && |Due(old(Ranks()))| == |fired|
      ensures pool.Model() == DeallocateAll(old(pool.Model()), fired)
      ensures pool.live == old(pool.live) - Elems(fired)
      ensures SameClients(old(pool.mem), pool.mem, pool.live)
      ensures Clients(old(pool.mem), host.sockfd[..], Elems(fired))
      ensures host.openFds == old(host.openFds) - ClosedFds(old(pool.mem), host.sockfd[..], Elems(fired))
      ensures host.userCount == old(host.userCount) - |fired|
    {
      hide Valid, MemoryPool.Valid;
      Facts();
      ghost var mem0, live0, heads0, stamp0 := pool.mem, pool.live, slots[..], stamp;
      hide Shape, Partition, Newest, TickState, RankMap, DeallocateModel, DeallocateAll, SameClients, TickModel;
      hide Elems, Due, ClosedFds, NextSlot;
      fired := Walk();
      Facts();
      TickEnds(mem0, live0, heads0, stamp0, curSlot, pool.mem, pool.live, stamp, fired);
      Advance();
    }

    /** One round of the destructor's for loop: `l` is the list of slot `i`. */
    method EmptySlot(i: int, ghost l: seq<int>)
      requires slots.Length == N && 0 <= i < N && pool.Valid()
      requires DoublyLinked(pool.mem, NULL, l) && Elems(l) <= pool.live && NULL !in l
      requires slots[i] == if l == [] then NULL else l[0]
      modifies pool, slots
      ensures pool.Valid() && pool.live == old(pool.live) - Elems(l) && slots[..] == old(slots[..])[i := NULL]
      ensures SameBeyond(old(pool.mem), pool.mem, l)
    {
      hide Partition, Chain, Elems;
      ghost var k, mem0 := 0, pool.mem;
      var tmp := slots[i];
      ElemsPrefix(l, 0);
      while tmp != NULL
        invariant 0 <= k <= |l| && pool.Valid() && slots.Length == N
        invariant tmp == slots[i] == if k < |l| then l[k] else NULL
        invariant slots[..] == old(slots[..])[i := slots[i]]
        invariant pool.live == old(pool.live) - Elems(l[..k])
        invariant SameBeyond(mem0, pool.mem, l[..k])
        decreases |l| - k
      {
        ElemsPrefix(l, k);
        slots[i] := pool.At(tmp).next;
        pool.Deallocate(tmp);
        tmp := slots[i];
        k := k + 1;
      }
      assert l[..k] == l;
    }

    /** time_wheel::~time_wheel(): every node goes back to the pool, once. */
    method Destroy()
      requires Valid()
      modifies pool, slots
      ensures pool.Valid() && pool.live == {} && forall s :: 0 <= s < N ==> slots[s] == NULL
    {
      hide Partition, Chain, Shape, Elems, DoublyLinked;
      ghost var mem0, live0, heads0 := pool.mem, pool.live, slots[..];
      AllFromSlot(mem0, live0, heads0, stamp);
      for i := 0 to N
        invariant pool.Valid() && slots.Length == N
        invariant forall s :: 0 <= s < i ==> slots[s] == NULL
        invariant slots[i..] == heads0[i..]
        invariant pool.live == FromSlot(mem0, live0, i)
        invariant SameOn(mem0, pool.mem, pool.live)
      {
        SlotRemains(mem0, live0, heads0, stamp, clock, i, pool.mem, pool.live);
        ghost var l := ListFrom(mem0, live0, heads0, stamp, clock, heads0[i]);
        assert slots[i] == slots[i..][0] == heads0[i..][0] == heads0[i];
        ghost var mem1, slots1 := pool.mem, slots[..];
        EmptySlot(i, l);
        SameOnLater(mem0, mem1, pool.mem, l, pool.live);
        assert slots[i + 1..] == slots1[i..][1..] == heads0[i + 1..];
      }
    }
  }

  ghost predicate SameBeyond(mem: seq<Cell>, mem': seq<Cell>, cells: seq<int>) {
    |mem| == |mem'| && forall p :: 0 <= p < |mem| && p !in cells ==> mem'[p] == mem[p]
  }

  ghost predicate SameOn(mem: seq<Cell>, mem': seq<Cell>, cells: set<int>) {
    |mem| == |mem'| && forall p :: p in cells && 0 <= p < |mem| ==> mem'[p] == mem[p]
  }

  lemma ElemsPrefix(l: seq<int>, k: nat)
    requires Distinct(l) && k <= |l|
    ensures Elems(l[..0]) == {}
    ensures k < |l| ==> l[k] in Elems(l) && l[k] !in Elems(l[..k]) && Elems(l[..k + 1]) == Elems(l[..k]) + {l[k]}
  {
    if k < |l| { assert l[..k + 1] == l[..k] + [l[k]]; }
  }

  /** The live nodes of slot `i` and later ones. */
  ghost function FromSlot(mem: seq<Cell>, live: set<int>, i: int): set<int> {
    set p | p in live && 0 <= p < |mem| && i <= mem[p].timeSlot < N
  }

  lemma AllFromSlot(mem: seq<Cell>, live: set<int>, heads: seq<int>, stamp: map<int, int>)
    requires Shape(mem, live, heads, stamp)
    ensures InRange(mem, live) && FromSlot(mem, live, 0) == live && FromSlot(mem, live, N) == {}
  {
    forall p | p in live ensures 0 <= p < |mem| && 0 <= mem[p].timeSlot < N {
      ShapeNode(mem, live, heads, stamp, p);
    }
  }

  /** While the earlier slots have been emptied, slot `s` still is the list it was. */
  lemma SlotRemains(mem: seq<Cell>, live: set<int>, heads: seq<int>, stamp: map<int, int>, now: int, s: int,
                    mem': seq<Cell>, live': set<int>)
    requires Shape(mem, live, heads, stamp) && Newest(stamp, now) && 0 <= s < N && InRange(mem, live)
    requires live' == FromSlot(mem, live, s) && SameOn(mem, mem', live')
    ensures heads[s] != NULL ==> heads[s] in live
    ensures var l := ListFrom(mem, live, heads, stamp, now, heads[s]);
      && DoublyLinked(mem', NULL, l) && Elems(l) <= live' && NULL !in l
      && heads[s] == (if l == [] then NULL else l[0])
      && live' - Elems(l) == FromSlot(mem, live, s + 1)
  {
    SlotIsList(mem, live, heads, stamp, now, s);
    hide Shape;
    var l := ListFrom(mem, live, heads, stamp, now, heads[s]);
    forall i | 0 <= i < |l| ensures l[i] in live' && mem'[l[i]] == mem[l[i]] {
      assert l[i] in Elems(l);
    }
    assert NULL !in live';
  }

  lemma SameOnLater(mem: seq<Cell>, mem1: seq<Cell>, mem2: seq<Cell>, l: seq<int>, cells: set<int>)
    requires SameOn(mem, mem1, cells + Elems(l)) && SameBeyond(mem1, mem2, l) && cells !! Elems(l)
    ensures SameOn(mem, mem2, cells)
  {
  }
}
