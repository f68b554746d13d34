/** What the event loop does to one connection, from the last event that concerns it. */
module Activity {
  import opened Server

  lemma {:induction false} HandledAppend(idle: map<int, int>, a: seq<Event>, b: seq<Event>, edge: bool)
    ensures HandledAll(idle, a + b, edge) == HandledAll(HandledAll(idle, a, edge), b, edge)
    decreases |b|
  {
    hide Handled;
    if b == [] {
      assert a + b == a;
    } else {
      var init := b[..|b| - 1];
      assert (a + b)[..|a + b| - 1] == a + init;
      HandledAppend(idle, a, init, edge);
    }
  }

  lemma {:induction false} RoundsAppend(idle: map<int, int>, a: seq<seq<Event>>, b: seq<seq<Event>>, edge: bool)
    ensures Rounds(idle, a + b, edge) == Rounds(Rounds(idle, a, edge), b, edge)
    decreases |b|
  {
    hide Round;
    if b == [] {
      assert a + b == a;
    } else {
      var init := b[..|b| - 1];
      assert (a + b)[..|a + b| - 1] == a + init;
      RoundsAppend(idle, a, init, edge);
    }
  }

  lemma {:induction false} AlarmsAppend(a: seq<seq<Event>>, b: seq<seq<Event>>)
    ensures Alarms(a + b) == Alarms(a) + Alarms(b)
    decreases |b|
  {
    if b == [] {
      assert a + b == a;
    } else {
      var init := b[..|b| - 1];
      assert (a + b)[..|a + b| - 1] == a + init;
      AlarmsAppend(a, init);
    }
  }

  predicate Quiet(batches: seq<seq<Event>>, fd: int) {
    forall b, i :: 0 <= b < |batches| && 0 <= i < |batches[b]| ==> !Mentions(batches[b][i], fd)
  }

  predicate QuietRound(events: seq<Event>, fd: int) {
    forall i :: 0 <= i < |events| ==> !Mentions(events[i], fd)
  }

  /** A descriptor that is not open stays so while nothing mentions it. */
  lemma {:induction false} StaysClosed(idle: map<int, int>, batches: seq<seq<Event>>, edge: bool, fd: int)
    requires fd !in idle && Quiet(batches, fd)
    ensures fd !in Rounds(idle, batches, edge)
    decreases |batches|
  {
    if batches != [] {
      var init, last := batches[..|batches| - 1], batches[|batches| - 1];
      assert Quiet(init, fd) by {
        forall b, i | 0 <= b < |init| && 0 <= i < |init[b]| ensures !Mentions(init[b][i], fd) {
          assert !Mentions(batches[b][i], fd);
        }
      }
      StaysClosed(idle, init, edge, fd);
      HandledFrame(Rounds(idle, init, edge), last, edge, fd);
    }
  }

  /** The state right behind event `e`, in the middle of a round. */
  function Before(idle: map<int, int>, before: seq<seq<Event>>, pre: seq<Event>, edge: bool): map<int, int> {
    HandledAll(Rounds(idle, before, edge), pre, edge)
  }

  /** From the entry of a connection behind an event to its fate at the end of the run. */
  lemma FromHere(idle: map<int, int>, before: seq<seq<Event>>, pre: seq<Event>, e: Event, post: seq<Event>,
                 after: seq<seq<Event>>, edge: bool, fd: int)
    requires QuietRound(post, fd) && Quiet(after, fd)
    ensures var now := Handled(Before(idle, before, pre, edge), e, edge);
      var final, alarms := Rounds(idle, before + [pre + [e] + post] + after, edge), Alarms([pre + [e] + post] + after);
      && (fd !in now ==> fd !in final)
      && (fd in now && now[fd] == 15 ==>
           if alarms <= 15 then fd in final && final[fd] == 15 - alarms else fd !in final)
  {
    hide Handled, Rounds, Alarms;
    var round := pre + [e] + post;
    var start := Rounds(idle, before, edge);
    var now := Handled(Before(idle, before, pre, edge), e, edge);
    HandledAppend(start, pre + [e], post, edge);
    assert (pre + [e])[..|pre|] == pre;
    assert HandledAll(start, pre + [e], edge) == now;
    HandledFrame(now, post, edge, fd);
    var next := Round(start, round, edge);
    RoundsAppend(idle, before, [round] + after, edge);
    RoundsAppend(start, [round], after, edge);
    AlarmsAppend([round], after);
    OneRoundOf(start, round, edge);
    assert before + [round] + after == before + ([round] + after);
    if fd in now && now[fd] == 15 {
      IdleTimeout(next, after, edge, fd);
    } else if fd !in now {
      StaysClosed(next, after, edge, fd);
    }
  }

  lemma OneRoundOf(idle: map<int, int>, round: seq<Event>, edge: bool)
    ensures Rounds(idle, [round], edge) == Round(idle, round, edge)
    ensures Alarms([round]) == if Alarmed(round) then 1 else 0
  {
    assert [round][..0] == [];
  }

  // ----- accepting -----

  /** How many of the connections waiting at the listening socket are taken, with `users` open already: one, or
      all when edge-triggered, as long as there are fewer than 65536. */
  function Takes(users: nat, waiting: nat, edge: bool): (n: nat)
    ensures n <= waiting
  {
    var free: nat := if users < 65536 then 65536 - users else 0;
    var wanted: nat := if edge || waiting == 0 then waiting else 1;
    if wanted < free then wanted else free
  }

  /** Exactly those are open afterwards, with fifteen ticks to go; the others are as they were. */
  lemma {:induction false} AcceptedExactly(idle: map<int, int>, conns: seq<int>, edge: bool)
    requires FeasibleAccept(idle, conns, edge)
    ensures var taken, after := conns[..Takes(|idle|, |conns|, edge)], Accepted(idle, conns, edge);
      && (forall fd :: fd in after <==> fd in idle || fd in taken)
      && (forall fd :: fd in taken ==> fd !in idle && after[fd] == 15)
      && (forall fd :: fd in idle ==> after[fd] == idle[fd])
    decreases |conns|
  {
    if conns != [] && |idle| < 65536 {
      var more, rest := idle[conns[0] := 15], conns[1..];
      assert more.Keys == idle.Keys + {conns[0]};
      assert |more| == |more.Keys| == |idle| + 1;
      if edge {
        AcceptedExactly(more, rest, edge);
        OneMoreTaken(|idle|, conns);
      } else {
        assert conns[..1] == [conns[0]];
      }
    }
  }

  lemma OneMoreTaken(users: nat, conns: seq<int>)
    requires conns != [] && users < 65536
    ensures var n, rest := Takes(users, |conns|, true), conns[1..];
      n > 0 && Takes(users + 1, |rest|, true) == n - 1 && conns[..n] == [conns[0]] + rest[..n - 1]
  {
  }

  // ----- the last event decides -----

  /** A connection whose last event was a successful read or write, or its accept, is there through the next
      fifteen alarms, one tick nearer to its end with each, and gone from the sixteenth on. */
  lemma LastActive(idle: map<int, int>, before: seq<seq<Event>>, pre: seq<Event>, e: Event, post: seq<Event>,
                   after: seq<seq<Event>>, edge: bool, fd: int)
    requires QuietRound(post, fd) && Quiet(after, fd)
    requires e == Readable(fd, true) || e == Writable(fd, true)
          || (var now := Before(idle, before, pre, edge);
              e.Incoming? && FeasibleAccept(now, e.conns, edge) && fd in e.conns[..Takes(|now|, |e.conns|, edge)])
    ensures var final, alarms := Rounds(idle, before + [pre + [e] + post] + after, edge), Alarms([pre + [e] + post] + after);
      if alarms <= 15 then fd in final && final[fd] == 15 - alarms else fd !in final
  {
    FromHere(idle, before, pre, e, post, after, edge, fd);
    if e.Incoming? { AcceptedExactly(Before(idle, before, pre, edge), e.conns, edge); }
  }

  /** One whose last event was a failed read or write or a hang-up is closed. */
  lemma LastFailed(idle: map<int, int>, before: seq<seq<Event>>, pre: seq<Event>, e: Event, post: seq<Event>,
                   after: seq<seq<Event>>, edge: bool, fd: int)
    requires QuietRound(post, fd) && Quiet(after, fd)
    requires e == Readable(fd, false) || e == Writable(fd, false) || e == HangUp(fd)
    ensures fd !in Rounds(idle, before + [pre + [e] + post] + after, edge)
  {
    FromHere(idle, before, pre, e, post, after, edge, fd);
  }

  /** Of the two signals, SIGALRM takes a tick from every connection and SIGTERM ends the loop. */
  lemma SignalsMean(idle: map<int, int>, alarm: bool, term: bool, edge: bool, fd: int)
    requires fd in idle && idle[fd] > 0
    ensures var after := Rounds(idle, [[Signals(alarm, term)]], edge);
      fd in after && after[fd] == idle[fd] - (if alarm then 1 else 0)
    ensures Terminated([Signals(alarm, term)]) <==> term
  {
    var round := [Signals(alarm, term)];
    OneRoundOf(idle, round, edge);
    assert round[0].Signals? && round[..0] == [];
    assert HandledAll(idle, round, edge) == idle;
    if alarm { assert Alarmed(round); }
    if term { assert Terminated(round); }
  }
}
