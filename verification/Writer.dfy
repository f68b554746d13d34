/** http/http_conn.cpp, write(): the vectored writer.  Bytes are identified by the address they are sent
from, so that "the right bytes" does not depend on their values. */
module Writer {
  /** The address of a byte: m_write_buf + i, m_file_address + i or m_response_csv.data() + i. */
  datatype Address = InHeader(i: int) | InFile(i: int) | InCsv(i: int)

  /** What process_write queued behind the header: nothing, a mapped file, a CSV string. */
  datatype Body = NoBody | File(size: nat) | Csv(size: nat) {
    function Size(): nat {
      if NoBody? then 0 else size
    }

    function At(i: int): Address {
      if Csv? then InCsv(i) else InFile(i)
    }
  }

  /** m_iv, m_iv_count, bytes_to_send, bytes_have_send, and what went out so far. */
  datatype State = State(base0: int, len0: int, csv1: bool, base1: int, len1: int, count: nat,
                         toSend: int, have: int, sent: seq<Address>)

  function HeaderRange(lo: int, n: int): (r: seq<Address>)
    ensures |r| == (if n > 0 then n else 0) && forall i :: 0 <= i < |r| ==> r[i] == InHeader(lo + i)
  {
    seq(if n > 0 then n else 0, i => InHeader(lo + i))
  }

  function BodyRange(csv: bool, lo: int, n: int): (r: seq<Address>)
    ensures |r| == (if n > 0 then n else 0)
    ensures forall i :: 0 <= i < |r| ==> r[i] == if csv then InCsv(lo + i) else InFile(lo + i)
  {
    seq(if n > 0 then n else 0, i => if csv then InCsv(lo + i) else InFile(lo + i))
  }

  /** The response: the header, then the body. */
  function Whole(header: nat, body: Body): (r: seq<Address>)
    ensures |r| == header + body.Size()
  {
    HeaderRange(0, header) + BodyRange(body.Csv?, 0, body.Size())
  }

  /** The end of process_write. */
  function Queued(header: nat, body: Body): State {
    State(0, header, body.Csv?, 0, body.Size(), if body.NoBody? then 1 else 2, header + body.Size(), 0, [])
  }

  /** What writev is offered. */
  function Offered(s: State): seq<Address> {
    HeaderRange(s.base0, s.len0) + if s.count == 2 then BodyRange(s.csv1, s.base1, s.len1) else []
  }

  /** writev took `n` bytes: the rest of the loop body. */
  function Advance(s: State, n: nat, header: nat): State
    requires n <= |Offered(s)|
  {
    var have, toSend, sent := s.have + n, s.toSend - n, s.sent + Offered(s)[..n];
    if have >= s.len0 then State(s.base0, 0, false, have - header, toSend, s.count, toSend, have, sent)
    else State(have, s.len0 - have, s.csv1, s.base1, s.len1, s.count, toSend, have, sent)
  }

  // ----- runs: the values writev returned, across suspensions -----

  ghost predicate ValidRun(header: nat, body: Body, counts: seq<nat>)
    decreases |counts|, 0
  {
    counts == [] ||
    (var init := counts[..|counts| - 1];
     && ValidRun(header, body, init)
     && Run(header, body, init).toSend > 0
     && counts[|counts| - 1] <= |Offered(Run(header, body, init))|)
  }

  ghost function Run(header: nat, body: Body, counts: seq<nat>): State
    requires ValidRun(header, body, counts)
    decreases |counts|, 1
  {
    if counts == [] then Queued(header, body)
    else Advance(Run(header, body, counts[..|counts| - 1]), counts[|counts| - 1], header)
  }

  function Sum(counts: seq<nat>): nat {
    if counts == [] then 0 else Sum(counts[..|counts| - 1]) + counts[|counts| - 1]
  }

  /** How many returns of writev left the header partly sent. */
  function InsideHeader(header: nat, counts: seq<nat>): nat {
    if counts == [] then 0
    else InsideHeader(header, counts[..|counts| - 1]) + if 0 < Sum(counts) < header then 1 else 0
  }

  /** Some return of writev left the header sent and the body not. */
  predicate StopsInBody(header: nat, total: nat, counts: seq<nat>) {
    counts != [] && (StopsInBody(header, total, counts[..|counts| - 1]) || header <= Sum(counts) < total)
  }

  /** The condition under which write() is right: at most one return inside the header, and for a CSV
      body none inside the body, where write() goes on at m_file_address. */
  predicate Benign(header: nat, body: Body, counts: seq<nat>) {
    && InsideHeader(header, counts) <= 1
    && (body.Csv? ==> !StopsInBody(header, header + body.Size(), counts))
  }

  /** The iovec describes exactly what is left of the response. */
  ghost predicate OnTrack(header: nat, body: Body, s: State) {
    && s.have >= 0 && s.toSend >= 0 && s.have + s.toSend == header + body.Size()
    && s.count == (if body.NoBody? then 1 else 2)
    && s.sent == Whole(header, body)[..s.have]
    && if s.have < header then
         s.base0 == s.have && s.len0 == header - s.have && s.csv1 == body.Csv? && s.base1 == 0 && s.len1 == body.Size()
       else
         s.len0 == 0 && !s.csv1 && s.base1 == s.have - header && s.len1 == s.toSend && (body.Csv? ==> s.toSend == 0)
  }

  lemma OnTrackOffers(header: nat, body: Body, s: State)
    requires OnTrack(header, body, s)
    ensures Offered(s) == Whole(header, body)[s.have..]
  {
    var w := Whole(header, body);
    assert |Offered(s)| == s.toSend;
    forall i | 0 <= i < s.toSend ensures Offered(s)[i] == w[s.have..][i] {
      assert w[s.have..][i] == w[s.have + i];
    }
  }

  /** The last header byte was not sent and is not going to be. */
  ghost predicate HeaderLost(header: nat, s: State) {
    && s.base0 >= 0 && s.len0 >= 0 && s.base0 + s.len0 < header && s.have >= 0
    && InHeader(header - 1) !in s.sent
  }

  /** A CSV response has moved to the file address. */
  ghost predicate WrongBody(body: Body, s: State) {
    && body.Csv? && s.have >= 0 && s.len0 == 0 && !s.csv1
    && (s.toSend > 0 || exists i :: InFile(i) in s.sent)
  }

  lemma HeaderStaysLost(header: nat, s: State, n: nat)
    requires HeaderLost(header, s) && n <= |Offered(s)|
    ensures HeaderLost(header, Advance(s, n, header))
  {
    var s' := Advance(s, n, header);
    forall i | 0 <= i < |Offered(s)| ensures Offered(s)[i] != InHeader(header - 1) {
    }
    assert forall x :: x in Offered(s)[..n] ==> x in Offered(s);
  }

  lemma BodyStaysWrong(header: nat, body: Body, s: State, n: nat)
    requires WrongBody(body, s) && n <= |Offered(s)|
    ensures WrongBody(body, Advance(s, n, header))
  {
    var s' := Advance(s, n, header);
    if exists i :: InFile(i) in s.sent {
      var i :| InFile(i) in s.sent;
      assert InFile(i) in s'.sent;
    } else if n > 0 {
      assert Offered(s)[0] == InFile(s.base1);
      assert s'.sent[|s.sent|] == Offered(s)[0];
      assert InFile(s.base1) in s'.sent;
    }
  }

  /** One return of writev while the iovec is right. */
  lemma OnTrackStep(header: nat, body: Body, s: State, n: nat)
    requires header > 0 && OnTrack(header, body, s) && s.toSend > 0 && n <= |Offered(s)|
    ensures var s' := Advance(s, n, header);
      if s'.have < header && s.have > 0 then HeaderLost(header, s')
      else if body.Csv? && header <= s'.have && s'.toSend > 0 then WrongBody(body, s')
      else OnTrack(header, body, s')
  {
    OnTrackOffers(header, body, s);
    var w, s' := Whole(header, body), Advance(s, n, header);
    assert s'.sent == w[..s.have] + w[s.have..][..n] == w[..s.have + n];
    if s'.have < header && s.have > 0 {
      forall x | x in s'.sent ensures x != InHeader(header - 1) {
        var i :| 0 <= i < s'.have && w[..s'.have][i] == x;
      }
    }
  }

  /** A run whose sum lies inside the header stopped there. */
  lemma InsideCounts(header: nat, counts: seq<nat>)
    ensures 0 < Sum(counts) < header ==> InsideHeader(header, counts) > 0
    ensures Sum(counts) == 0 ==> InsideHeader(header, counts) == 0
    decreases |counts|
  {
    if counts != [] { InsideCounts(header, counts[..|counts| - 1]); }
  }

  /** bytes_have_send + bytes_to_send is constant, and bytes_have_send is what writev returned. */
  lemma {:induction false} RunConserves(header: nat, body: Body, counts: seq<nat>)
    requires ValidRun(header, body, counts)
    ensures var s := Run(header, body, counts);
      && s.have == Sum(counts) == |s.sent| && s.have + s.toSend == header + body.Size()
      && |Offered(s)| <= s.toSend
    decreases |counts|
  {
    if counts != [] { RunConserves(header, body, counts[..|counts| - 1]); }
  }

  ghost predicate Stands(header: nat, body: Body, benign: bool, s: State) {
    if benign then OnTrack(header, body, s) else HeaderLost(header, s) || WrongBody(body, s)
  }

  lemma StandsStep(header: nat, body: Body, benign: bool, s: State, n: nat)
    requires header > 0 && Stands(header, body, benign, s) && s.toSend > 0 && n <= |Offered(s)|
    ensures var s' := Advance(s, n, header);
      Stands(header, body,
             benign && !(0 < s.have && s'.have < header) && !(body.Csv? && header <= s'.have && s'.toSend > 0),
             s')
  {
    hide OnTrack, HeaderLost, WrongBody, Whole, Offered;
    if benign {
      OnTrackStep(header, body, s, n);
    } else if HeaderLost(header, s) {
      HeaderStaysLost(header, s, n);
    } else {
      BodyStaysWrong(header, body, s, n);
    }
  }

  /** Where a run stands: on track as long as it is benign, beyond repair after that. */
  lemma {:induction false} RunStands(header: nat, body: Body, counts: seq<nat>)
    requires header > 0 && ValidRun(header, body, counts)
    ensures Stands(header, body, Benign(header, body, counts), Run(header, body, counts))
    decreases |counts|
  {
    if counts == [] {
      assert Whole(header, body)[..0] == [];
    } else {
      RunStandsAfter(header, body, counts);
    }
  }

  lemma {:induction false} RunStandsAfter(header: nat, body: Body, counts: seq<nat>)
    requires header > 0 && ValidRun(header, body, counts) && counts != []
    ensures Stands(header, body, Benign(header, body, counts), Run(header, body, counts))
    decreases |counts|, 0
  {
    hide Stands, Whole;
    var init, n := counts[..|counts| - 1], counts[|counts| - 1];
    RunStands(header, body, init);
    RunConserves(header, body, init);
    RunConserves(header, body, counts);
    InsideCounts(header, init);
    StandsStep(header, body, Benign(header, body, init), Run(header, body, init), n);
  }

  /** While a run is benign, what is out and what is on offer make up the response. */
  lemma PrefixSent(header: nat, body: Body, counts: seq<nat>)
    requires header > 0 && ValidRun(header, body, counts) && Benign(header, body, counts)
    ensures var s, w := Run(header, body, counts), Whole(header, body);
      0 <= s.have <= |w| && s.toSend == |w| - s.have && s.sent == w[..s.have] && Offered(s) == w[s.have..]
  {
    hide HeaderLost, WrongBody, Whole, Offered, Benign;
    RunStands(header, body, counts);
    OnTrackOffers(header, body, Run(header, body, counts));
  }

  /** A run that write() takes for complete has sent the response if and only if it was benign. */
  lemma CompleteIffBenign(header: nat, body: Body, counts: seq<nat>)
    requires header > 0 && ValidRun(header, body, counts) && Run(header, body, counts).toSend <= 0
    ensures Run(header, body, counts).sent == Whole(header, body) <==> Benign(header, body, counts)
  {
    hide Offered, Benign;
    var s, w := Run(header, body, counts), Whole(header, body);
    RunStands(header, body, counts);
    if Benign(header, body, counts) {
      assert w[..|w|] == w;
    } else if HeaderLost(header, s) {
      assert w[header - 1] == InHeader(header - 1);
    } else {
      var i :| InFile(i) in s.sent;
      assert forall k :: 0 <= k < |w| ==> w[k] != InFile(i);
    }
  }

  /** Two returns inside a header of 100 bytes: its last ten bytes are never sent, and the last ten of the
      file are sent twice instead. */
  lemma TwoStopsInHeader()
    ensures var counts := [10, 10, 120, 10];
      && ValidRun(100, File(50), counts) && Run(100, File(50), counts).toSend == 0
      && Run(100, File(50), counts).sent != Whole(100, File(50))
  {
    hide Whole, Run, ValidRun, InsideHeader;
    var b := File(50);
    var c0: seq<nat> := [];
    var c1, c2, c3, c4 := c0 + [10], c0 + [10] + [10], c0 + [10] + [10] + [120], c0 + [10] + [10] + [120] + [10];
    assert ValidRun(100, b, c0) && Run(100, b, c0) == Queued(100, b) by { RunOfNothing(100, b); }
    RunAppend(100, b, c0, 10);
    RunAppend(100, b, c1, 10);
    RunAppend(100, b, c2, 120);
    RunAppend(100, b, c3, 10);
    TwoStops();
    assert c4 == [10, 10, 120, 10];
    CompleteIffBenign(100, b, c4);
  }

  lemma RunOfNothing(header: nat, body: Body)
    ensures ValidRun(header, body, []) && Run(header, body, []) == Queued(header, body)
  {
  }

  lemma TwoStops()
    ensures InsideHeader(100, [10, 10, 120, 10]) == 2
  {
    assert [10, 10, 120, 10][..3] == [10, 10, 120] && [10, 10, 120][..2] == [10, 10];
    assert [10, 10][..1] == [10] && [10][..0] == [];
  }

  // ----- when nothing is on offer -----

  /** The iovec once the header counts as sent. */
  ghost predicate Rebased(header: nat, body: Body, s: State) {
    && s.len0 >= 0 && s.count == (if body.NoBody? then 1 else 2)
    && (s.len0 == 0 ==> !s.csv1 && s.base1 == s.have - header && s.len1 == s.toSend && s.have >= 0)
  }

  lemma {:induction false} RunRebased(header: nat, body: Body, counts: seq<nat>)
    requires header > 0 && ValidRun(header, body, counts)
    ensures Rebased(header, body, Run(header, body, counts))
    decreases |counts|
  {
    if counts != [] {
      RunRebased(header, body, counts[..|counts| - 1]);
      RunConserves(header, body, counts);
    }
  }

  /** With bytes left, nothing is on offer exactly when the header counts as sent and no body was queued
      behind it; that takes a run that is not benign. */
  lemma OffersUnlessStuck(header: nat, body: Body, counts: seq<nat>)
    requires header > 0 && ValidRun(header, body, counts) && Run(header, body, counts).toSend > 0
    ensures var s := Run(header, body, counts);
      && (Offered(s) == [] <==> body.NoBody? && s.len0 == 0)
      && (Offered(s) == [] ==> !Benign(header, body, counts))
  {
    hide Benign, Run, ValidRun, Whole;
    RunRebased(header, body, counts);
    if Benign(header, body, counts) { PrefixSent(header, body, counts); }
  }

  /** From there on writev returns 0 and changes nothing: the run never completes. */
  lemma {:induction false} StuckForGood(header: nat, body: Body, counts: seq<nat>, more: seq<nat>)
    requires header > 0 && ValidRun(header, body, counts + more) && ValidRun(header, body, counts)
    requires Run(header, body, counts).toSend > 0 && Offered(Run(header, body, counts)) == []
    ensures Run(header, body, counts + more) == Run(header, body, counts)
    decreases |more|
  {
    if more == [] {
      assert counts + more == counts;
    } else {
      var init, n := more[..|more| - 1], more[|more| - 1];
      assert (counts + more)[..|counts + more| - 1] == counts + init;
      StuckForGood(header, body, counts, init);
      OffersUnlessStuck(header, body, counts);
      RunRebased(header, body, counts);
      NothingTaken(header, body, Run(header, body, counts), n);
    }
  }

  lemma NothingTaken(header: nat, body: Body, s: State, n: nat)
    requires Rebased(header, body, s) && s.len0 == 0 && Offered(s) == [] && n <= |Offered(s)|
    ensures Advance(s, n, header) == s
  {
    assert s.sent + [] == s.sent;
  }

  /** A page of 100 bytes without a body behind it, stopped at 40 and at 80: 20 bytes are left for good. */
  lemma PageGetsStuck()
    ensures ValidRun(100, NoBody, [40, 40])
    ensures var s := Run(100, NoBody, [40, 40]); s.toSend == 20 && Offered(s) == []
  {
    hide Run, ValidRun;
    var c0: seq<nat> := [];
    RunOfNothing(100, NoBody);
    RunAppend(100, NoBody, c0, 40);
    RunAppend(100, NoBody, c0 + [40], 40);
    assert c0 + [40] + [40] == [40, 40];
    assert Run(100, NoBody, [40, 40]).len0 == 0;
  }

  // ----- write() -----

  /** What the socket does with a writev: it has room for `n` bytes, it is full, it is broken. */
  datatype Socket = Room(n: nat) | Full | Broken

  /** How a call of write() ends; Spinning stands for not at all: with nothing on offer and bytes left,
      writev returns 0 for ever. */
  datatype End = Finished | Suspended | Failed | Spinning

  datatype Interest = EPOLLIN | EPOLLOUT

  function Taken(s: State, n: nat): nat {
    if n <= |Offered(s)| then n else |Offered(s)|
  }

  /** One call of write(): the counts writev returned, and how the call ended. */
  function Drive(s: State, header: nat, socket: seq<Socket>): (seq<nat>, End)
    decreases |socket|
  {
    if Offered(s) == [] then ([], Spinning)
    else if socket == [] || socket[0].Full? then ([], Suspended)
    else if socket[0].Broken? then ([], Failed)
    else
      var n := Taken(s, socket[0].n);
      var s' := Advance(s, n, header);
      if s'.toSend <= 0 then ([n], Finished)
      else var (counts, end) := Drive(s', header, socket[1..]); ([n] + counts, end)
  }

  class ResponseWriter {
    var ivBase0: int
    var ivLen0: int
    var ivCsv1: bool
    var ivBase1: int
    var ivLen1: int
    var ivCount: nat
    var bytesToSend: int
    var bytesHaveSend: int
    var writeIdx: nat
    var linger: bool
    var mapped: bool
    var interest: Interest
    /** What went out, what was queued behind the header, and what writev has returned since. */
    ghost var sent: seq<Address>
    ghost var body: Body
    ghost var counts: seq<nat>

    constructor ()
      ensures bytesToSend == bytesHaveSend == writeIdx == 0 && !linger
    {
      bytesToSend, bytesHaveSend, linger, writeIdx := 0, 0, false, 0;
    }

    ghost function Now(): State reads this {
      State(ivBase0, ivLen0, ivCsv1, ivBase1, ivLen1, ivCount, bytesToSend, bytesHaveSend, sent)
    }

    /** The fields are those of the run so far. */
    ghost predicate Sending() reads this {
      ValidRun(writeIdx, body, counts) && Now() == Run(writeIdx, body, counts)
    }

    /** http_conn::init(), as far as write() is concerned; m_iv and m_iv_count are not touched. */
    method Init()
      modifies this`bytesToSend, this`bytesHaveSend, this`writeIdx, this`linger
      ensures bytesToSend == bytesHaveSend == writeIdx == 0 && !linger
    {
      bytesToSend, bytesHaveSend, linger, writeIdx := 0, 0, false, 0;
    }

    /** The bookkeeping behind a writev that returned `temp`. */
    method Account(temp: nat)
      requires temp <= |Offered(Now())|
      modifies this`ivBase0, this`ivLen0, this`ivCsv1, this`ivBase1, this`ivLen1, this`bytesToSend, this`bytesHaveSend, this`sent
      ensures Now() == Advance(old(Now()), temp, writeIdx)
    {
      sent := sent + Offered(Now())[..temp];
      bytesHaveSend := bytesHaveSend + temp;
      bytesToSend := bytesToSend - temp;
      if bytesHaveSend >= ivLen0 {
        ivLen0 := 0;
        ivCsv1, ivBase1 := false, bytesHaveSend - writeIdx;
        ivLen1 := bytesToSend;
      } else {
        ivBase0 := bytesHaveSend;
        ivLen0 := ivLen0 - bytesHaveSend;
      }
    }

    /** One writev into a socket with room for `room` bytes. */
    method Transfer(room: nat)
      requires Sending() && bytesToSend > 0
      modifies this`ivBase0, this`ivLen0, this`ivCsv1, this`ivBase1, this`ivLen1, this`bytesToSend, this`bytesHaveSend, this`sent, this`counts
      ensures Sending() && counts == old(counts) + [Taken(old(Now()), room)]
      ensures Now() == Advance(old(Now()), Taken(old(Now()), room), writeIdx)
    {
      hide ValidRun, Run, Offered, Taken, Advance;
      var length := (if ivLen0 > 0 then ivLen0 else 0) + if ivCount == 2 && ivLen1 > 0 then ivLen1 else 0;
      var temp: nat := if room <= length then room else length;
      TakenIs(Now(), room);
      RunAppend(writeIdx, body, counts, temp);
      Account(temp);
      counts := counts + [temp];
    }

    /** Whether the iovec is empty, so that writev returns 0. */
    method NothingOnOffer() returns (b: bool)
      requires Sending() && writeIdx > 0 && bytesToSend > 0
      ensures b <==> Offered(Now()) == []
      ensures b ==> body.NoBody? && !Benign(writeIdx, body, counts)
    {
      hide Benign, Run, ValidRun, Offered;
      TakenIs(Now(), 0);
      OffersUnlessStuck(writeIdx, body, counts);
      b := (if ivLen0 > 0 then ivLen0 else 0) + (if ivCount == 2 && ivLen1 > 0 then ivLen1 else 0) == 0;
    }

    /** http/http_conn.cpp:622-660.  The writev calls of this call meet `socket`, which is full after that. */
    method Write(socket: seq<Socket>) returns (ok: bool, ghost end: End)
      requires bytesToSend == 0 || (Sending() && writeIdx > 0)
      modifies this
      ensures body == old(body)
      ensures old(bytesToSend) == 0 ==> ok && end.Finished? && counts == old(counts) && sent == old(sent)
      ensures old(bytesToSend) > 0 ==>
        && ValidRun(old(writeIdx), body, counts) && sent == Run(old(writeIdx), body, counts).sent
        && counts == old(counts) + Drive(old(Now()), old(writeIdx), socket).0
        && end == Drive(old(Now()), old(writeIdx), socket).1
        && (end.Suspended? ==> ok) && (end.Failed? ==> !ok) && (end.Finished? ==> ok == old(linger))
        && mapped == (old(mapped) && !end.Finished? && !end.Failed?)
      ensures end.Suspended? || end.Spinning? ==> Sending() && bytesToSend > 0 && writeIdx == old(writeIdx) && linger == old(linger)
      ensures end.Suspended? ==> interest == EPOLLOUT && Offered(Now()) != []
      ensures end.Spinning? ==> Offered(Now()) == [] && body.NoBody? && !Benign(writeIdx, body, counts)
      ensures end.Failed? ==> bytesToSend > 0
      ensures end.Finished? ==> interest == EPOLLIN && (ok ==> bytesToSend == bytesHaveSend == writeIdx == 0 && !linger)
      ensures end.Finished? && old(Sending()) && old(writeIdx) > 0 ==>
        (sent == Whole(old(writeIdx), body) <==> Benign(old(writeIdx), body, counts))
    {
      hide Benign, Whole, Offered, Advance, Taken, Run, ValidRun, Drive;
      ghost var header := writeIdx;
      if bytesToSend == 0 {
        interest := EPOLLIN;
        end := Finished;
        if header > 0 && Sending() { CompleteIffBenign(header, body, counts); }
        Init();
        return true, end;
      }
      RunConserves(header, body, counts);
      var i := 0;
      while true
        invariant 0 <= i <= |socket| && bytesToSend > 0
        invariant body == old(body) && writeIdx == header && linger == old(linger) && mapped == old(mapped)
        invariant Sending()
        invariant counts + Drive(Now(), header, socket[i..]).0 == old(counts) + Drive(old(Now()), header, socket).0
        invariant Drive(Now(), header, socket[i..]).1 == Drive(old(Now()), header, socket).1
        decreases |socket| - i
      {
        DriveStops(Now(), header, socket[i..]);
        var stuck := NothingOnOffer();
        if stuck {
          return false, Spinning;
        }
        if i == |socket| || socket[i].Full? {
          interest := EPOLLOUT;
          return true, Suspended;
        }
        if socket[i].Broken? {
          mapped := false;
          return false, Failed;
        }
        DriveStep(Now(), header, socket[i..]);
        assert socket[i..][1..] == socket[i + 1..];
        Transfer(socket[i].n);
        i := i + 1;
        if bytesToSend <= 0 {
          mapped := false;
          interest := EPOLLIN;
          end := Finished;
          CompleteIffBenign(header, body, counts);
          if linger {
            Init();
            return true, end;
          } else {
            return false, end;
          }
        }
      }
    }
  }

  lemma TakenIs(s: State, room: nat)
    ensures var length := (if s.len0 > 0 then s.len0 else 0) + if s.count == 2 && s.len1 > 0 then s.len1 else 0;
      && |Offered(s)| == length
      && Taken(s, room) == (if room <= length then room else length) && Taken(s, room) <= |Offered(s)|
  {
  }

  lemma DriveStops(s: State, header: nat, socket: seq<Socket>)
    ensures Offered(s) == [] ==> Drive(s, header, socket) == ([], Spinning)
    ensures Offered(s) != [] && (socket == [] || socket[0].Full?) ==> Drive(s, header, socket) == ([], Suspended)
    ensures Offered(s) != [] && socket != [] && socket[0].Broken? ==> Drive(s, header, socket) == ([], Failed)
  {
  }

  lemma DriveStep(s: State, header: nat, socket: seq<Socket>)
    requires socket != [] && socket[0].Room? && Offered(s) != []
    ensures var n := Taken(s, socket[0].n);
      var s' := Advance(s, n, header);
      Drive(s, header, socket) ==
      if s'.toSend <= 0 then ([n], Finished)
      else ([n] + Drive(s', header, socket[1..]).0, Drive(s', header, socket[1..]).1)
  {
  }

  lemma RunAppend(header: nat, body: Body, counts: seq<nat>, n: nat)
    requires ValidRun(header, body, counts) && Run(header, body, counts).toSend > 0
    requires n <= |Offered(Run(header, body, counts))|
    ensures ValidRun(header, body, counts + [n])
    ensures Run(header, body, counts + [n]) == Advance(Run(header, body, counts), n, header)
  {
    assert (counts + [n])[..|counts|] == counts;
  }
}
