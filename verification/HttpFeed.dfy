/** http/http_conn.cpp: process_read called again and again while the bytes of a request arrive, and
what the division of the bytes into reads does to the result. */
module HttpFeed {
  import opened CStrings
  import opened HttpParser

  /** A connection between two reads: the line in progress starts at buffer position `base`. */
  datatype Conn =
    | InHead(request: Request, rest: string, base: nat)
    | InBody(request: Request, tail: string, scanned: nat, base: nat)

  const FRESH := InHead(NEW_REQUEST, "", 0)

  /** The outcome of process_read: wait for more, answer 400, call do_request, undefined behaviour. */
  datatype Outcome =
    | NoRequest(conn: Conn)
    | BadRequest
    | Ready(request: Request, text: Option<string>)
    | Undefined

  predicate ConnOk(c: Conn) {
    match c
    case InHead(r, rest, _) => r.phase != Content && ParseHead(r, rest) == Pending(r, rest)
    case InBody(_, tail, scanned, _) => scanned <= |tail|
  }

  function AfterBody(r: Request, b: Body): Outcome {
    match b
    case Done(text) => Ready(r, Some(text))
    case Waiting(tail, scanned, base) => NoRequest(InBody(r, tail, scanned, base))
    case Overrun => Undefined
  }

  function AfterHead(h: Head, end: nat): Outcome
    requires |h.rest| <= end
  {
    match h
    case Pending(r, rest) => NoRequest(InHead(r, rest, end - |rest|))
    case Rejected(_) => BadRequest
    case Completed(r, _) => Ready(r, None)
    case Crashed(_) => Undefined
    case AtBody(r, rest) => AfterBody(r, ParseBody(rest, 0, end - |rest|, r.length))
  }

  /** process_read, on the bytes that are there. */
  function Process(c: Conn): Outcome
    requires ConnInv(c)
  {
    match c
    case InHead(r, rest, base) => AfterHead(ParseHead(r, rest), base + |rest|)
    case InBody(r, tail, scanned, base) => AfterBody(r, ParseBody(tail, scanned, base, r.length))
  }

  predicate ConnInv(c: Conn) {
    match c
    case InHead(r, _, _) => r.phase != Content
    case InBody(_, tail, scanned, _) => scanned <= |tail|
  }

  function Append(c: Conn, more: string): (c': Conn)
    ensures ConnInv(c) ==> ConnInv(c')
  {
    match c
    case InHead(r, rest, base) => InHead(r, rest + more, base)
    case InBody(r, tail, scanned, base) => InBody(r, tail + more, scanned, base)
  }

  /** One read of `more` bytes and the process_read that follows it. */
  function Receive(c: Conn, more: string): Outcome
    requires ConnOk(c)
  {
    Process(Append(c, more))
  }

  lemma {:induction false} PendingIsStable(r: Request, s: string)
    requires r.phase != Content
    ensures var h := ParseHead(r, s); h.Pending? ==> ParseHead(h.request, h.rest) == h
    decreases |s|
  {
    hide OnLine;
    var l := Scan(s, 0);
    if l.LineOk? {
      var step := OnLine(r, s[..l.at]);
      if step.Next? && step.request.phase != Content { PendingIsStable(step.request, s[l.at + 2..]); }
    }
  }

  lemma ReceiveOk(c: Conn, more: string)
    requires ConnOk(c)
    ensures var o := Receive(c, more); o.NoRequest? ==> ConnOk(o.conn)
  {
    if c.InHead? { PendingIsStable(c.request, c.rest + more); }
  }

  /** Reads arriving one after the other, up to the first outcome other than NO_REQUEST. */
  function Feed(c: Conn, chunks: seq<string>): Outcome
    requires ConnOk(c)
    decreases |chunks|
  {
    if chunks == [] then NoRequest(c) else
    ReceiveOk(c, chunks[0]);
    var o := Receive(c, chunks[0]);
    if o.NoRequest? then Feed(o.conn, chunks[1..]) else o
  }

  function Concat(chunks: seq<string>): string {
    if chunks == [] then "" else chunks[0] + Concat(chunks[1..])
  }

  // ----- request line and headers -----

  /** However the bytes are divided into reads: unless they reach into a body, the outcome, the parsed
      request and the state left for later reads are those of one single read. */
  lemma {:induction false} SplitInvariant(c: Conn, chunks: seq<string>)
    requires ConnOk(c) && c.InHead?
    requires !ParseHead(c.request, c.rest + Concat(chunks)).AtBody?
    ensures Feed(c, chunks) == Receive(c, Concat(chunks))
    decreases |chunks|
  {
    hide ParseHead, ParseBody, Scan;
    if chunks == [] {
      assert c.rest + "" == c.rest;
    } else {
      var first, later := chunks[0], Concat(chunks[1..]);
      ParseHeadResumes(c.request, c.rest + first, later);
      assert c.rest + first + later == c.rest + Concat(chunks);
      ReceiveOk(c, first);
      var o := Receive(c, first);
      if o.NoRequest? {
        SplitInvariant(o.conn, chunks[1..]);
      }
    }
  }

  // ----- bodies -----

  /** With `k` bytes of the body there, the parse_line that follows an incomplete parse_content does not
      move: there is nothing to scan, or the first byte already stops the scanner. */
  predicate StaysPut(body: string, k: nat)
    requires k <= |body|
  {
    k == 0 || body[0] == '\n' || (body[0] == '\r' && (k == 1 || body[1] != '\n'))
  }

  /** Whenever a read ends inside the body, the scanner stays put.  `sofar` bytes came before. */
  predicate WellSplit(head: nat, body: string, sofar: nat, chunks: seq<string>)
    decreases |chunks|
  {
    chunks == [] ||
    (var n := sofar + |chunks[0]|;
     && (head <= n < head + |body| ==> StaysPut(body, n - head))
     && WellSplit(head, body, n, chunks[1..]))
  }

  /** The bytes `s` behind the head start with a body of `length` bytes.  It is delivered if a read reaches
      its end while the scanner has stayed put, or if the scanner moved once, by less than a line, and the
      very next read brings as many bytes beyond the body as the scanner has moved by. */
  predicate Arrives(head: nat, s: string, length: nat, sofar: nat, chunks: seq<string>)
    requires length <= |s|
    decreases |chunks|
  {
    && chunks != []
    && var n := sofar + |chunks[0]|;
       if n < head then Arrives(head, s, length, n, chunks[1..])
       else if n >= head + length then true
       else if StaysPut(s, n - head) then Arrives(head, s, length, n, chunks[1..])
       else
         var l := Scan(s[..n - head], 0);
         !l.LineOk? && |chunks| > 1 && n + |chunks[1]| >= head + length + l.at
  }

  /** The body is not delivered: the connection waits, or do_request gets `length` bytes from further on,
      or those would end outside the buffer. */
  ghost predicate Misread(head: nat, r: Request, s: string, length: nat, o: Outcome)
    requires length <= |s|
  {
    || o.NoRequest?
    || (o.Undefined? && head + |s| >= READ_BUFFER_SIZE)
    || (exists d :: 0 < d <= |s| - length && o == ReadyWith(r, s, d, length))
  }

  /** do_request gets exactly the body if `arrives`, and otherwise the body is misread. */
  ghost predicate Framed(arrives: bool, head: nat, r: Request, s: string, o: Outcome)
    requires 0 < r.length <= |s|
  {
    if arrives then o == ReadyWith(r, s, 0, r.length) else Misread(head, r, s, r.length, o)
  }

  /** do_request with the `length` bytes from offset `d` on. */
  function ReadyWith(r: Request, s: string, d: nat, length: nat): Outcome
    requires d + length <= |s|
  {
    Ready(r, Some(CStr(s[d..d + length])))
  }

  /** An incomplete body: the rest of the call moves the start of the line over all scanned bytes, and what
      remains is what was received. */
  lemma {:induction false} IncompleteWaits(tail: string, scanned: nat, base: nat, length: nat)
    requires scanned <= |tail| < length + scanned
    ensures var b := ParseBody(tail, scanned, base, length);
            b.Waiting? && base + scanned <= b.base <= base + |tail| && b.tail == tail[b.base - base..]
    decreases |tail| - scanned
  {
    hide CStr;
    var rest := tail[scanned..];
    var l := Scan(rest, 0);
    if l.LineOk? {
      IncompleteWaits(Blanked(rest, l.at), l.at + 2, base + scanned, length);
      var b := ParseBody(Blanked(rest, l.at), l.at + 2, base + scanned, length);
      BlankedSuffix(tail, scanned, l.at, b.base - base - scanned);
    }
  }

  lemma BlankedSuffix(tail: string, scanned: nat, at: nat, e: nat)
    requires scanned + at + 1 < |tail| && at + 2 <= e <= |tail| - scanned
    ensures Blanked(tail[scanned..], at)[e..] == tail[scanned + e..]
  {
  }

  /** One read while the line starts `d` bytes into the body and `c` more are scanned. */
  lemma BodyRead(s: string, d: nat, c: nat, n: nat, head: nat, length: nat)
    requires d + c <= n <= |s|
    ensures var b := ParseBody(s[d..n], c, head + d, length);
            if n >= d + c + length then
              b == if head + d + length < READ_BUFFER_SIZE then Done(CStr(s[d..d + length])) else Overrun
            else
              b.Waiting? && head + d + c <= b.base <= head + n && b.tail == s[b.base - head..n]
  {
    hide ScanBody, CStr;
    if n >= d + c + length {
      assert s[d..n][..length] == s[d..d + length];
    } else {
      IncompleteWaits(s[d..n], c, head + d, length);
      var b := ParseBody(s[d..n], c, head + d, length);
      assert s[d..n][b.base - head - d..] == s[b.base - head..n];
    }
  }

  /** Once the line starts behind the body's start, everything that is delivered does. */
  lemma {:induction false} MovedFeedMisreads(r: Request, s: string, d: nat, c: nat, n: nat, head: nat, chunks: seq<string>)
    requires 0 < d && d + c <= n <= |s| && 0 <= r.length <= |s| && Concat(chunks) == s[n..]
    ensures Misread(head, r, s, r.length, Feed(InBody(r, s[d..n], c, head + d), chunks))
    decreases |chunks|
  {
    hide ParseBody, CStr;
    if chunks != [] {
      var n' := n + |chunks[0]|;
      NextRead(s, d, n, chunks);
      BodyRead(s, d, c, n', head, r.length);
      var b := ParseBody(s[d..n'], c, head + d, r.length);
      assert b.Done? ==> AfterBody(r, b) == ReadyWith(r, s, d, r.length);
      if b.Waiting? {
        MovedFeedMisreads(r, s, b.base - head, b.scanned, n', head, chunks[1..]);
      }
    }
  }

  lemma NextRead(s: string, d: nat, n: nat, chunks: seq<string>)
    requires chunks != [] && d <= n <= |s| && Concat(chunks) == s[n..]
    ensures var n' := n + |chunks[0]|; n' <= |s| && s[d..n] + chunks[0] == s[d..n'] && Concat(chunks[1..]) == s[n'..]
  {
    TwoSplits(s[..n], s[n..], s[..n] + chunks[0], Concat(chunks[1..]));
    assert s[..n] + s[n..] == s == s[..n] + chunks[0] + Concat(chunks[1..]);
    assert s[d..n] + chunks[0] == (s[..n] + chunks[0])[d..];
  }

  /** The read after which the scanner has moved for the first time, and what comes of it. */
  lemma FirstMove(r: Request, s: string, k: nat, head: nat, chunks: seq<string>)
    requires 0 < k < r.length <= |s| && !StaysPut(s, k) && head + r.length < READ_BUFFER_SIZE
    requires Concat(chunks) == s[k..]
    ensures var b, l := ParseBody(s[..k], 0, head, r.length), Scan(s[..k], 0);
            && b.Waiting?
            && var o := Feed(InBody(r, b.tail, b.scanned, b.base), chunks);
               Framed(!l.LineOk? && chunks != [] && k + |chunks[0]| >= r.length + l.at, head, r, s, o)
  {
    hide CStr, ParseBody, Scan, Misread, StaysPut, Feed, ReadyWith;
    var b, l := ParseBody(s[..k], 0, head, r.length), Scan(s[..k], 0);
    MovesBy(s, k, head, r.length);
    if l.LineOk? {
      MovedFeedMisreads(r, s, b.base - head, b.scanned, k, head, chunks);
    } else if chunks != [] {
      SecondRead(r, s, l.at, k, head, chunks);
    }
  }

  /** Either the scanner has moved by part of a line, or the line starts further on. */
  lemma MovesBy(s: string, k: nat, head: nat, length: nat)
    requires 0 < k < length <= |s| && !StaysPut(s, k)
    ensures var b, l := ParseBody(s[..k], 0, head, length), Scan(s[..k], 0);
            if l.LineOk? then b.Waiting? && head < b.base <= head + k && b.tail == s[b.base - head..k]
            else l.at > 0 && b == Waiting(s[..k], l.at, head)
  {
    var tail := s[..k];
    assert tail[0..] == tail;
    var l := Scan(tail, 0);
    BodyRead(s, 0, 0, k, head, length);
    assert s[0..k] == tail;
    assert tail[0] == s[0] && (k > 1 ==> tail[1] == s[1]);
    if l.LineOk? {
      IncompleteWaits(Blanked(tail, l.at), l.at + 2, head, length);
    }
  }

  lemma SecondRead(r: Request, s: string, c: nat, k: nat, head: nat, chunks: seq<string>)
    requires 0 < c <= k < r.length <= |s| && head + r.length < READ_BUFFER_SIZE
    requires chunks != [] && Concat(chunks) == s[k..]
    ensures var o := Feed(InBody(r, s[..k], c, head), chunks);
            Framed(k + |chunks[0]| >= r.length + c, head, r, s, o)
  {
    hide ParseBody, CStr;
    var k' := k + |chunks[0]|;
    assert s[0..k] == s[..k];
    NextRead(s, 0, k, chunks);
    BodyRead(s, 0, c, k', head, r.length);
    var b := ParseBody(s[0..k'], c, head + 0, r.length);
    if b.Waiting? {
      MovedFeedMisreads(r, s, b.base - head, b.scanned, k', head, chunks[1..]);
    }
  }

  /** A read that ends at `k` bytes of `s`, and what comes after it. */
  predicate ArrivesFrom(head: nat, s: string, length: nat, k: nat, chunks: seq<string>)
    requires k <= |s| && length <= |s|
  {
    if k >= length then true
    else if StaysPut(s, k) then Arrives(head, s, length, head + k, chunks)
    else
      var l := Scan(s[..k], 0);
      !l.LineOk? && chunks != [] && k + |chunks[0]| >= length + l.at
  }

  lemma ArrivesStep(head: nat, s: string, length: nat, sofar: nat, chunks: seq<string>, k: nat)
    requires length <= |s| && chunks != [] && sofar + |chunks[0]| == head + k && k <= |s|
    ensures Arrives(head, s, length, sofar, chunks) == ArrivesFrom(head, s, length, k, chunks[1..])
  {
    hide StaysPut, Scan;
    assert |chunks| > 1 ==> chunks[1..][0] == chunks[1];
  }

  /** What becomes of a read that ends at `k` bytes of `s` and of those after it. */
  function FromRead(r: Request, s: string, k: nat, head: nat, chunks: seq<string>): Outcome
    requires k <= |s|
  {
    var o := AfterBody(r, ParseBody(s[..k], 0, head, r.length));
    if o.NoRequest? then Feed(o.conn, chunks) else o
  }

  /** From a read in which the scanner starts at the body. */
  lemma {:induction false} BodyFeed(r: Request, s: string, k: nat, head: nat, chunks: seq<string>)
    requires 0 < r.length <= |s| && k <= |s| && head + r.length < READ_BUFFER_SIZE
    requires Concat(chunks) == s[k..]
    ensures Framed(ArrivesFrom(head, s, r.length, k, chunks), head, r, s, FromRead(r, s, k, head, chunks))
    decreases |chunks|
  {
    hide CStr, Scan, Misread, ParseBody, StaysPut, Arrives, ReadyWith;
    if k >= r.length {
      WholeBody(s, k, head, r.length);
    } else if !StaysPut(s, k) {
      MovesLater(s, k);
      FirstMove(r, s, k, head, chunks);
    } else {
      StaysWaiting(s, k, head, r.length);
      var k' := k + |chunks[0]|;
      NextRead(s, 0, k, chunks);
      assert s[0..k] == s[..k] && s[0..k'] == s[..k'];
      ArrivesStep(head, s, r.length, head + k, chunks, k');
      BodyFeed(r, s, k', head, chunks[1..]);
    }
  }

  lemma WholeBody(s: string, k: nat, head: nat, length: nat)
    requires length <= k <= |s| && head + length < READ_BUFFER_SIZE
    ensures ParseBody(s[..k], 0, head, length).Done?
    ensures forall r: Request :: AfterBody(r, ParseBody(s[..k], 0, head, length)) == ReadyWith(r, s, 0, length)
  {
    assert s[..k][..length] == s[0..length];
  }

  lemma MovesLater(s: string, k: nat)
    requires k <= |s| && !StaysPut(s, k)
    ensures k > 0
  {
  }

  lemma StaysWaiting(s: string, k: nat, head: nat, length: nat)
    requires k < length <= |s| && StaysPut(s, k)
    ensures ParseBody(s[..k], 0, head, length) == Waiting(s[..k], 0, head)
  {
    var tail := s[..k];
    assert tail[0..] == tail;
    assert k > 0 ==> tail[0] == s[0];
    assert k > 1 ==> tail[1] == s[1];
  }

  /** The head of a request is `s`, to the last byte; `r'` is the request, with its body to come. */
  predicate HeadEndsAt(r: Request, s: string, r': Request) {
    r.phase != Content && var h := ParseHead(r, s); h.AtBody? && h.request == r' && |h.rest| == 0
  }

  lemma {:induction false} HeadThenBody(r: Request, rest: string, base: nat, more: string, r': Request, s: string,
                                        chunks: seq<string>)
    requires r.phase != Content && ParseHead(r, rest) == Pending(r, rest)
    requires HeadEndsAt(r, rest + more, r')
    requires Concat(chunks) == more + s && 0 < r'.length <= |s|
    requires base + |rest| + |more| + r'.length < READ_BUFFER_SIZE
    ensures var head := base + |rest| + |more|;
            Framed(Arrives(head, s, r'.length, base + |rest|, chunks), head, r', s, Feed(InHead(r, rest, base), chunks))
    decreases |chunks|
  {
    hide ParseHead, ParseBody, Scan, CStr, Framed, Arrives;
    assert |Concat(chunks)| == |more| + |s|;
    TwoSplits(more, s, chunks[0], Concat(chunks[1..]));
    if |chunks[0]| < |more| {
      HeadPrefix(r, rest, more, |chunks[0]|, r');
      var h := ParseHead(r, rest + chunks[0]);
      PendingIsStable(r, rest + chunks[0]);
      ArrivesLater(base + |rest| + |more|, s, r'.length, base + |rest|, chunks);
      HeadThenBody(h.request, h.rest, base + |rest + chunks[0]| - |h.rest|, more[|chunks[0]|..], r', s, chunks[1..]);
    } else {
      HeadEnds(r, rest, base, more, r', s, chunks, |chunks[0]| - |more|,
               base + |rest|, base + |rest| + |more|);
    }
  }

  lemma ArrivesLater(head: nat, s: string, length: nat, sofar: nat, chunks: seq<string>)
    requires length <= |s| && chunks != [] && sofar + |chunks[0]| < head
    ensures Arrives(head, s, length, sofar, chunks) == Arrives(head, s, length, sofar + |chunks[0]|, chunks[1..])
  {
  }

  /** The string `s` is `a` and then `b`. */
  predicate Joined(s: string, a: string, b: string) {
    s == a + b
  }

  lemma JoinedBehind(front: string, s: string, a: string, b: string)
    requires Joined(s, a, b)
    ensures front + a + b == front + s && |s| == |a| + |b|
  {
  }

  lemma BytesBehindHead(r: Request, s: string, r': Request, beyond: string)
    requires HeadEndsAt(r, s, r')
    ensures ParseHead(r, s + beyond) == AtBody(r', beyond)
  {
    hide ParseHead;
    ParseHeadResumes(r, s, beyond);
    var rest := ParseHead(r, s).rest;
    assert rest + beyond == beyond;
  }

  lemma HeadInFull(r: Request, rest: string, more: string, r': Request, beyond: string, first: string)
    requires r.phase != Content && HeadEndsAt(r, rest + more, r') && Joined(first, more, beyond)
    ensures ParseHead(r, rest + first) == AtBody(r', beyond) && |first| == |more| + |beyond|
  {
    hide ParseHead, Joined;
    JoinedBehind(rest, first, more, beyond);
    BytesBehindHead(r, rest + more, r', beyond);
  }

  lemma FeedStep(r: Request, rest: string, base: nat, chunks: seq<string>, r': Request, s: string, k: nat, head: nat)
    requires r.phase != Content && ParseHead(r, rest) == Pending(r, rest) && chunks != [] && k <= |s|
    requires ParseHead(r, rest + chunks[0]) == AtBody(r', s[..k]) && head + k == base + |rest| + |chunks[0]|
    ensures Feed(InHead(r, rest, base), chunks) == FromRead(r', s, k, head, chunks[1..])
  {
    hide ParseHead, ParseBody;
  }

  lemma FirstBodyRead(r: Request, rest: string, base: nat, more: string, chunks: seq<string>, r': Request,
                      s: string, k: nat, head: nat)
    requires r.phase != Content && ParseHead(r, rest) == Pending(r, rest) && k <= |s|
    requires chunks != [] && HeadEndsAt(r, rest + more, r') && Joined(chunks[0], more, s[..k])
    requires head == base + |rest| + |more|
    ensures Feed(InHead(r, rest, base), chunks) == FromRead(r', s, k, head, chunks[1..])
  {
    hide ParseHead, ParseBody, Feed, Joined, FromRead;
    HeadInFull(r, rest, more, r', s[..k], chunks[0]);
    FeedStep(r, rest, base, chunks, r', s, k, head);
  }

  /** The read in which the head ends, with the first bytes behind it. */
  lemma HeadEnds(r: Request, rest: string, base: nat, more: string, r': Request, s: string, chunks: seq<string>,
                 k: nat, sofar: nat, head: nat)
    requires r.phase != Content && ParseHead(r, rest) == Pending(r, rest)
    requires HeadEndsAt(r, rest + more, r') && 0 < r'.length <= |s|
    requires k <= |s| && chunks != [] && Joined(chunks[0], more, s[..k]) && Concat(chunks[1..]) == s[k..] && |chunks[0]| == |more| + k
    requires sofar == base + |rest| && head == sofar + |more| && head + r'.length < READ_BUFFER_SIZE
    ensures Framed(Arrives(head, s, r'.length, sofar, chunks), head, r', s, Feed(InHead(r, rest, base), chunks))
  {
    hide ParseHead, Arrives, ArrivesFrom, Feed, Concat, Framed, FromRead, Joined;
    FirstBodyRead(r, rest, base, more, chunks, r', s, k, head);
    ArrivesStep(head, s, r'.length, sofar, chunks, k);
    BodyFeed(r', s, k, head, chunks[1..]);
  }

  /** One string cut in two places. */
  lemma TwoSplits(a: string, b: string, c: string, d: string)
    requires a + b == c + d
    ensures |c| < |a| ==> c == a[..|c|] && d == a[|c|..] + b
    ensures |c| >= |a| ==> |c| - |a| <= |b| && c == a + b[..|c| - |a|] && d == b[|c| - |a|..]
  {
    assert |a| + |b| == |c| + |d|;
    assert c == (a + b)[..|c|] && d == (a + b)[|c|..];
  }

  /** No proper prefix of a head ending right before the body is decided. */
  lemma HeadPrefix(r: Request, rest: string, more: string, n: nat, r': Request)
    requires r.phase != Content && n < |more| && HeadEndsAt(r, rest + more, r')
    ensures var h := ParseHead(r, rest + more[..n]);
            h.Pending? && HeadEndsAt(h.request, h.rest + more[n..], r')
  {
    hide ParseHead;
    ParseHeadResumes(r, rest + more[..n], more[n..]);
    assert rest + more[..n] + more[n..] == rest + more;
  }

  lemma FreshIsPending()
    ensures ParseHead(NEW_REQUEST, "") == Pending(NEW_REQUEST, "")
  {
  }

  /** A request with a body, and whatever follows it: `head` ends with the empty line and declares the length
      of `body`.  However the bytes are divided, do_request gets exactly the body if and only if it arrives
      as `Arrives` says; otherwise the client waits, or the text handed on starts behind the body's start. */
  lemma BodyFraming(head: string, r: Request, body: string, extra: string, chunks: seq<string>)
    requires HeadEndsAt(NEW_REQUEST, head, r) && r.length == |body| > 0
    requires |head| + |body| < READ_BUFFER_SIZE && Concat(chunks) == head + body + extra
    ensures var o := Feed(FRESH, chunks);
            if Arrives(|head|, body + extra, |body|, 0, chunks) then o == Ready(r, Some(CStr(body)))
            else Misread(|head|, r, body + extra, |body|, o)
  {
    FreshIsPending();
    hide ParseHead, HeadEndsAt, Feed, Arrives, Misread, CStr, Concat;
    var none: string := "";
    assert none + head == head && 0 + |none| + |head| == |head| && 0 + |none| == 0;
    assert FRESH == InHead(NEW_REQUEST, none, 0);
    assert head + body + extra == head + (body + extra);
    assert (body + extra)[..|body|] == body;
    HeadThenBody(NEW_REQUEST, none, 0, head, r, body + extra, chunks);
  }

  /** A body whose reads never move the scanner arrives, whatever follows it; and when nothing follows,
      no other body does. */
  lemma {:induction false} WellSplitArrives(head: nat, body: string, extra: string, sofar: nat, chunks: seq<string>)
    requires sofar < head + |body| && sofar + |Concat(chunks)| == head + |body| + |extra|
    ensures WellSplit(head, body, sofar, chunks) ==> Arrives(head, body + extra, |body|, sofar, chunks)
    ensures extra == "" && Arrives(head, body + extra, |body|, sofar, chunks) ==> WellSplit(head, body, sofar, chunks)
    decreases |chunks|
  {
    hide Scan;
    if chunks != [] {
      var n := sofar + |chunks[0]|;
      if n >= head + |body| {
        BeyondBody(head, body, n, chunks[1..]);
      } else {
        WellSplitArrives(head, body, extra, n, chunks[1..]);
        if n >= head { SameStart(body, extra, n - head); }
      }
    }
  }

  lemma SameStart(body: string, extra: string, k: nat)
    requires k < |body|
    ensures StaysPut(body + extra, k) == StaysPut(body, k)
    ensures !StaysPut(body, k) && !Scan((body + extra)[..k], 0).LineOk? ==> Scan((body + extra)[..k], 0).at > 0
  {
    var tail := (body + extra)[..k];
    assert k > 0 ==> tail[0] == body[0];
    assert k > 1 ==> tail[1] == body[1];
  }

  lemma {:induction false} BeyondBody(head: nat, body: string, sofar: nat, chunks: seq<string>)
    requires sofar >= head + |body|
    ensures WellSplit(head, body, sofar, chunks)
    decreases |chunks|
  {
    if chunks != [] { BeyondBody(head, body, sofar + |chunks[0]|, chunks[1..]); }
  }

  /** When nothing follows the body, it arrives if and only if the scanner stays put whenever a read ends
      inside it; otherwise the client waits. */
  lemma BodyAlone(head: string, r: Request, body: string, chunks: seq<string>)
    requires HeadEndsAt(NEW_REQUEST, head, r) && r.length == |body| > 0
    requires |head| + |body| < READ_BUFFER_SIZE && Concat(chunks) == head + body
    ensures if WellSplit(|head|, body, 0, chunks) then Feed(FRESH, chunks) == Ready(r, Some(CStr(body)))
            else Feed(FRESH, chunks).NoRequest?
  {
    hide ParseHead, HeadEndsAt, Feed, WellSplit, Arrives, CStr, Concat;
    assert head + body + "" == head + body && body + "" == body;
    BodyFraming(head, r, body, "", chunks);
    WellSplitArrives(|head|, body, "", 0, chunks);
  }

  /** A body cut in two by its reads, with bytes behind it in the second one. */
  lemma BodyInTwoReads(head: string, r: Request, body: string, k: nat, extra: string)
    requires HeadEndsAt(NEW_REQUEST, head, r) && r.length == |body|
    requires 0 < k < |body| && |head| + |body| < READ_BUFFER_SIZE
    ensures var o, l := Feed(FRESH, [head, body[..k], body[k..] + extra]), Scan(body[..k], 0);
            if StaysPut(body, k) || (!l.LineOk? && |extra| >= l.at) then o == Ready(r, Some(CStr(body)))
            else Misread(|head|, r, body + extra, |body|, o)
  {
    hide ParseHead, HeadEndsAt, ParseBody, Feed, Scan, StaysPut, Misread, Arrives, Concat;
    var a, b := body[..k], body[k..] + extra;
    ConcatThree(head, a, b);
    ArrivesThree(|head|, body, extra, head, a, b);
    Rejoined(head, body, k, extra);
    BodyFraming(head, r, body, extra, [head, a, b]);
  }

  lemma Rejoined(head: string, body: string, k: nat, extra: string)
    requires k <= |body|
    ensures head + (body[..k] + (body[k..] + extra)) == head + body + extra
  {
    assert body[..k] + body[k..] == body;
  }

  lemma ConcatThree(x: string, y: string, z: string)
    ensures Concat([x, y, z]) == x + (y + z)
  {
    assert [x, y, z][1..] == [y, z] && [y, z][1..] == [z] && Concat([z]) == z;
  }

  lemma ArrivesThree(head: nat, body: string, extra: string, x: string, y: string, z: string)
    requires |x| == head && 0 < |y| < |body| && |y| + |z| == |body| + |extra|
    ensures Arrives(head, body + extra, |body|, 0, [x, y, z]) <==>
              StaysPut(body, |y|) || (var l := Scan(body[..|y|], 0); !l.LineOk? && |extra| >= l.at)
  {
    hide Scan;
    var s := body + extra;
    SameStart(body, extra, |y|);
    assert s[..|y|] == body[..|y|];
    assert [x, y, z][1..] == [y, z] && [y, z][1..] == [z];
    assert Arrives(head, s, |body|, head + |y|, [z]);
    assert StaysPut(s, 0);
  }
}
