/** http/http_conn.h and http/http_conn.cpp: the parser as it runs, in place on the read buffer, with
pointers into it.  Pointers are buffer positions, NULL is -1. */
module HttpConnection {
  import opened CStrings
  import opened HttpParser
  import opened HttpFeed

  const NULL := -1

  // ----- C strings stored in a buffer -----

  /** At position `p` of `buf` stands the C string `s`. */
  predicate Holds(buf: string, p: int, s: string) {
    && 0 <= p && p + |s| < |buf|
    && buf[p..p + |s|] == s && buf[p + |s|] == NUL && NoNul(s)
  }

  lemma HoldsIs(buf: string, p: int, s: string)
    requires Holds(buf, p, s)
    ensures 0 <= p && p + |s| < |buf| && CStr(buf[p..]) == s
  {
    assert buf[p..][..|s|] == s;
    CStrIs(buf[p..], |s|);
  }

  lemma HoldsDrop(buf: string, p: int, s: string, n: nat)
    requires Holds(buf, p, s) && n <= |s|
    ensures Holds(buf, p + n, s[n..])
  {
    assert buf[p + n..p + |s|] == buf[p..p + |s|][n..];
  }

  /** A NUL written into a string cuts it in two. */
  lemma HoldsCut(buf: string, p: int, s: string, n: nat)
    requires Holds(buf, p, s) && n < |s|
    ensures Holds(buf[p + n := NUL], p, s[..n])
    ensures Holds(buf[p + n := NUL], p + n + 1, s[n + 1..])
  {
    var buf' := buf[p + n := NUL];
    var t := buf[p..p + |s|];
    assert buf'[p..p + n] == t[..n];
    assert buf'[p + n + 1..p + |s|] == t[n + 1..];
  }

  lemma VerbsDiffer()
    ensures forall s: string :: StrCaseEq(s, GET) ==> !StrCaseEq(s, POST)
  {
    forall s: string | StrCaseEq(s, GET) ensures !StrCaseEq(s, POST) {
      assert |LowerAll(GET)| == 3 && |LowerAll(POST)| == 4;
    }
  }

  lemma NameLengths(line: string)
    ensures StartsWithCase(line, CONNECTION) ==> |line| >= 11
    ensures StartsWithCase(line, CONTENT_LENGTH) ==> |line| >= 15
    ensures StartsWithCase(line, HOST) ==> |line| >= 5
    ensures StartsWithCase(line, COOKIE) ==> |line| >= 7
  {
  }

  predicate SameOutside(buf: string, buf': string, p: int, n: nat) {
    |buf| == |buf'| && forall i :: 0 <= i < |buf| && !(p <= i < p + n) ==> buf'[i] == buf[i]
  }

  lemma SameOutsideCompose(a: string, b: string, c: string, p: int, n: nat, q: int, m: nat)
    requires SameOutside(a, b, p, n) && SameOutside(b, c, q, m) && p <= q && q + m <= p + n
    ensures SameOutside(a, c, p, n)
  {
  }

  lemma CheckUrlKeeps(r: Request, url: string)
    ensures var step := CheckUrl(r, url);
            step.Next? ==> step.request == r.(phase := Header, url := step.request.url)
    ensures !CheckUrl(r, url).Complete?
  {
  }

  lemma RequestLineCompletesNothing(r: Request, text: string)
    ensures !OnRequestLine(r, text).Complete?
  {
  }

  /** Strings in front of `limit` do not see changes from `limit` on. */
  lemma HoldsFrame(buf: string, buf': string, p: int, s: string, limit: int)
    requires Holds(buf, p, s) && p + |s| < limit <= |buf| == |buf'| && buf[..limit] == buf'[..limit]
    ensures Holds(buf', p, s)
  {
    assert forall i :: 0 <= i < limit ==> buf[i] == buf[..limit][i] == buf'[..limit][i] == buf'[i];
  }

  lemma HoldsLine(buf: string, p: int, n: nat)
    requires 0 <= p && p + n < |buf| && buf[p + n] == NUL
    ensures Holds(buf, p, CStr(buf[p..p + n]))
  {
    var s := buf[p..p + n];
    var r := CStr(s);
    assert buf[p..p + |r|] == s[..|r|];
  }

  /** A string of the request, in front of the line in work. */
  predicate Stored(buf: string, limit: int, p: int, s: string) {
    Holds(buf, p, s) && p + |s| < limit
  }

  predicate StoredFields(buf: string, limit: int, r: Request, url: int, version: int, host: int) {
    && (r.phase != RequestLine ==> Stored(buf, limit, url, r.url) && Stored(buf, limit, version, r.version))
    && (if r.host.None? then host == NULL else Stored(buf, limit, host, r.host.value))
  }

  /** Pointers into consumed lines do not see changes from the current line on. */
  lemma StoredFrame(buf: string, buf': string, limit: nat, from: nat, r: Request, url: int, version: int, host: int)
    requires StoredFields(buf, limit, r, url, version, host)
    requires limit <= from <= |buf| == |buf'| && buf[..from] == buf'[..from]
    ensures StoredFields(buf', limit, r, url, version, host)
  {
    assert buf[..limit] == buf[..from][..limit] == buf'[..limit];
    if r.phase != RequestLine {
      HoldsFrame(buf, buf', url, r.url, limit);
      HoldsFrame(buf, buf', version, r.version, limit);
    }
    if r.host.Some? { HoldsFrame(buf, buf', host, r.host.value, limit); }
  }

  /** parse_headers on a non-empty line, case by case. */
  lemma FieldCases(r: Request, line: string)
    requires line != ""
    ensures var conn, len, host, cookie := StartsWithCase(line, CONNECTION), StartsWithCase(line, CONTENT_LENGTH),
                                           StartsWithCase(line, HOST), StartsWithCase(line, COOKIE);
      && (conn ==> |line| >= 11)
      && (conn ==> OnHeader(r, line) == Next(if StrCaseEq(SkipBlanks(line[11..]), KEEP_ALIVE) then r.(linger := true) else r))
      && (!conn && len ==> |line| >= 15 && OnHeader(r, line) == Next(r.(length := ToInt32(Atol(SkipBlanks(line[15..]))))))
      && (!conn && !len && host ==> |line| >= 5 && OnHeader(r, line) == Next(r.(host := Some(SkipBlanks(line[5..])))))
      && (!conn && !len && !host && cookie ==> |line| >= 7 && OnHeader(r, line) == Next(r.(cookie := SkipBlanks(line[7..]))))
      && (!conn && !len && !host && !cookie ==> OnHeader(r, line) == Next(r))
  {
    NameLengths(line);
    hide StartsWithCase;
  }

  lemma StoredWiden(buf: string, limit: nat, limit': nat, r: Request, url: int, version: int, host: int)
    requires StoredFields(buf, limit, r, url, version, host) && limit <= limit'
    ensures StoredFields(buf, limit', r, url, version, host)
  {
  }

  /** A request line leaves its url and version in the buffer. */
  predicate StoredLine(buf: string, limit: int, r: Request, step: Step, url: int, version: int) {
    step.Next? ==>
      && step.request == r.(phase := Header, post := step.request.post, url := step.request.url, version := step.request.version)
      && Stored(buf, limit, url, step.request.url) && Stored(buf, limit, version, step.request.version)
  }

  lemma SliceAppend(buf: string, buf': string, start: nat, n: nat, chunk: string)
    requires start <= n && n + |chunk| <= |buf| == |buf'|
    requires buf'[..n] == buf[..n] && buf'[n..n + |chunk|] == chunk
    ensures buf'[start..n + |chunk|] == buf[start..n] + chunk
  {
    assert buf'[start..n] == buf'[..n][start..] && buf[start..n] == buf[..n][start..];
    assert buf'[start..n + |chunk|] == buf'[start..n] + buf'[n..n + |chunk|];
  }

  // ----- scanning inside a buffer -----

  function Shifted(l: Line, n: nat): Line {
    match l
    case LineOk(at) => LineOk(at + n)
    case LineOpen(at) => LineOpen(at + n)
    case LineBad(at) => LineBad(at + n)
  }

  lemma {:induction false} ScanShift(s: string, start: nat, i: nat)
    requires start <= i <= |s|
    ensures Scan(s, i) == Shifted(Scan(s[start..], i - start), start)
    decreases |s| - i
  {
    if i < |s| && s[i] != '\r' && s[i] != '\n' { ScanShift(s, start, i + 1); }
  }

  /** Scanning the buffer from where the last scan stopped is scanning the line in work from its start. */
  lemma LineInBuffer(buf: string, start: nat, checked: nat, end: nat)
    requires start <= checked <= end <= |buf|
    requires forall k :: start <= k < checked ==> buf[k] != '\r' && buf[k] != '\n'
    ensures Scan(buf[..end], checked) == Shifted(Scan(buf[start..end], 0), start)
  {
    var s := buf[..end];
    assert s[start..] == buf[start..end];
    ScanShift(s, start, checked);
    ScanResumes(s[start..], 0, checked - start);
  }

  lemma BlankedTail(buf: string, start: nat, end: nat, at: nat)
    requires start <= at && at + 1 < end <= |buf|
    ensures Blanked(buf, at)[start..end] == Blanked(buf[start..end], at - start)
    ensures Blanked(buf, at)[..start] == buf[..start]
  {
  }

  /** One round of process_read on the head of a request. */
  lemma LineOrNot(r: Request, tail: string, base: nat)
    requires r.phase != Content
    ensures var l, o := Scan(tail, 0), Process(InHead(r, tail, base));
      && (!l.LineOk? ==> o == NoRequest(InHead(r, tail, base)))
      && (l.LineOk? ==>
           match OnLine(r, tail[..l.at])
           case Reject => o == BadRequest
           case Crash => o == Undefined
           case Complete(r') => o == Ready(r', None)
           case Next(r') =>
             o == Process(if r'.phase == Content then InBody(r', tail[l.at + 2..], 0, base + l.at + 2)
                          else InHead(r', tail[l.at + 2..], base + l.at + 2)))
  {
    hide Scan, OnLine, ParseBody;
  }

  /** One round of process_read on a body. */
  lemma BodyTest(r: Request, tail: string, scanned: nat, base: nat)
    requires scanned <= |tail|
    ensures var o := Process(InBody(r, tail, scanned, base));
      if |tail| >= r.length + scanned then
        if 0 <= r.length && base + r.length < READ_BUFFER_SIZE then o == Ready(r, Some(CStr(tail[..r.length])))
        else o == Undefined
      else o == AfterBody(r, ScanBody(tail[scanned..], base + scanned, r.length))
  {
    hide Scan, ScanBody, CStr;
  }

  /** After a line end was blanked out nothing in front of the scanner is a line end. */
  lemma CleanAfterLine(buf: string, buf': string, start: nat, end: nat, checked: nat)
    requires start <= end <= |buf| == |buf'| && buf'[..start] == buf[..start]
    requires start > 0 ==> buf[start - 1] != '\r'
    requires var l := Scan(buf[start..end], 0);
      l.LineOk? && checked == start + l.at + 2 && buf'[start..end] == Blanked(buf[start..end], l.at)
    ensures forall k :: start <= k < checked ==> buf'[k] != '\r' && buf'[k] != '\n'
    ensures start > 0 ==> buf'[start - 1] != '\r'
  {
    var tail := buf[start..end];
    forall k | start <= k < checked ensures buf'[k] != '\r' && buf'[k] != '\n' {
      assert buf'[k] == buf'[start..end][k - start];
    }
    if start > 0 { assert buf'[start - 1] == buf'[..start][start - 1] == buf[..start][start - 1]; }
  }

  /** A NUL behind the first `n` bytes of a text leaves them as they are. */
  lemma CutBehind(buf: string, start: nat, n: nat, end: nat)
    requires start + n <= end <= |buf| && start + n < |buf|
    ensures buf[start + n := NUL][start..start + n] == buf[start..end][..n]
  {
  }

  lemma DropDrop(s: string, a: nat, b: nat, c: nat)
    requires a <= b <= c <= |s|
    ensures s[a..c][b - a..] == s[b..c]
  {
  }

  // ----- the connection -----

  datatype LineStatus = LINE_OK | LINE_BAD | LINE_OPEN

  datatype HttpCode = NO_REQUEST | GET_REQUEST | BAD_REQUEST | UNDEFINED

  /** What one recv does: bytes are there, none are yet, the peer has closed, an error. */
  datatype Recv = Bytes(data: string) | WouldBlock | Closed | Failed

  /** The part of the bytes there that fits. */
  function Arrived(data: string, room: nat): (r: string)
    ensures |r| == (if |data| <= room then |data| else room) && r == data[..|r|]
  {
    if |data| <= room then data else data[..room]
  }

  /** read_once, edge-triggered: all bytes up to the first recv that would block; a recv of 0 bytes, be it
      that the peer has closed or that the buffer is full, ends in false. */
  function Drained(recvs: seq<Recv>, room: nat): (r: Option<string>)
    ensures r.Some? ==> |r.value| <= room
    decreases |recvs|
  {
    if recvs == [] || recvs[0].WouldBlock? then Some("")
    else if !recvs[0].Bytes? || Arrived(recvs[0].data, room) == "" then None
    else
      var chunk := Arrived(recvs[0].data, room);
      match Drained(recvs[1..], room - |chunk|)
      case None => None
      case Some(more) => Some(chunk + more)
  }

  /** The bytes one read_once adds, None for false. */
  function ReadResult(recvs: seq<Recv>, edge: bool, room: nat): (r: Option<string>)
    ensures r.Some? ==> |r.value| <= room
  {
    if room == 0 then None
    else if edge then Drained(recvs, room)
    else if recvs == [] || !recvs[0].Bytes? || Arrived(recvs[0].data, room) == "" then None
    else Some(Arrived(recvs[0].data, room))
  }

  function Deliver(chunks: seq<string>): (r: seq<Recv>)
    ensures |r| == |chunks| && forall i :: 0 <= i < |r| ==> r[i] == Bytes(chunks[i])
  {
    seq(|chunks|, i requires 0 <= i < |chunks| => Bytes(chunks[i]))
  }

  /** What one read_once takes of chunks that fit and then nothing, the end of the connection or an error:
      edge-triggered all of them, if nothing but a wait is behind them; level-triggered the first one. */
  lemma ReadModes(chunks: seq<string>, last: Recv, more: seq<Recv>, room: nat)
    requires room > 0 && |HttpFeed.Concat(chunks)| <= room && !last.Bytes?
    requires forall i :: 0 <= i < |chunks| ==> chunks[i] != ""
    ensures ReadResult(Deliver(chunks) + [last] + more, true, room)
         == if last.WouldBlock? then Some(HttpFeed.Concat(chunks)) else None
    ensures ReadResult(Deliver(chunks) + [last] + more, false, room)
         == if chunks != [] then Some(chunks[0]) else None
  {
    DrainsAll(chunks, last, more, room);
    if chunks != [] { assert chunks[0][..|chunks[0]|] == chunks[0]; }
  }

  lemma {:induction false} DrainsAll(chunks: seq<string>, last: Recv, more: seq<Recv>, room: nat)
    requires |HttpFeed.Concat(chunks)| <= room && !last.Bytes?
    requires forall i :: 0 <= i < |chunks| ==> chunks[i] != ""
    ensures Drained(Deliver(chunks) + [last] + more, room)
         == if last.WouldBlock? then Some(HttpFeed.Concat(chunks)) else None
    decreases |chunks|
  {
    var recvs := Deliver(chunks) + [last] + more;
    if chunks == [] {
      assert recvs[0] == last;
    } else {
      var chunk := chunks[0];
      assert recvs[1..] == Deliver(chunks[1..]) + [last] + more;
      assert HttpFeed.Concat(chunks) == chunk + HttpFeed.Concat(chunks[1..]);
      DrainsAll(chunks[1..], last, more, room - |chunk|);
    }
  }

  /** With a full buffer read_once fails. */
  lemma NoRoom(recvs: seq<Recv>, edge: bool)
    ensures ReadResult(recvs, edge, 0) == None
  {
  }

  function After(got: string, r: Option<string>): Option<string> {
    match r
    case None => None
    case Some(more) => Some(got + more)
  }

  lemma DrainCases(recvs: seq<Recv>, room: nat, got: string)
    requires recvs != [] && !recvs[0].WouldBlock?
    ensures !recvs[0].Bytes? || Arrived(recvs[0].data, room) == "" ==> After(got, Drained(recvs, room)) == None
    ensures recvs[0].Bytes? && Arrived(recvs[0].data, room) != "" ==>
      var chunk := Arrived(recvs[0].data, room);
      After(got, Drained(recvs, room)) == After(got + chunk, Drained(recvs[1..], room - |chunk|))
  {
    if recvs[0].Bytes? && Arrived(recvs[0].data, room) != "" {
      var chunk := Arrived(recvs[0].data, room);
      var r := Drained(recvs[1..], room - |chunk|);
      if r.Some? { assert got + (chunk + r.value) == got + chunk + r.value; }
    }
  }

  lemma DrainEnds(recvs: seq<Recv>, room: nat, got: string)
    requires recvs == [] || recvs[0].WouldBlock?
    ensures After(got, Drained(recvs, room)) == Some(got)
  {
    assert got + "" == got;
  }

  lemma AfterNothing(r: Option<string>)
    ensures After("", r) == r
  {
    if r.Some? { assert "" + r.value == r.value; }
  }

  lemma AppendNothing(c: Conn)
    ensures Append(c, "") == c
  {
    match c
    case InHead(_, rest, _) => assert rest + "" == rest;
    case InBody(_, tail, _, _) => assert tail + "" == tail;
  }

  lemma AppendTwice(c: Conn, a: string, b: string)
    ensures Append(Append(c, a), b) == Append(c, a + b)
  {
    match c
    case InHead(_, rest, _) => assert rest + a + b == rest + (a + b);
    case InBody(_, tail, _, _) => assert tail + a + b == tail + (a + b);
  }

  /** What arrives in successive read_once calls up to the first one that fails. */
  datatype Arrival = Arrival(chunks: seq<string>, failed: bool)

  function Arriving(events: seq<seq<Recv>>, edge: bool, room: nat): Arrival
    decreases |events|
  {
    if events == [] then Arrival([], false)
    else
      match ReadResult(events[0], edge, room)
      case None => Arrival([], true)
      case Some(chunk) =>
        var a := Arriving(events[1..], edge, room - |chunk|);
        Arrival([chunk] + a.chunks, a.failed)
  }

  lemma ArrivingNothing(c: Conn, edge: bool, room: nat)
    requires ConnOk(c)
    ensures Arriving([], edge, room) == Arrival([], false) && Feed(c, []) == NoRequest(c)
  {
  }

  lemma ArrivingStep(c: Conn, events: seq<seq<Recv>>, edge: bool, room: nat)
    requires events != [] && ConnOk(c)
    ensures var a, r := Arriving(events, edge, room), ReadResult(events[0], edge, room);
      && (r.None? ==> a == Arrival([], true) && Feed(c, a.chunks) == NoRequest(c))
      && (r.Some? ==>
           var o, b := Receive(c, r.value), Arriving(events[1..], edge, room - |r.value|);
           && a.failed == b.failed
           && (o.NoRequest? ==> ConnOk(o.conn) && Feed(c, a.chunks) == Feed(o.conn, b.chunks))
           && (!o.NoRequest? ==> Feed(c, a.chunks) == o))
  {
    hide ReadResult;
    var a, r := Arriving(events, edge, room), ReadResult(events[0], edge, room);
    if r.Some? {
      ReceiveOk(c, r.value);
      assert a.chunks[1..] == Arriving(events[1..], edge, room - |r.value|).chunks;
    }
  }

  class HttpConn {
    const readBuf: array<char>
    var readIdx: nat
    var checkedIdx: nat
    var startLine: nat
    var checkState: Phase
    var cgi: bool          // m_method == POST
    var url: int
    var version: int
    var host: int
    var cookie: string
    var linger: bool
    var contentLength: int
    var text: int          // m_string
    ghost var request: Request // what has been parsed
    ghost var buf: string      // the content of readBuf

    constructor ()
      ensures Valid() && fresh(readBuf) && readBuf.Length == 65536 && Abs() == FRESH
    {
      readBuf := new char[READ_BUFFER_SIZE](_ => NUL);
      readIdx, checkedIdx, startLine := 0, 0, 0;
      checkState, cgi := RequestLine, false;
      url, version, host, text := NULL, NULL, NULL, NULL;
      cookie, linger, contentLength := "", false, 0;
      request := NEW_REQUEST;
      new;
      buf := readBuf[..];
    }

    ghost predicate Mirrored()
      reads this`buf, readBuf
    {
      readBuf.Length == READ_BUFFER_SIZE && readBuf[..] == buf
    }

    ghost predicate FlagsOf(r: Request)
      reads this
    {
      checkState == r.phase && cgi == r.post && cookie == r.cookie && linger == r.linger && contentLength == r.length
    }

    /** The fields say what `request` says; strings in the buffer end in front of the line in work. */
    ghost predicate Fields()
      reads this
    {
      && FlagsOf(request)
      && StoredFields(buf, startLine, request, url, version, host)
    }

    /** The line in work was scanned up to `checkedIdx` and holds no line end so far. */
    ghost predicate Indices()
      reads this
    {
      && |buf| == READ_BUFFER_SIZE
      && startLine <= checkedIdx <= readIdx <= READ_BUFFER_SIZE
      && (checkState == RequestLine ==> startLine == 0)
      && (forall k :: startLine <= k < checkedIdx ==> buf[k] != '\r' && buf[k] != '\n')
      && (startLine > 0 ==> buf[startLine - 1] != '\r')
    }

    ghost predicate Valid()
      reads this, readBuf
    {
      Mirrored() && Indices() && Fields()
    }

    /** The connection as a value. */
    ghost function Abs(): (c: Conn)
      requires Indices() && Fields()
      reads this
      ensures ConnInv(c)
    {
      if checkState == Content then InBody(request, buf[startLine..readIdx], checkedIdx - startLine, startLine)
      else InHead(request, buf[startLine..readIdx], startLine)
    }

    /** recv() into the rest of the buffer: the received bytes go behind the ones already there. */
    method Receive(chunk: string)
      requires Valid() && readIdx + |chunk| <= READ_BUFFER_SIZE
      modifies this`readIdx, this`buf, readBuf
      ensures Valid() && Abs() == Append(old(Abs()), chunk) && readIdx == old(readIdx) + |chunk|
    {
      hide Holds, StoredFields;
      ghost var buf0, n0 := buf, readIdx;
      for i := 0 to |chunk|
        invariant readIdx == n0 && readBuf[..n0] == buf0[..n0] && readBuf[n0..n0 + i] == chunk[..i]
      {
        readBuf[readIdx + i] := chunk[i];
      }
      buf := readBuf[..];
      assert buf[..n0] == buf0[..n0] && buf[n0..n0 + |chunk|] == chunk;
      StoredFrame(buf0, buf, startLine, n0, request, url, version, host);
      readIdx := readIdx + |chunk|;
      SliceAppend(buf0, buf, startLine, n0, chunk);
      assert forall k :: 0 <= k < n0 ==> buf[k] == buf[..n0][k] == buf0[..n0][k] == buf0[k];
    }

    /** read_once(), on what successive calls of recv deliver: false for a full buffer, a closed connection
        or an error, when the caller closes the connection; otherwise the bytes are behind those there. */
    method ReadOnce(recvs: seq<Recv>, edge: bool) returns (ok: bool)
      requires Valid()
      modifies this`readIdx, this`buf, readBuf
      ensures ok <==> ReadResult(recvs, edge, READ_BUFFER_SIZE - old(readIdx)).Some?
      ensures ok ==> Valid() && Abs() == Append(old(Abs()), ReadResult(recvs, edge, READ_BUFFER_SIZE - old(readIdx)).value)
      ensures ok ==> readIdx == old(readIdx) + |ReadResult(recvs, edge, READ_BUFFER_SIZE - old(readIdx)).value|
    {
      hide Mirrored, Indices, Fields, Abs;
      WithinBuffer();
      if readIdx >= READ_BUFFER_SIZE { return false; }
      if !edge {
        if recvs == [] || !recvs[0].Bytes? || Arrived(recvs[0].data, READ_BUFFER_SIZE - readIdx) == "" { return false; }
        Receive(Arrived(recvs[0].data, READ_BUFFER_SIZE - readIdx));
        return true;
      }
      ok := ReadAll(recvs);
    }

    /** The loop of read_once() when edge-triggered. */
    method ReadAll(recvs: seq<Recv>) returns (ok: bool)
      requires Valid() && readIdx < READ_BUFFER_SIZE
      modifies this`readIdx, this`buf, readBuf
      ensures ok <==> Drained(recvs, READ_BUFFER_SIZE - old(readIdx)).Some?
      ensures ok ==> Valid() && Abs() == Append(old(Abs()), Drained(recvs, READ_BUFFER_SIZE - old(readIdx)).value)
      ensures ok ==> readIdx == old(readIdx) + |Drained(recvs, READ_BUFFER_SIZE - old(readIdx)).value|
    {
      hide Mirrored, Indices, Fields, Abs, Append, Arrived, Drained, After;
      ghost var n0, c0 := readIdx, Abs();
      var i := 0;
      ghost var got: string := "";
      assert recvs[0..] == recvs;
      AppendNothing(c0);
      AfterNothing(Drained(recvs, READ_BUFFER_SIZE - n0));
      while i < |recvs| && !recvs[i].WouldBlock?
        invariant 0 <= i <= |recvs| && Valid() && readIdx == n0 + |got| <= READ_BUFFER_SIZE && Abs() == Append(c0, got)
        invariant Drained(recvs, READ_BUFFER_SIZE - n0) == After(got, Drained(recvs[i..], READ_BUFFER_SIZE - readIdx))
      {
        ghost var left := recvs[i..];
        assert left[0] == recvs[i] && left[1..] == recvs[i + 1..];
        DrainCases(left, READ_BUFFER_SIZE - readIdx, got);
        if !recvs[i].Bytes? { return false; }
        var chunk := Arrived(recvs[i].data, READ_BUFFER_SIZE - readIdx);
        if chunk == "" { return false; }
        AppendTwice(c0, got, chunk);
        Receive(chunk);
        got := got + chunk;
        i := i + 1;
      }
      DrainEnds(recvs[i..], READ_BUFFER_SIZE - readIdx, got);
      return true;
    }

    lemma WithinBuffer()
      requires Valid()
      ensures readIdx <= READ_BUFFER_SIZE
    {
    }

    /** The line end at m_checked_idx is overwritten. */
    method CloseLine()
      requires Mirrored() && checkedIdx + 1 < |buf| == READ_BUFFER_SIZE
      modifies this`checkedIdx, this`buf, readBuf
      ensures Mirrored() && checkedIdx == old(checkedIdx) + 2 && buf == Blanked(old(buf), old(checkedIdx))
    {
      readBuf[checkedIdx] := NUL;
      checkedIdx := checkedIdx + 1;
      readBuf[checkedIdx] := NUL;
      checkedIdx := checkedIdx + 1;
      buf := readBuf[..];
    }

    /** parse_line(). */
    method ParseLine() returns (status: LineStatus)
      requires Mirrored() && Indices()
      modifies this`checkedIdx, this`buf, readBuf
      ensures Mirrored()
      ensures var l := Scan(old(buf[..readIdx]), old(checkedIdx));
        && (status.LINE_OK? <==> l.LineOk?) && (status.LINE_OPEN? <==> l.LineOpen?)
        && checkedIdx == (if l.LineOk? then l.at + 2 else l.at)
        && buf == if l.LineOk? then Blanked(old(buf), l.at) else old(buf)
    {
      hide Blanked;
      ghost var s := buf[..readIdx];
      ghost var l := Scan(s, checkedIdx);
      while checkedIdx < readIdx
        invariant startLine <= checkedIdx <= readIdx
        invariant Scan(s, checkedIdx) == l && readBuf[..] == buf == old(buf)
        invariant checkedIdx > 0 ==> buf[checkedIdx - 1] != '\r'
      {
        var temp := readBuf[checkedIdx];
        if temp == '\r' {
          if checkedIdx + 1 == readIdx {
            return LINE_OPEN;
          } else if readBuf[checkedIdx + 1] == '\n' {
            CloseLine();
            return LINE_OK;
          }
          return LINE_BAD;
        } else if temp == '\n' {
          // The test for a CR one position back cannot succeed: the scanner never steps over a CR.
          assert !(checkedIdx > 1 && readBuf[checkedIdx - 1] == '\r');
          return LINE_BAD;
        }
        checkedIdx := checkedIdx + 1;
      }
      return LINE_OPEN;
    }

    /** parse_line(), seen from the line in work: a complete line is closed by two NULs. */
    method ScanLine() returns (status: LineStatus)
      requires Valid()
      modifies this`checkedIdx, this`buf, readBuf
      ensures Mirrored() && Fields() && |buf| == READ_BUFFER_SIZE && buf[..startLine] == old(buf)[..startLine]
      ensures var tail := old(buf)[startLine..readIdx];
        var l := Scan(tail, 0);
        && (status.LINE_OK? <==> l.LineOk?)
        && (l.LineOk? ==> checkedIdx == startLine + l.at + 2 && buf[startLine..readIdx] == Blanked(tail, l.at))
        && (!l.LineOk? ==> Indices() && checkedIdx == startLine + l.at && buf == old(buf))
    {
      hide Mirrored, Holds, StoredFields, Scan;
      ghost var buf0, start, at0 := buf, startLine, checkedIdx;
      LineInBuffer(buf0, start, at0, readIdx);
      status := ParseLine();
      ghost var l := Scan(buf0[..readIdx], at0);
      if l.LineOk? {
        BlankedTail(buf0, start, readIdx, l.at);
      }
      StoredFrame(buf0, buf, start, start, request, url, version, host);
    }

    function StringAt(p: int): string
      requires 0 <= p <= readBuf.Length
      reads readBuf
    {
      CStr(readBuf[p..])
    }

    /** Reading the string `s` at `p`. */
    lemma StringIs(p: int, s: string)
      requires Mirrored() && Holds(buf, p, s)
      ensures 0 <= p && p + |s| < READ_BUFFER_SIZE == readBuf.Length && StringAt(p) == s
    {
      HoldsIs(buf, p, s);
      assert readBuf[p..] == buf[p..];
    }

    /** strspn: blanks skipped from `p`, where the string `s` stands. */
    method Skip(p: int, ghost s: string) returns (q: int)
      requires Mirrored() && Holds(buf, p, s)
      ensures p <= q && q + |SkipBlanks(s)| == p + |s| && Holds(buf, q, SkipBlanks(s))
    {
      StringIs(p, s);
      HoldsDrop(buf, p, s, Strspn(s));
      q := p + Strspn(StringAt(p));
    }

    /** strpbrk and the NUL written there: the string `s` at `p` is cut at its first blank. */
    method CutAtBlank(p: int, ghost s: string) returns (q: int)
      requires Mirrored() && Holds(buf, p, s)
      modifies this`buf, readBuf
      ensures Mirrored() && SameOutside(old(buf), buf, p, |s|) && 0 <= p
      ensures Strpbrk(s) == |s| ==> q == NULL
      ensures Strpbrk(s) < |s| ==>
        && q == p + Strpbrk(s) + 1
        && Holds(buf, p, s[..Strpbrk(s)]) && Holds(buf, q, s[Strpbrk(s) + 1..])
    {
      StringIs(p, s);
      var n := Strpbrk(StringAt(p));
      if n == |StringAt(p)| {
        return NULL;
      }
      HoldsCut(buf, p, s, n);
      readBuf[p + n] := NUL;
      buf := buf[p + n := NUL];
      q := p + n + 1;
    }

    /** strchr: the string `s` at `p` from its first slash on; NULL if there is none. */
    method SlashFrom(p: int, ghost s: string) returns (q: int)
      requires Mirrored() && Holds(buf, p, s)
      ensures FromSlash(s).None? ==> q == NULL
      ensures FromSlash(s).Some? ==> q >= p && q + |FromSlash(s).value| == p + |s| && Holds(buf, q, FromSlash(s).value)
    {
      StringIs(p, s);
      var n := Strchr(StringAt(p), '/');
      if n == |StringAt(p)| {
        return NULL;
      }
      HoldsDrop(buf, p, s, n);
      q := p + n;
    }

    /** If the string `s` at m_url starts with `scheme`, m_url moves to the first slash behind it. */
    method CutScheme(scheme: string, ghost s: string)
      requires Mirrored() && Holds(buf, url, s)
      modifies this`url
      ensures CutUrl(scheme, s).None? ==> url == NULL
      ensures CutUrl(scheme, s).Some? ==>
        && url >= 0 && Holds(buf, url, CutUrl(scheme, s).value)
        && old(url) <= url && url + |CutUrl(scheme, s).value| == old(url) + |s|
    {
      hide Mirrored, Holds, CStr, StrCaseEq, FromSlash, NoNul;
      StringIs(url, s);
      if StartsWithCase(StringAt(url), scheme) {
        HoldsDrop(buf, url, s, |scheme|);
        url := SlashFrom(url + |scheme|, s[|scheme|..]);
      }
    }

    /** The part of parse_request_line behind the version check; `s` is the string at m_url. */
    method CheckTarget(ghost r: Request, ghost s: string) returns (code: HttpCode)
      requires Mirrored() && Holds(buf, url, s)
      modifies this`url, this`checkState
      ensures var step := CheckUrl(r, s);
        && (step.Reject? ==> code == BAD_REQUEST)
        && (step.Crash? ==> code == UNDEFINED)
        && (step.Next? ==>
             && code == NO_REQUEST && checkState == Header && step.request == r.(phase := Header, url := step.request.url)
             && Holds(buf, url, step.request.url)
             && old(url) <= url && url + |step.request.url| == old(url) + |s|)
    {
      hide Mirrored, Holds, CutUrl;
      CutScheme(HTTP_SCHEME, s);
      if url == NULL {
        return UNDEFINED;
      }
      ghost var t := CutUrl(HTTP_SCHEME, s).value;
      CutScheme(HTTPS_SCHEME, t);
      if url == NULL {
        return BAD_REQUEST;
      }
      var slash := CharIs(url, '/', CutUrl(HTTPS_SCHEME, t).value);
      if !slash {
        return BAD_REQUEST;
      }
      checkState := Header;
      return NO_REQUEST;
    }

    /** The test of the first character of the string `s` at `p`. */
    method CharIs(p: int, c: char, ghost s: string) returns (b: bool)
      requires Mirrored() && Holds(buf, p, s) && c != NUL
      ensures b <==> s != "" && s[0] == c
    {
      b := readBuf[p] == c;
      if s != "" { assert buf[p] == buf[p..p + |s|][0]; }
    }

    /** The method word: cut off, compared; m_url is left at the target. */
    method ParseVerb(start: int, ghost line: string) returns (ok: bool)
      requires Mirrored() && Holds(buf, start, line)
      modifies this`url, this`cgi, this`buf, readBuf
      ensures Mirrored() && SameOutside(old(buf), buf, start, |line|)
      ensures var m := Strpbrk(line);
        && (ok <==> m < |line| && (StrCaseEq(line[..m], GET) || StrCaseEq(line[..m], POST)))
        && (ok ==> var target := SkipBlanks(line[m + 1..]);
                   && Holds(buf, url, target) && start <= url && url + |target| == start + |line|
                   && cgi == (old(cgi) || StrCaseEq(line[..m], POST)))
    {
      VerbsDiffer();
      hide Mirrored, Holds, CStr, StrCaseEq, NoNul, SkipBlanks, SameOutside;
      url := CutAtBlank(start, line);
      if url == NULL {
        return false;
      }
      StringIs(start, line[..Strpbrk(line)]);
      if StrCaseEq(StringAt(start), GET) {
      } else if StrCaseEq(StringAt(start), POST) {
        cgi := true;
      } else {
        return false;
      }
      url := Skip(url, line[Strpbrk(line) + 1..]);
      return true;
    }

    /** The version: cut off from the target, compared. */
    method ParseVersion(ghost target: string) returns (ok: bool)
      requires Mirrored() && Holds(buf, url, target)
      modifies this`version, this`buf, readBuf
      ensures Mirrored() && SameOutside(old(buf), buf, url, |target|)
      ensures var u := Strpbrk(target);
        && (ok <==> u < |target| && StrCaseEq(SkipBlanks(target[u + 1..]), HTTP_1_1))
        && (ok ==> var v := SkipBlanks(target[u + 1..]);
                   && Holds(buf, url, target[..u]) && Holds(buf, version, v)
                   && url <= version && version + |v| == url + |target|)
    {
      hide Mirrored, Holds, CStr, StrCaseEq, NoNul, SkipBlanks, SameOutside;
      version := CutAtBlank(url, target);
      if version == NULL {
        return false;
      }
      ghost var rest := target[Strpbrk(target) + 1..];
      version := Skip(version, rest);
      StringIs(version, SkipBlanks(rest));
      return StrCaseEq(StringAt(version), HTTP_1_1);
    }

    /** parse_request_line(), on the string `line` at `start`. */
    method ParseRequestLine(start: int, ghost line: string) returns (code: HttpCode)
      requires Mirrored() && Holds(buf, start, line) && cgi == request.post
      modifies this`url, this`version, this`cgi, this`checkState, this`buf, readBuf
      ensures Mirrored() && SameOutside(old(buf), buf, start, |line|)
      ensures var step := OnRequestLine(request, line);
        && (step.Reject? ==> code == BAD_REQUEST)
        && (step.Crash? ==> code == UNDEFINED)
        && (step.Next? ==> code == NO_REQUEST && checkState == Header && cgi == step.request.post)
        && StoredLine(buf, start + |line| + 1, request, step, url, version)
    {
      hide Mirrored, Holds, CheckUrl, SameOutside, NoNul, SkipBlanks, StrCaseEq, CStr, Strpbrk;
      ghost var buf0 := buf;
      var ok := ParseVerb(start, line);
      ghost var buf1 := buf;
      if !ok {
        return BAD_REQUEST;
      }
      ghost var target := SkipBlanks(line[Strpbrk(line) + 1..]);
      ghost var start1 := url;
      ok := ParseVersion(target);
      SameOutsideCompose(buf0, buf1, buf, start, |line|, start1, |target|);
      if !ok {
        return BAD_REQUEST;
      }
      ghost var u := Strpbrk(target);
      ghost var r := request.(post := cgi, version := SkipBlanks(target[u + 1..]));
      assert OnRequestLine(request, line) == CheckUrl(r, target[..u]);
      CheckUrlKeeps(r, target[..u]);
      code := CheckTarget(r, target[..u]);
    }

    /** text += n, then strspn: the position behind a header name and blanks. */
    method SkipAfter(start: int, ghost line: string, n: nat) returns (p: int)
      requires Mirrored() && Holds(buf, start, line) && n <= |line|
      ensures Holds(buf, p, SkipBlanks(line[n..])) && 0 <= p <= readBuf.Length
      ensures p + |SkipBlanks(line[n..])| == start + |line| && StringAt(p) == SkipBlanks(line[n..])
    {
      hide Mirrored, Holds;
      HoldsDrop(buf, start, line, n);
      p := Skip(start + n, line[n..]);
      StringIs(p, SkipBlanks(line[n..]));
    }

    /** parse_headers(), on the string `line` at `start`. */
    method ParseHeaders(start: int, ghost line: string) returns (code: HttpCode)
      requires Mirrored() && Holds(buf, start, line) && start + |line| < startLine && Fields() && checkState == Header
      modifies this`checkState, this`linger, this`contentLength, this`host, this`cookie, this`request
      ensures Fields() && checkState != RequestLine
      ensures var step := OnHeader(old(request), line);
        && ((step.Next? && code == NO_REQUEST) || (step.Complete? && code == GET_REQUEST))
        && request == step.request
    {
      StringIs(start, line);
      hide Mirrored, Holds, CStr;
      if StringAt(start) == "" {
        if contentLength != 0 {
          checkState := Content;
          request := request.(phase := Content);
          return NO_REQUEST;
        }
        return GET_REQUEST;
      }
      ParseField(start, line);
      return NO_REQUEST;
    }

    /** parse_headers on a line that is not empty. */
    method ParseField(start: int, ghost line: string)
      requires Mirrored() && Holds(buf, start, line) && start + |line| < startLine && Fields() && line != ""
      modifies this`linger, this`contentLength, this`host, this`cookie, this`request
      ensures Fields() && OnHeader(old(request), line) == Next(request)
    {
      StringIs(start, line);
      FieldCases(request, line);
      hide Mirrored, Holds, CStr, Fields, OnHeader, StrCaseEq, StartsWithCase, SkipBlanks, Atol, ToInt32;
      hide CONNECTION, CONTENT_LENGTH, HOST, COOKIE, KEEP_ALIVE;
      if StartsWithCase(StringAt(start), CONNECTION) {
        var p := SkipAfter(start, line, 11);
        if StrCaseEq(StringAt(p), KEEP_ALIVE) {
          SetLinger();
        }
      } else if StartsWithCase(StringAt(start), CONTENT_LENGTH) {
        var p := SkipAfter(start, line, 15);
        SetContentLength(ToInt32(Atol(StringAt(p))));
      } else if StartsWithCase(StringAt(start), HOST) {
        var p := SkipAfter(start, line, 5);
        SetHost(p, SkipBlanks(line[5..]));
      } else if StartsWithCase(StringAt(start), COOKIE) {
        var p := SkipAfter(start, line, 7);
        SetCookie(StringAt(p));
      }
    }

    method SetLinger()
      requires Fields()
      modifies this`linger, this`request
      ensures Fields() && request == old(request).(linger := true)
    {
      linger, request := true, request.(linger := true);
    }

    method SetContentLength(length: int)
      requires Fields()
      modifies this`contentLength, this`request
      ensures Fields() && request == old(request).(length := length)
    {
      contentLength, request := length, request.(length := length);
    }

    method SetHost(p: int, ghost s: string)
      requires Fields() && Stored(buf, startLine, p, s)
      modifies this`host, this`request
      ensures Fields() && request == old(request).(host := Some(s))
    {
      host, request := p, request.(host := Some(s));
    }

    method SetCookie(s: string)
      requires Fields()
      modifies this`cookie, this`request
      ensures Fields() && request == old(request).(cookie := s)
    {
      cookie, request := s, request.(cookie := s);
    }

    /** The scanner stands behind the line `raw`, which two NULs close, and in front of `rest`. */
    ghost predicate LineClosed(raw: string, rest: string)
      reads this
    {
      && |buf| == READ_BUFFER_SIZE && checkedIdx == startLine + |raw| + 2 <= readIdx <= READ_BUFFER_SIZE
      && buf[startLine..startLine + |raw|] == raw && buf[checkedIdx..readIdx] == rest
      && buf[startLine + |raw|] == NUL && buf[startLine + |raw| + 1] == NUL
      && (checkState == RequestLine ==> startLine == 0)
    }

    lemma LineIsClosed(tail: string, at: nat)
      requires at + 1 < |tail| && |buf| == READ_BUFFER_SIZE && startLine <= readIdx <= READ_BUFFER_SIZE
      requires buf[startLine..readIdx] == Blanked(tail, at) && checkedIdx == startLine + at + 2
      requires checkState == RequestLine ==> startLine == 0
      ensures LineClosed(tail[..at], tail[at + 2..])
    {
      var s := buf[startLine..readIdx];
      assert s[..at] == tail[..at] && s[at + 2..] == tail[at + 2..];
      assert buf[startLine..startLine + at] == s[..at] && buf[checkedIdx..readIdx] == s[at + 2..];
      assert buf[startLine + at] == s[at] && buf[startLine + at + 1] == s[at + 1];
    }

    /** What a line led to: the code returned, and, unless it was rejected, the next state. */
    ghost predicate Took(step: Step, code: HttpCode, rest: string)
      reads this
    {
      && (step.Reject? ==> code == BAD_REQUEST)
      && (step.Crash? ==> code == UNDEFINED)
      && (step.Complete? ==> code == GET_REQUEST && request == step.request && Fields())
      && (step.Next? ==>
           && code == NO_REQUEST && request == step.request && Indices() && Fields()
           && startLine == checkedIdx && buf[startLine..readIdx] == rest)
    }

    /** process_read's switch in the first two states, on the complete line `raw` in work, with `rest`
        behind it; m_start_line moves on first. */
    method TakeLine(ghost raw: string, ghost rest: string) returns (code: HttpCode)
      requires Mirrored() && checkState != Content && Fields() && LineClosed(raw, rest)
      modifies this`startLine, this`checkState, this`cgi, this`url, this`version, this`host
      modifies this`cookie, this`linger, this`contentLength, this`request, this`buf, readBuf
      ensures Mirrored() && Took(OnLine(old(request), raw), code, rest)
    {
      hide Mirrored, LineClosed, Took, CStr, StoredFields, OnHeader, OnRequestLine;
      assert request.phase == checkState;
      if checkState == RequestLine {
        code := TakeRequestLine(raw, rest);
      } else {
        code := TakeHeader(raw, rest);
      }
    }

    /** The scanner stands behind a line of `n` bytes: m_start_line may move on. */
    method MoveStart(ghost raw: string, ghost rest: string)
      requires Fields() && LineClosed(raw, rest)
      modifies this`startLine
      ensures Fields() && startLine == checkedIdx && Behind(rest)
      ensures Holds(buf, old(startLine), CStr(raw)) && old(startLine) + |CStr(raw)| < startLine
    {
      HoldsLine(buf, startLine, |raw|);
      StoredWiden(buf, startLine, checkedIdx, request, url, version, host);
      hide Holds, StoredFields, CStr;
      startLine := checkedIdx;
    }

    /** The line in work is empty so far and `rest` is unread. */
    ghost predicate Behind(rest: string)
      reads this`buf, this`startLine, this`checkedIdx, this`readIdx
    {
      && |buf| == READ_BUFFER_SIZE && 0 < startLine == checkedIdx <= readIdx <= READ_BUFFER_SIZE
      && buf[startLine - 1] == NUL && buf[startLine..readIdx] == rest
    }

    method TakeHeader(ghost raw: string, ghost rest: string) returns (code: HttpCode)
      requires Mirrored() && checkState == Header && Fields() && LineClosed(raw, rest)
      modifies this`startLine, this`checkState, this`host, this`cookie, this`linger, this`contentLength, this`request
      ensures Mirrored() && Took(OnHeader(old(request), CStr(raw)), code, rest)
    {
      hide Mirrored, Holds, Fields, LineClosed, CStr, OnHeader;
      var start := startLine;
      MoveStart(raw, rest);
      code := ParseHeaders(start, CStr(raw));
    }

    method TakeRequestLine(ghost raw: string, ghost rest: string) returns (code: HttpCode)
      requires Mirrored() && checkState == RequestLine && Fields() && LineClosed(raw, rest)
      modifies this`startLine, this`checkState, this`cgi, this`url, this`version, this`request, this`buf, readBuf
      ensures Mirrored() && Took(OnRequestLine(old(request), CStr(raw)), code, rest)
    {
      hide Mirrored, Holds, StoredFields, StoredLine, CStr, OnRequestLine, SameOutside, LineClosed, Fields;
      ghost var line, r, step := CStr(raw), request, OnRequestLine(request, CStr(raw));
      RequestLineCompletesNothing(request, line);
      FieldsAtStart(raw, rest);
      var start := startLine;
      MoveStart(raw, rest);
      ghost var buf1 := buf;
      code := ParseRequestLine(start, line);
      if code == NO_REQUEST && step.Next? {
        BehindFrame(buf1, start, |line|, rest);
        request := step.request;
        FieldsAfterRequestLine(r, step, start + |line| + 1);
      }
    }

    /** While the request line is awaited nothing points into the buffer. */
    lemma FieldsAtStart(raw: string, rest: string)
      requires Fields() && checkState == RequestLine && LineClosed(raw, rest)
      ensures cgi == request.post && cookie == request.cookie && linger == request.linger
      ensures contentLength == request.length && request.host.None? && host == NULL
    {
    }

    lemma BehindFrame(buf1: string, p: int, n: nat, rest: string)
      requires SameOutside(buf1, buf, p, n) && p + n < startLine
      requires |buf1| == READ_BUFFER_SIZE && 0 < startLine == checkedIdx <= readIdx <= READ_BUFFER_SIZE
      requires buf1[startLine - 1] == NUL && buf1[startLine..readIdx] == rest
      ensures Behind(rest)
    {
    }

    lemma FieldsAfterRequestLine(r: Request, step: Step, limit: int)
      requires step.Next? && StoredLine(buf, limit, r, step, url, version) && limit <= startLine
      requires request == step.request && checkState == Header && cgi == request.post
      requires cookie == r.cookie && linger == r.linger && contentLength == r.length && r.host.None? && host == NULL
      ensures Fields()
    {
    }

    /** parse_content(), on the bytes from `start` on, with m_start_line already moved to m_checked_idx;
        writing behind the buffer or in front of the body is undefined. */
    method ParseContent(start: nat, ghost tail: string) returns (code: HttpCode)
      requires Mirrored() && |buf| == READ_BUFFER_SIZE && start <= checkedIdx <= readIdx <= READ_BUFFER_SIZE
      requires StoredFields(buf, start, request, url, version, host) && tail == buf[start..readIdx]
      modifies this`text, this`buf, readBuf
      ensures Mirrored()
      ensures readIdx < contentLength + checkedIdx ==> code == NO_REQUEST && buf == old(buf) && text == old(text)
      ensures readIdx >= contentLength + checkedIdx && !(0 <= contentLength && start + contentLength < READ_BUFFER_SIZE) ==>
                code == UNDEFINED
      ensures readIdx >= contentLength + checkedIdx && 0 <= contentLength && start + contentLength < READ_BUFFER_SIZE ==>
                && code == GET_REQUEST && StoredFields(buf, start, request, url, version, host)
                && |buf| == READ_BUFFER_SIZE && Holds(buf, text, CStr(tail[..contentLength]))
    {
      hide Holds, StoredFields, CStr;
      if readIdx >= contentLength + checkedIdx {
        if contentLength < 0 || start + contentLength >= READ_BUFFER_SIZE {
          return UNDEFINED;
        }
        ghost var buf0 := buf;
        readBuf[start + contentLength] := NUL;
        buf := buf[start + contentLength := NUL];
        text := start;
        CutBehind(buf0, start, contentLength, readIdx);
        HoldsLine(buf, start, contentLength);
        StoredFrame(buf0, buf, start, start, request, url, version, host);
        return GET_REQUEST;
      }
      return NO_REQUEST;
    }

    /** The outcome of process_read, in the fields and the code returned. */
    ghost predicate Shows(o: Outcome, code: HttpCode)
      reads this
    {
      match o
      case NoRequest(c) => code == NO_REQUEST && Indices() && Fields() && Abs() == c
      case BadRequest => code == BAD_REQUEST
      case Ready(r, None) => code == GET_REQUEST && request == r && Fields()
      case Ready(r, Some(t)) => code == GET_REQUEST && request == r && Fields() && Holds(buf, text, t)
      case Undefined => code == UNDEFINED
    }

    /** One round of process_read's loop in the first two states. */
    method HeadRound(ghost goal: Outcome) returns (more: bool, code: HttpCode)
      requires Valid() && checkState != Content && goal == Process(Abs())
      modifies this`checkedIdx, this`startLine, this`checkState, this`cgi, this`url, this`version, this`host
      modifies this`cookie, this`linger, this`contentLength, this`request, this`buf, readBuf
      ensures Mirrored()
      ensures !more ==> Shows(goal, code)
      ensures more ==> Indices() && Fields() && Process(Abs()) == goal && checkedIdx > old(checkedIdx)
    {
      hide Mirrored, Process, Scan, LineClosed, OnLine, StoredFields, Holds, Blanked, Took, Abs, Shows;
      ghost var tail, r, base := buf[startLine..readIdx], request, startLine;
      HeadState();
      LineOrNot(r, tail, base);
      var status := ScanLine();
      if !status.LINE_OK? {
        HeadState();
        ShowsWaiting();
        return false, NO_REQUEST;
      }
      ghost var at := Scan(tail, 0).at;
      LineIsClosed(tail, at);
      code := TakeLine(tail[..at], tail[at + 2..]);
      more := code == NO_REQUEST;
      LineTaken(OnLine(r, tail[..at]), code, tail[at + 2..], goal);
    }

    lemma HeadState()
      requires Indices() && Fields() && checkState != Content
      ensures Abs() == InHead(request, buf[startLine..readIdx], startLine)
    {
    }

    lemma ShowsWaiting()
      requires Indices() && Fields()
      ensures Shows(NoRequest(Abs()), NO_REQUEST)
    {
    }

    /** What a taken line means for the outcome `goal` of the call. */
    lemma LineTaken(step: Step, code: HttpCode, rest: string, goal: Outcome)
      requires Took(step, code, rest)
      requires match step
        case Reject => goal == BadRequest
        case Crash => goal == Undefined
        case Complete(r) => goal == Ready(r, None)
        case Next(r) =>
          goal == Process(if r.phase == Content then InBody(r, rest, 0, checkedIdx) else InHead(r, rest, checkedIdx))
      ensures !step.Next? ==> code != NO_REQUEST && Shows(goal, code)
      ensures step.Next? ==> code == NO_REQUEST && Indices() && Fields() && Process(Abs()) == goal
    {
      hide Process;
    }

    /** process_read, in the content state, just behind an incomplete parse_content. */
    ghost predicate BodyLine(goal: Outcome)
      reads this
    {
      && Indices() && Fields() && checkState == Content && startLine == checkedIdx
      && goal == AfterBody(request, ScanBody(buf[startLine..readIdx], startLine, contentLength))
    }

    /** parse_content in the loop: done, or m_start_line stands where the scanner does. */
    method BodyRound(ghost goal: Outcome) returns (more: bool, code: HttpCode)
      requires Valid() && checkState == Content && goal == Process(Abs())
      modifies this`startLine, this`text, this`buf, readBuf
      ensures Mirrored()
      ensures !more ==> Shows(goal, code)
      ensures more ==> BodyLine(goal)
    {
      hide Mirrored, Indices, Fields, Holds, StoredFields, CStr, Process, Shows, Abs, BodyLine, InContent;
      var start := MoveLine(goal);
      ghost var tail := buf[start..readIdx];
      ContentCases(start, goal, tail);
      code := ParseContent(start, tail);
      more := code == NO_REQUEST;
      if code == GET_REQUEST {
        ContentDone(start, CStr(tail[..contentLength]));
      } else if code == UNDEFINED {
        ShowsUndefined();
      }
    }

    /** process_read about to call parse_content on the bytes from `start` on; m_start_line has moved on. */
    ghost predicate InContent(start: nat, goal: Outcome)
      reads this
    {
      && |buf| == READ_BUFFER_SIZE && start <= startLine == checkedIdx <= readIdx <= READ_BUFFER_SIZE
      && checkState == Content && StoredFields(buf, start, request, url, version, host) && FlagsOf(request)
      && (startLine > 0 ==> buf[startLine - 1] != '\r')
      && goal == Process(InBody(request, buf[start..readIdx], checkedIdx - start, start))
    }

    method MoveLine(ghost goal: Outcome) returns (start: nat)
      requires Valid() && checkState == Content && goal == Process(Abs())
      modifies this`startLine
      ensures Mirrored() && InContent(start, goal) && start <= readIdx <= |buf|
    {
      hide Mirrored, StoredFields, Process;
      start := startLine;
      startLine := checkedIdx;
    }

    /** What parse_content decides. */
    lemma ContentCases(start: nat, goal: Outcome, tail: string)
      requires InContent(start, goal) && tail == buf[start..readIdx]
      ensures |buf| == READ_BUFFER_SIZE && start <= checkedIdx <= readIdx <= READ_BUFFER_SIZE
      ensures StoredFields(buf, start, request, url, version, host) && start <= startLine && FlagsOf(request)
      ensures readIdx < contentLength + checkedIdx ==> BodyLine(goal)
      ensures readIdx >= contentLength + checkedIdx ==>
        if 0 <= contentLength && start + contentLength < READ_BUFFER_SIZE
        then goal == Ready(request, Some(CStr(tail[..contentLength]))) else goal == Undefined
    {
      hide StoredFields, ScanBody, ParseBody, CStr, Process;
      BodyTest(request, tail, checkedIdx - start, start);
      StoredWiden(buf, start, startLine, request, url, version, host);
      DropDrop(buf, start, startLine, readIdx);
    }

    lemma ContentDone(start: nat, t: string)
      requires |buf| == READ_BUFFER_SIZE && start <= startLine && FlagsOf(request)
      requires StoredFields(buf, start, request, url, version, host) && Holds(buf, text, t)
      ensures Shows(Ready(request, Some(t)), GET_REQUEST)
    {
      hide StoredFields, Holds;
      StoredWiden(buf, start, startLine, request, url, version, host);
    }

    lemma ShowsUndefined()
      ensures Shows(Undefined, UNDEFINED)
    {
    }

    /** parse_line in the loop, run on the body: no line, or back to parse_content. */
    method BodyScan(ghost goal: Outcome) returns (more: bool, code: HttpCode)
      requires Mirrored() && BodyLine(goal)
      modifies this`checkedIdx, this`buf, readBuf
      ensures Mirrored()
      ensures !more ==> Shows(goal, code)
      ensures more ==> Indices() && Fields() && goal == Process(Abs()) && checkedIdx > old(checkedIdx)
    {
      hide Mirrored, Holds, StoredFields, ParseBody, Scan;
      ghost var buf0 := buf;
      var status := ScanLine();
      more, code := status.LINE_OK?, NO_REQUEST;
      if more {
        CleanAfterLine(buf0, buf, startLine, readIdx, checkedIdx);
      }
    }

    /** process_read(): the parser as it runs does what `Process` says of the bytes received. */
    method ProcessRead() returns (code: HttpCode)
      requires Valid()
      modifies this`checkedIdx, this`startLine, this`checkState, this`cgi, this`url, this`version, this`host
      modifies this`cookie, this`linger, this`contentLength, this`text, this`request, this`buf, readBuf
      ensures Mirrored() && Shows(Process(old(Abs())), code)
    {
      hide Mirrored, Process, Fields, Shows, Abs, ScanBody;
      ghost var goal := Process(Abs());
      var status := LINE_OK;
      var more := true;
      code := NO_REQUEST;
      while more
        invariant Mirrored() && (!status.LINE_OK? ==> checkState == Content)
        invariant !more ==> Shows(goal, code)
        invariant more && (checkState != Content || status.LINE_OK?) ==> Indices() && Fields() && Process(Abs()) == goal
        invariant more && checkState == Content && !status.LINE_OK? ==> BodyLine(goal)
        decreases more, readIdx - checkedIdx, if status.LINE_OK? then 1 else 0
      {
        if checkState == Content && status.LINE_OK? {
          more, code := BodyRound(goal);
          status := LINE_OPEN;
        } else if checkState == Content {
          more, code := BodyScan(goal);
          if more {
            more, code := BodyRound(goal);
          }
        } else {
          more, code := HeadRound(goal);
        }
      }
    }

    /** One event after the other, each a read_once and a process_read, up to the first outcome other than
        NO_REQUEST or the first failing read: what the connection shows is what the bytes say that were
        read until then, however they were divided. */
    method Serve(events: seq<seq<Recv>>, edge: bool) returns (ok: bool, code: HttpCode)
      requires Valid() && ConnOk(Abs())
      modifies this, readBuf
      ensures var a := Arriving(events, edge, READ_BUFFER_SIZE - old(readIdx));
        var o := Feed(old(Abs()), a.chunks);
        && ok == !(a.failed && o.NoRequest?)
        && (ok ==> Mirrored() && Shows(o, code))
    {
      hide Mirrored, Indices, Fields, Abs, Process, Holds, Feed, ReadResult, Arriving;
      ok, code := true, NO_REQUEST;
      ghost var c0, room0 := Abs(), READ_BUFFER_SIZE - readIdx;
      WithinBuffer();
      var i := 0;
      assert events[0..] == events;
      while i < |events|
        invariant 0 <= i <= |events| && ok && code == NO_REQUEST && Valid() && ConnOk(Abs()) && readIdx <= READ_BUFFER_SIZE
        invariant var a, b := Arriving(events, edge, room0), Arriving(events[i..], edge, READ_BUFFER_SIZE - readIdx);
          a.failed == b.failed && Feed(c0, a.chunks) == Feed(Abs(), b.chunks)
      {
        ghost var c, room := Abs(), READ_BUFFER_SIZE - readIdx;
        assert events[i..][0] == events[i] && events[i..][1..] == events[i + 1..];
        ArrivingStep(c, events[i..], edge, room);
        ok := ReadOnce(events[i], edge);
        if !ok { return; }
        ReceiveOk(c, ReadResult(events[i], edge, room).value);
        code := ProcessRead();
        if code != NO_REQUEST { return; }
        i := i + 1;
      }
      assert events[i..] == [];
      ArrivingNothing(Abs(), edge, READ_BUFFER_SIZE - readIdx);
    }
  }
}
