/** http/http_conn.cpp, process_read: what the parser makes of a byte stream, as a function of the
bytes alone.  HttpConn.dfy proves the in-place parser against it. */
module HttpParser {
  import opened CStrings

  const READ_BUFFER_SIZE := 65536

  const GET := "GET"
  const POST := "POST"
  const HTTP_1_1 := "HTTP/1.1"
  const HTTP_SCHEME := "http://"
  const HTTPS_SCHEME := "https://"
  const CONNECTION := "Connection:"
  const CONTENT_LENGTH := "Content-length:"
  const HOST := "Host:"
  const COOKIE := "Cookie:"
  const KEEP_ALIVE := "keep-alive"

  datatype Option<T> = None | Some(value: T)

  datatype Phase = RequestLine | Header | Content

  /** What has been parsed so far.  `url` and `version` are set by the request line. */
  datatype Request = Request(phase: Phase, post: bool, url: string, version: string,
                             host: Option<string>, cookie: string, linger: bool, length: int)

  /** http_conn::init(). */
  const NEW_REQUEST := Request(RequestLine, false, "", "", None, "", false, 0)

  // ----- lines -----

  /** parse_line from offset `i`: a complete line up to `at` (then CR LF), an incomplete one, or a stray
      CR or LF; the scanner stops at `at`. */
  datatype Line = LineOk(at: nat) | LineOpen(at: nat) | LineBad(at: nat)

  function Scan(s: string, i: nat): (l: Line)
    requires i <= |s|
    ensures i <= l.at <= |s|
    ensures forall k :: i <= k < l.at ==> s[k] != '\r' && s[k] != '\n'
    ensures l.LineOk? ==> l.at + 1 < |s| && s[l.at] == '\r' && s[l.at + 1] == '\n'
    ensures l.LineOpen? ==> l.at == |s| || (l.at + 1 == |s| && s[l.at] == '\r')
    ensures l.LineBad? ==> l.at < |s| && (s[l.at] == '\n' || (l.at + 1 < |s| && s[l.at] == '\r' && s[l.at + 1] != '\n'))
    decreases |s| - i
  {
    if i == |s| then LineOpen(i)
    else if s[i] == '\r' then
      if i + 1 == |s| then LineOpen(i)
      else if s[i + 1] == '\n' then LineOk(i) else LineBad(i)
    else if s[i] == '\n' then LineBad(i)
    else Scan(s, i + 1)
  }

  /** Resuming where an earlier scan stopped gives what a scan from the start would. */
  lemma {:induction false} ScanResumes(s: string, i: nat, j: nat)
    requires i <= j <= |s| && forall k :: i <= k < j ==> s[k] != '\r' && s[k] != '\n'
    ensures Scan(s, i) == Scan(s, j)
    decreases j - i
  {
    if i < j { ScanResumes(s, i + 1, j); }
  }

  /** More bytes change neither a complete line nor a bad one. */
  lemma {:induction false} ScanExtends(s: string, more: string, i: nat)
    requires i <= |s|
    ensures !Scan(s, i).LineOpen? ==> Scan(s + more, i) == Scan(s, i)
    decreases |s| - i
  {
    if i < |s| && s[i] != '\r' && s[i] != '\n' {
      ScanExtends(s, more, i + 1);
    }
  }

  predicate CleanChar(c: char) {
    c != '\r' && c != '\n' && c != NUL
  }

  predicate Clean(s: string) {
    forall i :: 0 <= i < |s| ==> CleanChar(s[i])
  }

  /** A clean line in front of CR LF is one line. */
  lemma {:induction false} ScanClean(s: string, i: nat, n: nat)
    requires i <= n && n + 1 < |s| && s[n] == '\r' && s[n + 1] == '\n'
    requires forall k :: 0 <= k < n ==> CleanChar(s[k])
    ensures Scan(s, i) == LineOk(n)
    decreases n - i
  {
    if i < n { ScanClean(s, i + 1, n); }
  }

  // ----- one line -----

  /** What one line does: go on, reject, complete the request, or run into undefined behaviour. */
  datatype Step = Next(request: Request) | Reject | Complete(request: Request) | Crash

  /** m_url after the scheme was cut off; strchr may find no slash. */
  function FromSlash(s: string): Option<string> {
    if Strchr(s, '/') < |s| then Some(s[Strchr(s, '/')..]) else None
  }

  /** A url of the given scheme is cut down to what starts at the first slash behind it. */
  function CutUrl(scheme: string, url: string): Option<string> {
    if StartsWithCase(url, scheme) then FromSlash(url[|scheme|..]) else Some(url)
  }

  /** parse_request_line, the part that looks at the url. */
  function CheckUrl(r: Request, url: string): Step {
    match CutUrl(HTTP_SCHEME, url)
    case None => Crash // strncasecmp on a null pointer
    case Some(u) =>
      match CutUrl(HTTPS_SCHEME, u)
      case None => Reject
      case Some(v) => if v != "" && v[0] == '/' then Next(r.(phase := Header, url := v)) else Reject
  }

  /** parse_request_line. */
  function OnRequestLine(r: Request, text: string): Step {
    var m := Strpbrk(text);
    if m == |text| then Reject else
    var verb := text[..m];
    if !StrCaseEq(verb, GET) && !StrCaseEq(verb, POST) then Reject else
    var target := SkipBlanks(text[m + 1..]);
    var u := Strpbrk(target);
    if u == |target| then Reject else
    var version := SkipBlanks(target[u + 1..]);
    if !StrCaseEq(version, HTTP_1_1) then Reject else
    CheckUrl(r.(post := r.post || StrCaseEq(verb, POST), version := version), target[..u])
  }

  /** parse_headers. */
  function OnHeader(r: Request, text: string): Step {
    if text == "" then
      if r.length != 0 then Next(r.(phase := Content)) else Complete(r)
    else if StartsWithCase(text, CONNECTION) then
      Next(if StrCaseEq(SkipBlanks(text[11..]), KEEP_ALIVE) then r.(linger := true) else r)
    else if StartsWithCase(text, CONTENT_LENGTH) then
      Next(r.(length := ToInt32(Atol(SkipBlanks(text[15..])))))
    else if StartsWithCase(text, HOST) then
      Next(r.(host := Some(SkipBlanks(text[5..]))))
    else if StartsWithCase(text, COOKIE) then
      Next(r.(cookie := SkipBlanks(text[7..])))
    else Next(r)
  }

  function OnLine(r: Request, line: string): Step
    requires r.phase != Content
  {
    if r.phase == RequestLine then OnRequestLine(r, CStr(line)) else OnHeader(r, CStr(line))
  }

  // ----- the request line and header phases -----

  /** How far the head of a request got: still incomplete, rejected, complete without a body, at its
      body, or in undefined behaviour; with the bytes not consumed yet. */
  datatype Head =
    | Pending(request: Request, rest: string)
    | Rejected(rest: string)
    | Completed(request: Request, rest: string)
    | AtBody(request: Request, rest: string)
    | Crashed(rest: string)

  function ParseHead(r: Request, s: string): (h: Head)
    requires r.phase != Content
    ensures h.Pending? ==> h.request.phase != Content
    ensures h.AtBody? ==> h.request.phase == Content
    ensures |h.rest| <= |s|
    decreases |s|
  {
    match Scan(s, 0)
    case LineOpen(_) => Pending(r, s)
    case LineBad(_) => Pending(r, s)
    case LineOk(n) =>
      var rest := s[n + 2..];
      match OnLine(r, s[..n])
      case Reject => Rejected(rest)
      case Crash => Crashed(rest)
      case Complete(r') => Completed(r', rest)
      case Next(r') => if r'.phase == Content then AtBody(r', rest) else ParseHead(r', rest)
  }

  function WithRest(h: Head, rest: string): Head {
    h.(rest := rest)
  }

  /** Parsing may stop for lack of bytes and go on with more, without a trace. */
  lemma {:induction false} ParseHeadResumes(r: Request, s: string, more: string)
    requires r.phase != Content
    ensures var h := ParseHead(r, s);
            ParseHead(r, s + more) ==
              if h.Pending? then ParseHead(h.request, h.rest + more) else WithRest(h, h.rest + more)
    decreases |s|
  {
    var l := Scan(s, 0);
    if l.LineOk? {
      ScanExtends(s, more, 0);
      assert (s + more)[..l.at] == s[..l.at];
      assert (s + more)[l.at + 2..] == s[l.at + 2..] + more;
      var step := OnLine(r, s[..l.at]);
      if step.Next? && step.request.phase != Content {
        ParseHeadResumes(step.request, s[l.at + 2..], more);
      }
    }
  }

  /** The lines a head consists of, as consumed. */
  function HeadLines(r: Request, s: string): seq<string>
    requires r.phase != Content
    decreases |s|
  {
    var l := Scan(s, 0);
    if !l.LineOk? then [] else
    var step := OnLine(r, s[..l.at]);
    [s[..l.at]] + if step.Next? && step.request.phase != Content then HeadLines(step.request, s[l.at + 2..]) else []
  }

  function JoinLines(lines: seq<string>): string {
    if lines == [] then "" else lines[0] + "\r\n" + JoinLines(lines[1..])
  }

  lemma JoinCons(line: string, more: seq<string>, tail: string)
    ensures JoinLines([line] + more) + tail == line + "\r\n" + (JoinLines(more) + tail)
  {
    assert ([line] + more)[1..] == more;
    assert line + "\r\n" + JoinLines(more) + tail == line + "\r\n" + (JoinLines(more) + tail);
  }

  /** Nothing is lost: the consumed lines, joined by CR LF, and the unconsumed rest are the input. */
  lemma {:induction false} LinesAreTheInput(r: Request, s: string)
    requires r.phase != Content
    ensures JoinLines(HeadLines(r, s)) + ParseHead(r, s).rest == s
    decreases |s|
  {
    hide OnLine;
    var l := Scan(s, 0);
    if l.LineOk? {
      var line, rest := s[..l.at], s[l.at + 2..];
      var step := OnLine(r, line);
      if step.Next? && step.request.phase != Content {
        LinesAreTheInput(step.request, rest);
        JoinCons(line, HeadLines(step.request, rest), ParseHead(r, s).rest);
      } else {
        JoinCons(line, [], rest);
        assert JoinLines([]) + rest == rest;
      }
      LineAndRest(s, l.at);
    } else {
      assert JoinLines([]) + s == s;
    }
  }

  lemma LineAndRest(s: string, n: nat)
    requires n + 1 < |s| && s[n] == '\r' && s[n + 1] == '\n'
    ensures s == s[..n] + "\r\n" + s[n + 2..]
  {
  }

  /** Splitting at CR LF is proper: no consumed line contains a CR or an LF. */
  lemma {:induction false} LinesAreClean(r: Request, s: string)
    requires r.phase != Content
    ensures forall i :: 0 <= i < |HeadLines(r, s)| ==> '\r' !in HeadLines(r, s)[i] && '\n' !in HeadLines(r, s)[i]
    decreases |s|
  {
    hide OnLine;
    var l := Scan(s, 0);
    if l.LineOk? {
      var step := OnLine(r, s[..l.at]);
      if step.Next? && step.request.phase != Content {
        LinesAreClean(step.request, s[l.at + 2..]);
      }
    }
  }

  // ----- what single lines do -----

  function Continue(step: Step, rest: string): Head {
    match step
    case Reject => Rejected(rest)
    case Crash => Crashed(rest)
    case Complete(r) => Completed(r, rest)
    case Next(r) => if r.phase == Content then AtBody(r, rest) else ParseHead(r, rest)
  }

  /** The parser takes one clean line off the front. */
  lemma OneLine(r: Request, line: string, rest: string)
    requires r.phase != Content && Clean(line)
    ensures ParseHead(r, line + "\r\n" + rest)
         == Continue(if r.phase == RequestLine then OnRequestLine(r, line) else OnHeader(r, line), rest)
  {
    hide OnRequestLine, OnHeader;
    var s := line + "\r\n" + rest;
    ScanClean(s, 0, |line|);
    assert s[..|line|] == line && s[|line| + 2..] == rest;
    assert line[..|line|] == line;
    CStrIs(line, |line|);
  }

  lemma StartsFirst(s: string, prefix: string)
    requires prefix != "" && StartsWithCase(s, prefix)
    ensures s != "" && Lower(s[0]) == Lower(prefix[0])
  {
    assert LowerAll(s[..|prefix|])[0] == LowerAll(prefix)[0];
  }

  /** A header line whose first letter is none of those looked at is skipped. */
  lemma OtherHeader(r: Request, line: string)
    requires line != "" && Lower(line[0]) != 'c' && Lower(line[0]) != 'h'
    ensures OnHeader(r, line) == Next(r)
  {
    hide StartsWithCase;
    if StartsWithCase(line, CONNECTION) { StartsFirst(line, CONNECTION); }
    if StartsWithCase(line, CONTENT_LENGTH) { StartsFirst(line, CONTENT_LENGTH); }
    if StartsWithCase(line, HOST) { StartsFirst(line, HOST); }
    if StartsWithCase(line, COOKIE) { StartsFirst(line, COOKIE); }
  }

  predicate NoBlank(s: string) {
    forall i :: 0 <= i < |s| ==> !Blank(s[i])
  }

  lemma {:induction false} BlanksFirst(a: string, b: string)
    ensures SkipBlanks(a + b) == if SkipBlanks(a) == "" then SkipBlanks(b) else SkipBlanks(a) + b
    decreases |a|
  {
    if a == "" {
      assert a + b == b;
    } else if Blank(a[0]) {
      assert (a + b)[1..] == a[1..] + b;
      BlankDropped(a);
      BlankDropped(a + b);
      BlanksFirst(a[1..], b);
    } else {
      assert Strspn(a) == 0 && Strspn(a + b) == 0 && a[0..] == a && (a + b)[0..] == a + b;
    }
  }

  lemma BlankDropped(s: string)
    requires s != "" && Blank(s[0])
    ensures SkipBlanks(s) == SkipBlanks(s[1..])
  {
    assert Strspn(s) == 1 + Strspn(s[1..]);
    assert s[1..][Strspn(s[1..])..] == s[Strspn(s)..];
  }

  lemma NoBlankFirst(s: string)
    requires NoBlank(s)
    ensures SkipBlanks(s) == s
  {
    assert Strspn(s) == 0 && s[0..] == s;
  }

  /** strpbrk stops at the blank put behind a word. */
  lemma WordEnd(word: string, rest: string)
    requires NoBlank(word)
    ensures Strpbrk(word + " " + rest) == |word|
    ensures (word + " " + rest)[..|word|] == word && (word + " " + rest)[|word| + 1..] == rest
  {
    var s := word + " " + rest;
    assert s[|word|] == ' ' && forall i :: 0 <= i < |word| ==> s[i] == word[i];
  }

  lemma NoWordEnd(word: string)
    requires NoBlank(word)
    ensures Strpbrk(word) == |word|
  {
  }

  /** parse_request_line on a text with its first blank at `m`. */
  lemma WordsOf(r: Request, text: string, m: nat, verb: string, more: string)
    requires m == Strpbrk(text) < |text| && text[..m] == verb && SkipBlanks(text[m + 1..]) == more
    ensures OnRequestLine(r, text) ==
      if !StrCaseEq(verb, GET) && !StrCaseEq(verb, POST) then Reject
      else var u := Strpbrk(more);
        if u == |more| then Reject
        else var version := SkipBlanks(more[u + 1..]);
          if !StrCaseEq(version, HTTP_1_1) then Reject
          else CheckUrl(r.(post := r.post || StrCaseEq(verb, POST), version := version), more[..u])
  {
    hide CheckUrl, StrCaseEq, SkipBlanks, Strpbrk;
  }

  /** A method word and what is behind the blank. */
  lemma VerbFirst(r: Request, verb: string, more: string)
    requires NoBlank(verb)
    ensures var target := SkipBlanks(more);
      OnRequestLine(r, verb + " " + more) ==
      if !StrCaseEq(verb, GET) && !StrCaseEq(verb, POST) then Reject
      else var u := Strpbrk(target);
        if u == |target| then Reject
        else var version := SkipBlanks(target[u + 1..]);
          if !StrCaseEq(version, HTTP_1_1) then Reject
          else CheckUrl(r.(post := r.post || StrCaseEq(verb, POST), version := version), target[..u])
  {
    hide CheckUrl, StrCaseEq, NoBlank, SkipBlanks, Strpbrk, OnRequestLine;
    WordEnd(verb, more);
    WordsOf(r, verb + " " + more, |verb|, verb, SkipBlanks(more));
  }

  lemma SlashTarget(r: Request, path: string)
    requires path != "" && path[0] == '/'
    ensures CutUrl(HTTP_SCHEME, path) == Some(path) && CutUrl(HTTPS_SCHEME, path) == Some(path)
    ensures CheckUrl(r, path) == Next(r.(phase := Header, url := path))
  {
    hide StartsWithCase;
    if StartsWithCase(path, HTTP_SCHEME) { StartsFirst(path, HTTP_SCHEME); }
    if StartsWithCase(path, HTTPS_SCHEME) { StartsFirst(path, HTTPS_SCHEME); }
  }

  // ----- the content phase -----

  /** The content loop of process_read.  `tail` are the bytes from the start of the line on, `scanned`
      of them were scanned, `base` is the position of the first in the read buffer. */
  datatype Body =
    | Done(text: string)                                // do_request() with m_string == text
    | Waiting(tail: string, scanned: nat, base: nat)
    | Overrun                                           // m_string[m_content_length] outside the buffer

  function Blanked(s: string, n: nat): (r: string)
    requires n + 1 < |s|
    ensures |r| == |s|
  {
    s[n := NUL][n + 1 := NUL]
  }

  /** parse_content, and, when the body is not complete, the parse_line the loop condition goes on
      with all the same. */
  function ParseBody(tail: string, scanned: nat, base: nat, length: int): (b: Body)
    requires scanned <= |tail|
    ensures b.Waiting? ==> b.scanned <= |b.tail|
    decreases |tail| - scanned, 1
  {
    if |tail| >= length + scanned then
      if 0 <= length && base + length < READ_BUFFER_SIZE then Done(CStr(tail[..length])) else Overrun
    else ScanBody(tail[scanned..], base + scanned, length)
  }

  /** parse_line run on body bytes; a complete "line" leads back to parse_content. */
  function ScanBody(rest: string, base: nat, length: int): (b: Body)
    ensures b.Waiting? ==> b.scanned <= |b.tail|
    decreases |rest|, 0
  {
    match Scan(rest, 0)
    case LineOpen(at) => Waiting(rest, at, base)
    case LineBad(at) => Waiting(rest, at, base)
    case LineOk(at) => ParseBody(Blanked(rest, at), at + 2, base, length)
  }
}
