/** http/http_conn.cpp, add_response to process_write: the response that is queued for write(), and
what a client that reads it by its Content-Length gets. */
module Response {
  import opened CStrings
  import HttpParser
  import opened Writer

  const WRITE_BUFFER_SIZE := 65536
  const CRLF := "\r\n"

  datatype HttpCode =
    | NO_REQUEST | GET_REQUEST | BAD_REQUEST | NO_RESOURCE | FORBIDDEN_REQUEST | FILE_REQUEST
    | INTERNAL_ERROR | CLOSED_CONNECTION | DIAGNOSE_REQUEST | DIAGNOSE_CSV_REQUEST | REDIRECT_REQUEST

  /** What do_request left for process_write: the mapped file and the two response strings. */
  datatype Content = Content(file: string, json: string, csv: string)

  // ----- decimal numbers -----

  /** "%d" of a number that is not negative. */
  function Digits(n: nat): (r: string)
    ensures r != "" && forall i :: 0 <= i < |r| ==> Digit(r[i])
  {
    var last := [('0' as int + n % 10) as char];
    if n < 10 then last else Digits(n / 10) + last
  }

  function Decimal(v: int): string {
    if v < 0 then "-" + Digits(-v) else Digits(v)
  }

  /** A client's reading of a Content-Length value: digits and nothing else. */
  function ReadNumber(s: string): HttpParser.Option<nat> {
    if s == "" || !Digit(s[|s| - 1]) then HttpParser.None
    else
      var last := s[|s| - 1] as int - '0' as int;
      if |s| == 1 then HttpParser.Some(last)
      else
        match ReadNumber(s[..|s| - 1])
        case None => HttpParser.None
        case Some(n) => HttpParser.Some(10 * n + last)
  }

  lemma {:induction false} ReadDigits(n: nat)
    ensures ReadNumber(Digits(n)) == HttpParser.Some(n)
  {
    var r := Digits(n);
    if n >= 10 {
      ReadDigits(n / 10);
      assert r[..|r| - 1] == Digits(n / 10);
    }
  }

  /** Only the number itself reads back, and a negative one does not read at all. */
  lemma ReadDecimal(v: int)
    ensures ReadNumber(Decimal(v)) == if v < 0 then HttpParser.None else HttpParser.Some(v)
  {
    if v < 0 {
      ReadMinus("-" + Digits(-v));
    } else {
      ReadDigits(v);
    }
  }

  lemma {:induction false} ReadMinus(s: string)
    requires s != "" && s[0] == '-'
    ensures ReadNumber(s) == HttpParser.None
    decreases |s|
  {
    if |s| > 1 { ReadMinus(s[..|s| - 1]); }
  }

  lemma {:induction false} DigitsLength(n: nat, k: nat, bound: nat)
    requires k > 0 && n < bound && bound == Power10(k)
    ensures |Digits(n)| <= k
    decreases k
  {
    if n >= 10 { DigitsLength(n / 10, k - 1, bound / 10); }
  }

  function Power10(k: nat): nat {
    if k == 0 then 1 else 10 * Power10(k - 1)
  }

  lemma DecimalLength(v: int)
    requires -0x8000_0000 <= v < 0x8000_0000
    ensures |Decimal(v)| <= 11 && HttpParser.Clean(Decimal(v))
  {
    var n := if v < 0 then -v else v;
    DigitsLength(n, 10, 10_000_000_000);
    assert forall i :: 0 <= i < |Digits(n)| ==> Digit(Digits(n)[i]);
  }

  // ----- the client -----

  datatype Message = Message(lines: seq<string>, rest: string)

  /** The lines up to the first blank line, and what follows it. */
  function Unframe(s: string): (r: HttpParser.Option<Message>)
    decreases |s|
  {
    var l := HttpParser.Scan(s, 0);
    if !l.LineOk? then HttpParser.None
    else if l.at == 0 then HttpParser.Some(Message([], s[2..]))
    else
      match Unframe(s[l.at + 2..])
      case None => HttpParser.None
      case Some(m) => HttpParser.Some(Message([s[..l.at]] + m.lines, m.rest))
  }

  const LENGTH_FIELD := "Content-Length:"

  /** The value of the first Content-Length field. */
  function FieldLength(lines: seq<string>): HttpParser.Option<nat> {
    if lines == [] then HttpParser.None
    else if StartsWithCase(lines[0], LENGTH_FIELD) then ReadNumber(SkipBlanks(lines[0][|LENGTH_FIELD|..]))
    else FieldLength(lines[1..])
  }

  /** The bytes behind the blank line are as many as Content-Length says. */
  predicate Framed(s: string) {
    match Unframe(s)
    case None => false
    case Some(m) => FieldLength(m.lines) == HttpParser.Some(|m.rest|)
  }

  function Join(lines: seq<string>): string {
    if lines == [] then "" else lines[0] + CRLF + Join(lines[1..])
  }

  predicate LineOfHead(line: string) {
    line != "" && HttpParser.Clean(line)
  }

  lemma UnframeLine(line: string, tail: string)
    requires LineOfHead(line)
    ensures Unframe(line + CRLF + tail) ==
      match Unframe(tail)
      case None => HttpParser.None
      case Some(m) => HttpParser.Some(Message([line] + m.lines, m.rest))
  {
    var s := line + CRLF + tail;
    HttpParser.ScanClean(s, 0, |line|);
    assert s[..|line|] == line && s[|line| + 2..] == tail;
  }

  /** Splitting at the blank line undoes the printing of clean lines. */
  lemma {:induction false} UnframePrinted(lines: seq<string>, rest: string)
    requires forall i :: 0 <= i < |lines| ==> LineOfHead(lines[i])
    ensures Unframe(Join(lines) + CRLF + rest) == HttpParser.Some(Message(lines, rest))
    decreases |lines|
  {
    hide Unframe, LineOfHead;
    if lines == [] {
      UnframeBlank(rest);
      assert "" + CRLF + rest == CRLF + rest;
    } else {
      var line, tail := lines[0], Join(lines[1..]) + CRLF + rest;
      assert Join(lines) + CRLF + rest == line + CRLF + tail;
      UnframeLine(line, tail);
      UnframePrinted(lines[1..], rest);
      assert [line] + lines[1..] == lines;
    }
  }

  lemma UnframeBlank(rest: string)
    ensures Unframe(CRLF + rest) == HttpParser.Some(Message([], rest))
  {
    var s := CRLF + rest;
    assert s[2..] == rest;
  }

  lemma {:induction false} JoinSnoc(lines: seq<string>, line: string)
    ensures Join(lines + [line]) == Join(lines) + (line + CRLF)
    decreases |lines|
  {
    if lines != [] {
      assert (lines + [line])[1..] == lines[1..] + [line];
      JoinSnoc(lines[1..], line);
    }
  }

  // ----- the printer -----

  /** add_response: appended whole, or not at all. */
  function Add(buf: string, text: string): (r: string)
    ensures |buf| <= WRITE_BUFFER_SIZE - 2 ==> |r| <= WRITE_BUFFER_SIZE - 2
  {
    if Fits(buf, text) then buf + text else buf
  }

  predicate Fits(buf: string, text: string) {
    |buf| + |text| < WRITE_BUFFER_SIZE - 1
  }

  function StatusLine(status: nat, title: string): string {
    "HTTP/1.1 " + Decimal(status) + " " + title
  }

  function LengthLine(length: int): string {
    LENGTH_FIELD + Decimal(length)
  }

  function LingerLine(linger: bool): string {
    "Connection:" + if linger then "keep-alive" else "close"
  }

  const NOT_FOUND := "Not Found"
  const NOT_FOUND_LENGTH := "404 Not Found"
  const NOT_FOUND_PAGE := "404 Not Found - Please check your root path."
  const INTERNAL_PAGE := "Internal Error"
  const EMPTY_PAGE := "<html><body>Empty File</body></html>"
  const JSON_TYPE := "Content-Type: " + "application/json"
  const CSV_TYPE := "Content-Type: " + "text/csv"
  const CSV_NAME := "Content-Disposition: " + "attachment; " + "filename=\"result.csv\""

  /** A run of add_response calls whose results are ignored, one line each. */
  function AddLines(buf: string, lines: seq<string>): string
    decreases |lines|
  {
    if lines == [] then buf else AddLines(Add(buf, lines[0] + CRLF), lines[1..])
  }

  /** add_headers: stops at the first call that fails. */
  function AddHeaders(buf: string, length: int, linger: bool): string {
    AddWhile(buf, [LengthLine(length), LingerLine(linger), ""])
  }

  function AddWhile(buf: string, lines: seq<string>): string
    decreases |lines|
  {
    if lines == [] || !Fits(buf, lines[0] + CRLF) then buf
    else AddWhile(Add(buf, lines[0] + CRLF), lines[1..])
  }

  /** What process_write appends before the text of the page. */
  function Headed(buf: string, code: HttpCode, linger: bool, content: Content): string {
    match code
    case NO_RESOURCE => AddHeaders(AddLines(buf, [StatusLine(404, NOT_FOUND)]), |NOT_FOUND_LENGTH|, linger)
    case INTERNAL_ERROR => AddHeaders(AddLines(buf, [StatusLine(500, INTERNAL_PAGE)]), |INTERNAL_PAGE|, linger)
    case FILE_REQUEST =>
      AddHeaders(AddLines(buf, [StatusLine(200, "OK")]),
                 if content.file != "" then ToInt32(|content.file|) else |EMPTY_PAGE|, linger)
    case DIAGNOSE_REQUEST =>
      AddLines(buf, [StatusLine(200, "OK"), LengthLine(ToInt32(|content.json|)), JSON_TYPE, LingerLine(linger), ""])
    case DIAGNOSE_CSV_REQUEST =>
      AddLines(buf, [StatusLine(200, "OK"), CSV_TYPE, CSV_NAME, LengthLine(ToInt32(|content.csv|)), LingerLine(linger), ""])
    case _ => AddHeaders(AddLines(buf, [StatusLine(400, "Bad Request")]), 0, linger)
  }

  /** The page that goes into the write buffer. */
  function Page(code: HttpCode, content: Content): string {
    match code
    case NO_RESOURCE => NOT_FOUND_PAGE
    case INTERNAL_ERROR => INTERNAL_PAGE
    case FILE_REQUEST => if content.file == "" then EMPTY_PAGE else ""
    case DIAGNOSE_REQUEST => CStr(content.json)
    case _ => ""
  }

  /** What is queued behind the write buffer. */
  function Behind(code: HttpCode, content: Content): Body {
    match code
    case FILE_REQUEST => if content.file == "" then NoBody else File(|content.file|)
    case DIAGNOSE_CSV_REQUEST => Csv(|content.csv|)
    case _ => NoBody
  }

  // ----- what the client gets -----

  /** The response as lines and a body. */
  function Lines(code: HttpCode, linger: bool, content: Content): seq<string> {
    match code
    case NO_RESOURCE => [StatusLine(404, NOT_FOUND), LengthLine(13), LingerLine(linger)]
    case INTERNAL_ERROR => [StatusLine(500, INTERNAL_PAGE), LengthLine(14), LingerLine(linger)]
    case FILE_REQUEST =>
      [StatusLine(200, "OK"), LengthLine(if content.file == "" then 36 else ToInt32(|content.file|)), LingerLine(linger)]
    case DIAGNOSE_REQUEST =>
      [StatusLine(200, "OK"), LengthLine(ToInt32(|content.json|)), JSON_TYPE, LingerLine(linger)]
    case DIAGNOSE_CSV_REQUEST =>
      [StatusLine(200, "OK"), CSV_TYPE, CSV_NAME, LengthLine(ToInt32(|content.csv|)), LingerLine(linger)]
    case _ => [StatusLine(400, "Bad Request"), LengthLine(0), LingerLine(linger)]
  }

  function BodyText(code: HttpCode, content: Content): string {
    if code.FILE_REQUEST? && content.file != "" then content.file
    else if code.DIAGNOSE_CSV_REQUEST? then content.csv
    else Page(code, content)
  }

  /** A response printed into an empty buffer, with what is queued behind it. */
  function Wire(code: HttpCode, linger: bool, content: Content): string {
    Join(Lines(code, linger, content)) + CRLF + BodyText(code, content)
  }

  /** A line that is short, clean and not blank. */
  predicate HeadLine(line: string) {
    0 < |line| <= 100 && HttpParser.Clean(line)
  }

  lemma StatusIsHeadLine(status: nat, title: string)
    requires status < 1000 && |title| <= 50 && HttpParser.Clean(title)
    ensures HeadLine(StatusLine(status, title))
  {
    DecimalLength(status);
    assert HttpParser.Clean("HTTP/1.1 ") && HttpParser.Clean(" ");
  }

  lemma LengthIsHeadLine(length: int)
    requires -0x8000_0000 <= length < 0x8000_0000
    ensures HeadLine(LengthLine(length))
  {
    DecimalLength(length);
    assert HttpParser.Clean(LENGTH_FIELD);
  }

  lemma LingerIsHeadLine(linger: bool)
    ensures HeadLine(LingerLine(linger))
  {
    assert HttpParser.Clean("Connection:") && HttpParser.Clean("keep-alive") && HttpParser.Clean("close");
  }

  lemma ConstantsAreHeadLines()
    ensures |NOT_FOUND| <= 50 && |INTERNAL_PAGE| <= 50
    ensures HeadLine(JSON_TYPE) && HeadLine(CSV_TYPE) && HeadLine(CSV_NAME)
    ensures HeadLine(LingerLine(true)) && HeadLine(LingerLine(false))
    ensures HeadLine(NOT_FOUND) && HeadLine(INTERNAL_PAGE) && HeadLine("OK") && HeadLine("Bad Request")
  {
    assert HttpParser.Clean("Content-Type: ");
    assert HttpParser.Clean("application/json") && HttpParser.Clean("text/csv");
    assert HttpParser.Clean("Content-Disposition: ") && HttpParser.Clean("attachment; ");
    assert HttpParser.Clean("filename=\"result.csv\"");
    assert HeadLine(JSON_TYPE) && HeadLine(CSV_TYPE) && HeadLine(CSV_NAME);
    LingerIsHeadLine(true);
    LingerIsHeadLine(false);
    assert HeadLine("OK");
  }

  lemma LinesAreHeadLines(code: HttpCode, linger: bool, content: Content)
    ensures forall i :: 0 <= i < |Lines(code, linger, content)| ==> HeadLine(Lines(code, linger, content)[i])
  {
    hide StatusLine, LengthLine, LingerLine, JSON_TYPE, CSV_TYPE, CSV_NAME, NOT_FOUND, INTERNAL_PAGE;
    ConstantsAreHeadLines();
    LengthIsHeadLine(0);
    LengthIsHeadLine(13);
    LengthIsHeadLine(14);
    LengthIsHeadLine(36);
    LengthIsHeadLine(ToInt32(|content.file|));
    LengthIsHeadLine(ToInt32(|content.json|));
    LengthIsHeadLine(ToInt32(|content.csv|));
    StatusIsHeadLine(200, "OK");
    StatusIsHeadLine(400, "Bad Request");
    StatusIsHeadLine(404, NOT_FOUND);
    StatusIsHeadLine(500, INTERNAL_PAGE);
  }

  lemma {:induction false} JoinConcat(a: seq<string>, b: seq<string>)
    ensures Join(a + b) == Join(a) + Join(b)
    decreases |b|
  {
    if b == [] {
      NoLines();
      assert a + b == a && Join(a) + "" == Join(a);
    } else {
      var init, last := b[..|b| - 1], b[|b| - 1];
      JoinConcat(a, init);
      assert a + b == a + init + [last] && b == init + [last];
      JoinSnoc(a + init, last);
      JoinSnoc(init, last);
    }
  }

  lemma AddLineJoins(front: string, before: seq<string>, line: string, after: seq<string>)
    requires |front| + |Join(before + [line] + after)| < WRITE_BUFFER_SIZE - 1
    ensures Fits(front + Join(before), line + CRLF)
    ensures Add(front + Join(before), line + CRLF) == front + Join(before + [line])
  {
    hide Join;
    JoinSnoc(before, line);
    JoinConcat(before + [line], after);
    assert front + Join(before) + (line + CRLF) == front + (Join(before) + (line + CRLF));
  }

  /** As long as there is room, every line is appended, behind whatever was there. */
  lemma {:induction false} AddLinesJoins(front: string, before: seq<string>, lines: seq<string>)
    requires |front| + |Join(before + lines)| < WRITE_BUFFER_SIZE - 1
    ensures AddLines(front + Join(before), lines) == AddWhile(front + Join(before), lines) == front + Join(before + lines)
    decreases |lines|
  {
    hide Join, Add, Fits;
    if lines == [] {
      assert before + lines == before;
    } else {
      assert before + [lines[0]] + lines[1..] == before + lines;
      AddLineJoins(front, before, lines[0], lines[1..]);
      AddLinesJoins(front, before + [lines[0]], lines[1..]);
    }
  }

  lemma BlankLineLast(lines: seq<string>)
    ensures Join(lines + [""]) == Join(lines) + CRLF
  {
    hide Join;
    JoinSnoc(lines, "");
    assert "" + CRLF == CRLF;
  }

  lemma HeadBehind(front: string, lines: seq<string>)
    requires |front| + |Join(lines)| + 2 < WRITE_BUFFER_SIZE - 1
    ensures AddLines(front, lines + [""]) == front + (Join(lines) + CRLF)
  {
    hide Join, AddLines, AddWhile;
    NoLines();
    BlankLineLast(lines);
    assert front + Join([]) == front && [] + (lines + [""]) == lines + [""];
    AddLinesJoins(front, [], lines + [""]);
  }

  lemma FourLinesBehind(front: string, a: string, b: string, c: string)
    requires |front| + |Join([a, b, c])| + 2 < WRITE_BUFFER_SIZE - 1
    ensures AddWhile(AddLines(front, [a]), [b, c, ""]) == front + (Join([a, b, c]) + CRLF)
  {
    hide AddLines, AddWhile, Join;
    NoLines();
    BlankLineLast([a, b, c]);
    assert [a] + [b, c, ""] == [a, b, c] + [""] && [] + [a] == [a] && front + Join([]) == front;
    JoinConcat([a], [b, c, ""]);
    AddLinesJoins(front, [], [a]);
    AddLinesJoins(front, [a], [b, c, ""]);
  }

  /** With room in the buffer nothing is cut short: status line, fields, blank line. */
  lemma HeadedBehind(front: string, code: HttpCode, linger: bool, content: Content)
    requires |front| + |Join(Lines(code, linger, content))| + 2 < WRITE_BUFFER_SIZE - 1
    ensures Headed(front, code, linger, content) == front + (Join(Lines(code, linger, content)) + CRLF)
  {
    hide StatusLine, LengthLine, LingerLine, AddLines, AddWhile, Join;
    ConstantLengths();
    var lines := Lines(code, linger, content);
    if code.DIAGNOSE_REQUEST? {
      HeadBehind(front, lines);
      assert lines + [""] == [StatusLine(200, "OK"), LengthLine(ToInt32(|content.json|)), JSON_TYPE, LingerLine(linger), ""];
    } else if code.DIAGNOSE_CSV_REQUEST? {
      HeadBehind(front, lines);
      assert lines + [""]
          == [StatusLine(200, "OK"), CSV_TYPE, CSV_NAME, LengthLine(ToInt32(|content.csv|)), LingerLine(linger), ""];
    } else {
      FourLinesBehind(front, lines[0], lines[1], lines[2]);
    }
  }

  lemma {:induction false} JoinBound(lines: seq<string>)
    requires forall i :: 0 <= i < |lines| ==> |lines[i]| <= 100
    ensures |Join(lines)| <= 102 * |lines|
    decreases |lines|
  {
    if lines != [] { JoinBound(lines[1..]); }
  }

  /** No head is longer than a small part of the buffer. */
  lemma HeadIsShort(code: HttpCode, linger: bool, content: Content)
    ensures |Join(Lines(code, linger, content))| + 2 < 1000
  {
    hide StatusLine, LengthLine, LingerLine, Join;
    var lines := Lines(code, linger, content);
    LinesAreHeadLines(code, linger, content);
    forall i | 0 <= i < |lines| ensures |lines[i]| <= 100 { assert HeadLine(lines[i]); }
    JoinBound(lines);
  }

  lemma NoLines()
    ensures Join([]) == ""
  {
  }

  lemma ConstantLengths()
    ensures |NOT_FOUND_LENGTH| == 13 && |INTERNAL_PAGE| == 14 && |EMPTY_PAGE| == 36 && |NOT_FOUND_PAGE| == 44
  {
  }

  lemma {:induction false} FieldLengthAt(lines: seq<string>, k: nat, length: int)
    requires k < |lines| && lines[k] == LengthLine(length)
    requires forall i :: 0 <= i < k ==> !StartsWithCase(lines[i], LENGTH_FIELD)
    ensures FieldLength(lines) == ReadNumber(Decimal(length))
    decreases k
  {
    if k > 0 {
      FieldLengthAt(lines[1..], k - 1, length);
    } else {
      var v := Decimal(length);
      assert LengthLine(length)[..|LENGTH_FIELD|] == LENGTH_FIELD && LengthLine(length)[|LENGTH_FIELD|..] == v;
      assert !Blank(v[0]);
      assert v[0..] == v;
    }
  }

  /** Where the Content-Length line is, and what it says. */
  function Declared(code: HttpCode, content: Content): int {
    match code
    case NO_RESOURCE => 13
    case INTERNAL_ERROR => 14
    case FILE_REQUEST => if content.file == "" then 36 else ToInt32(|content.file|)
    case DIAGNOSE_REQUEST => ToInt32(|content.json|)
    case DIAGNOSE_CSV_REQUEST => ToInt32(|content.csv|)
    case _ => 0
  }

  lemma DeclaredLength(code: HttpCode, linger: bool, content: Content)
    ensures FieldLength(Lines(code, linger, content)) == ReadNumber(Decimal(Declared(code, content)))
  {
    hide Decimal;
    var lines := Lines(code, linger, content);
    var k := if code.DIAGNOSE_CSV_REQUEST? then 3 else 1;
    forall i | 0 <= i < k ensures !StartsWithCase(lines[i], LENGTH_FIELD) {
      OtherField(lines[i]);
    }
    FieldLengthAt(lines, k, Declared(code, content));
  }

  lemma OtherField(line: string)
    requires |line| > 8 && (line[0] == 'H' || line[0] == 'L' || line[0] == 'S' || line[8] == 'T' || line[8] == 'D')
    ensures !StartsWithCase(line, LENGTH_FIELD)
  {
    if |line| >= |LENGTH_FIELD| {
      var s := line[..|LENGTH_FIELD|];
      assert LowerAll(s)[0] == Lower(line[0]) && LowerAll(s)[8] == Lower(line[8]);
      assert LowerAll(LENGTH_FIELD)[0] == 'c' && LowerAll(LENGTH_FIELD)[8] == 'l';
    }
  }

  /** A client splits the response into exactly the lines and the body it was made of. */
  lemma WireUnframes(code: HttpCode, linger: bool, content: Content)
    ensures Unframe(Wire(code, linger, content))
            == HttpParser.Some(Message(Lines(code, linger, content), BodyText(code, content)))
  {
    hide Lines;
    var lines := Lines(code, linger, content);
    LinesAreHeadLines(code, linger, content);
    forall i | 0 <= i < |lines| ensures LineOfHead(lines[i]) { assert HeadLine(lines[i]); }
    UnframePrinted(lines, BodyText(code, content));
  }

  /** When Content-Length is the length of the body: always for the 500 and 400 answers and the empty
      file, never for the 404 answer, below 2 GiB for a file or a CSV text, and for a JSON text if the C
      string in it is as long, modulo 2^32, as the text. */
  lemma FramedIff(code: HttpCode, linger: bool, content: Content)
    requires Fits(Headed("", code, linger, content), Page(code, content))
    ensures Framed(Wire(code, linger, content)) <==>
      match code
      case NO_RESOURCE => false
      case FILE_REQUEST => |content.file| < 0x8000_0000
      case DIAGNOSE_CSV_REQUEST => |content.csv| < 0x8000_0000
      case DIAGNOSE_REQUEST => |content.json| % 0x1_0000_0000 == |CStr(content.json)|
      case _ => true
  {
    hide Lines, Decimal, ReadNumber, Unframe, Headed, Wire, CStr, FieldLength;
    hide NOT_FOUND_PAGE, INTERNAL_PAGE, EMPTY_PAGE, NOT_FOUND_LENGTH;
    WireUnframes(code, linger, content);
    DeclaredLength(code, linger, content);
    ReadDecimal(Declared(code, content));
    ConstantLengths();
  }

  /** A JSON text without NUL is framed. */
  lemma JsonIsFramed(linger: bool, content: Content)
    requires NoNul(content.json) && Fits(Headed("", DIAGNOSE_REQUEST, linger, content), content.json)
    ensures Framed(Wire(DIAGNOSE_REQUEST, linger, content))
  {
    hide Framed, Wire, Headed;
    CStrIs(content.json, |content.json|);
    FramedIff(DIAGNOSE_REQUEST, linger, content);
  }

  // ----- after do_request has redirected -----

  /** The three redirections of do_request: to the login page, after a login, after a logout. */
  datatype Redirect = NeedLogin | LoggedIn(token: string) | LoggedOut

  const TO_LOGIN := "Location: /log.html"
  const TO_ROOT := "Location: /"
  const CLEAR_COOKIE := CookieLine("") + "; Max-Age=0"

  function CookieLine(token: string): string {
    "Set-Cookie: session_id=" + token + "; Path=/"
  }

  /** http/http_conn.cpp:340-342, 547-550 and 566-569. */
  function RedirectLines(r: Redirect): seq<string> {
    match r
    case NeedLogin => [StatusLine(302, "Found"), TO_LOGIN]
    case LoggedIn(token) => [StatusLine(302, "Found"), CookieLine(token), TO_ROOT]
    case LoggedOut => [StatusLine(302, "Found"), CLEAR_COOKIE, TO_LOGIN]
  }

  lemma {:induction false} NoFieldLength(lines: seq<string>)
    requires forall i :: 0 <= i < |lines| ==> !StartsWithCase(lines[i], LENGTH_FIELD)
    ensures FieldLength(lines) == HttpParser.None
    decreases |lines|
  {
    if lines != [] { NoFieldLength(lines[1..]); }
  }

  /** Whatever head without Content-Length do_request has left in the buffer before REDIRECT_REQUEST: if there
      is room for it all, the client sees that head with a complete 400 answer as its body. */
  lemma HeadCarriesBadRequest(lines: seq<string>, linger: bool, content: Content)
    requires forall i :: 0 <= i < |lines| ==> LineOfHead(lines[i]) && !StartsWithCase(lines[i], LENGTH_FIELD)
    requires |Join(lines)| + 2 + |Wire(BAD_REQUEST, linger, content)| < WRITE_BUFFER_SIZE - 1
    ensures var buf := Headed(AddLines("", lines + [""]), REDIRECT_REQUEST, linger, content);
      && Unframe(buf) == HttpParser.Some(Message(lines, Wire(BAD_REQUEST, linger, content)))
      && FieldLength(lines) == HttpParser.None
      && !Framed(buf)
  {
    hide FieldLength, Join, LineOfHead, StartsWithCase, AddLines, Headed, StatusLine;
    NoFieldLength(lines);
    HeadBehind("", lines);
    var rest, head := Wire(BAD_REQUEST, linger, content), Join(Lines(BAD_REQUEST, linger, content)) + CRLF;
    assert rest == head + "" == head && Lines(BAD_REQUEST, linger, content) == Lines(REDIRECT_REQUEST, linger, content);
    assert "" + (Join(lines) + CRLF) == Join(lines) + CRLF;
    HeadedBehind(Join(lines) + CRLF, REDIRECT_REQUEST, linger, content);
    UnframePrinted(lines, rest);
  }

  lemma RedirectLinesAreHead(r: Redirect)
    requires r.LoggedIn? ==> HttpParser.Clean(r.token)
    ensures forall i :: 0 <= i < |RedirectLines(r)| ==>
      LineOfHead(RedirectLines(r)[i]) && !StartsWithCase(RedirectLines(r)[i], LENGTH_FIELD)
    ensures |Join(RedirectLines(r))| <= 400 + if r.LoggedIn? then |r.token| else 0
  {
    hide Join, LineOfHead, StartsWithCase, StatusLine, CookieLine;
    RedirectTexts();
    JoinBound([StatusLine(302, "Found"), TO_LOGIN]);
    JoinBound([StatusLine(302, "Found"), CLEAR_COOKIE, TO_LOGIN]);
    if r.LoggedIn? {
      CookieText(r.token);
      JoinThree(StatusLine(302, "Found"), CookieLine(r.token), TO_ROOT);
    }
  }

  lemma RedirectTexts()
    ensures LineOfHead(StatusLine(302, "Found")) && !StartsWithCase(StatusLine(302, "Found"), LENGTH_FIELD)
    ensures |StatusLine(302, "Found")| <= 100 && |TO_LOGIN| <= 100 && |TO_ROOT| <= 100 && |CLEAR_COOKIE| <= 100
    ensures LineOfHead(TO_LOGIN) && LineOfHead(TO_ROOT) && LineOfHead(CLEAR_COOKIE)
    ensures !StartsWithCase(TO_LOGIN, LENGTH_FIELD) && !StartsWithCase(TO_ROOT, LENGTH_FIELD)
    ensures !StartsWithCase(CLEAR_COOKIE, LENGTH_FIELD)
  {
    hide StartsWithCase;
    assert HttpParser.Clean("Found");
    StatusIsHeadLine(302, "Found");
    CookieText("");
    assert HttpParser.Clean(TO_LOGIN) && HttpParser.Clean(TO_ROOT) && HttpParser.Clean("; Max-Age=0");
    OtherField(StatusLine(302, "Found"));
    OtherField(TO_LOGIN);
    OtherField(TO_ROOT);
    OtherField(CLEAR_COOKIE);
  }

  lemma CookieText(token: string)
    requires HttpParser.Clean(token)
    ensures LineOfHead(CookieLine(token)) && !StartsWithCase(CookieLine(token), LENGTH_FIELD)
    ensures |CookieLine(token)| == 31 + |token|
  {
    hide StartsWithCase;
    assert HttpParser.Clean("Set-Cookie: session_id=") && HttpParser.Clean("; Path=/");
    OtherField(CookieLine(token));
  }

  lemma JoinThree(a: string, b: string, c: string)
    ensures |Join([a, b, c])| == |a| + |b| + |c| + 6
  {
    assert Join([c]) == c + CRLF + Join([c][1..]) && [c][1..] == [];
    assert [b, c][1..] == [c] && Join([b, c]) == b + CRLF + Join([c]);
    assert [a, b, c][1..] == [b, c];
  }

  /** Each redirection, with any session token there is room for, carries no Content-Length, and a complete
      400 answer as its body. */
  lemma RedirectCarriesBadRequest(r: Redirect, linger: bool, content: Content)
    requires r.LoggedIn? ==> HttpParser.Clean(r.token) && |r.token| < 60000
    ensures var buf := Headed(AddLines("", RedirectLines(r) + [""]), REDIRECT_REQUEST, linger, content);
      && Unframe(buf) == HttpParser.Some(Message(RedirectLines(r), Wire(BAD_REQUEST, linger, content)))
      && FieldLength(RedirectLines(r)) == HttpParser.None
      && !Framed(buf)
  {
    hide Join, LineOfHead, StartsWithCase, AddLines, Headed, FieldLength, Unframe, Framed, RedirectLines, Lines;
    RedirectLinesAreHead(r);
    HeadIsShort(BAD_REQUEST, linger, content);
    HeadCarriesBadRequest(RedirectLines(r), linger, content);
  }

  // ----- from the address to the byte -----

  /** The byte at an address, with `header` in the write buffer. */
  function ByteAt(a: Address, header: string, content: Content): char {
    match a
    case InHeader(i) => if 0 <= i < |header| then header[i] else NUL
    case InFile(i) => if 0 <= i < |content.file| then content.file[i] else NUL
    case InCsv(i) => if 0 <= i < |content.csv| then content.csv[i] else NUL
  }

  function Bytes(addresses: seq<Address>, header: string, content: Content): (r: string)
    ensures |r| == |addresses| && forall i :: 0 <= i < |r| ==> r[i] == ByteAt(addresses[i], header, content)
  {
    seq(|addresses|, i requires 0 <= i < |addresses| => ByteAt(addresses[i], header, content))
  }

  lemma BytesOfWhole(code: HttpCode, header: string, content: Content)
    ensures Bytes(Whole(|header|, Behind(code, content)), header, content)
         == header + (if Behind(code, content).NoBody? then "" else BodyText(code, content))
  {
    var text := header + if Behind(code, content).NoBody? then "" else BodyText(code, content);
    var bytes := Bytes(Whole(|header|, Behind(code, content)), header, content);
    assert |bytes| == |text|;
    forall i | 0 <= i < |text| ensures bytes[i] == text[i] {
    }
  }

  lemma PageOrBehind(code: HttpCode, content: Content)
    ensures if Behind(code, content).NoBody? then BodyText(code, content) == Page(code, content) else Page(code, content) == ""
  {
  }

  /** The write buffer and what is queued behind it make up the response. */
  lemma WireParts(code: HttpCode, linger: bool, content: Content)
    requires Fits(Headed("", code, linger, content), Page(code, content))
    ensures Add(Headed("", code, linger, content), Page(code, content))
          + (if Behind(code, content).NoBody? then "" else BodyText(code, content)) == Wire(code, linger, content)
    ensures |Add(Headed("", code, linger, content), Page(code, content))| > 0
  {
    hide Lines, Headed, Join, Page, Behind, BodyText;
    HeadIsShort(code, linger, content);
    HeadedBehind("", code, linger, content);
    PageOrBehind(code, content);
    var head := Join(Lines(code, linger, content)) + CRLF;
    assert "" + head == head && head + Page(code, content) + "" == head + Page(code, content) && head + "" == head;
  }

  /** From process_write on an empty buffer to the last writev: if no write stopped twice inside the header
      (or, for a CSV text, inside the body), the client has the response, and only then. */
  lemma SentResponse(code: HttpCode, linger: bool, content: Content, counts: seq<nat>)
    requires Fits(Headed("", code, linger, content), Page(code, content))
    requires var header := Add(Headed("", code, linger, content), Page(code, content));
      ValidRun(|header|, Behind(code, content), counts) && Run(|header|, Behind(code, content), counts).toSend <= 0
    ensures var header := Add(Headed("", code, linger, content), Page(code, content));
      var sent := Run(|header|, Behind(code, content), counts).sent;
      && (sent == Whole(|header|, Behind(code, content)) <==> Benign(|header|, Behind(code, content), counts))
      && (Benign(|header|, Behind(code, content), counts) ==> Bytes(sent, header, content) == Wire(code, linger, content))
  {
    hide Lines, Headed, Run, ValidRun, Benign, Add, Fits, Behind, Page, Whole, Wire, BodyText, Bytes;
    var header := Add(Headed("", code, linger, content), Page(code, content));
    WireParts(code, linger, content);
    CompleteIffBenign(|header|, Behind(code, content), counts);
    BytesOfWhole(code, header, content);
  }

  // ----- process_write -----

  lemma AddNothing(buf: string)
    requires |buf| <= WRITE_BUFFER_SIZE - 2
    ensures Fits(buf, "") && Add(buf, "") == buf
  {
  }

  lemma WhileSteps(buf: string, a: string, b: string, c: string)
    ensures AddWhile(buf, [a, b, c]) ==
      if !Fits(buf, a + CRLF) then buf
      else if !Fits(Add(buf, a + CRLF), b + CRLF) then Add(buf, a + CRLF)
      else Add(Add(Add(buf, a + CRLF), b + CRLF), c + CRLF)
  {
    var x := Add(buf, a + CRLF);
    var y := Add(x, b + CRLF);
    assert AddWhile(y, [c]) == Add(y, c + CRLF);
    assert [a, b, c][1..] == [b, c] && [b, c][1..] == [c];
  }

  lemma OneStep(buf: string, a: string)
    ensures AddLines(buf, [a]) == Add(buf, a + CRLF)
  {
  }

  lemma TwoSteps(buf: string, a: string, b: string)
    ensures AddLines(buf, [a, b]) == Add(Add(buf, a + CRLF), b + CRLF)
  {
    OneStep(Add(buf, a + CRLF), b);
    assert [a, b][1..] == [b];
  }

  lemma FourSteps(buf: string, a: string, b: string, c: string, d: string)
    ensures AddLines(buf, [a, b, c, d]) == Add(Add(Add(Add(buf, a + CRLF), b + CRLF), c + CRLF), d + CRLF)
  {
    TwoSteps(Add(Add(buf, a + CRLF), b + CRLF), c, d);
    assert [a, b, c, d][1..] == [b, c, d] && [b, c, d][1..] == [c, d];
  }

  lemma FiveSteps(buf: string, a: string, b: string, c: string, d: string, e: string)
    ensures AddLines(buf, [a, b, c, d, e])
         == Add(Add(Add(Add(Add(buf, a + CRLF), b + CRLF), c + CRLF), d + CRLF), e + CRLF)
  {
    FourSteps(Add(buf, a + CRLF), b, c, d, e);
    assert [a, b, c, d, e][1..] == [b, c, d, e];
  }

  lemma SixSteps(buf: string, a: string, b: string, c: string, d: string, e: string, f: string)
    ensures AddLines(buf, [a, b, c, d, e, f])
         == Add(Add(Add(Add(Add(Add(buf, a + CRLF), b + CRLF), c + CRLF), d + CRLF), e + CRLF), f + CRLF)
  {
    FiveSteps(Add(buf, a + CRLF), b, c, d, e, f);
    assert [a, b, c, d, e, f][1..] == [b, c, d, e, f];
  }

  /** The write buffer, next to the fields that write() goes on with. */
  class Responder {
    const writeBuf: array<char>
    const writer: ResponseWriter

    constructor ()
      ensures Valid() && Text() == "" && fresh(writeBuf) && fresh(writer) && writeBuf.Length == 65536
    {
      writeBuf := new char[WRITE_BUFFER_SIZE];
      writer := new ResponseWriter();
    }

    ghost predicate Valid() reads writer {
      writeBuf.Length == WRITE_BUFFER_SIZE && writer.writeIdx <= WRITE_BUFFER_SIZE - 2
    }

    ghost function Text(): string
      requires Valid()
      reads writer, writeBuf
    {
      writeBuf[..writer.writeIdx]
    }

    /** http/http_conn.cpp:662-676; `text` is what the format expands to. */
    method AddResponse(text: string) returns (ok: bool)
      requires Valid()
      modifies writeBuf, writer`writeIdx
      ensures Valid() && ok == Fits(old(Text()), text) && Text() == Add(old(Text()), text)
    {
      var idx := writer.writeIdx;
      if idx >= WRITE_BUFFER_SIZE { return false; }
      var limit := WRITE_BUFFER_SIZE - 1 - idx;
      var k := 0;
      while k < |text| && k < limit - 1
        invariant writer.writeIdx == idx
        invariant 0 <= k <= |text| && (k <= limit - 1 || k == 0)
        invariant writeBuf[..idx] == old(writeBuf[..idx]) && writeBuf[idx..idx + k] == text[..k]
      {
        writeBuf[idx + k] := text[k];
        k := k + 1;
      }
      writeBuf[idx + k] := NUL;
      if |text| >= limit { return false; }
      writer.writeIdx := idx + |text|;
      return true;
    }

    method AddStatusLine(status: nat, title: string)
      requires Valid()
      modifies writeBuf, writer`writeIdx
      ensures Valid() && Text() == Add(old(Text()), StatusLine(status, title) + CRLF)
      ensures Text() == AddLines(old(Text()), [StatusLine(status, title)])
    {
      var _ := AddResponse(StatusLine(status, title) + CRLF);
    }

    method AddContentLength(length: int) returns (ok: bool)
      requires Valid()
      modifies writeBuf, writer`writeIdx
      ensures Valid() && ok == Fits(old(Text()), LengthLine(length) + CRLF)
      ensures Text() == Add(old(Text()), LengthLine(length) + CRLF)
    {
      ok := AddResponse(LengthLine(length) + CRLF);
    }

    method AddLinger() returns (ok: bool)
      requires Valid()
      modifies writeBuf, writer`writeIdx
      ensures Valid() && ok == Fits(old(Text()), LingerLine(writer.linger) + CRLF)
      ensures Text() == Add(old(Text()), LingerLine(writer.linger) + CRLF)
    {
      ok := AddResponse(LingerLine(writer.linger) + CRLF);
    }

    method AddBlankLine() returns (ok: bool)
      requires Valid()
      modifies writeBuf, writer`writeIdx
      ensures Valid() && ok == Fits(old(Text()), "" + CRLF) && Text() == Add(old(Text()), "" + CRLF)
    {
      assert "" + CRLF == CRLF;
      ok := AddResponse(CRLF);
    }

    /** add_headers */
    method AddFields(length: int)
      requires Valid()
      modifies writeBuf, writer`writeIdx
      ensures Valid() && Text() == AddHeaders(old(Text()), length, writer.linger)
    {
      hide Fits, LengthLine, LingerLine;
      WhileSteps(Text(), LengthLine(length), LingerLine(writer.linger), "");
      var ok := AddContentLength(length);
      if ok { ok := AddLinger(); }
      if ok { ok := AddBlankLine(); }
    }

    /** Status line and fields. */
    method AddHead(status: nat, title: string, length: int)
      requires Valid()
      modifies writeBuf, writer`writeIdx
      ensures Valid() && Text() == AddHeaders(AddLines(old(Text()), [StatusLine(status, title)]), length, writer.linger)
    {
      hide AddLines, AddHeaders, StatusLine;
      AddStatusLine(status, title);
      AddFields(length);
    }

    /** The head in front of a JSON text; what does not fit is dropped. */
    method AddJsonHead(size: nat)
      requires Valid()
      modifies writeBuf, writer`writeIdx
      ensures Valid() && Text() == AddLines(old(Text()),
        [StatusLine(200, "OK"), LengthLine(ToInt32(size)), JSON_TYPE, LingerLine(writer.linger), ""])
    {
      hide Fits, Add, AddLines, StatusLine, LengthLine, LingerLine, ToInt32;
      FiveSteps(Text(), StatusLine(200, "OK"), LengthLine(ToInt32(size)), JSON_TYPE, LingerLine(writer.linger), "");
      AddStatusLine(200, "OK");
      var _ := AddContentLength(ToInt32(size));
      var _ := AddResponse(JSON_TYPE + CRLF);
      var _ := AddLinger();
      var _ := AddBlankLine();
    }

    /** The head in front of a CSV text. */
    method AddCsvHead(size: nat)
      requires Valid()
      modifies writeBuf, writer`writeIdx
      ensures Valid() && Text() == AddLines(old(Text()),
        [StatusLine(200, "OK"), CSV_TYPE, CSV_NAME, LengthLine(ToInt32(size)), LingerLine(writer.linger), ""])
    {
      hide Fits, Add, AddLines, StatusLine, LengthLine, LingerLine, ToInt32;
      SixSteps(Text(), StatusLine(200, "OK"), CSV_TYPE, CSV_NAME, LengthLine(ToInt32(size)), LingerLine(writer.linger), "");
      AddStatusLine(200, "OK");
      var _ := AddResponse(CSV_TYPE + CRLF);
      var _ := AddResponse(CSV_NAME + CRLF);
      var _ := AddContentLength(ToInt32(size));
      var _ := AddLinger();
      var _ := AddBlankLine();
    }

    /** http/http_conn.cpp:710-780, on a connection that has nothing left to send. */
    method ProcessWrite(code: HttpCode, content: Content) returns (ok: bool)
      requires Valid() && writer.bytesHaveSend == 0
      modifies writeBuf, writer
      ensures Valid() && writer.linger == old(writer.linger)
      ensures var headed := Headed(old(Text()), code, writer.linger, content);
        && ok == Fits(headed, Page(code, content))
        && Text() == Add(headed, Page(code, content))
      ensures ok ==> writer.body == Behind(code, content) && writer.counts == [] && writer.Sending()
    {
      hide Fits, Add, AddLines, AddHeaders, StatusLine, LengthLine, LingerLine, ToInt32, CStr;
      match code {
      case NO_RESOURCE =>
        AddHead(404, NOT_FOUND, |NOT_FOUND_LENGTH|);
        ok := AddResponse(NOT_FOUND_PAGE);
        if !ok { return; }
      case INTERNAL_ERROR =>
        AddHead(500, INTERNAL_PAGE, |INTERNAL_PAGE|);
        ok := AddResponse(INTERNAL_PAGE);
        if !ok { return; }
      case FILE_REQUEST =>
        if content.file != "" {
          AddHead(200, "OK", ToInt32(|content.file|));
          Queue(File(|content.file|));
          AddNothing(Text());
          return true;
        } else {
          AddHead(200, "OK", |EMPTY_PAGE|);
          ok := AddResponse(EMPTY_PAGE);
          if !ok { return; }
        }
      case DIAGNOSE_REQUEST =>
        AddJsonHead(|content.json|);
        ok := AddResponse(CStr(content.json));
        if !ok { return; }
      case DIAGNOSE_CSV_REQUEST =>
        AddCsvHead(|content.csv|);
        Queue(Csv(|content.csv|));
        AddNothing(Text());
        return true;
      case _ =>
        AddHead(400, "Bad Request", 0);
        AddNothing(Text());
      }
      Queue(NoBody);
      return true;
    }

    /** m_iv, m_iv_count and bytes_to_send for the write buffer and what goes behind it. */
    method Queue(body: Body)
      requires writer.bytesHaveSend == 0
      modifies writer
      ensures writer.writeIdx == old(writer.writeIdx) && writer.linger == old(writer.linger)
      ensures writer.body == body && writer.counts == [] && writer.Sending()
    {
      hide Run, ValidRun;
      writer.ivBase0, writer.ivLen0 := 0, writer.writeIdx;
      writer.ivCsv1, writer.ivBase1, writer.ivLen1 := body.Csv?, 0, body.Size();
      writer.ivCount := if body.NoBody? then 1 else 2;
      writer.bytesToSend := writer.writeIdx + body.Size();
      writer.sent, writer.body, writer.counts := [], body, [];
      RunOfNothing(writer.writeIdx, body);
    }
  }
}