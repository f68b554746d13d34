/** The answers of process_write, spelled out: the status line, the fields and the page a client sees for each
code, and the fields read back by the server's own header parser. */
module Answers {
  import opened CStrings
  import opened HttpParser
  import opened Spelling
  import opened Response

  /** A keep-alive answer says so, and a closing one does not. */
  lemma LingerReadsBack(r: Request, linger: bool)
    ensures OnHeader(r, LingerLine(linger)) == Next(if linger then r.(linger := true) else r)
  {
    hide OnHeader;
    var value := if linger then "keep-alive" else "close";
    SmallCapital("Connection:", "connection:");
    ConnectionHeader(r, "Connection:", "", value);
    assert "Connection:" + "" == "Connection:";
    assert Spells(value, "keep-alive") <==> linger by { CaseIgnored(value, value); }
  }

  /** The length of an answer, read as the length of a request. */
  lemma LengthReadsBack(r: Request, length: nat)
    requires length < 0x8000_0000
    ensures OnHeader(r, LengthLine(length)) == Next(r.(length := length))
  {
    hide OnHeader;
    SmallCapital("Content-Length:", "content-length:");
    LengthHeader(r, "Content-Length:", "", length);
    assert "Content-Length:" + "" == "Content-Length:";
  }

  /** The three digits of a status line, behind the version and one blank, in front of another. */
  function ReadStatus(line: string): Option<nat> {
    if |line| > 12 && line[..9] == "HTTP/1.1 " && line[12] == ' ' then ReadNumber(line[9..12]) else None
  }

  lemma StatusReadsBack(status: nat, title: string)
    requires 100 <= status < 1000
    ensures ReadStatus(StatusLine(status, title)) == Some(status)
    ensures StatusLine(status, title)[13..] == title
  {
    hide ReadNumber;
    var line := StatusLine(status, title);
    ThreeDigits(status);
    ReadDecimal(status);
    assert line[..9] == "HTTP/1.1 " && line[9..12] == Decimal(status) && line[12] == ' ';
  }

  lemma ThreeDigits(n: nat)
    requires 100 <= n < 1000
    ensures |Digits(n)| == 3
  {
    assert |Digits(n / 10 / 10)| == 1 && |Digits(n / 10)| == 2;
  }

  /** The status of each code, as a client reads it off the first line. */
  lemma StatusOfCode(code: HttpCode, linger: bool, content: Content)
    ensures Lines(code, linger, content) != []
    ensures ReadStatus(Lines(code, linger, content)[0]) == Some(
      match code
      case NO_RESOURCE => 404
      case INTERNAL_ERROR => 500
      case FILE_REQUEST => 200
      case DIAGNOSE_REQUEST => 200
      case DIAGNOSE_CSV_REQUEST => 200
      case _ => 400)
  {
    hide ReadStatus, StatusLine, LengthLine, LingerLine;
    StatusReadsBack(404, NOT_FOUND);
    StatusReadsBack(500, INTERNAL_PAGE);
    StatusReadsBack(200, "OK");
    StatusReadsBack(400, "Bad Request");
  }

  /** The status lines: version, status and title, with one blank between them. */
  lemma StatusLines()
    ensures StatusLine(404, NOT_FOUND) == "HTTP/1.1 404" + " Not Found"
    ensures StatusLine(500, INTERNAL_PAGE) == "HTTP/1.1 500" + " Internal Error"
    ensures StatusLine(200, "OK") == "HTTP/1.1 200" + " OK"
    ensures StatusLine(400, "Bad Request") == "HTTP/1.1 400" + " Bad Request"
    ensures StatusLine(302, "Found") == "HTTP/1.1 302" + " Found"
  {
    hide StatusLine;
    DigitsOf(404, '4', '0', '4');
    DigitsOf(500, '5', '0', '0');
    DigitsOf(200, '2', '0', '0');
    DigitsOf(400, '4', '0', '0');
    DigitsOf(302, '3', '0', '2');
    StatusText(404, "404", NOT_FOUND);
    StatusText(500, "500", INTERNAL_PAGE);
    StatusText(200, "200", "OK");
    StatusText(400, "400", "Bad Request");
    StatusText(302, "302", "Found");
    assert "HTTP/1.1 " + "404" == "HTTP/1.1 404" && " " + NOT_FOUND == " Not Found";
    assert "HTTP/1.1 " + "500" == "HTTP/1.1 500" && " " + INTERNAL_PAGE == " Internal Error";
    assert "HTTP/1.1 " + "200" == "HTTP/1.1 200" && " " + "OK" == " OK";
    assert "HTTP/1.1 " + "400" == "HTTP/1.1 400" && " " + "Bad Request" == " Bad Request";
    assert "HTTP/1.1 " + "302" == "HTTP/1.1 302" && " " + "Found" == " Found";
  }

  lemma StatusText(status: nat, digits: string, title: string)
    requires Decimal(status) == digits
    ensures StatusLine(status, title) == ("HTTP/1.1 " + digits) + (" " + title)
  {
  }

  lemma DigitsOf(n: nat, a: char, b: char, c: char)
    requires Digit(a) && Digit(b) && Digit(c) && a > '0'
    requires n == 100 * (a as int - '0' as int) + 10 * (b as int - '0' as int) + (c as int - '0' as int)
    ensures Decimal(n) == [a, b, c]
  {
    assert Digits(n / 10 / 10) == [a];
    assert Digits(n / 10) == [a, b];
  }

  function Announce(linger: bool): string {
    if linger then "Connection:keep-alive" else "Connection:close"
  }

  /** The head of every answer, line by line. */
  lemma HeadsSpelledOut(linger: bool, content: Content)
    ensures Lines(NO_RESOURCE, linger, content) == ["HTTP/1.1 404" + " Not Found", "Content-Length:13", Announce(linger)]
    ensures Lines(INTERNAL_ERROR, linger, content) == ["HTTP/1.1 500" + " Internal Error", "Content-Length:14", Announce(linger)]
    ensures Lines(FILE_REQUEST, linger, content.(file := "")) == ["HTTP/1.1 200" + " OK", "Content-Length:36", Announce(linger)]
    ensures Lines(BAD_REQUEST, linger, content) == ["HTTP/1.1 400" + " Bad Request", "Content-Length:0", Announce(linger)]
  {
    hide StatusLine;
    StatusLines();
    assert Digits(1) == "1" && Decimal(13) == "13" && Decimal(14) == "14" && Decimal(0) == "0";
    assert Digits(3) == "3" && Decimal(36) == "36";
    assert LengthLine(13) == "Content-Length:13" && LengthLine(14) == "Content-Length:14";
    assert LengthLine(36) == "Content-Length:36" && LengthLine(0) == "Content-Length:0";
    LingerSpelledOut(linger);
  }

  lemma LingerSpelledOut(linger: bool)
    ensures LingerLine(linger) == Announce(linger)
  {
  }

  /** The heads in front of a file or a result: one length, one type, one announcement. */
  lemma ResultHeadsSpelledOut(linger: bool, content: Content)
    ensures content.file != "" ==>
      Lines(FILE_REQUEST, linger, content)
      == ["HTTP/1.1 200" + " OK", "Content-Length:" + Decimal(ToInt32(|content.file|)), Announce(linger)]
    ensures Lines(DIAGNOSE_REQUEST, linger, content)
         == ["HTTP/1.1 200" + " OK", "Content-Length:" + Decimal(ToInt32(|content.json|)),
             "Content-Type: " + "application/json", Announce(linger)]
    ensures Lines(DIAGNOSE_CSV_REQUEST, linger, content)
         == ["HTTP/1.1 200" + " OK", "Content-Type: " + "text/csv",
             "Content-Disposition: " + "attachment; " + "filename=\"result.csv\"",
             "Content-Length:" + Decimal(ToInt32(|content.csv|)), Announce(linger)]
  {
    hide StatusLine, Decimal, ToInt32, LingerLine, Announce;
    StatusLines();
    LingerSpelledOut(linger);
    TypesSpelledOut();
  }

  lemma TypesSpelledOut()
    ensures JSON_TYPE == "Content-Type: " + "application/json"
    ensures CSV_TYPE == "Content-Type: " + "text/csv"
    ensures CSV_NAME == "Content-Disposition: " + "attachment; " + "filename=\"result.csv\""
  {
  }

  /** All other codes are answered alike. */
  lemma OtherCodes(code: HttpCode, linger: bool, content: Content)
    requires code in {NO_REQUEST, GET_REQUEST, FORBIDDEN_REQUEST, CLOSED_CONNECTION, REDIRECT_REQUEST}
    ensures Lines(code, linger, content) == Lines(BAD_REQUEST, linger, content)
    ensures BodyText(code, content) == ""
  {
  }

  /** The body of every answer. */
  lemma BodiesSpelledOut(content: Content)
    ensures BodyText(NO_RESOURCE, content) == "404 Not Found - Please check your root path."
    ensures BodyText(INTERNAL_ERROR, content) == "Internal Error"
    ensures BodyText(FILE_REQUEST, content)
         == if content.file == "" then "<html><body>Empty File</body></html>" else content.file
    ensures BodyText(DIAGNOSE_REQUEST, content) == CStr(content.json)
    ensures BodyText(DIAGNOSE_CSV_REQUEST, content) == content.csv
    ensures BodyText(BAD_REQUEST, content) == ""
  {
  }

  /** The write buffer takes a text as long as one byte is left behind it for its NUL, and one more. */
  lemma RoomFor(buf: string, text: string)
    ensures Add(buf, text) == if |buf| + |text| < 65535 then buf + text else buf
  {
  }

  /** The redirections. */
  lemma RedirectsSpelledOut(token: string)
    ensures RedirectLines(NeedLogin) == ["HTTP/1.1 302" + " Found", "Location: /log.html"]
    ensures RedirectLines(LoggedIn(token))
         == ["HTTP/1.1 302" + " Found", "Set-Cookie: session_id=" + token + "; Path=/", "Location: /"]
    ensures RedirectLines(LoggedOut)
         == ["HTTP/1.1 302" + " Found", "Set-Cookie: session_id=; Path=/; Max-Age=0", "Location: /log.html"]
  {
    hide StatusLine, TO_LOGIN, TO_ROOT, CLEAR_COOKIE;
    StatusLines();
    PlacesSpelledOut();
  }

  lemma PlacesSpelledOut()
    ensures TO_LOGIN == "Location: /log.html" && TO_ROOT == "Location: /"
    ensures CLEAR_COOKIE == "Set-Cookie: session_id=; Path=/; Max-Age=0"
  {
  }
}
