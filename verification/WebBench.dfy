/** test_presure/webbench-1.5/webbench.c, build_request: the request printer that is run against the
server's parser.  Only its exits and the request and host buffers are modelled. */
module WebBench {
  import opened CStrings
  import opened HttpParser
  import Spelling
  import Response

  datatype Verb = Get | Head | Options | Trace

  const MAX_URL := 1500

  predicate SchemeEndAt(s: string, k: nat) {
    k + 3 <= |s| && s[k] == ':' && s[k + 1] == '/' && s[k + 2] == '/'
  }

  /** strstr(s, "://") as an offset, |s| for NULL. */
  function FindScheme(s: string): (n: nat)
    ensures n <= |s| && (n < |s| ==> SchemeEndAt(s, n)) && (forall k: nat :: k < n ==> !SchemeEndAt(s, k))
  {
    if s == "" || SchemeEndAt(s, 0) then 0
    else
      var n := FindScheme(s[1..]);
      assert forall k: nat :: 0 < k < |s| ==> SchemeEndAt(s, k) == SchemeEndAt(s[1..], k - 1);
      1 + n
  }

  /** The url behind "://". */
  function AfterScheme(url: string): string {
    var n := FindScheme(url);
    if n < |url| then url[n + 3..] else ""
  }

  /** The tests after which build_request goes on. */
  predicate Accepted(url: string, proxied: bool) {
    && FindScheme(url) < |url| && |url| <= MAX_URL
    && (!proxied ==> StartsWithCase(url, HTTP_SCHEME))
    && Strchr(AfterScheme(url), '/') < |AfterScheme(url)|
  }

  /** The host name in front of a port or the path. */
  function HostOf(url: string): string {
    var s := AfterScheme(url);
    if Strchr(s, ':') < Strchr(s, '/') then s[..Strchr(s, ':')] else s[..Strchr(s, '/')]
  }

  /** The text between the host name and the path, if there is a port. */
  function PortText(url: string): Option<string> {
    var s := AfterScheme(url);
    if Strchr(s, ':') < Strchr(s, '/') then Some(s[Strchr(s, ':') + 1..Strchr(s, '/')]) else None
  }

  /** The port connected to; `port` is the one of the command line or the default. */
  function PortOf(url: string, port: int): int {
    match PortText(url)
    case None => port
    case Some(text) => if ToInt32(Atol(text)) == 0 then 80 else ToInt32(Atol(text))
  }

  function PathOf(url: string): string {
    var s := AfterScheme(url);
    s[Strchr(s, '/')..]
  }

  function VerbName(m: Verb): string {
    match m
    case Get => "GET"
    case Head => "HEAD"
    case Options => "OPTIONS"
    case Trace => "TRACE"
  }

  /** The protocol after the adjustments: 0 for 0.9, 1 for 1.0, 2 for 1.1. */
  function Protocol(http10: nat, m: Verb, reload: bool, proxied: bool): nat {
    var a := if reload && proxied && http10 < 1 then 1 else http10;
    var b := if m == Head && a < 1 then 1 else a;
    if (m == Options || m == Trace) && b < 2 then 2 else b
  }

  function RequestLineText(m: Verb, target: string, protocol: nat): string {
    VerbName(m) + " " + target + VersionText(protocol)
  }

  function VersionText(protocol: nat): string {
    if protocol == 1 then " HTTP/1.0" else if protocol == 2 then " HTTP/1.1" else ""
  }

  function UserAgent(protocol: nat): string {
    if protocol > 0 then "User-Agent: WebBench 1.5" + "\r\n" else ""
  }

  function HostField(url: string, protocol: nat, proxied: bool): string {
    if !proxied && protocol > 0 then "Host: " + HostOf(url) + "\r\n" else ""
  }

  function Pragma(reload: bool, proxied: bool): string {
    if reload && proxied then "Pragma: no-cache" + "\r\n" else ""
  }

  function Close(protocol: nat): string {
    if protocol > 1 then "Connection: close" + "\r\n" else ""
  }

  function BlankLine(protocol: nat): string {
    if protocol > 0 then "\r\n" else ""
  }

  function RequestText(m: Verb, url: string, protocol: nat, reload: bool, proxied: bool): string {
    RequestLineText(m, if proxied then url else PathOf(url), protocol) + "\r\n"
    + UserAgent(protocol) + HostField(url, protocol, proxied) + Pragma(reload, proxied) + Close(protocol)
    + BlankLine(protocol)
  }

  class Bench {
    var http10: nat
    var verb: Verb
    var forceReload: bool
    var proxied: bool    // proxyhost != NULL
    var proxyPort: int
    var host: string
    var request: string

    /** build_request(); false for exit(2). */
    method BuildRequest(url: string) returns (ok: bool)
      modifies this`http10, this`proxyPort, this`host, this`request
      ensures ok <==> Accepted(url, proxied)
      ensures http10 == Protocol(old(http10), verb, forceReload, proxied)
      ensures ok ==> request == RequestText(verb, url, http10, forceReload, proxied)
      ensures ok && !proxied ==> host == HostOf(url)
      ensures proxyPort == if ok && !proxied then PortOf(url, old(proxyPort)) else old(proxyPort)
    {
      hide Accepted, PortOf, HostOf, PathOf, Strchr, FindScheme, StartsWithCase, UserAgent, HostField, Pragma, Close, BlankLine;
      AcceptedIs(url, proxied);
      host, request := "", "";
      AppendVerb();
      if FindScheme(url) == |url| { return false; }
      if |url| > MAX_URL { return false; }
      if !proxied && !StartsWithCase(url, HTTP_SCHEME) { return false; }
      var rest := url[FindScheme(url) + 3..];
      if Strchr(rest, '/') == |rest| { return false; }
      AppendTarget(url, rest);
      AppendVersion();
      AppendHeaders(url);
      return true;
    }

    lemma AcceptedIs(url: string, proxied: bool)
      ensures FindScheme(url) < |url| ==> FindScheme(url) + 3 <= |url| && AfterScheme(url) == url[FindScheme(url) + 3..]
      ensures Accepted(url, proxied) <==>
        && FindScheme(url) < |url| && |url| <= MAX_URL
        && (!proxied ==> StartsWithCase(url, HTTP_SCHEME))
        && Strchr(AfterScheme(url), '/') < |AfterScheme(url)|
    {
    }

    /** The adjustments of the protocol and the method word. */
    method AppendVerb()
      requires request == ""
      modifies this`http10, this`request
      ensures http10 == Protocol(old(http10), verb, forceReload, proxied)
      ensures request == VerbName(verb) + " "
    {
      if forceReload && proxied && http10 < 1 { http10 := 1; }
      if verb == Head && http10 < 1 { http10 := 1; }
      if verb == Options && http10 < 2 { http10 := 2; }
      if verb == Trace && http10 < 2 { http10 := 2; }
      match verb {
        case Get => request := "GET";
        case Head => request := "HEAD";
        case Options => request := "OPTIONS";
        case Trace => request := "TRACE";
      }
      request := request + " ";
    }

    method AppendVersion()
      modifies this`request
      ensures request == old(request) + VersionText(http10) + "\r\n"
    {
      if http10 == 1 {
        request := request + " HTTP/1.0";
      } else if http10 == 2 {
        request := request + " HTTP/1.1";
      }
      request := request + "\r\n";
    }

    /** The host name and the target, out of a url whose part behind "://" is `rest`. */
    method AppendTarget(url: string, rest: string)
      requires rest == AfterScheme(url) && Strchr(rest, '/') < |rest|
      modifies this`proxyPort, this`host, this`request
      ensures request == old(request) + (if proxied then url else PathOf(url))
      ensures !proxied ==> host == HostOf(url)
      ensures proxyPort == if !proxied then PortOf(url, old(proxyPort)) else old(proxyPort)
    {
      if !proxied {
        if Strchr(rest, ':') != |rest| && Strchr(rest, ':') < Strchr(rest, '/') {
          host := rest[..Strchr(rest, ':')];
          var tmp := rest[Strchr(rest, ':') + 1..Strchr(rest, '/')];
          proxyPort := ToInt32(Atol(tmp));
          if proxyPort == 0 { proxyPort := 80; }
        } else {
          host := rest[..Strchr(rest, '/')];
        }
        request := request + rest[Strchr(rest, '/')..];
      } else {
        request := request + url;
      }
    }

    method AppendHeaders(url: string)
      requires !proxied ==> host == HostOf(url)
      modifies this`request
      ensures request == old(request) + UserAgent(http10) + HostField(url, http10, proxied)
                         + Pragma(forceReload, proxied) + Close(http10) + BlankLine(http10)
    {
      hide HostOf;
      ghost var s0 := request;
      if http10 > 0 {
        request := request + ("User-Agent: WebBench 1.5" + "\r\n");
      }
      assert request == s0 + UserAgent(http10);
      ghost var s1 := request;
      if !proxied && http10 > 0 {
        request := request + "Host: ";
        request := request + host;
        request := request + "\r\n";
        assert request == s1 + ("Host: " + HostOf(url) + "\r\n");
      }
      assert request == s1 + HostField(url, http10, proxied);
      ghost var s2 := request;
      if forceReload && proxied {
        request := request + ("Pragma: no-cache" + "\r\n");
      }
      assert request == s2 + Pragma(forceReload, proxied);
      ghost var s3 := request;
      if http10 > 1 {
        request := request + ("Connection: close" + "\r\n");
      }
      assert request == s3 + Close(http10);
      ghost var s4 := request;
      if http10 > 0 {
        request := request + "\r\n";
      }
      assert request == s4 + BlankLine(http10);
    }
  }

  // ----- the printed request, parsed -----

  lemma HostHeader(r: Request, host: string)
    ensures OnHeader(r, "Host: " + host) == Next(r.(host := Some(SkipBlanks(host))))
  {
    var line := "Host: " + host;
    if StartsWithCase(line, CONNECTION) { StartsFirst(line, CONNECTION); }
    if StartsWithCase(line, CONTENT_LENGTH) { StartsFirst(line, CONTENT_LENGTH); }
    assert line[..5] == HOST && line[5..] == " " + host;
    BlanksFirst(" ", host);
  }

  lemma CloseHeader(r: Request)
    ensures OnHeader(r, "Connection: close") == Next(r)
  {
    var line := "Connection: close";
    assert line[..11] == CONNECTION && line[11..] == " close";
    assert Strspn(" close") == 1 && SkipBlanks(" close") == "close";
    assert |LowerAll("close")| != |LowerAll(KEEP_ALIVE)|;
  }

  lemma VerbCases(m: Verb)
    ensures NoBlank(VerbName(m)) && Clean(VerbName(m))
    ensures StrCaseEq(VerbName(m), GET) <==> m == Get
    ensures !StrCaseEq(VerbName(m), POST)
  {
    assert |LowerAll(GET)| == 3 && |LowerAll(POST)| == 4 && LowerAll(POST)[0] == 'p';
    assert |LowerAll(VerbName(m))| == |VerbName(m)|;
    assert LowerAll(VerbName(m))[0] == Lower(VerbName(m)[0]);
  }

  /** The request line is taken apart again; only GET and HTTP/1.1 pass. */
  lemma PrintedRequestLine(m: Verb, target: string, protocol: nat)
    requires target != "" && NoBlank(target)
    ensures OnRequestLine(NEW_REQUEST, RequestLineText(m, target, protocol)) ==
              if m == Get && protocol == 2 then CheckUrl(NEW_REQUEST.(version := HTTP_1_1), target) else Reject
  {
    hide CheckUrl, StrCaseEq, OnRequestLine, VerbName, VersionText, SkipBlanks, Strpbrk, NoBlank;
    var verb, more := VerbName(m), target + VersionText(protocol);
    TextOfLine(m, target, protocol);
    VerbCases(m);
    BlankFree(target, VersionText(protocol));
    VerbFirst(NEW_REQUEST, verb, more);
    PrintedVersion(target, protocol);
  }

  lemma PrintedVersion(target: string, protocol: nat)
    requires NoBlank(target)
    ensures var more := target + VersionText(protocol);
            var u := Strpbrk(more);
            && (u < |more| <==> protocol == 1 || protocol == 2)
            && (u < |more| ==> more[..u] == target)
            && (protocol == 1 ==> !StrCaseEq(SkipBlanks(more[u + 1..]), HTTP_1_1))
            && (protocol == 2 ==> SkipBlanks(more[u + 1..]) == HTTP_1_1 && StrCaseEq(HTTP_1_1, HTTP_1_1))
  {
    hide StrCaseEq, SkipBlanks;
    var more := target + VersionText(protocol);
    Versions();
    if protocol == 1 || protocol == 2 {
      var version := if protocol == 1 then "HTTP/1.0" else "HTTP/1.1";
      assert more == target + " " + version;
      WordEnd(target, version);
    } else {
      assert more == target;
      NoWordEnd(target);
    }
  }

  lemma TextOfLine(m: Verb, target: string, protocol: nat)
    ensures RequestLineText(m, target, protocol) == VerbName(m) + " " + (target + VersionText(protocol))
  {
  }

  lemma BlankFree(word: string, more: string)
    requires word != "" && NoBlank(word)
    ensures SkipBlanks(word + more) == word + more
  {
    assert (word + more)[0] == word[0];
  }

  lemma Versions()
    ensures !StrCaseEq("HTTP/1.0", HTTP_1_1) && StrCaseEq("HTTP/1.1", HTTP_1_1)
    ensures SkipBlanks("HTTP/1.0") == "HTTP/1.0" && SkipBlanks("HTTP/1.1") == HTTP_1_1
  {
    assert LowerAll("HTTP/1.0")[7] == '0' && LowerAll(HTTP_1_1)[7] == '1';
  }

  // ----- the url -----

  predicate WebScheme(url: string) {
    StartsWithCase(url, HTTP_SCHEME) || StartsWithCase(url, HTTPS_SCHEME)
  }

  lemma SchemeLetters(url: string, prefix: string)
    requires StartsWithCase(url, prefix)
    ensures forall k :: 0 <= k < |prefix| ==> Lower(url[k]) == Lower(prefix[k])
  {
    forall k | 0 <= k < |prefix| ensures Lower(url[k]) == Lower(prefix[k]) {
      assert LowerAll(url[..|prefix|])[k] == LowerAll(prefix)[k];
    }
  }

  /** For http and https urls strstr finds the "://" of the scheme. */
  lemma SchemeEnd(url: string)
    ensures StartsWithCase(url, HTTP_SCHEME) ==> FindScheme(url) == 4 && AfterScheme(url) == url[7..]
    ensures StartsWithCase(url, HTTPS_SCHEME) ==> FindScheme(url) == 5 && AfterScheme(url) == url[8..]
    ensures !(StartsWithCase(url, HTTP_SCHEME) && StartsWithCase(url, HTTPS_SCHEME))
  {
    hide StartsWithCase;
    if StartsWithCase(url, HTTP_SCHEME) {
      SchemeLetters(url, HTTP_SCHEME);
      assert |url| >= 7 by { PrefixLength(url, HTTP_SCHEME); }
      assert Lower(url[0]) == 'h' && Lower(url[1]) == 't' && Lower(url[2]) == 't' && Lower(url[3]) == 'p';
      assert Lower(url[4]) == ':' && Lower(url[5]) == '/' && Lower(url[6]) == '/';
      assert SchemeEndAt(url, 4) && forall k: nat :: k < 4 ==> !SchemeEndAt(url, k);
    }
    if StartsWithCase(url, HTTPS_SCHEME) {
      SchemeLetters(url, HTTPS_SCHEME);
      assert |url| >= 8 by { PrefixLength(url, HTTPS_SCHEME); }
      assert Lower(url[0]) == 'h' && Lower(url[1]) == 't' && Lower(url[2]) == 't' && Lower(url[3]) == 'p';
      assert Lower(url[4]) == 's' && Lower(url[5]) == ':' && Lower(url[6]) == '/' && Lower(url[7]) == '/';
      assert SchemeEndAt(url, 5) && forall k: nat :: k < 5 ==> !SchemeEndAt(url, k);
    }
  }

  lemma PrefixLength(s: string, prefix: string)
    requires StartsWithCase(s, prefix)
    ensures |s| >= |prefix|
  {
  }

  /** What the server sees of a target: the path of a web url or the target as it is. */
  function SentPath(url: string, proxied: bool): string {
    if proxied && !WebScheme(url) then url else PathOf(url)
  }

  predicate Served(url: string, proxied: bool) {
    proxied ==> WebScheme(url) || (url != "" && url[0] == '/')
  }

  lemma PrintedTarget(r: Request, url: string, proxied: bool)
    requires Accepted(url, proxied)
    ensures CheckUrl(r, if proxied then url else PathOf(url)) ==
              if Served(url, proxied) then Next(r.(phase := Header, url := SentPath(url, proxied))) else Reject
  {
    hide StartsWithCase, FindScheme;
    var path := PathOf(url);
    SlashTarget(r, path);
    SchemeEnd(url);
    if proxied {
      if StartsWithCase(url, HTTP_SCHEME) {
        assert CutUrl(HTTP_SCHEME, url) == Some(path);
      } else if StartsWithCase(url, HTTPS_SCHEME) {
        assert CutUrl(HTTP_SCHEME, url) == Some(url) && CutUrl(HTTPS_SCHEME, url) == Some(path);
      } else {
        assert CutUrl(HTTP_SCHEME, url) == Some(url) && CutUrl(HTTPS_SCHEME, url) == Some(url);
      }
    }
  }

  // ----- the whole request -----

  function HeaderLines(url: string, reload: bool, proxied: bool): string {
    UserAgent(2) + (HostField(url, 2, proxied) + (Pragma(reload, proxied) + (Close(2) + BlankLine(2))))
  }

  /** The headers of an HTTP/1.1 request set the host of a direct one and nothing else. */
  lemma PrintedHeaders(r: Request, url: string, reload: bool, proxied: bool)
    requires r.phase == Header && r.length == 0 && Clean(HostOf(url))
    ensures ParseHead(r, HeaderLines(url, reload, proxied))
         == Completed(if proxied then r else r.(host := Some(SkipBlanks(HostOf(url)))), "")
  {
    hide ParseHead, OnHeader, HostOf, OnRequestLine, SkipBlanks;
    var r' := if proxied then r else r.(host := Some(SkipBlanks(HostOf(url))));
    var last := Close(2) + BlankLine(2);
    CloseAndBlank(r');
    var third := Pragma(reload, proxied) + last;
    if reload && proxied {
      OneLine(r', "Pragma: no-cache", last);
      OtherHeader(r', "Pragma: no-cache");
    } else {
      assert third == last;
    }
    var second := HostField(url, 2, proxied) + third;
    if !proxied {
      HostHeader(r, HostOf(url));
      assert second == "Host: " + HostOf(url) + "\r\n" + third;
      OneLine(r, "Host: " + HostOf(url), third);
    } else {
      assert second == third;
    }
    OneLine(r, "User-Agent: WebBench 1.5", second);
    OtherHeader(r, "User-Agent: WebBench 1.5");
  }

  lemma CloseAndBlank(r: Request)
    requires r.phase == Header && r.length == 0
    ensures ParseHead(r, Close(2) + BlankLine(2)) == Completed(r, "")
  {
    hide ParseHead, OnHeader, OnRequestLine;
    CloseHeader(r);
    OneLine(r, "Connection: close", "\r\n");
    assert "" + "\r\n" + "" == "\r\n";
    OneLine(r, "", "");
    EmptyHeader(r);
  }

  lemma EmptyHeader(r: Request)
    requires r.length == 0
    ensures OnHeader(r, "") == Complete(r)
  {
  }

  /** Every url build_request accepts, free of blanks and line ends: the printed request is taken
      by the server's parser if and only if it is a GET over HTTP/1.1, sent directly or for a target the
      server serves; then the path is the url's, the host the url's host for a direct request, no
      keep-alive and no body.  All other requests are rejected with 400. */
  lemma PrinterMeetsParser(m: Verb, http10: nat, url: string, reload: bool, proxied: bool)
    requires Accepted(url, proxied) && NoBlank(url) && Clean(url)
    ensures var protocol := Protocol(http10, m, reload, proxied);
            var h := ParseHead(NEW_REQUEST, RequestText(m, url, protocol, reload, proxied));
            if m == Get && protocol == 2 && Served(url, proxied)
            then h == Completed(Request(Header, false, SentPath(url, proxied), HTTP_1_1,
                                        if proxied then None else Some(HostOf(url)), "", false, 0), "")
            else h.Rejected?
  {
    hide ParseHead, OnRequestLine, CheckUrl, HostOf, PathOf, Served, SentPath, OnHeader;
    var protocol := Protocol(http10, m, reload, proxied);
    var target := if proxied then url else PathOf(url);
    UrlParts(url, proxied);
    PrintedRequestLine(m, target, protocol);
    PrintedTarget(NEW_REQUEST.(version := HTTP_1_1), url, proxied);
    var line := RequestLineText(m, target, protocol);
    LineIsClean(m, target, protocol);
    var rest := UserAgent(protocol) + (HostField(url, protocol, proxied) + (Pragma(reload, proxied)
                + (Close(protocol) + BlankLine(protocol))));
    TextIs(m, url, protocol, reload, proxied);
    OneLine(NEW_REQUEST, line, rest);
    if m == Get && protocol == 2 && Served(url, proxied) {
      NoBlankFirst(HostOf(url));
      PrintedHeaders(NEW_REQUEST.(version := HTTP_1_1, phase := Header, url := SentPath(url, proxied)), url, reload, proxied);
    }
  }

  /** The first word of a target: what parse_request_line takes for the url. */
  function FirstWord(target: string): string {
    var t := SkipBlanks(target);
    t[..Strpbrk(t)]
  }

  /** Nothing but blanks follows the first word. */
  predicate OneWord(target: string) {
    var t := SkipBlanks(target);
    SkipBlanks(t[Strpbrk(t)..]) == ""
  }

  lemma {:induction false} WordThen(a: string, b: string)
    ensures Strpbrk(a + b) == if Strpbrk(a) < |a| then Strpbrk(a) else |a| + Strpbrk(b)
    decreases |a|
  {
    if a == "" {
      assert a + b == b;
    } else if !Blank(a[0]) {
      assert (a + b)[1..] == a[1..] + b;
      WordThen(a[1..], b);
    }
  }

  /** What is left of an HTTP/1.1 request line behind its first word. */
  lemma VersionBehind(t: string)
    ensures var more, u := t + " HTTP/1.1", Strpbrk(t);
      && Strpbrk(more) == u < |more| && more[..u] == t[..u]
      && (SkipBlanks(t[u..]) == "" ==> StrCaseEq(SkipBlanks(more[u + 1..]), HTTP_1_1) && SkipBlanks(more[u + 1..]) == HTTP_1_1)
      && (SkipBlanks(t[u..]) != "" ==> !StrCaseEq(SkipBlanks(more[u + 1..]), HTTP_1_1))
  {
    hide StrCaseEq, SkipBlanks, Strpbrk;
    var more, u := t + " HTTP/1.1", Strpbrk(t);
    WordThen(t, " HTTP/1.1");
    assert Strpbrk(" HTTP/1.1") == 0 by { FirstIsBlank(" HTTP/1.1"); }
    Versions();
    if u == |t| {
      assert more[u + 1..] == "HTTP/1.1" && more[..u] == t[..u];
      assert t[u..] == "";
      NoBlankFirst("");
    } else {
      assert more[u + 1..] == t[u + 1..] + " HTTP/1.1" && more[..u] == t[..u];
      assert t[u..][1..] == t[u + 1..];
      BlankDropped(t[u..]);
      BlanksFirst(t[u + 1..], " HTTP/1.1");
      BlankDropped(" HTTP/1.1");
      assert " HTTP/1.1"[1..] == "HTTP/1.1";
      if SkipBlanks(t[u..]) != "" { TooLong(SkipBlanks(more[u + 1..]), HTTP_1_1); }
    }
  }

  lemma FirstIsBlank(s: string)
    requires s != "" && Blank(s[0])
    ensures Strpbrk(s) == 0
  {
  }

  lemma TooLong(a: string, b: string)
    requires |a| > |b|
    ensures !StrCaseEq(a, b)
  {
    assert |LowerAll(a)| == |a| && |LowerAll(b)| == |b|;
  }

  /** A GET over HTTP/1.1 for a target with blanks: those around it are dropped, those inside it reject it. */
  lemma PrintedBlanks(target: string)
    requires SkipBlanks(target) != ""
    ensures OnRequestLine(NEW_REQUEST, RequestLineText(Get, target, 2)) ==
      if OneWord(target) then CheckUrl(NEW_REQUEST.(version := HTTP_1_1), FirstWord(target)) else Reject
  {
    hide CheckUrl, StrCaseEq, OnRequestLine, SkipBlanks, Strpbrk, NoBlank, VerbName;
    VerbCases(Get);
    TextOfLine(Get, target, 2);
    VerbFirst(NEW_REQUEST, VerbName(Get), target + VersionText(2));
    BlanksFirst(target, " HTTP/1.1");
    VersionBehind(SkipBlanks(target));
  }

  lemma TargetIsWord(url: string, proxied: bool)
    requires Accepted(url, proxied)
    ensures SkipBlanks(if proxied then url else PathOf(url)) != ""
  {
    hide StartsWithCase;
    if proxied {
      NotAllBlank(url, FindScheme(url));
    } else {
      NotAllBlank(PathOf(url), 0);
    }
  }

  lemma NotAllBlank(s: string, k: nat)
    requires k < |s| && !Blank(s[k])
    ensures SkipBlanks(s) != ""
  {
    assert Strspn(s) <= k;
  }

  /** Every url build_request accepts without line ends, blanks or not, in a GET over HTTP/1.1: the server looks
      at the first word of the target, if nothing but blanks follows it, and rejects the request otherwise. */
  lemma BlanksMeetParser(url: string, reload: bool, proxied: bool)
    requires Accepted(url, proxied) && Clean(url)
    ensures var target := if proxied then url else PathOf(url);
      var h := ParseHead(NEW_REQUEST, RequestText(Get, url, 2, reload, proxied));
      if !OneWord(target) then h.Rejected?
      else
        match CheckUrl(NEW_REQUEST.(version := HTTP_1_1), FirstWord(target))
        case Next(r) => h == Completed(if proxied then r else r.(host := Some(SkipBlanks(HostOf(url)))), "")
        case Reject => h.Rejected?
        case Crash => h.Crashed?
        case Complete(_) => false
  {
    hide ParseHead, OnRequestLine, CheckUrl, HostOf, PathOf, OnHeader, OneWord, FirstWord, SkipBlanks, Clean;
    var target := if proxied then url else PathOf(url);
    TargetIsWord(url, proxied);
    PrintedBlanks(target);
    CleanParts(url, proxied);
    CheckedUrl(NEW_REQUEST.(version := HTTP_1_1), FirstWord(target));
    LineIsClean(Get, target, 2);
    var rest := UserAgent(2) + (HostField(url, 2, proxied) + (Pragma(reload, proxied) + (Close(2) + BlankLine(2))));
    TextIs(Get, url, 2, reload, proxied);
    OneLine(NEW_REQUEST, RequestLineText(Get, target, 2), rest);
    var step := CheckUrl(NEW_REQUEST.(version := HTTP_1_1), FirstWord(target));
    if OneWord(target) && step.Next? { PrintedHeaders(step.request, url, reload, proxied); }
  }

  /** A checked url leads on to the headers with nothing else changed, or nowhere. */
  lemma CheckedUrl(r: Request, url: string)
    ensures var step := CheckUrl(r, url);
      !step.Complete? && (step.Next? ==> step.request == r.(phase := Header, url := step.request.url))
  {
  }

  lemma CleanParts(url: string, proxied: bool)
    requires Accepted(url, proxied) && Clean(url)
    ensures Clean(PathOf(url)) && Clean(HostOf(url))
  {
    hide FindScheme, Strchr;
    assert Clean(AfterScheme(url));
  }

  lemma UrlParts(url: string, proxied: bool)
    requires Accepted(url, proxied) && NoBlank(url) && Clean(url)
    ensures url != "" && PathOf(url) != "" && NoBlank(PathOf(url)) && Clean(PathOf(url))
    ensures NoBlank(HostOf(url)) && Clean(HostOf(url))
  {
    hide FindScheme, Strchr;
    var s := AfterScheme(url);
    assert NoBlank(s) && Clean(s);
  }

  lemma LineIsClean(m: Verb, target: string, protocol: nat)
    requires Clean(target)
    ensures Clean(RequestLineText(m, target, protocol))
  {
    hide VerbName;
    VerbCases(m);
    assert Clean(VersionText(protocol));
  }

  lemma TextIs(m: Verb, url: string, protocol: nat, reload: bool, proxied: bool)
    ensures RequestText(m, url, protocol, reload, proxied)
         == RequestLineText(m, if proxied then url else PathOf(url), protocol) + "\r\n"
            + (UserAgent(protocol) + (HostField(url, protocol, proxied) + (Pragma(reload, proxied)
            + (Close(protocol) + BlankLine(protocol)))))
  {
    hide UserAgent, HostField, Pragma, Close, BlankLine, RequestLineText;
    Assoc(RequestLineText(m, if proxied then url else PathOf(url), protocol) + "\r\n", UserAgent(protocol),
          HostField(url, protocol, proxied), Pragma(reload, proxied), Close(protocol), BlankLine(protocol));
  }

  lemma Assoc(a: string, b: string, c: string, d: string, e: string, f: string)
    ensures a + b + c + d + e + f == a + (b + (c + (d + (e + f))))
  {
    assert a + b + c + d + e + f == a + b + c + d + (e + f) == a + b + c + (d + (e + f)) == a + b + (c + (d + (e + f)));
  }

  // ----- the url, taken apart -----

  /** A url is accepted if and only if it is not too long, has "://" and a slash somewhere behind it, and starts
      with http:// in any spelling unless there is a proxy. */
  lemma AcceptedIff(url: string, proxied: bool)
    ensures Accepted(url, proxied) <==>
      && |url| <= 1500
      && (proxied || Spelling.Leads(url, "http://"))
      && exists k: nat :: SchemeEndAt(url, k) && '/' in url[k + 3..]
  {
    hide StartsWithCase;
    Spelling.SmallCapital("http://", HTTP_SCHEME);
    Spelling.NameMeans(url, "http://", HTTP_SCHEME);
    var n := FindScheme(url);
    if k: nat :| SchemeEndAt(url, k) && '/' in url[k + 3..] {
      assert n <= k;
      assert url[k + 3..] == url[n + 3..][k - n..];
    }
    var s := AfterScheme(url);
    if Strchr(s, '/') < |s| { assert s[Strchr(s, '/')] == '/'; }
  }

  /** scheme://host:port/path: the host, the port as a number, 80 for port 0, and the path with its slash. */
  lemma UrlWithPort(scheme: string, host: string, n: nat, path: string, port: int)
    requires ':' !in scheme && ':' !in host && '/' !in host && n < 0x8000_0000
    ensures var url := scheme + "://" + (host + ":" + (Response.Digits(n) + ("/" + path)));
      && HostOf(url) == host
      && PortOf(url, port) == (if n == 0 then 80 else n)
      && PathOf(url) == "/" + path
  {
    hide AfterScheme, Atol, ToInt32, Strchr;
    var digits := Response.Digits(n);
    Behind(scheme, host + ":" + (digits + ("/" + path)));
    PortBehind(host, digits, path);
    Spelling.AtolReads(n);
    Spelling.ToInt32Is(n);
  }

  lemma PortBehind(host: string, digits: string, path: string)
    requires ':' !in host && '/' !in host && forall i :: 0 <= i < |digits| ==> Digit(digits[i])
    ensures var s := host + ":" + (digits + ("/" + path));
      && Strchr(s, ':') == |host| < Strchr(s, '/') == |host| + 1 + |digits| < |s|
      && s[..|host|] == host && s[|host| + 1..|host| + 1 + |digits|] == digits
      && s[|host| + 1 + |digits|..] == "/" + path
  {
    var s, before := host + ":" + (digits + ("/" + path)), host + ":" + digits;
    FirstChar(host, digits + ("/" + path), ':');
    assert s == before + "/" + path;
    FirstChar(before, path, '/');
  }

  /** scheme://host/path: the host, and the port stays as it was. */
  lemma UrlWithoutPort(scheme: string, host: string, path: string, port: int)
    requires ':' !in scheme && ':' !in host && '/' !in host
    ensures var url := scheme + "://" + (host + "/" + path);
      HostOf(url) == host && PortOf(url, port) == port && PathOf(url) == "/" + path
  {
    hide FindScheme;
    Behind(scheme, host + "/" + path);
    FirstChar(host, path, '/');
    var s := host + "/" + path;
    assert forall i :: 0 <= i < |host| ==> s[i] == host[i] && s[i] != ':';
  }

  lemma FirstChar(front: string, rest: string, c: char)
    requires c !in front
    ensures var s := front + [c] + rest;
      Strchr(s, c) == |front| && s[..|front|] == front && s[|front|..] == [c] + rest && s[|front| + 1..] == rest
  {
    var s := front + [c] + rest;
    assert s[|front|] == c && forall i :: 0 <= i < |front| ==> s[i] == front[i];
  }

  lemma Behind(scheme: string, rest: string)
    requires ':' !in scheme
    ensures AfterScheme(scheme + "://" + rest) == rest
  {
    var url := scheme + "://" + rest;
    var n := |scheme|;
    assert url[n] == ':' && url[n + 1] == '/' && url[n + 2] == '/';
    forall k: nat | k < n ensures !SchemeEndAt(url, k) {
      if k + 3 <= |url| { assert url[k] == scheme[k]; }
    }
    assert SchemeEndAt(url, n);
    assert FindScheme(url) == n;
    assert url[n + 3..] == rest;
  }

  /** The least protocol a request needs: 1.1 for OPTIONS and TRACE, 1.0 for HEAD and for a reload through a proxy. */
  lemma ProtocolIs(http10: nat, m: Verb, reload: bool, proxied: bool)
    ensures var least := if m in {Options, Trace} then 2 else if m == Head || (reload && proxied) then 1 else 0;
      Protocol(http10, m, reload, proxied) == if http10 < least then least else http10
  {
  }

  /** The requests spelled out: a page, in each protocol, and a reload of a page through a proxy. */
  lemma RequestSpelledOut(host: string, path: string)
    requires ':' !in host && '/' !in host
    ensures var url := "http" + "://" + (host + "/" + path);
      && RequestText(Get, url, 0, false, false) == "GET " + ("/" + path) + "" + "\r\n" + "" + "" + "" + "" + ""
      && RequestText(Get, url, 1, false, false)
         == "GET " + ("/" + path) + " HTTP/1.0" + "\r\n" + "User-Agent: WebBench 1.5\r\n"
            + ("Host: " + host + "\r\n") + "" + "" + "\r\n"
      && RequestText(Get, url, 2, false, false)
         == "GET " + ("/" + path) + " HTTP/1.1" + "\r\n" + "User-Agent: WebBench 1.5\r\n"
            + ("Host: " + host + "\r\n") + "" + "Connection: close\r\n" + "\r\n"
      && RequestText(Get, url, 1, true, true)
         == "GET " + url + " HTTP/1.0" + "\r\n" + "User-Agent: WebBench 1.5\r\n"
            + "" + "Pragma: no-cache\r\n" + "" + "\r\n"
  {
    hide HostOf, PathOf, UserAgent, Pragma, Close;
    UrlWithoutPort("http", host, path, 80);
    FieldsSpelledOut();
  }

  lemma FieldsSpelledOut()
    ensures VerbName(Get) + " " == "GET " && VerbName(Head) == "HEAD" && VerbName(Options) == "OPTIONS" && VerbName(Trace) == "TRACE"
    ensures UserAgent(0) == "" && UserAgent(1) == UserAgent(2) == "User-Agent: WebBench 1.5\r\n"
    ensures Pragma(true, true) == "Pragma: no-cache\r\n"
    ensures Pragma(false, false) == Pragma(true, false) == Pragma(false, true) == ""
    ensures Close(2) == "Connection: close\r\n" && Close(1) == Close(0) == ""
  {
    assert "Connection: close" + "\r\n" == "Connection: close\r\n";
  }
}
