/** The words of a request are compared without regard to case: letter by letter, for every spelling. */
module Spelling {
  import opened CStrings
  import opened HttpParser
  import opened HttpFeed
  import Response

  const SMALL := "abcdefghijklmnopqrstuvwxyz"
  const CAPITAL := "ABCDEFGHIJKLMNOPQRSTUVWXYZ"

  /** The same character, or the same letter in the other case. */
  predicate SameLetter(c: char, d: char) {
    c == d || exists k: nat :: k < 26 && ((c == SMALL[k] && d == CAPITAL[k]) || (c == CAPITAL[k] && d == SMALL[k]))
  }

  predicate Spells(s: string, word: string) {
    |s| == |word| && forall i :: 0 <= i < |s| ==> SameLetter(s[i], word[i])
  }

  lemma Alphabet(k: nat)
    requires k < 26
    ensures SMALL[k] as int == 97 + k && CAPITAL[k] as int == 65 + k
  {
  }

  /** The mapping to small letters makes exactly the letters of an alphabet equal. */
  lemma LowerIsSame(c: char, d: char)
    ensures Lower(c) == Lower(d) <==> SameLetter(c, d)
  {
    if c != d && Lower(c) == Lower(d) {
      var k: nat := Lower(c) as int - 97;
      Alphabet(k);
      assert (c == SMALL[k] && d == CAPITAL[k]) || (c == CAPITAL[k] && d == SMALL[k]);
    }
    if SameLetter(c, d) && c != d {
      var k: nat :| k < 26 && ((c == SMALL[k] && d == CAPITAL[k]) || (c == CAPITAL[k] && d == SMALL[k]));
      Alphabet(k);
    }
  }

  /** strcasecmp. */
  lemma CaseIgnored(a: string, b: string)
    ensures StrCaseEq(a, b) <==> Spells(a, b)
  {
    var la, lb := LowerAll(a), LowerAll(b);
    forall i | 0 <= i < |a| && i < |b| ensures la[i] == lb[i] <==> SameLetter(a[i], b[i]) {
      LowerIsSame(a[i], b[i]);
    }
  }

  // ----- decimal numbers -----

  lemma {:induction false} DigitsValueConcat(a: string, b: string, acc: nat)
    requires forall i :: 0 <= i < |a| ==> Digit(a[i])
    ensures DigitsValue(a + b, acc) == DigitsValue(b, DigitsValue(a, acc))
    decreases |a|
  {
    if a == "" {
      assert a + b == b;
    } else {
      assert (a + b)[1..] == a[1..] + b;
      DigitsValueConcat(a[1..], b, 10 * acc + (a[0] as int - '0' as int));
    }
  }

  lemma {:induction false} DigitsValueOfDigits(n: nat)
    ensures DigitsValue(Response.Digits(n), 0) == n
  {
    var last := [('0' as int + n % 10) as char];
    if n >= 10 {
      DigitsValueOfDigits(n / 10);
      DigitsValueConcat(Response.Digits(n / 10), last, 0);
      assert DigitsValue(last, n / 10) == DigitsValue([], 10 * (n / 10) + n % 10);
    }
  }

  /** atol reads a printed length back. */
  lemma AtolOfDigits(n: nat)
    requires n < 0x8000_0000
    ensures ToInt32(Atol(SkipBlanks(Response.Digits(n)))) == n
  {
    var s := Response.Digits(n);
    assert Digit(s[0]);
    assert Strspn(s) == 0 && s[0..] == s;
    assert SkipSpace(s) == s;
    DigitsValueOfDigits(n);
  }

  /** atol takes a sign, white space in front of it, and stops at the limits of a long. */
  lemma AtolReads(n: nat)
    ensures Atol(Response.Digits(n)) == Atol("+" + Response.Digits(n))
         == (if n > 0x7fff_ffff_ffff_ffff then 0x7fff_ffff_ffff_ffff else n)
    ensures Atol("-" + Response.Digits(n)) == (if n > 0x8000_0000_0000_0000 then -0x8000_0000_0000_0000 else 0 - n)
    ensures Atol(" " + Response.Digits(n)) == Atol(Response.Digits(n))
  {
    var s := Response.Digits(n);
    assert Digit(s[0]);
    assert ("+" + s)[1..] == s && ("-" + s)[1..] == s && (" " + s)[1..] == s;
    assert SkipSpace(s) == s && SkipSpace("+" + s) == "+" + s && SkipSpace("-" + s) == "-" + s && SkipSpace(" " + s) == s;
    DigitsValueOfDigits(n);
  }

  /** The digits end at the first character that is none. */
  lemma AtolStops(n: nat, tail: string)
    requires tail != "" && (tail[0] < '0' || tail[0] > '9')
    ensures Atol(Response.Digits(n) + tail) == Atol(Response.Digits(n))
  {
    var s := Response.Digits(n);
    assert Digit(s[0]) && SkipSpace(s + tail) == s + tail && SkipSpace(s) == s;
    DigitsValueConcat(s, tail, 0);
    DigitsValueConcat(s, "", 0);
    assert s + "" == s;
  }

  /** isspace: a blank, or one of the five characters from the tab to the carriage return. */
  lemma SpaceIs(c: char, s: string)
    ensures SkipSpace([c] + s) == if c == ' ' || 9 <= c as int <= 13 then SkipSpace(s) else [c] + s
  {
    assert ([c] + s)[1..] == s;
  }

  /** A conversion to int changes a long by a multiple of 2^32, and none that fits. */
  lemma ToInt32Is(v: int)
    ensures (v - ToInt32(v)) % 0x1_0000_0000 == 0
    ensures -0x8000_0000 <= v < 0x8000_0000 ==> ToInt32(v) == v
  {
  }

  // ----- the request line -----

  lemma BlankIs(c: char)
    ensures Blank(c) <==> c in " \t"
  {
  }

  predicate AllBlank(s: string) {
    forall i :: 0 <= i < |s| ==> Blank(s[i])
  }

  lemma SkipsTo(blanks: string, value: string)
    requires AllBlank(blanks) && (value == "" || !Blank(value[0]))
    ensures SkipBlanks(blanks + value) == value
  {
    assert Strspn(blanks) == |blanks|;
    BlanksFirst(blanks, value);
    assert Strspn(value) == 0 && value[0..] == value;
  }

  /** A word, the blanks behind it, and what follows. */
  lemma WordThen(word: string, blanks: string, value: string)
    requires NoBlank(word) && AllBlank(blanks) && blanks != "" && (value == "" || !Blank(value[0]))
    ensures var s := word + blanks + value;
      && Strpbrk(s) == |word| < |s| && s[..|word|] == word && SkipBlanks(s[|word| + 1..]) == value
  {
    var s := word + blanks + value;
    assert s[|word|] == blanks[0] && forall i :: 0 <= i < |word| ==> s[i] == word[i];
    assert s[|word| + 1..] == blanks[1..] + value;
    SkipsTo(blanks[1..], value);
  }

  /** A request line of three words, with any blanks between them: only get or post and http/1.1, in any
      spelling, lead on to the target. */
  lemma ThreeWords(r: Request, verb: string, s1: string, target: string, s2: string, version: string)
    requires NoBlank(verb) && NoBlank(target) && target != "" && (version == "" || !Blank(version[0]))
    requires AllBlank(s1) && AllBlank(s2) && s1 != "" && s2 != ""
    ensures OnRequestLine(r, verb + s1 + (target + s2 + version)) ==
      if (Spells(verb, "get") || Spells(verb, "post")) && Spells(version, "http/1.1")
      then CheckUrl(r.(post := r.post || Spells(verb, "post"), version := version), target)
      else Reject
  {
    hide CheckUrl, OnRequestLine, SkipBlanks, Strpbrk, StrCaseEq, Spells;
    var more := target + s2 + version;
    WordThen(verb, s1, more);
    WordThen(target, s2, version);
    WordsOf(r, verb + s1 + more, |verb|, verb, more);
    WordsMean(verb, version);
  }

  /** Fewer words than three are rejected. */
  lemma FewerWords(r: Request, verb: string, s1: string, target: string)
    requires NoBlank(verb) && NoBlank(target) && target != "" && AllBlank(s1) && s1 != ""
    ensures OnRequestLine(r, verb) == OnRequestLine(r, verb + s1) == OnRequestLine(r, verb + s1 + target) == Reject
  {
    hide CheckUrl, OnRequestLine, SkipBlanks, Strpbrk, StrCaseEq;
    NoWordEnd(verb);
    NoWordEnd(target);
    NoWordEnd("");
    assert OnRequestLine(r, verb) == Reject by { NoBlankIn(r, verb); }
    WordThen(verb, s1, "");
    assert verb + s1 + "" == verb + s1;
    WordsOf(r, verb + s1, |verb|, verb, "");
    WordThen(verb, s1, target);
    WordsOf(r, verb + s1 + target, |verb|, verb, target);
  }

  lemma NoBlankIn(r: Request, text: string)
    requires Strpbrk(text) == |text|
    ensures OnRequestLine(r, text) == Reject
  {
  }

  /** A target with a scheme is cut down to what starts at the first slash behind the host. Without one a http url
      crashes the server and a https url is rejected. */
  lemma AbsoluteTarget(r: Request, scheme: string, host: string, path: string)
    requires Spells(scheme, "http://") || Spells(scheme, "https://")
    requires '/' !in host && (path == "" || path[0] == '/')
    ensures CheckUrl(r, scheme + host + path) ==
      if path != "" then Next(r.(phase := Header, url := path)) else if Spells(scheme, "http://") then Crash else Reject
  {
    hide StartsWithCase, Spells;
    var url := scheme + host + path;
    Schemes(scheme, host + path);
    assert url == scheme + (host + path);
    SpelledLength(scheme, if Spells(scheme, "http://") then "http://" else "https://");
    assert url[|scheme|..] == host + path;
    SlashBehind(host, path);
    if path != "" { SlashTarget(r, path); }
  }

  lemma SlashBehind(host: string, path: string)
    requires '/' !in host && (path == "" || path[0] == '/')
    ensures FromSlash(host + path) == if path == "" then None else Some(path)
  {
    var s := host + path;
    assert forall i :: 0 <= i < |host| ==> s[i] == host[i];
    if path != "" {
      assert s[|host|] == '/' && s[|host|..] == path;
      assert Strchr(s, '/') == |host|;
    }
  }

  lemma Schemes(scheme: string, rest: string)
    requires Spells(scheme, "http://") || Spells(scheme, "https://")
    ensures StartsWithCase(scheme + rest, HTTP_SCHEME) <==> Spells(scheme, "http://")
    ensures Spells(scheme, "https://") ==> StartsWithCase(scheme + rest, HTTPS_SCHEME)
  {
    SmallCapital("http://", HTTP_SCHEME);
    SmallCapital("https://", HTTPS_SCHEME);
    if Spells(scheme, "http://") {
      StartsWithName(scheme, "http://", HTTP_SCHEME, rest);
      assert |scheme| == 7;
    } else {
      StartsWithName(scheme, "https://", HTTPS_SCHEME, rest);
      Letter(scheme + rest, HTTP_SCHEME, 4);
      Letter(scheme + rest, HTTPS_SCHEME, 4);
    }
  }

  /** A target that starts neither with a slash nor with one of the two schemes is rejected. */
  lemma OtherTarget(r: Request, target: string)
    requires (target == "" || target[0] != '/') && !Leads(target, "http://") && !Leads(target, "https://")
    ensures CheckUrl(r, target) == Reject
  {
    hide StartsWithCase, Leads;
    SmallCapital("http://", HTTP_SCHEME);
    SmallCapital("https://", HTTPS_SCHEME);
    NameMeans(target, "http://", HTTP_SCHEME);
    NameMeans(target, "https://", HTTPS_SCHEME);
  }

  lemma SameWord(s: string, word: string, other: string)
    requires Spells(s, word) && Spells(word, other)
    ensures StrCaseEq(s, other)
  {
    CaseIgnored(s, word);
    CaseIgnored(word, other);
  }

  /** The words the parser looks for, in small letters. */
  lemma Constants()
    ensures Spells("get", GET) && Spells("post", POST) && Spells("http/1.1", HTTP_1_1) && Spells("keep-alive", KEEP_ALIVE)
    ensures Spells("connection:", CONNECTION) && Spells("content-length:", CONTENT_LENGTH)
    ensures Spells("host:", HOST) && Spells("cookie:", COOKIE)
  {
    hide Spells;
    SmallCapital("get", GET);
    SmallCapital("post", POST);
    SmallCapital("http/1.1", HTTP_1_1);
    SmallCapital("keep-alive", KEEP_ALIVE);
    SmallCapital("host:", HOST);
    SmallCapital("cookie:", COOKIE);
    LongNames();
  }

  lemma LongNames()
    ensures Spells("connection:", CONNECTION) && Spells("content-length:", CONTENT_LENGTH)
  {
    assert SMALL[2] == 'c' && CAPITAL[2] == 'C';
    assert SameLetter('c', 'C');
  }

  lemma SmallCapital(s: string, word: string)
    requires LowerAll(s) == LowerAll(word)
    ensures Spells(s, word)
  {
    CaseIgnored(s, word);
  }

  /** For a target that starts with a slash such a line is taken. */
  lemma RequestLineTaken(r: Request, verb: string, target: string, version: string)
    requires NoBlank(verb) && NoBlank(target) && target != "" && target[0] == '/' && (version == "" || !Blank(version[0]))
    ensures OnRequestLine(r, verb + " " + (target + " " + version)) ==
      if (Spells(verb, "get") || Spells(verb, "post")) && Spells(version, "http/1.1")
      then Next(r.(phase := Header, post := r.post || Spells(verb, "post"), version := version, url := target))
      else Reject
  {
    hide CheckUrl, OnRequestLine, Spells;
    ThreeWords(r, verb, " ", target, " ", version);
    SlashTarget(r.(post := r.post || Spells(verb, "post"), version := version), target);
  }

  lemma WordsMean(verb: string, version: string)
    ensures StrCaseEq(verb, GET) <==> Spells(verb, "get")
    ensures StrCaseEq(verb, POST) <==> Spells(verb, "post")
    ensures StrCaseEq(version, HTTP_1_1) <==> Spells(version, "http/1.1")
  {
    hide Spells;
    Constants();
    CaseIgnored("get", GET);
    CaseIgnored("post", POST);
    CaseIgnored("http/1.1", HTTP_1_1);
    CaseIgnored(verb, "get");
    CaseIgnored(verb, "post");
    CaseIgnored(version, "http/1.1");
  }

  // ----- the headers -----

  /** The value behind a name and blanks. */
  lemma ValueOf(name: string, blanks: string, value: string)
    requires AllBlank(blanks) && (value == "" || !Blank(value[0]))
    ensures var line := name + blanks + value;
      line[..|name|] == name && SkipBlanks(line[|name|..]) == value
  {
    assert (name + blanks + value)[|name|..] == blanks + value;
    SkipsTo(blanks, value);
  }

  /** Which of the four names a line starts with is decided by its spelling. */
  lemma NamesDiffer(line: string)
    ensures StartsWithCase(line, CONTENT_LENGTH) ==> !StartsWithCase(line, CONNECTION)
    ensures StartsWithCase(line, HOST) ==> !StartsWithCase(line, CONNECTION) && !StartsWithCase(line, CONTENT_LENGTH)
    ensures StartsWithCase(line, COOKIE) ==>
      !StartsWithCase(line, CONNECTION) && !StartsWithCase(line, CONTENT_LENGTH) && !StartsWithCase(line, HOST)
  {
    hide StartsWithCase;
    Letter(line, CONTENT_LENGTH, 0);
    Letter(line, CONTENT_LENGTH, 2);
    Letter(line, CONTENT_LENGTH, 3);
    Letter(line, CONNECTION, 0);
    Letter(line, CONNECTION, 2);
    Letter(line, CONNECTION, 3);
    Letter(line, HOST, 0);
    Letter(line, COOKIE, 0);
    Letter(line, COOKIE, 2);
  }

  lemma Letter(line: string, name: string, i: nat)
    requires i < |name|
    ensures StartsWithCase(line, name) ==> i < |line| && Lower(line[i]) == Lower(name[i])
  {
    if StartsWithCase(line, name) {
      assert LowerAll(line[..|name|])[i] == LowerAll(name)[i];
    }
  }

  lemma StartsWithName(name: string, word: string, constant: string, rest: string)
    requires Spells(name, word) && Spells(word, constant)
    ensures StartsWithCase(name + rest, constant)
  {
    SameWord(name, word, constant);
    assert (name + rest)[..|name|] == name;
  }

  /** Content-Length in any spelling sets the length. */
  lemma LengthHeader(r: Request, name: string, blanks: string, n: nat)
    requires Spells(name, "content-length:") && AllBlank(blanks) && n < 0x8000_0000
    ensures OnHeader(r, name + blanks + Response.Digits(n)) == Next(r.(length := n))
  {
    hide StartsWithCase, Spells, SkipBlanks, Atol, ToInt32, StrCaseEq;
    var value := Response.Digits(n);
    assert Digit(value[0]);
    ValueOf(name, blanks, value);
    Constants();
    assert name + blanks + value == name + (blanks + value);
    StartsWithName(name, "content-length:", CONTENT_LENGTH, blanks + value);
    NamesDiffer(name + blanks + value);
    SpelledLength(name, "content-length:");
    AtolOfDigits(n);
    NotBlankFirst(value);
  }

  lemma SpelledLength(s: string, word: string)
    requires Spells(s, word)
    ensures |s| == |word|
  {
  }

  lemma NotBlankFirst(s: string)
    requires s == "" || !Blank(s[0])
    ensures SkipBlanks(s) == s
  {
    assert Strspn(s) == 0 && s[0..] == s;
  }

  /** Connection in any spelling: keep-alive, in any spelling, asks the server to linger; nothing else does. */
  lemma ConnectionHeader(r: Request, name: string, blanks: string, value: string)
    requires Spells(name, "connection:") && AllBlank(blanks) && (value == "" || !Blank(value[0]))
    ensures OnHeader(r, name + blanks + value) == Next(if Spells(value, "keep-alive") then r.(linger := true) else r)
  {
    hide StartsWithCase, Spells, SkipBlanks, StrCaseEq;
    ValueOf(name, blanks, value);
    Constants();
    assert name + blanks + value == name + (blanks + value);
    StartsWithName(name, "connection:", CONNECTION, blanks + value);
    SpelledLength(name, "connection:");
    KeepAliveMeans(value);
  }

  lemma KeepAliveMeans(value: string)
    ensures StrCaseEq(value, KEEP_ALIVE) <==> Spells(value, "keep-alive")
  {
    CaseIgnored(value, KEEP_ALIVE);
  }

  lemma HostHeader(r: Request, name: string, blanks: string, value: string)
    requires Spells(name, "host:") && AllBlank(blanks) && (value == "" || !Blank(value[0]))
    ensures OnHeader(r, name + blanks + value) == Next(r.(host := Some(value)))
  {
    hide StartsWithCase, Spells, SkipBlanks, StrCaseEq;
    ValueOf(name, blanks, value);
    Constants();
    assert name + blanks + value == name + (blanks + value);
    StartsWithName(name, "host:", HOST, blanks + value);
    NamesDiffer(name + blanks + value);
    SpelledLength(name, "host:");
  }

  lemma CookieHeader(r: Request, name: string, blanks: string, value: string)
    requires Spells(name, "cookie:") && AllBlank(blanks) && (value == "" || !Blank(value[0]))
    ensures OnHeader(r, name + blanks + value) == Next(r.(cookie := value))
  {
    hide StartsWithCase, Spells, SkipBlanks, StrCaseEq;
    ValueOf(name, blanks, value);
    Constants();
    assert name + blanks + value == name + (blanks + value);
    StartsWithName(name, "cookie:", COOKIE, blanks + value);
    NamesDiffer(name + blanks + value);
    SpelledLength(name, "cookie:");
  }

  /** The line starts with `word`, in any spelling. */
  predicate Leads(line: string, word: string) {
    |line| >= |word| && Spells(line[..|word|], word)
  }

  /** A line that starts with none of the four names changes nothing. */
  lemma OtherHeader(r: Request, line: string)
    requires line != "" && !Leads(line, "connection:") && !Leads(line, "content-length:")
    requires !Leads(line, "host:") && !Leads(line, "cookie:")
    ensures OnHeader(r, line) == Next(r)
  {
    hide StartsWithCase, Leads;
    Constants();
    NameMeans(line, "connection:", CONNECTION);
    NameMeans(line, "content-length:", CONTENT_LENGTH);
    NameMeans(line, "host:", HOST);
    NameMeans(line, "cookie:", COOKIE);
  }

  lemma NameMeans(line: string, word: string, constant: string)
    requires Spells(word, constant)
    ensures StartsWithCase(line, constant) <==> Leads(line, word)
  {
    CaseIgnored(word, constant);
    if |line| >= |word| { CaseIgnored(line[..|word|], word); }
  }

  // ----- what the client gets -----

  /** The shortest request there is. */
  lemma ShortestRequest()
    ensures Feed(FRESH, ["GET / HTTP/1.1\r\n\r\n"])
         == Ready(Request(Header, false, "/", "HTTP/1.1", None, "", false, 0), None)
  {
    hide OnRequestLine, ParseHead, Spells, OnHeader;
    var line, rest := "GET" + " " + ("/" + " " + "HTTP/1.1"), "" + "\r\n" + "";
    WordsMean("GET", "HTTP/1.1");
    assert StrCaseEq("GET", GET) && StrCaseEq("HTTP/1.1", HTTP_1_1) && !StrCaseEq("GET", POST) by {
      assert |LowerAll("GET")| == 3 && |LowerAll(POST)| == 4;
    }
    RequestLineTaken(NEW_REQUEST, "GET", "/", "HTTP/1.1");
    var r := Request(Header, false, "/", "HTTP/1.1", None, "", false, 0);
    OneLine(NEW_REQUEST, line, rest);
    OneLine(r, "", "");
    EmptyLine(r);
    FreshIsPending();
    assert "GET / HTTP/1.1\r\n\r\n" == line + "\r\n" + rest == "" + (line + "\r\n" + rest);
  }

  /** An empty line ends the head: of a request without a body, or with its body to come. */
  lemma EmptyLine(r: Request)
    ensures OnHeader(r, "") == if r.length == 0 then Complete(r) else Next(r.(phase := Content))
  {
  }

  /** A request line that is not taken is answered with 400, whatever comes behind it. */
  lemma BadRequestLine(line: string, rest: string)
    requires Clean(line) && OnRequestLine(NEW_REQUEST, line) == Reject
    ensures Feed(FRESH, [line + "\r\n" + rest]) == BadRequest
  {
    hide OnRequestLine, ParseHead;
    OneLine(NEW_REQUEST, line, rest);
    FreshIsPending();
    assert "" + (line + "\r\n" + rest) == line + "\r\n" + rest;
  }
}
