/** A minimal POST /diagnose request, its words in any spelling.  For every body, whatever follows it, it
depends on where the reads end whether do_request gets exactly that body, the client waits, or do_request
gets a text from further on. */
module DiagnosePost {
  import opened CStrings
  import opened HttpParser
  import opened HttpFeed
  import opened Spelling
  import Response

  /** The words of the head, as a client may write them, with the blanks in front of the length. */
  datatype Words = Words(verb: string, version: string, name: string, blanks: string)

  predicate Spelled(w: Words) {
    Spells(w.verb, "post") && Spells(w.version, "http/1.1") && Spells(w.name, "content-length:") && AllBlank(w.blanks)
  }

  const PLAIN := Words("POST", "HTTP/1.1", "Content-Length:", " ")

  /** POST /diagnose with a body that no other header describes. */
  function HeadText(w: Words, length: nat): string {
    w.verb + " " + ("/diagnose" + " " + w.version) + "\r\n" + (LengthField(w, length) + "\r\n" + ("" + "\r\n" + ""))
  }

  function LengthField(w: Words, length: nat): string {
    w.name + w.blanks + Response.Digits(length)
  }

  function Parsed(w: Words, length: nat): Request {
    Request(Content, true, "/diagnose", w.version, None, "", false, length)
  }

  /** A spelling of small letters and signs holds no blank and no line end. */
  lemma SpelledClean(s: string, word: string)
    requires Spells(s, word) && forall i :: 0 <= i < |word| ==> '-' <= word[i] <= 'z'
    ensures Clean(s) && NoBlank(s)
  {
    forall i | 0 <= i < |s| ensures s[i] > ' ' {
      assert SameLetter(s[i], word[i]);
      if s[i] != word[i] {
        var k: nat :| k < 26 && ((s[i] == SMALL[k] && word[i] == CAPITAL[k]) || (s[i] == CAPITAL[k] && word[i] == SMALL[k]));
        Alphabet(k);
      }
    }
  }

  lemma WordsAreClean(w: Words)
    requires Spelled(w)
    ensures Clean(w.verb) && NoBlank(w.verb) && Clean(w.version) && w.version != "" && !Blank(w.version[0])
    ensures Clean(w.name) && Clean(w.blanks)
  {
    SpelledClean(w.verb, "post");
    SpelledClean(w.version, "http/1.1");
    SpelledClean(w.name, "content-length:");
  }

  lemma RequestLineParsed(w: Words)
    requires Spelled(w)
    ensures OnRequestLine(NEW_REQUEST, w.verb + " " + ("/diagnose" + " " + w.version))
         == Next(NEW_REQUEST.(phase := Header, post := true, version := w.version, url := "/diagnose"))
  {
    hide OnRequestLine, Spells;
    WordsAreClean(w);
    RequestLineTaken(NEW_REQUEST, w.verb, "/diagnose", w.version);
  }

  lemma HeadIsClean(w: Words, length: nat)
    requires Spelled(w)
    ensures Clean(w.verb + " " + ("/diagnose" + " " + w.version)) && Clean(LengthField(w, length))
  {
    hide Spells;
    WordsAreClean(w);
    assert Clean(" ") && Clean("/diagnose");
    assert forall i :: 0 <= i < |Response.Digits(length)| ==> Digit(Response.Digits(length)[i]);
  }

  lemma LengthParsed(w: Words, r: Request, length: nat)
    requires Spelled(w) && length < 0x8000_0000
    ensures OnHeader(r, LengthField(w, length)) == Next(r.(length := length))
  {
    LengthHeader(r, w.name, w.blanks, length);
  }

  lemma BlankLineParsed(w: Words, length: nat)
    requires length > 0
    ensures ParseHead(Parsed(w, length).(phase := Header), "" + "\r\n" + "") == AtBody(Parsed(w, length), "")
  {
    hide ParseHead;
    OneLine(Parsed(w, length).(phase := Header), "", "");
  }

  /** The head parses to the request it states, in every spelling and for every length. */
  lemma HeadParsed(w: Words, length: nat)
    requires Spelled(w) && 0 < length < 0x8000_0000
    ensures ParseHead(NEW_REQUEST, HeadText(w, length)) == AtBody(Parsed(w, length), "")
  {
    hide ParseHead, OnRequestLine, OnHeader, LengthField, Spells;
    HeadIsClean(w, length);
    var rest := "" + "\r\n" + "";
    var r := NEW_REQUEST.(phase := Header, post := true, version := w.version, url := "/diagnose");
    RequestLineParsed(w);
    OneLine(NEW_REQUEST, w.verb + " " + ("/diagnose" + " " + w.version), LengthField(w, length) + "\r\n" + rest);
    LengthParsed(w, r, length);
    OneLine(r, LengthField(w, length), rest);
    BlankLineParsed(w, length);
  }

  /** Every body that fits, with anything behind it, in any division into reads: do_request gets exactly the
      body, or the client waits, or what is handed on starts behind the body's start. */
  lemma PostedBodyArrives(w: Words, body: string, extra: string, chunks: seq<string>)
    requires Spelled(w) && body != "" && |HeadText(w, |body|)| + |body| < READ_BUFFER_SIZE
    requires HttpFeed.Concat(chunks) == HeadText(w, |body|) + body + extra
    ensures var o, head := Feed(FRESH, chunks), |HeadText(w, |body|)|;
      if Arrives(head, body + extra, |body|, 0, chunks) then o == Ready(Parsed(w, |body|), Some(CStr(body)))
      else Misread(head, Parsed(w, |body|), body + extra, |body|, o)
  {
    hide HeadText, ParseHead, Feed, Arrives, Misread, CStr;
    HeadParsed(w, |body|);
    BodyFraming(HeadText(w, |body|), Parsed(w, |body|), body, extra, chunks);
  }

  lemma PlainIsSpelled()
    ensures Spelled(PLAIN)
  {
    SmallCapital("POST", "post");
    SmallCapital("HTTP/1.1", "http/1.1");
    SmallCapital("Content-Length:", "content-length:");
  }

  lemma ShortHead(length: nat)
    requires 0 < length < 10
    ensures |HeadText(PLAIN, length)| < 100
  {
  }

  /** Two letters in one read each: the request is never answered; in one read it is, and also when the
      second letter comes with one byte more. */
  lemma TwoLetters()
    ensures Feed(FRESH, [HeadText(PLAIN, 2) + "ab"]) == Ready(Parsed(PLAIN, 2), Some("ab"))
    ensures Feed(FRESH, [HeadText(PLAIN, 2), "a", "b"]).NoRequest?
    ensures Feed(FRESH, [HeadText(PLAIN, 2), "a", "bX"]) == Ready(Parsed(PLAIN, 2), Some("ab"))
  {
    hide HeadText, ParseHead, Feed, Misread;
    PlainIsSpelled();
    ShortHead(2);
    HeadParsed(PLAIN, 2);
    assert CStr("ab") == "ab" by { assert "ab"[..2] == "ab"; CStrIs("ab", 2); }
    assert HttpFeed.Concat([HeadText(PLAIN, 2) + "ab"]) == HeadText(PLAIN, 2) + "ab";
    assert WellSplit(|HeadText(PLAIN, 2)|, "ab", 0, [HeadText(PLAIN, 2) + "ab"]);
    BodyAlone(HeadText(PLAIN, 2), Parsed(PLAIN, 2), "ab", [HeadText(PLAIN, 2) + "ab"]);
    assert "ab"[..1] == "a" && "ab"[1..] == "b";
    assert Scan("a", 0) == LineOpen(1);
    OneByteLater();
  }

  lemma OneByteLater()
    ensures Feed(FRESH, [HeadText(PLAIN, 2), "a", "b"]).NoRequest?
    ensures Feed(FRESH, [HeadText(PLAIN, 2), "a", "bX"]) == Ready(Parsed(PLAIN, 2), Some(CStr("ab")))
  {
    hide HeadText, ParseHead, Feed, CStr;
    PlainIsSpelled();
    ShortHead(2);
    HeadParsed(PLAIN, 2);
    assert "ab"[..1] == "a" && "ab"[1..] + "" == "b" && "ab"[1..] + "X" == "bX" && "ab" + "" == "ab";
    assert Scan("a", 0) == LineOpen(1);
    BodyInTwoReads(HeadText(PLAIN, 2), Parsed(PLAIN, 2), "ab", 1, "");
    BodyInTwoReads(HeadText(PLAIN, 2), Parsed(PLAIN, 2), "ab", 1, "X");
  }

  /** Reads of one letter: each moves the start of the line over the letter before. */
  lemma LetterByLetter(base: nat)
    requires base < 100
    ensures ParseBody("a", 0, base, 3) == Waiting("a", 1, base)
    ensures ParseBody("a" + "b", 1, base, 3) == Waiting("b", 1, base + 1)
    ensures ParseBody("b" + "c", 1, base + 1, 3) == Waiting("c", 1, base + 2)
    ensures ParseBody("c" + "xyz", 1, base + 2, 3) == Done("cxy")
  {
    assert Scan("a", 0) == Scan("b", 0) == Scan("c", 0) == LineOpen(1);
    assert "a"[0..] == "a" && ("a" + "b")[1..] == "b" && ("b" + "c")[1..] == "c" && ("c" + "xyz")[..3] == "cxy";
    CStrIs("cxy", 3);
    assert "cxy"[..3] == "cxy";
  }

  lemma LettersFed(r: Request, base: nat)
    requires base < 100 && r.length == 3
    ensures Feed(InBody(r, "", 0, base), ["a", "b", "c", "xyz"]) == Ready(r, Some("cxy"))
  {
    hide ParseBody, Feed;
    LetterByLetter(base);
    assert "" + "a" == "a";
    BodyFeedStep(r, "c", 1, base + 2, ["xyz"]);
    BodyFeedStep(r, "b", 1, base + 1, ["c", "xyz"]);
    BodyFeedStep(r, "a", 1, base, ["b", "c", "xyz"]);
    BodyFeedStep(r, "", 0, base, ["a", "b", "c", "xyz"]);
    assert ["a", "b", "c", "xyz"][1..] == ["b", "c", "xyz"] && ["b", "c", "xyz"][1..] == ["c", "xyz"]
        && ["c", "xyz"][1..] == ["xyz"];
  }

  lemma BodyFeedStep(r: Request, tail: string, scanned: nat, base: nat, chunks: seq<string>)
    requires scanned <= |tail| && chunks != []
    ensures var o := AfterBody(r, ParseBody(tail + chunks[0], scanned, base, r.length));
      Feed(InBody(r, tail, scanned, base), chunks) == if o.NoRequest? then Feed(o.conn, chunks[1..]) else o
  {
    hide ParseBody;
  }

  /** Bytes that follow a body the scanner has moved into complete the request with a wrong body. */
  lemma WrongBody()
    ensures Feed(FRESH, [HeadText(PLAIN, 3), "a", "b", "c", "xyz"]) == Ready(Parsed(PLAIN, 3), Some("cxy"))
  {
    hide HeadText, ParseHead, Feed, ParseBody;
    PlainIsSpelled();
    ShortHead(3);
    HeadParsed(PLAIN, 3);
    FreshIsPending();
    var head, chunks := HeadText(PLAIN, 3), [HeadText(PLAIN, 3), "a", "b", "c", "xyz"];
    assert "" + head == head && chunks[1..] == ["a", "b", "c", "xyz"] && ""[..0] == "";
    FeedStep(NEW_REQUEST, "", 0, chunks, Parsed(PLAIN, 3), "", 0, |head|);
    assert ParseBody("", 0, |head|, 3) == Waiting("", 0, |head|) by { EmptyBody(|head|); }
    LettersFed(Parsed(PLAIN, 3), |head|);
  }

  lemma EmptyBody(base: nat)
    ensures ParseBody("", 0, base, 3) == Waiting("", 0, base)
  {
  }
}
