/** Where the response parser cuts: long lines, a seventeenth header and a long body; and which headers its name test
    takes. */
module HttpLimits {
  import opened Bytes
  import opened CText
  import opened TextFacts
  import opened HttpModel
  import opened HttpRoundTrip
  import opened Wrappers

  // ---- names of headers ----

  lemma LowerCharIff(c: char, d: char)
    ensures LowerChar(c) == LowerChar(d) <==> SameLetter(c, d)
  {
  }

  /** A text starts with a prefix, in any case, exactly when its front agrees with the prefix up to letter case. */
  lemma {:induction false} StartsIs(t: string, prefix: string)
    requires '\0' !in prefix
    ensures StartsCi(t, prefix) <==> |prefix| <= |t| && Agree(t[..|prefix|], prefix)
    decreases |prefix|
  {
    if prefix != "" && t != "" {
      assert '\0' !in prefix[1..] by { assert forall c :: c in prefix[1..] ==> c in prefix; }
      LowerCharIff(t[0], prefix[0]);
      StartsIs(t[1..], prefix[1..]);
      if |prefix| <= |t| {
        assert t[1..][..|prefix| - 1] == t[..|prefix|][1..];
        AgreeStep(t[..|prefix|], prefix);
      }
    }
  }

  // ---- lines ----

  /** No character of the line ends it. */
  predicate OneLine(h: string) {
    forall i | 0 <= i < |h| :: h[i] != '\0' && h[i] != '\r' && h[i] != '\n'
  }

  /** A line is read up to its end or the size of its slot. */
  lemma {:induction false} LineLenCut(h: string, rest: string, max: nat)
    requires OneLine(h) && (rest == "" || rest[0] == '\0' || rest[0] == '\r' || rest[0] == '\n')
    ensures LineLen(h + rest, max) == if |h| <= max then |h| else max
    decreases max
  {
    if h == "" {
      assert h + rest == rest;
    } else if max > 0 {
      assert (h + rest)[1..] == h[1..] + rest;
      LineLenCut(h[1..], rest, max - 1);
    }
  }

  /** A header line of more than 255 characters becomes two or more: the first 255 characters are one header, and what is
      left is read as the next. */
  lemma LongHeader(h: string, rest: string, count: nat, n: nat)
    requires OneLine(h) && |h| > 255 && count < 16
    ensures var t := h + (CRLF + rest);
      var r := Headers(h[255..] + (CRLF + rest), count + 1, LengthAfter(t, n));
      Headers(t, count, n) == ([h[..255]] + r.0, r.1, r.2)
  {
    hide LengthAfter, LineLen;
    var t := h + (CRLF + rest);
    LineLenCut(h, CRLF + rest, 255);
    var u := h[255..] + (CRLF + rest);
    assert t[255..] == u && t[..255] == h[..255];
    assert Peek(u) == h[255] && Peek(t) == h[0];
  }

  // ---- too many headers ----

  /** Behind sixteen headers nothing is read as a header: the lines from the seventeenth on stay in front of the body. */
  lemma {:induction false} SeventeenthStays(headers: seq<string>, rest: string, count: nat, n: nat)
    requires FormedHeaders(headers) && count <= 16 <= count + |headers|
    ensures var k := 16 - count;
      var r := Headers(HeaderLines(headers) + rest, count, n);
      r == (headers[..k], LengthOf(headers[..k], n), HeaderLines(headers[k..]) + rest)
    decreases |headers|
  {
    hide Headers, LengthAfter, FormedLine, LengthOf, HeaderLines;
    var k := 16 - count;
    if k == 0 {
      FullStops(HeaderLines(headers) + rest, n);
      assert headers[..0] == [] && headers[0..] == headers;
      NoHeaders(n);
    } else {
      var h, more := headers[0], HeaderLines(headers[1..]) + rest;
      LinesFirst(headers, rest);
      HeaderRead(h, more, count, n);
      SeventeenthStays(headers[1..], rest, count + 1, LengthAfter(h, n));
      FrontStep(headers, k);
      LengthFirst(headers[..k], n);
    }
  }

  /** The first `k` texts, one of them at a time. */
  lemma FrontStep(headers: seq<string>, k: nat)
    requires 0 < k <= |headers|
    ensures headers[1..][..k - 1] == headers[..k][1..] && headers[1..][k - 1..] == headers[k..]
    ensures headers[..k] == [headers[0]] + headers[..k][1..] && headers[..k][0] == headers[0]
  {
  }

  lemma LinesFirst(headers: seq<string>, rest: string)
    requires headers != []
    ensures HeaderLines(headers) + rest == headers[0] + (CRLF + (HeaderLines(headers[1..]) + rest))
  {
    FirstLine(headers[0], HeaderLines(headers[1..]), rest);
  }

  lemma FullStops(t: string, n: nat)
    ensures Headers(t, 16, n) == ([], n, t)
  {
    hide LengthAfter;
  }

  lemma NoHeaders(n: nat)
    ensures LengthOf([], n) == n
  {
  }

  lemma LengthFirst(headers: seq<string>, n: nat)
    requires headers != []
    ensures LengthOf(headers, n) == LengthOf(headers[1..], LengthAfter(headers[0], n))
  {
  }

  /** So all header lines come back exactly when there are at most sixteen. */
  lemma HeadersIff(headers: seq<string>, body: string)
    requires FormedHeaders(headers)
    ensures Headers(HeaderLines(headers) + (CRLF + body), 0, 0) == (headers, LengthOf(headers, 0), CRLF + body)
       <==> |headers| <= 16
  {
    hide Headers, LengthOf, FormedHeaders;
    if |headers| <= 16 {
      HeadersRead(headers, body, 0, 0);
    } else {
      SeventeenthStays(headers, CRLF + body, 0, 0);
      assert |headers[..16]| == 16;
    }
  }

  // ---- the body ----

  /** Behind the headers one line end is dropped; a body of 32768 bytes or more is dropped whole. */
  lemma BodyIs(status: nat, text: string, headers: seq<string>, body: string)
    requires OneLine(text) && |text| <= 63 && FormedHeaders(headers) && |headers| <= 16
    ensures Rest(status, " " + (text + (CRLF + (HeaderLines(headers) + (CRLF + body)))))
         == Response(status, text, headers, if |body| < 32768 then body else "", LengthOf(headers, 0))
  {
    hide LineLen, Headers, SkipEol, HeaderLines, LengthOf, FormedHeaders;
    var lines := HeaderLines(headers) + (CRLF + body);
    var line := text + (CRLF + lines);
    assert (" " + line)[1..] == line && Peek(" " + line) == ' ';
    LineLenCut(text, CRLF + lines, 63);
    assert line[|text|..] == CRLF + lines && line[..|text|] == text;
    SkipCrlf(lines);
    HeadersRead(headers, body, 0, 0);
    SkipCrlf(body);
  }

  /** A line end is a carriage return, a line feed, or both in this order. */
  lemma LineEnds(t: string)
    requires t == "" || (t[0] != '\r' && t[0] != '\n')
    ensures SkipEol("\r\n" + t) == t && SkipEol("\n" + t) == t && SkipEol("\r" + t) == t && SkipEol(t) == t
  {
    assert ("\r\n" + t)[1..] == "\n" + t && ("\n" + t)[1..] == t && ("\r" + t)[1..] == t;
  }
}
