/** The response structure the HTTP parser fills, and the parser walking the raw bytes. */
module HttpClient {
  import opened Bytes
  import opened CText
  import opened HttpModel
  import opened Wrappers

  lemma Drop(raw: string, p: nat)
    requires p < |raw|
    ensures raw[p..] != "" && raw[p..][0] == raw[p] && raw[p..][1..] == raw[p + 1..]
  {
  }

  /** The character under the cursor. */
  function Cur(raw: string, p: nat): (c: char)
    requires p <= |raw|
    ensures c == Peek(raw[p..])
  {
    if p < |raw| then raw[p] else '\0'
  }

  method StartsWithCi(raw: string, at: nat, prefix: string) returns (yes: bool)
    requires at <= |raw| && forall i :: 0 <= i < |prefix| ==> LowerChar(prefix[i]) != '\0'
    ensures yes <==> StartsCi(raw[at..], prefix)
  {
    var p, i := at, 0;
    while i < |prefix|
      invariant at <= p <= |raw| && 0 <= i <= |prefix|
      invariant StartsCi(raw[at..], prefix) == StartsCi(raw[p..], prefix[i..])
    {
      assert prefix[i..][1..] == prefix[i + 1..];
      if LowerChar(Cur(raw, p)) != LowerChar(prefix[i]) {
        return false;
      }
      Drop(raw, p);
      p, i := p + 1, i + 1;
    }
    return true;
  }

  method Seek(raw: string, at: nat, c: char) returns (p: nat)
    requires at <= |raw| && c != '\0'
    ensures at <= p <= |raw| && raw[p..] == SkipTo(raw[at..], c)
  {
    p := at;
    while Cur(raw, p) != '\0' && Cur(raw, p) != c
      invariant at <= p <= |raw|
      invariant SkipTo(raw[at..], c) == SkipTo(raw[p..], c)
      decreases |raw| - p
    {
      Drop(raw, p);
      p := p + 1;
    }
  }

  method PassEol(raw: string, at: nat) returns (p: nat)
    requires at <= |raw|
    ensures at <= p <= |raw| && raw[p..] == SkipEol(raw[at..])
  {
    p := at;
    if Cur(raw, p) == '\r' {
      Drop(raw, p);
      p := p + 1;
    }
    if Cur(raw, p) == '\n' {
      Drop(raw, p);
      p := p + 1;
    }
  }

  /** The content length after the header that starts at `at`. */
  method ReadLength(raw: string, at: nat, before: nat) returns (length: nat)
    requires at <= |raw|
    ensures length == LengthAfter(raw[at..], before)
  {
    hide StartsCi, SkipTo, SkipSpaces, ReadWord;
    length := before;
    var yes := StartsWithCi(raw, at, LENGTH_NAME);
    if yes {
      var val := Seek(raw, at, ':');
      if Cur(raw, val) == ':' {
        Drop(raw, val);
        val := val + 1;
      }
      length := ReadValue(raw, val, before);
    }
  }

  method ReadValue(raw: string, at: nat, before: nat) returns (length: nat)
    requires at <= |raw|
    ensures length == ReadWord(SkipSpaces(raw[at..]), before)
  {
    var val := at;
    while Cur(raw, val) == ' '
      invariant at <= val <= |raw| && SkipSpaces(raw[at..]) == SkipSpaces(raw[val..])
      decreases |raw| - val
    {
      Drop(raw, val);
      val := val + 1;
    }
    length := before;
    while '0' <= Cur(raw, val) <= '9'
      invariant at <= val <= |raw| && ReadWord(SkipSpaces(raw[at..]), before) == ReadWord(raw[val..], length)
      decreases |raw| - val
    {
      Drop(raw, val);
      length := (length * 10 + DigitValue(raw[val])) % WORD;
      val := val + 1;
    }
  }

  class Reply {
    var statusCode: nat
    const statusText: array<char>
    const headers: array2<char>
    var headerCount: nat
    const body: array<char>
    var bodyLen: nat
    var contentLength: nat

    ghost predicate Valid() {
      && statusText.Length == MAX_TEXT + 1 && statusText != body
      && headers.Length0 == MAX_HEADERS && headers.Length1 == MAX_HEADER_LEN
      && body.Length == MAX_BODY_LEN
    }

    /** The status text buffer holds `t`, ended by a NUL. */
    ghost predicate TextIs(t: string)
      requires Valid()
      reads statusText
    {
      |t| <= MAX_TEXT && statusText[..|t|] == t && statusText[|t|] == '\0'
    }

    /** Header slot `i` holds `t`, ended by a NUL. */
    ghost predicate HeaderIs(i: nat, t: string)
      requires Valid() && i < MAX_HEADERS
      reads headers
    {
      |t| < MAX_HEADER_LEN && headers[i, |t|] == '\0' && forall j :: 0 <= j < |t| ==> headers[i, j] == t[j]
    }

    ghost predicate HeadersAre(hs: seq<string>)
      requires Valid()
      reads this`headerCount, headers
    {
      headerCount == |hs| <= MAX_HEADERS && forall i :: 0 <= i < |hs| ==> HeaderIs(i, hs[i])
    }

    ghost predicate BodyIs(t: string)
      requires Valid()
      reads this`bodyLen, body
    {
      bodyLen == |t| < MAX_BODY_LEN && body[..bodyLen] == t
    }

    ghost predicate Holds(r: Response)
      requires Valid()
      reads this, statusText, headers, body
    {
      && statusCode == r.status && TextIs(r.text)
      && HeadersAre(r.headers) && BodyIs(r.body)
      && contentLength == r.contentLength
    }

    constructor ()
      ensures Valid() && fresh(statusText) && fresh(headers) && fresh(body)
    {
      statusText := new char[MAX_TEXT + 1](_ => '\0');
      headers := new char[MAX_HEADERS, MAX_HEADER_LEN]((_, _) => '\0');
      body := new char[MAX_BODY_LEN](_ => '\0');
      statusCode, headerCount, bodyLen, contentLength := 0, 0, 0, 0;
    }

    method ReadStatus(raw: string, at: nat) returns (p: nat)
      requires at <= |raw|
      modifies this`statusCode
      ensures at <= p <= |raw| && (statusCode, raw[p..]) == ReadNum(raw[at..], 0)
    {
      p := at;
      statusCode := 0;
      while '0' <= Cur(raw, p) <= '9'
        invariant at <= p <= |raw| && ReadNum(raw[at..], 0) == ReadNum(raw[p..], statusCode)
        decreases |raw| - p
      {
        Drop(raw, p);
        statusCode := statusCode * 10 + DigitValue(raw[p]);
        p := p + 1;
      }
    }

    method ReadText(raw: string, at: nat) returns (p: nat)
      requires Valid() && at <= |raw|
      modifies statusText
      ensures p == at + LineLen(raw[at..], MAX_TEXT) <= |raw| && TextIs(raw[at..p])
    {
      p := at;
      var i := 0;
      while !EndsLine(Cur(raw, p)) && i < MAX_TEXT
        invariant at <= p <= |raw| && p == at + i && 0 <= i <= MAX_TEXT
        invariant LineLen(raw[at..], MAX_TEXT) == i + LineLen(raw[p..], MAX_TEXT - i)
        invariant statusText[..i] == raw[at..p]
        decreases MAX_TEXT - i
      {
        Drop(raw, p);
        statusText[i] := raw[p];
        p, i := p + 1, i + 1;
      }
      statusText[i] := '\0';
    }

    /** Copy one header line into the next slot. */
    method ReadLine(raw: string, at: nat) returns (p: nat)
      requires Valid() && at <= |raw| && headerCount < MAX_HEADERS
      modifies headers
      ensures p == at + LineLen(raw[at..], MAX_HEADER_LEN - 1) <= |raw| && HeaderIs(headerCount, raw[at..p])
      ensures forall i, j :: 0 <= i < MAX_HEADERS && i != headerCount && 0 <= j < MAX_HEADER_LEN ==>
        headers[i, j] == old(headers[i, j])
    {
      p := at;
      var len := 0;
      while !EndsLine(Cur(raw, p)) && len < MAX_HEADER_LEN - 1
        invariant at <= p <= |raw| && p == at + len && 0 <= len <= MAX_HEADER_LEN - 1
        invariant LineLen(raw[at..], MAX_HEADER_LEN - 1) == len + LineLen(raw[p..], MAX_HEADER_LEN - 1 - len)
        invariant forall j :: 0 <= j < len ==> headers[headerCount, j] == raw[at + j]
        invariant forall i, j :: 0 <= i < MAX_HEADERS && i != headerCount && 0 <= j < MAX_HEADER_LEN ==>
          headers[i, j] == old(headers[i, j])
        decreases MAX_HEADER_LEN - len
      {
        Drop(raw, p);
        headers[headerCount, len] := raw[p];
        p, len := p + 1, len + 1;
      }
      headers[headerCount, len] := '\0';
    }

    /** Take one header line and what it says about the content length; `p` moves to the next line. */
    method ReadHeader(raw: string, start: nat) returns (p: nat)
      requires Valid() && start <= |raw| && headerCount < MAX_HEADERS && !EndsLine(Peek(raw[start..]))
      modifies this`headerCount, this`contentLength, headers
      ensures headerCount == old(headerCount) + 1 && start <= p <= |raw|
      ensures forall i, j :: 0 <= i < MAX_HEADERS && i != old(headerCount) && 0 <= j < MAX_HEADER_LEN ==>
        headers[i, j] == old(headers[i, j])
      ensures var line := raw[start..][..LineLen(raw[start..], MAX_HEADER_LEN - 1)];
        var r := Headers(raw[p..], headerCount, contentLength);
        && HeaderIs(headerCount - 1, line)
        && Headers(raw[start..], old(headerCount), old(contentLength)) == ([line] + r.0, r.1, r.2)
    {
      hide LengthAfter, LineLen, SkipEol;
      p := ReadLine(raw, start);
      assert raw[start..p] == raw[start..][..p - start] && raw[p..] == raw[start..][p - start..];
      headerCount := headerCount + 1;
      contentLength := ReadLength(raw, start, contentLength);
      p := PassEol(raw, p);
    }

    method ReadHeaders(raw: string, at: nat) returns (p: nat)
      requires Valid() && at <= |raw|
      modifies this`headerCount, this`contentLength, headers
      ensures var r := Headers(raw[at..], 0, 0);
        at <= p <= |raw| && raw[p..] == r.2 && contentLength == r.1 && HeadersAre(r.0)
    {
      hide LineLen, Headers;
      p := at;
      headerCount, contentLength := 0, 0;
      ghost var done: seq<string> := [];
      ghost var all := Headers(raw[at..], 0, 0);
      assert done + all.0 == all.0;
      while !EndsLine(Cur(raw, p)) && headerCount < MAX_HEADERS
        invariant at <= p <= |raw| && headerCount == |done| <= MAX_HEADERS
        invariant var r := Headers(raw[p..], headerCount, contentLength); all == (done + r.0, r.1, r.2)
        invariant forall i :: 0 <= i < |done| ==> HeaderIs(i, done[i])
        decreases MAX_HEADERS - headerCount
      {
        ghost var line := raw[p..][..LineLen(raw[p..], MAX_HEADER_LEN - 1)];
        label before:
        p := ReadHeader(raw, p);
        forall i | 0 <= i < |done| ensures HeaderIs(i, done[i]) {
          assert old@before(HeaderIs(i, done[i]));
        }
        hide HeaderIs;
        ghost var rest := Headers(raw[p..], headerCount, contentLength).0;
        assert done + ([line] + rest) == (done + [line]) + rest;
        done := done + [line];
      }
      HeadersStop(raw[p..], headerCount, contentLength);
      assert done + [] == done;
    }

    static lemma HeadersStop(t: string, count: nat, n: nat)
      requires EndsLine(Peek(t)) || count >= MAX_HEADERS
      ensures Headers(t, count, n) == ([], n, t)
    {
    }

    method ReadBody(raw: string, at: nat)
      requires Valid() && at <= |raw|
      modifies this`bodyLen, body
      ensures var t := if |raw| - at < MAX_BODY_LEN then raw[at..] else "";
        BodyIs(t) && (t != "" ==> body[bodyLen] == '\0')
    {
      bodyLen := 0;
      var len := |raw| - at;
      if 0 < len < MAX_BODY_LEN {
        var i := 0;
        while i < len
          invariant 0 <= i <= len && body[..i] == raw[at..at + i]
        {
          body[i] := raw[at + i];
          i := i + 1;
        }
        bodyLen := len;
        body[len] := '\0';
      }
    }

    /** Everything behind the status code. */
    method ReadRest(raw: string, at: nat)
      requires Valid() && at <= |raw|
      modifies this`headerCount, this`contentLength, this`bodyLen, statusText, headers, body
      ensures Holds(Rest(statusCode, raw[at..]))
    {
      hide LineLen, Headers, SkipEol, TextIs, HeadersAre, BodyIs;
      var s := at;
      if Cur(raw, s) == ' ' {
        Drop(raw, s);
        s := s + 1;
      }
      var p := ReadText(raw, s);
      assert raw[s..][..p - s] == raw[s..p] && raw[s..][p - s..] == raw[p..];
      p := PassEol(raw, p);
      p := ReadHeaders(raw, p);
      p := PassEol(raw, p);
      ReadBody(raw, p);
    }

    method ParseResponse(raw: string) returns (code: int)
      requires Valid()
      modifies this, statusText, headers, body
      ensures code == (if Parse(raw) == None then -1 else 0)
      ensures Parse(raw) != None ==> Holds(Parse(raw).value)
    {
      hide SkipTo, ReadNum, Rest;
      if |raw| < MIN_RAW {
        return -1;
      }
      assert raw[0..] == raw;
      var p := Seek(raw, 0, ' ');
      if Cur(raw, p) != ' ' {
        return -1;
      }
      Drop(raw, p);
      p := ReadStatus(raw, p + 1);
      ReadRest(raw, p);
      return 0;
    }
  }
}
