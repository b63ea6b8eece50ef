/** Reading an HTTP response and a URL. The text from a pointer on is a string; past its end one reads a NUL. */
module HttpModel {
  import opened Bytes
  import opened CText
  import opened Wrappers

  const MAX_HEADERS := 16
  const MAX_HEADER_LEN := 256
  const MAX_BODY_LEN := 32768
  const MAX_TEXT := 63
  const MIN_RAW := 16
  const LENGTH_NAME := "Content-Length:"

  datatype Response = Response(status: nat, text: string, headers: seq<string>, body: string, contentLength: nat)

  function Peek(t: string): char {
    if t == "" then '\0' else t[0]
  }

  predicate EndsLine(c: char) {
    c == '\0' || c == '\r' || c == '\n'
  }

  function LowerChar(c: char): char {
    if 'A' <= c <= 'Z' then (c as int + 32) as char else c
  }

  /** The prefix stands at the start of the text, in any case. */
  predicate StartsCi(t: string, prefix: string) {
    prefix == "" || (LowerChar(Peek(t)) == LowerChar(prefix[0]) && t != "" && StartsCi(t[1..], prefix[1..]))
  }

  /** How many characters of the line are read, at most `max`. */
  function LineLen(t: string, max: nat): (n: nat)
    ensures n <= |t| && n <= max
  {
    if max > 0 && !EndsLine(Peek(t)) then 1 + LineLen(t[1..], max - 1) else 0
  }

  function SkipEol(t: string): (r: string)
    ensures |r| <= |t|
  {
    var u := if Peek(t) == '\r' then t[1..] else t;
    if Peek(u) == '\n' then u[1..] else u
  }

  /** The text from the first `c` on; empty or at a NUL when there is none. */
  function SkipTo(t: string, c: char): (r: string)
    ensures |r| <= |t|
  {
    if Peek(t) == '\0' || t[0] == c then t else SkipTo(t[1..], c)
  }

  /** A run of digits, carried on from `n` in 32 bits. */
  function ReadWord(t: string, n: nat): nat {
    if IsDigit(Peek(t)) then ReadWord(t[1..], (n * 10 + DigitValue(t[0])) % WORD) else n
  }

  /** The content length after the header that starts here. */
  function LengthAfter(t: string, n: nat): nat {
    if StartsCi(t, LENGTH_NAME) then
      var u := SkipTo(t, ':');
      ReadWord(SkipSpaces(if Peek(u) == ':' then u[1..] else u), n)
    else n
  }

  /** The headers from here on, the content length they leave, and the text behind them. */
  function Headers(t: string, count: nat, n: nat): (r: (seq<string>, nat, string))
    ensures |r.2| <= |t|
    decreases |t|
  {
    if EndsLine(Peek(t)) || count >= MAX_HEADERS then ([], n, t)
    else
      var len := LineLen(t, MAX_HEADER_LEN - 1);
      var rest := Headers(SkipEol(t[len..]), count + 1, LengthAfter(t, n));
      ([t[..len]] + rest.0, rest.1, rest.2)
  }

  /** Everything behind the status code. */
  function Rest(status: nat, t: string): Response {
    var u := if Peek(t) == ' ' then t[1..] else t;
    var len := LineLen(u, MAX_TEXT);
    var (headers, length, v) := Headers(SkipEol(u[len..]), 0, 0);
    var body := SkipEol(v);
    Response(status, u[..len], headers, if |body| < MAX_BODY_LEN then body else "", length)
  }

  function Parse(raw: string): Option<Response> {
    if |raw| < MIN_RAW then None
    else
      var t := SkipTo(raw, ' ');
      if Peek(t) != ' ' then None
      else
        var (status, u) := ReadNum(t[1..], 0);
        Some(Rest(Natural(status), u))
  }

  function Natural(n: int): nat {
    if n < 0 then 0 else n
  }
}
