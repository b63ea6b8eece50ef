/** Splitting a URL into host, port and path, and the URLs that are read back whole. */
module HttpUrl {
  import opened CText
  import opened HttpModel
  import opened HttpClient
  import opened Wrappers

  const PORT_WORD := 0x1_0000
  const DEFAULT_PORT := 80
  const SCHEME := "http://"
  const SECURE := "https://"

  datatype Url = Url(host: string, port: nat, path: string)

  predicate EndsHost(c: char) {
    c == '\0' || c == '/' || c == ':'
  }

  function HostLen(t: string, max: nat): (n: nat)
    ensures n <= |t| && n <= max
  {
    if max > 0 && !EndsHost(Peek(t)) then 1 + HostLen(t[1..], max - 1) else 0
  }

  /** The port in 16 bits, and the text behind its digits. */
  function ReadPort(t: string, n: nat): (r: (nat, string))
    ensures |r.1| <= |t|
  {
    if IsDigit(Peek(t)) then ReadPort(t[1..], (n * 10 + DigitValue(t[0])) % PORT_WORD) else (n, t)
  }

  /** How many characters a bounded string copy takes. */
  function CopyLen(t: string, max: nat): (n: nat)
    ensures n <= |t| && n <= max
  {
    if max > 0 && Peek(t) != '\0' then 1 + CopyLen(t[1..], max - 1) else 0
  }

  function Split(u: string, hostMax: nat, pathMax: nat): Url
    requires hostMax > 0 && pathMax > 1
  {
    var len := HostLen(u, hostMax - 1);
    var rest := u[len..];
    var (port, t) := if Peek(rest) == ':' then ReadPort(rest[1..], 0) else (DEFAULT_PORT, rest);
    Url(u[..len], port, if Peek(t) == '/' then t[..CopyLen(t, pathMax - 1)] else "/")
  }

  function ParseUrl(url: string, hostMax: nat, pathMax: nat): Option<Url>
    requires hostMax > 0 && pathMax > 1
  {
    if StartsCi(url, SCHEME) then (StartsLong(url, SCHEME); Some(Split(url[|SCHEME|..], hostMax, pathMax)))
    else if StartsCi(url, SECURE) then None
    else Some(Split(url, hostMax, pathMax))
  }

  lemma {:induction false} StartsLong(t: string, prefix: string)
    requires StartsCi(t, prefix)
    ensures |prefix| <= |t|
    decreases |prefix|
  {
    if prefix != "" {
      StartsLong(t[1..], prefix[1..]);
    }
  }

  // ---- Reading a printed URL ----

  function PrintUrl(u: Url, withPort: bool): string {
    SCHEME + (u.host + (PortText(u, withPort) + u.path))
  }

  predicate FormedUrl(u: Url, hostMax: nat, pathMax: nat) {
    && |u.host| < hostMax && (forall i :: 0 <= i < |u.host| ==> !EndsHost(u.host[i]))
    && u.port < PORT_WORD
    && 0 < |u.path| < pathMax && u.path[0] == '/' && (forall i :: 0 <= i < |u.path| ==> u.path[i] != '\0')
  }

  lemma {:induction false} HostRead(host: string, rest: string, max: nat)
    requires |host| <= max && EndsHost(Peek(rest)) && forall i :: 0 <= i < |host| ==> !EndsHost(host[i])
    ensures HostLen(host + rest, max) == |host|
  {
    if host == "" {
      assert host + rest == rest;
    } else {
      assert (host + rest)[1..] == host[1..] + rest;
      HostRead(host[1..], rest, max - 1);
    }
  }

  lemma {:induction false} PortRead(n: nat, rest: string)
    requires n < PORT_WORD
    ensures ReadPort(Digits(n) + rest, 0) == ReadPort(rest, n)
  {
    if n < 10 {
      assert ([DigitChar(n)] + rest)[1..] == rest;
    } else {
      var last := [DigitChar(n % 10)];
      assert Digits(n) + rest == Digits(n / 10) + (last + rest);
      PortRead(n / 10, last + rest);
      assert (last + rest)[1..] == rest;
    }
  }

  lemma {:induction false} CopyWhole(t: string, max: nat)
    requires |t| <= max && forall i :: 0 <= i < |t| ==> t[i] != '\0'
    ensures CopyLen(t, max) == |t|
  {
    if t != "" {
      CopyWhole(t[1..], max - 1);
    }
  }

  lemma {:induction false} StartsWithItself(p: string, t: string)
    ensures StartsCi(p + t, p)
  {
    if p != "" {
      assert (p + t)[1..] == p[1..] + t;
      StartsWithItself(p[1..], t);
    }
  }

  /** The port part of a URL. */
  function PortText(u: Url, withPort: bool): string {
    if withPort then ":" + Digits(u.port) else ""
  }

  lemma SplitPrinted(u: Url, withPort: bool, hostMax: nat, pathMax: nat)
    requires FormedUrl(u, hostMax, pathMax) && (withPort || u.port == DEFAULT_PORT)
    ensures hostMax > 0 && pathMax > 1
    ensures Split(u.host + (PortText(u, withPort) + u.path), hostMax, pathMax) == u
  {
    hide Digits, HostLen, ReadPort, CopyLen, PortText, FormedUrl;
    var rest := PortText(u, withPort) + u.path;
    PortTextRead(u, withPort, hostMax, pathMax);
    FormedPath(u, hostMax, pathMax);
    FormedHost(u, rest, hostMax, pathMax);
    assert (u.host + rest)[|u.host|..] == rest && (u.host + rest)[..|u.host|] == u.host;
    assert u.path[..|u.path|] == u.path;
  }

  lemma FormedPath(u: Url, hostMax: nat, pathMax: nat)
    requires FormedUrl(u, hostMax, pathMax)
    ensures hostMax > 0 && pathMax > 1 && u.path != "" && u.path[0] == '/' && CopyLen(u.path, pathMax - 1) == |u.path|
  {
    hide CopyLen;
    CopyWhole(u.path, pathMax - 1);
  }

  lemma FormedHost(u: Url, rest: string, hostMax: nat, pathMax: nat)
    requires FormedUrl(u, hostMax, pathMax) && EndsHost(Peek(rest))
    ensures HostLen(u.host + rest, hostMax - 1) == |u.host|
  {
    hide HostLen;
    HostRead(u.host, rest, hostMax - 1);
  }

  lemma PortTextRead(u: Url, withPort: bool, hostMax: nat, pathMax: nat)
    requires FormedUrl(u, hostMax, pathMax) && (withPort || u.port == DEFAULT_PORT)
    ensures var rest := PortText(u, withPort) + u.path;
      && EndsHost(Peek(rest))
      && (if Peek(rest) == ':' then ReadPort(rest[1..], 0) else (DEFAULT_PORT, rest)) == (u.port, u.path)
  {
    hide Digits, ReadPort;
    var rest := PortText(u, withPort) + u.path;
    if withPort {
      assert rest[0] == ':' && rest[1..] == Digits(u.port) + u.path;
      PortRead(u.port, u.path);
      PortEnds(u.path, u.port);
    } else {
      assert rest == u.path;
    }
  }

  /** A printed URL is split into its own host, port and path; without a port the default stands. */
  lemma UrlRead(u: Url, withPort: bool, hostMax: nat, pathMax: nat)
    requires FormedUrl(u, hostMax, pathMax) && (withPort || u.port == DEFAULT_PORT)
    ensures hostMax > 0 && pathMax > 1
    ensures ParseUrl(PrintUrl(u, withPort), hostMax, pathMax) == Some(u)
  {
    hide Digits, StartsCi, Split, PortText, FormedUrl;
    SplitPrinted(u, withPort, hostMax, pathMax);
    var t := u.host + (PortText(u, withPort) + u.path);
    StartsWithItself(SCHEME, t);
    assert PrintUrl(u, withPort) == SCHEME + t;
    assert PrintUrl(u, withPort)[|SCHEME|..] == t;
  }

  lemma PortEnds(t: string, n: nat)
    requires !IsDigit(Peek(t))
    ensures ReadPort(t, n) == (n, t)
  {
  }

  // ---- The splitter ----

  /** Fills the host and path buffers with NUL-terminated strings. */
  method SplitUrl(url: string, host: array<char>, path: array<char>) returns (ok: bool, port: nat)
    requires host.Length > 0 && path.Length > 1 && host != path
    modifies host, path
    ensures ok == (ParseUrl(url, host.Length, path.Length) != None)
    ensures ok ==> var u := ParseUrl(url, host.Length, path.Length).value;
      && port == u.port && |u.host| < host.Length && host[..|u.host|] == u.host && host[|u.host|] == '\0'
      && |u.path| < path.Length && path[..|u.path|] == u.path && path[|u.path|] == '\0'
  {
    hide StartsCi, HostLen, ReadPort, CopyLen;
    port := DEFAULT_PORT;
    var at := 0;
    assert url[0..] == url;
    var plain := StartsWithCi(url, 0, SCHEME);
    if plain {
      StartsLong(url, SCHEME);
      at := |SCHEME|;
    } else {
      var secure := StartsWithCi(url, 0, SECURE);
      if secure {
        return false, port;
      }
    }
    var p := CopyHost(url, at, host);
    ghost var u := url[at..];
    assert u[..p - at] == url[at..p] && u[p - at..] == url[p..];
    if Cur(url, p) == ':' {
      Drop(url, p);
      p, port := PortAt(url, p + 1);
    }
    if Cur(url, p) == '/' {
      CopyPath(url, p, path);
    } else {
      path[0], path[1] := '/', '\0';
      assert path[..1] == "/";
    }
    return true, port;
  }

  method CopyHost(url: string, at: nat, host: array<char>) returns (p: nat)
    requires at <= |url| && host.Length > 0
    modifies host
    ensures p == at + HostLen(url[at..], host.Length - 1) <= |url| && p - at < host.Length
    ensures host[..p - at] == url[at..p] && host[p - at] == '\0'
  {
    p := at;
    var len := 0;
    while !EndsHost(Cur(url, p)) && len < host.Length - 1
      invariant at <= p <= |url| && p == at + len && len < host.Length
      invariant HostLen(url[at..], host.Length - 1) == len + HostLen(url[p..], host.Length - 1 - len)
      invariant host[..len] == url[at..p]
      decreases host.Length - len
    {
      Drop(url, p);
      host[len] := url[p];
      assert host[..len + 1] == host[..len] + [url[p]] && url[at..p + 1] == url[at..p] + [url[p]];
      p, len := p + 1, len + 1;
    }
    host[len] := '\0';
  }

  method PortAt(url: string, at: nat) returns (p: nat, port: nat)
    requires at <= |url|
    ensures at <= p <= |url| && (port, url[p..]) == ReadPort(url[at..], 0)
  {
    p, port := at, 0;
    while '0' <= Cur(url, p) <= '9'
      invariant at <= p <= |url| && ReadPort(url[at..], 0) == ReadPort(url[p..], port)
      decreases |url| - p
    {
      Drop(url, p);
      port := (port * 10 + DigitValue(url[p])) % PORT_WORD;
      p := p + 1;
    }
  }

  method CopyPath(url: string, at: nat, path: array<char>)
    requires at <= |url| && path.Length > 0
    modifies path
    ensures var n := CopyLen(url[at..], path.Length - 1);
      path[..n] == url[at..][..n] && path[n] == '\0'
  {
    var i := 0;
    while i < path.Length - 1 && Cur(url, at + i) != '\0'
      invariant 0 <= i < path.Length && at + i <= |url|
      invariant CopyLen(url[at..], path.Length - 1) == i + CopyLen(url[at + i..], path.Length - 1 - i)
      invariant path[..i] == url[at..at + i]
      decreases path.Length - i
    {
      Drop(url, at + i);
      path[i] := url[at + i];
      assert path[..i + 1] == path[..i] + [url[at + i]];
      assert url[at..at + i + 1] == url[at..at + i] + [url[at + i]];
      i := i + 1;
    }
    path[i] := '\0';
  }
}
