/**
 * What a sweep does with one stored row before any state changes: unwrap the
 * chat markup around the target, pick the probe its `type` calls for, and
 * turn the network's answer into a probe result (failed, optional info).
 * The network itself (URL parsing, HTTP, DNS, ICMP, TCP) is a parameter.
 */
module Probes {
  import opened Wrappers
  import opened Strings
  import opened Registry

  /** `target.substring(1, target.length - 1)`: the text inside `<...>`. */
  function Unwrap(target: string): (r: string)
    ensures |target| >= 2 ==> r == target[1..|target| - 1]
    ensures |target| <= 1 ==> r == target
  {
    Substring(target, 1, |target| - 1)
  }

  /** Unwrapping removes exactly the surrounding angle brackets. */
  lemma UnwrapMarkup(inner: string)
    ensures Unwrap("<" + inner + ">") == inner
  {
    var s := "<" + inner + ">";
    assert s[1..|s| - 1] == inner;
  }

  /** A one-character target is left whole: `substring` swaps its reversed bounds. */
  lemma UnwrapShort(s: string)
    requires |s| <= 1
    ensures Unwrap(s) == s
  {
  }

  /** `target.substring(1, length - 1).split('|')[1]`: the part after the first `|`, undefined without one. */
  function Host(target: string): (r: Option<string>)
    ensures r.Some? ==> '|' !in r.value
  {
    var parts := Split(Unwrap(target), '|');
    JoinSplit(Unwrap(target), '|');
    if |parts| > 1 then Some(parts[1]) else None
  }

  /** The host of a `<url|host>` link is its label. */
  lemma HostOfLink(url: string, host: string)
    requires '|' !in url && '|' !in host
    ensures Host("<" + url + "|" + host + ">") == Some(host)
  {
    var inner := url + "|" + host;
    assert "<" + url + "|" + host + ">" == "<" + inner + ">";
    UnwrapMarkup(inner);
    SplitAfterPiece(url, '|', host);
    SplitWithoutSeparator(host, '|');
    assert Split(inner, '|') == [url, host];
  }

  /** A `<url>` link without a label has no host. */
  lemma HostOfBareLink(url: string)
    requires '|' !in url
    ensures Host("<" + url + ">") == None
  {
    UnwrapMarkup(url);
    SplitWithoutSeparator(url, '|');
  }

  /** The probe a row calls for. */
  datatype ProbeRequest =
    | NoProbe
    | HttpGet(url: string)
    | HttpsGet(url: string)
    | PingHost(host: string)
    | Connect(port: Option<string>, address: Option<string>)

  /**
   * The probe for a row. Rows without a target or type, rows of an unknown
   * type, `http` rows whose URL is neither `http:` nor `https:`, and `ping`
   * rows without a host are not probed. `protocolOf` is the `protocol` that
   * `url.parse` reports.
   */
  function ProbeFor(m: Monitor, protocolOf: string -> string): (r: ProbeRequest)
    ensures r.NoProbe? <==>
      || !Present(m.target)
      || m.kind !in {"http", "ping", "port"}
      || (m.kind == "http" && protocolOf(Unwrap(m.target.value)) !in {"http:", "https:"})
      || (m.kind == "ping" && Host(m.target.value).None?)
    ensures r.HttpGet? ==> m.kind == "http" && r.url == Unwrap(m.target.value) && protocolOf(r.url) == "http:"
    ensures r.HttpsGet? ==> m.kind == "http" && r.url == Unwrap(m.target.value) && protocolOf(r.url) == "https:"
    ensures r.PingHost? ==> m.kind == "ping" && Host(m.target.value) == Some(r.host)
    ensures r.Connect? ==> m.kind == "port" && r.port == m.port && r.address == Host(m.target.value)
  {
    if !Present(m.target) || m.kind == "" then NoProbe
    else if m.kind == "http" then
      var url := Unwrap(m.target.value);
      var protocol := protocolOf(url);
      if protocol == "http:" then HttpGet(url)
      else if protocol == "https:" then HttpsGet(url)
      else NoProbe
    else if m.kind == "ping" then
      match Host(m.target.value)
      case Some(h) => PingHost(h)
      case None => NoProbe
    else if m.kind == "port" then Connect(m.port, Host(m.target.value))
    else NoProbe
  }

  /** How an HTTP(S) GET ends: a response with a status code, or a transport error. */
  datatype HttpAnswer = Response(statusCode: int) | RequestError(message: string)

  /** How a ping ends: the DNS lookup fails, finds nothing, the echo fails, or it succeeds. */
  datatype PingAnswer = ResolveError(text: string) | NoAddresses | PingError(text: string) | PingSucceeded

  /** How a TCP connect ends. */
  datatype PortAnswer = Connected | ConnectError(text: string)

  /** The outside world a sweep talks to. */
  datatype Network = Network(
    protocolOf: string -> string,
    get: string -> HttpAnswer,
    ping: string -> PingAnswer,
    connect: (Option<string>, Option<string>) -> PortAnswer)

  /** The arguments of `setMonitorState(row, failed, info)`. */
  datatype ProbeResult = ProbeResult(failed: bool, info: Option<string>)

  /** HTTP(S): status 500 and transport errors fail; every other status is healthy. */
  function ClassifyHttp(a: HttpAnswer): (r: ProbeResult)
    ensures r.failed <==> a.RequestError? || a.statusCode == 500
    ensures a.Response? && a.statusCode == 500 ==> r.info == Some("response code 500")
    ensures a.RequestError? ==> r.info == Some(a.message)
    ensures !r.failed ==> r.info.None?
  {
    match a
    case Response(code) => if code == 500 then ProbeResult(true, Some("response code 500")) else ProbeResult(false, None)
    case RequestError(message) => ProbeResult(true, Some(message))
  }

  /** Ping: either error fails with its text, a reply is healthy, and an empty lookup reports nothing. */
  function ClassifyPing(a: PingAnswer): (r: Option<ProbeResult>)
    ensures r.None? <==> a.NoAddresses?
    ensures r.Some? ==> (r.value.failed <==> !a.PingSucceeded?)
    ensures a.ResolveError? ==> r == Some(ProbeResult(true, Some(a.text)))
    ensures a.PingError? ==> r == Some(ProbeResult(true, Some(a.text)))
    ensures a.PingSucceeded? ==> r == Some(ProbeResult(false, None))
  {
    match a
    case ResolveError(text) => Some(ProbeResult(true, Some(text)))
    case NoAddresses => None
    case PingError(text) => Some(ProbeResult(true, Some(text)))
    case PingSucceeded => Some(ProbeResult(false, None))
  }

  /** Port: a connection is healthy, a connection error fails with its text. */
  function ClassifyPort(a: PortAnswer): (r: ProbeResult)
    ensures r.failed <==> a.ConnectError?
    ensures a.ConnectError? ==> r.info == Some(a.text)
    ensures !r.failed ==> r.info.None?
  {
    match a
    case Connected => ProbeResult(false, None)
    case ConnectError(text) => ProbeResult(true, Some(text))
  }

  /** The result reported for a request, or None when no state change is asked for. */
  function Answer(req: ProbeRequest, net: Network): Option<ProbeResult> {
    match req
    case NoProbe => None
    case HttpGet(url) => Some(ClassifyHttp(net.get(url)))
    case HttpsGet(url) => Some(ClassifyHttp(net.get(url)))
    case PingHost(host) => ClassifyPing(net.ping(host))
    case Connect(port, host) => Some(ClassifyPort(net.connect(port, host)))
  }

  /** Probing one row of a sweep. */
  function Evaluate(m: Monitor, net: Network): (r: Option<ProbeResult>)
    ensures r.Some? ==> Present(m.target) && m.kind in {"http", "ping", "port"}
    ensures r.Some? && m.kind == "http" ==> r == Some(ClassifyHttp(net.get(Unwrap(m.target.value))))
    ensures r.Some? && m.kind == "port" ==> r == Some(ClassifyPort(net.connect(m.port, Host(m.target.value))))
    ensures Present(m.target) && m.kind == "ping" && Host(m.target.value).Some? ==>
      r == ClassifyPing(net.ping(Host(m.target.value).value))
    ensures Present(m.target) && m.kind == "port" ==> r == Some(ClassifyPort(net.connect(m.port, Host(m.target.value))))
  {
    Answer(ProbeFor(m, net.protocolOf), net)
  }

  /** Rows without a target or type, of an unknown type, or with a non-HTTP(S) URL never change state. */
  lemma {:induction false} NoResultCases(m: Monitor, net: Network)
    ensures !Present(m.target) || m.kind == "" ==> Evaluate(m, net).None?
    ensures m.kind !in {"http", "ping", "port"} ==> Evaluate(m, net).None?
    ensures m.kind == "http" && Present(m.target) && net.protocolOf(Unwrap(m.target.value)) !in {"http:", "https:"} ==>
      Evaluate(m, net).None?
  {
  }

  /** For an HTTP(S) row the result is exactly the classified answer to a GET of the unwrapped URL. */
  lemma {:induction false} HttpRowResult(m: Monitor, net: Network)
    requires m.kind == "http" && Present(m.target)
    requires net.protocolOf(Unwrap(m.target.value)) in {"http:", "https:"}
    ensures Evaluate(m, net) == Some(ClassifyHttp(net.get(Unwrap(m.target.value))))
  {
  }
}
