/**
 * Where the uploader connects and which request path prefix it uses,
 * derived from the already-parsed server address.
 */
module Endpoint {
  import opened Wrappers
  import opened Errors

  /** The parts of the server address that the uploader reads from java.net.URI. */
  datatype Uri = Uri(scheme: string, host: string, port: Option<nat>, path: string, query: Option<string>)

  /** The socket to open: plain TCP or TLS, to host and port. */
  datatype Transport = Transport(tls: bool, host: string, port: nat)

  const HttpsPort: nat := 443
  const HttpPort: nat := 80

  /**
   * The prefix of every request target: the URI path, "/" when it is empty,
   * with "?" and the query appended when the URI has one.
   */
  function RequestPath(path: string, query: Option<string>): (r: string)
    ensures r != []
    ensures path != [] ==> path <= r
    ensures path == [] ==> r[0] == '/'
    ensures query.None? ==> |r| == (if path == [] then 1 else |path|)
    ensures query.Some? ==> |r| == (if path == [] then 1 else |path|) + 1 + |query.value|
    ensures query.Some? ==> r[|r| - |query.value| - 1..] == "?" + query.value
  {
    var base := if path == [] then "/" else path;
    if query.Some? then base + "?" + query.value else base
  }

  /**
   * The port and transport chosen for the address: an explicit port is
   * kept whatever the scheme; otherwise https gets 443 and http gets 80,
   * and any other scheme is refused. TLS is used exactly for https.
   */
  function SelectTransport(uri: Uri): (r: Result<Transport, Error>)
    ensures r.Success? <==> uri.port.Some? || uri.scheme == "https" || uri.scheme == "http"
    ensures r.Failure? ==> r.error == UnsupportedScheme
    ensures r.Success? ==> r.value.host == uri.host && (r.value.tls <==> uri.scheme == "https")
    ensures r.Success? && uri.port.Some? ==> r.value.port == uri.port.value
    ensures r.Success? && uri.port.None? && uri.scheme == "https" ==> r.value.port == HttpsPort
    ensures r.Success? && uri.port.None? && uri.scheme == "http" ==> r.value.port == HttpPort
  {
    var port :=
      if uri.port.Some? then uri.port
      else if uri.scheme == "https" then Some(HttpsPort)
      else if uri.scheme == "http" then Some(HttpPort)
      else None;
    match port
    case None => Failure(UnsupportedScheme)
    case Some(p) => Success(Transport(uri.scheme == "https", uri.host, p))
  }
}
