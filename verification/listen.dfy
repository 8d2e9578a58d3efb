/** The two listeners (`http` and `https`): which protocol engine and which
    handler serve a connection, what happens when serving fails, and the
    state the TLS listener starts from.

    Binding, accepting, task spawning and the TLS handshake itself are not
    modelled: a plaintext connection is simply given, and a TLS connection is
    given as the outcome of its handshake, including the ALPN protocol the
    TLS library negotiated. */
module Listen {
  import opened Wrappers
  import opened Ascii
  import opened Http
  import Handlers
  import WebSocket
  import CertResolver

  /** The `hyper` connection builders. */
  datatype Engine = Http1Engine | Http2Engine

  /** The service function a connection passes every request to. */
  datatype Service = Http1Service | Http2Service

  /** What a connection task does when serving the connection fails: print
      the error and end, or `unwrap` it and panic. */
  datatype ErrorPolicy = LogAndClose | PanicTask

  datatype Connection = Connection(engine: Engine, upgrades: bool, service: Service, onError: ErrorPolicy)

  datatype DropReason = InvalidProtocol | HandshakeFailed

  /** A connection is either served, or dropped without any handler running. */
  datatype Dispatch = Serve(conn: Connection) | Drop(reason: DropReason)

  /** The result of the TLS handshake: a failure, or an established session
      with the protocol ALPN settled on, if any. */
  datatype TlsOutcome = HandshakeError | Established(alpn: Option<Bytes>)

  const H2: Bytes := OfString("h2")
  const Http11: Bytes := OfString("http/1.1")

  /** The protocols the TLS server offers, most preferred first. */
  const AlpnProtocols: seq<Bytes> := [H2, Http11]

  /** Engine and service agree, and only HTTP/1.1 connections carry the
      upgrade machinery. */
  predicate Coherent(c: Connection) {
    && (c.engine == Http1Engine <==> c.service == Http1Service)
    && (c.upgrades ==> c.engine == Http1Engine)
  }

  /** The plaintext listener: every connection is HTTP/1.1 with upgrades,
      served by `handle_http1`, and a serving error is printed. HTTP/2 is
      never used. */
  function PlaintextDispatch(): (d: Dispatch)
    ensures d.Serve? && Coherent(d.conn)
    ensures d.conn.engine == Http1Engine && d.conn.upgrades
    ensures d.conn.onError == LogAndClose
  {
    Serve(Connection(Http1Engine, true, Http1Service, LogAndClose))
  }

  /** The TLS listener's choice by negotiated protocol: "h2" goes to the
      HTTP/2 engine and `handle_http2`, "http/1.1" to the HTTP/1.1 engine with
      upgrades and `handle_http1` (whose serving error panics the connection task), and
      anything else, or no protocol, is dropped. A failed handshake runs no
      handler. */
  function TlsDispatch(o: TlsOutcome): (d: Dispatch)
    ensures o.HandshakeError? ==> d == Drop(HandshakeFailed)
    ensures d.Serve? <==> o.Established? && o.alpn.Some? && o.alpn.value in AlpnProtocols
    ensures o.Established? && !d.Serve? ==> d == Drop(InvalidProtocol)
    ensures d.Serve? ==> Coherent(d.conn)
    ensures d.Serve? ==> (d.conn.engine == Http2Engine <==> o.alpn.value == AlpnProtocols[0])
    ensures d.Serve? ==> (d.conn.engine == Http1Engine <==> o.alpn.value == AlpnProtocols[1])
    ensures d.Serve? ==> (d.conn.upgrades <==> d.conn.engine == Http1Engine)
    ensures d.Serve? ==> (d.conn.onError == PanicTask <==> d.conn.engine == Http1Engine)
  {
    match o
    case HandshakeError => Drop(HandshakeFailed)
    case Established(alpn) =>
      if alpn == Some(H2) then Serve(Connection(Http2Engine, false, Http2Service, LogAndClose))
      else if alpn == Some(Http11) then Serve(Connection(Http1Engine, true, Http1Service, PanicTask))
      else Drop(InvalidProtocol)
  }

  /** A TLS session that settled on HTTP/1.1 is served exactly like a
      plaintext connection, except that a serving error panics the connection task. */
  lemma TlsHttp11LikePlaintext()
    ensures var t := TlsDispatch(Established(Some(Http11)));
      && t.Serve?
      && t.conn.(onError := LogAndClose) == PlaintextDispatch().conn
      && t.conn.onError != PlaintextDispatch().conn.onError
  {
  }

  /** One request on a served connection: the connection's service answers
      it. */
  function ServeRequest(c: Connection, req: Request, sha1: WebSocket.Sha1): (r: Reply)
    ensures r.Reply?
    ensures c.service == Http2Service ==> !r.upgradeSpawned && r.response.status == Ok
    ensures c.service == Http1Service ==> r == Handlers.HandleHttp1(req, sha1)
    ensures c.service == Http2Service ==> r == Handlers.HandleHttp2(req)
  {
    match c.service
    case Http1Service => Handlers.HandleHttp1(req, sha1)
    case Http2Service => Handlers.HandleHttp2(req)
  }

  /** On any connection either listener serves, a request only ever gets an
      upgrade task where the connection has upgrades enabled. */
  lemma UpgradeOnlyWithUpgrades(o: Option<TlsOutcome>, req: Request, sha1: WebSocket.Sha1)
    ensures var d := match o case None => PlaintextDispatch() case Some(t) => TlsDispatch(t);
      d.Serve? && ServeRequest(d.conn, req, sha1).upgradeSpawned ==> d.conn.upgrades
  {
  }

  /** How a connection task ends. */
  datatype TaskEnd = Finished | ErrorLogged | TaskPanicked

  /** The end of a served connection's task, given whether serving failed. */
  function ConnectionEnd(c: Connection, failed: bool): (t: TaskEnd)
    ensures t == TaskPanicked <==> failed && c.onError == PanicTask
    ensures t == ErrorLogged <==> failed && c.onError == LogAndClose
    ensures t == Finished <==> !failed
  {
    if !failed then Finished
    else match c.onError
      case LogAndClose => ErrorLogged
      case PanicTask => TaskPanicked
  }

  /** Only a TLS connection that settled on HTTP/1.1 can panic its task. */
  lemma OnlyTlsHttp11Panics(o: Option<TlsOutcome>, failed: bool)
    ensures var d := match o case None => PlaintextDispatch() case Some(t) => TlsDispatch(t);
      d.Serve? && ConnectionEnd(d.conn, failed) == TaskPanicked
      <==> failed && o == Some(Established(Some(Http11)))
  {
  }

  /** The TLS listener before its accept loop: serving with a resolver, or
      aborted by the `unwrap` of a failed insert. */
  datatype Startup = Running(resolver: CertResolver.DynamicResolver) | StartupPanic(error: CertResolver.InsertError)

  /** Seeding a fresh resolver with the configured domain. */
  function HttpsStartup(domain: string, private: string, fullchain: string, loader: CertResolver.Loader): (s: Startup)
    ensures s.Running? <==> CertResolver.BuildKey(private, fullchain, loader).Success?
    ensures s.Running? ==>
      && s.resolver.certs.Keys == {domain}
      && s.resolver.certs[domain] == CertResolver.BuildKey(private, fullchain, loader).value
    ensures s.StartupPanic? ==> s.error == CertResolver.BuildKey(private, fullchain, loader).error
  {
    var out := CertResolver.Insert(CertResolver.EmptyResolver, domain, private, fullchain, loader);
    match out.result
    case Success(_) => Running(out.resolver)
    case Failure(e) => StartupPanic(e)
  }

  /** A running TLS listener finds a certificate for a handshake exactly when
      the client names the configured domain. */
  lemma StartupResolvesOnlyDomain(domain: string, private: string, fullchain: string,
                                  loader: CertResolver.Loader, hello: CertResolver.ClientHello)
    requires HttpsStartup(domain, private, fullchain, loader).Running?
    ensures var r := HttpsStartup(domain, private, fullchain, loader).resolver;
      && (CertResolver.Resolve(r, hello).Some? <==> hello.serverName == Some(domain))
      && (CertResolver.Resolve(r, hello).Some? ==>
            CertResolver.Resolve(r, hello).value == CertResolver.BuildKey(private, fullchain, loader).value)
  {
  }
}
