/** The SNI certificate resolver (`DynamicResolver`): a table from host name
    to certified key, consulted once per TLS handshake with the name the
    client sent, and filled by `insert`, which builds the key from PEM files
    and publishes it only when every step succeeded.

    The table is modelled as a plain `map`: concurrent access is not. The PEM
    readers and the signing-key constructor are foreign code, modelled as the
    fallible functions of a `Loader`. */
module CertResolver {
  import opened Wrappers
  import opened Ascii

  datatype PrivateKeyDer = PrivateKeyDer(der: Bytes)
  datatype CertificateDer = CertificateDer(der: Bytes)

  /** An opaque signing key as the crypto provider hands it out. */
  datatype SigningKey = SigningKey(handle: nat)

  /** `CertifiedKey`: the certificate chain and the key that signs for it. */
  datatype CertifiedKey = CertifiedKey(chain: seq<CertificateDer>, key: SigningKey)

  /** The foreign steps of `insert`, each of which can fail with a message:
      reading the private key from a PEM file, opening the chain file and
      reading its certificates one by one, and turning the key into a
      signing key of a supported type. */
  datatype Loader = Loader(
    privateKeyFromPemFile: string -> Result<PrivateKeyDer, string>,
    pemFileIter: string -> Result<seq<Result<CertificateDer, string>>, string>,
    anySupportedType: PrivateKeyDer -> Result<SigningKey, string>)

  /** Which step of `insert` failed. */
  datatype InsertError =
    | KeyParseError(message: string)
    | ChainFileError(message: string)
    | CertParseError(message: string)
    | UnsupportedKeyType(message: string)

  datatype DynamicResolver = DynamicResolver(certs: map<string, CertifiedKey>)

  /** A fresh resolver, `DynamicResolver::default()`. */
  const EmptyResolver := DynamicResolver(map[])

  /** What the TLS engine passes to the resolver: the SNI name, if any. */
  datatype ClientHello = ClientHello(serverName: Option<string>)

  /** `resolve`: the key stored for the name the client sent; nothing when it
      sent none or when no key is stored under that exact name. */
  function Resolve(r: DynamicResolver, hello: ClientHello): (k: Option<CertifiedKey>)
    ensures hello.serverName.None? ==> k.None?
    ensures hello.serverName.Some? ==>
      (k.Some? <==> hello.serverName.value in r.certs)
    ensures k.Some? ==> k.value == r.certs[hello.serverName.value]
  {
    match hello.serverName
    case None => None
    case Some(name) => if name in r.certs then Some(r.certs[name]) else None
  }

  /** `collect::<Result<Vec<_>, _>>()`: all the certificates when every entry
      parsed, otherwise the error of the first entry that did not. */
  function CollectCerts(entries: seq<Result<CertificateDer, string>>): (r: Result<seq<CertificateDer>, string>)
    ensures r.Success? <==> forall i :: 0 <= i < |entries| ==> entries[i].Success?
    ensures r.Success? ==>
      && |r.value| == |entries|
      && forall i :: 0 <= i < |entries| ==> r.value[i] == entries[i].value
    ensures r.Failure? ==>
      exists i :: && 0 <= i < |entries|
                  && entries[i] == Failure(r.error)
                  && forall j :: 0 <= j < i ==> entries[j].Success?
    decreases |entries|
  {
    if |entries| == 0 then Success([])
    else match entries[0]
      case Failure(e) => Failure(e)
      case Success(c) =>
        match CollectCerts(entries[1..])
        case Failure(e) =>
          var r: Result<seq<CertificateDer>, string> := Failure(e);
          assert forall i :: 1 <= i < |entries| ==> entries[i] == entries[1..][i - 1];
          r
        case Success(rest) => Success([c] + rest)
  }

  /** The fallible part of `insert`: read the key, read and collect the
      chain, make the signing key. */
  function BuildKey(private: string, fullchain: string, loader: Loader): (r: Result<CertifiedKey, InsertError>)
    ensures r.Success? <==>
      && loader.privateKeyFromPemFile(private).Success?
      && loader.pemFileIter(fullchain).Success?
      && CollectCerts(loader.pemFileIter(fullchain).value).Success?
      && loader.anySupportedType(loader.privateKeyFromPemFile(private).value).Success?
    ensures r.Success? ==> r.value == CertifiedKey(
      CollectCerts(loader.pemFileIter(fullchain).value).value,
      loader.anySupportedType(loader.privateKeyFromPemFile(private).value).value)
    ensures loader.privateKeyFromPemFile(private).Failure? ==>
      r == Failure(KeyParseError(loader.privateKeyFromPemFile(private).error))
    ensures loader.privateKeyFromPemFile(private).Success? && loader.pemFileIter(fullchain).Failure? ==>
      r == Failure(ChainFileError(loader.pemFileIter(fullchain).error))
    ensures && loader.privateKeyFromPemFile(private).Success?
            && loader.pemFileIter(fullchain).Success?
            && CollectCerts(loader.pemFileIter(fullchain).value).Failure? ==>
      r == Failure(CertParseError(CollectCerts(loader.pemFileIter(fullchain).value).error))
    ensures && loader.privateKeyFromPemFile(private).Success?
            && loader.pemFileIter(fullchain).Success?
            && CollectCerts(loader.pemFileIter(fullchain).value).Success?
            && loader.anySupportedType(loader.privateKeyFromPemFile(private).value).Failure? ==>
      r == Failure(UnsupportedKeyType(loader.anySupportedType(loader.privateKeyFromPemFile(private).value).error))
  {
    match loader.privateKeyFromPemFile(private)
    case Failure(e) => Failure(KeyParseError(e))
    case Success(key) =>
      match loader.pemFileIter(fullchain)
      case Failure(e) => Failure(ChainFileError(e))
      case Success(entries) =>
        match CollectCerts(entries)
        case Failure(e) => Failure(CertParseError(e))
        case Success(certs) =>
          match loader.anySupportedType(key)
          case Failure(e) => Failure(UnsupportedKeyType(e))
          case Success(signer) => Success(CertifiedKey(certs, signer))
  }

  /** The resolver after an `insert` call, and what the call returned. */
  datatype Inserted = Inserted(resolver: DynamicResolver, result: Result<(), InsertError>)

  /** `insert(host, private, fullchain)`: on success the table maps `host` to
      the new key, replacing any earlier one, and is otherwise unchanged; on
      failure the table is untouched. */
  function Insert(r: DynamicResolver, host: string, private: string, fullchain: string, loader: Loader): (out: Inserted)
    ensures out.result.Success? <==> BuildKey(private, fullchain, loader).Success?
    ensures out.result.Failure? ==>
      out.resolver == r && out.result.error == BuildKey(private, fullchain, loader).error
    ensures out.result.Success? ==>
      && host in out.resolver.certs
      && out.resolver.certs[host] == BuildKey(private, fullchain, loader).value
      && out.resolver.certs.Keys == r.certs.Keys + {host}
      && forall h :: h in r.certs && h != host ==> out.resolver.certs[h] == r.certs[h]
  {
    match BuildKey(private, fullchain, loader)
    case Failure(e) => Inserted(r, Failure(e))
    case Success(key) => Inserted(DynamicResolver(r.certs[host := key]), Success(()))
  }

  /** After a successful insert for `host`, resolving `host` gives the new key,
      and resolving any other name gives what it gave before. */
  lemma ResolveAfterInsert(r: DynamicResolver, host: string, private: string, fullchain: string,
                           loader: Loader, hello: ClientHello)
    requires Insert(r, host, private, fullchain, loader).result.Success?
    ensures var r' := Insert(r, host, private, fullchain, loader).resolver;
      && Resolve(r', ClientHello(Some(host))) == Some(BuildKey(private, fullchain, loader).value)
      && (hello.serverName != Some(host) ==> Resolve(r', hello) == Resolve(r, hello))
  {
  }

  /** One `insert` call: its arguments, and what the PEM readers and the
      key constructor give during that call (the files are read afresh each
      time). */
  datatype InsertCall = InsertCall(host: string, private: string, fullchain: string, loader: Loader)

  /** The resolver after a series of `insert` calls, made in order. */
  function Replay(r: DynamicResolver, calls: seq<InsertCall>): DynamicResolver
    decreases |calls|
  {
    if |calls| == 0 then r
    else
      var last := calls[|calls| - 1];
      Insert(Replay(r, calls[..|calls| - 1]), last.host, last.private, last.fullchain, last.loader).resolver
  }

  /** The key of the latest call for `host` whose key could be built, if any. */
  function LatestKey(calls: seq<InsertCall>, host: string): Option<CertifiedKey>
    decreases |calls|
  {
    if |calls| == 0 then None
    else
      var last := calls[|calls| - 1];
      var built := BuildKey(last.private, last.fullchain, last.loader);
      if last.host == host && built.Success? then Some(built.value)
      else LatestKey(calls[..|calls| - 1], host)
  }

  /** Resolution after a series of inserts gives the most recently inserted
      key for the name, or, when no insert for it succeeded, what it gave
      before the series. */
  lemma {:induction false} ResolveLatest(r: DynamicResolver, calls: seq<InsertCall>, host: string)
    ensures Resolve(Replay(r, calls), ClientHello(Some(host))) ==
      match LatestKey(calls, host)
      case Some(k) => Some(k)
      case None => Resolve(r, ClientHello(Some(host)))
    decreases |calls|
  {
    if |calls| > 0 {
      ResolveLatest(r, calls[..|calls| - 1], host);
    }
  }
}
