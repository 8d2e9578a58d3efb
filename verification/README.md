# A model of the rust-http-server-example core in Dafny

The server answers HTTP/1.1 and HTTP/2 requests through two small routers. It
performs the server side of the WebSocket opening handshake. It streams a
fixed list of chunks on `/stream`. Over TLS it picks its certificate by SNI
name from a table, and it picks the protocol engine by the ALPN protocol the
handshake negotiated. This project models those decisions as pure functions
over immutable data and proves what they promise.

Modules (one file each):

- `Wrappers` (`wrappers.dfy`): `Option` and `Result`.
- `Ascii` (`ascii.dfy`): bytes, plus the header-value text operations the
  handlers use: `HeaderValue::to_str`, `HeaderValue::from_str`, ASCII
  lower-casing and `str::contains`.
- `Base64` (`base64.dfy`): padded standard base64 (section 4 of RFC 4648).
  It has a strict decoder and round trips in both directions.
- `Http` (`http.dfy`): requests, responses, handler replies, and
  case-insensitive header lookup that returns the first value.
- `WebSocket` (`websocket.dfy`): the `Sec-WebSocket-Accept` value (section
  4.2.2 of RFC 6455), and the sample key of section 1.3 of RFC 6455.
- `Handlers` (`handlers.dfy`): `handle_http1`, `handle_http2` and the
  `simple_array_send` stream.
- `CertResolver` (`resolver.dfy`): `DynamicResolver::resolve` and
  `DynamicResolver::insert`.
- `Listen` (`listen.dfy`): the plaintext and TLS listeners' choice of engine
  and service, the ALPN list, what a serving error does to the connection task, and how
  the resolver is seeded at startup.

SHA-1 (FIPS 180-4) is not modelled. Every member that needs it takes a
parameter `sha1: Bytes -> Digest`, which may be any function returning
20-byte digests. The RFC 6455 sample vector is therefore stated for every
`sha1` that maps the sample input to the standard digest.

The PEM readers and `any_supported_type` are foreign calls. They are the
fallible functions of a `Loader` value. They can be anything, so every
success and failure combination is covered.

The code accepts a `Sec-WebSocket-Key` header that is present but empty. The
model follows the code, and `Handlers.EmptyKeyIsAccepted` states it. The
handshake as usually described expects a non-empty key, and so does
section 4.2.1 of RFC 6455.

`resolve` only reads the table: `CertResolver.Resolve` is a function of the
table and the client hello and returns a key, never a new table.

`insert` can fail in four places, not three: reading the private key,
opening the chain file, parsing any certificate of the chain, and an
unsupported key type. `pem_file_iter` can fail before any certificate is
read. The model keeps all four cases.

## Model

| member | source | states |
|---|---|---|
| Ascii.ToStr | src/handlers.rs:28 | The header value reads as text exactly when every byte is visible ASCII (32-126 or TAB). The text then has the same bytes as the value. |
| Ascii.ParseHeaderValue | src/handlers.rs:66-68 | Parsing text into a header value succeeds exactly when no byte is a control byte other than TAB. The parsed value has the same bytes as the text. |
| Ascii.ToLower | src/handlers.rs:28 | Lower-casing keeps the length. Each upper-case ASCII letter becomes the lower-case letter 32 code points on, every other character is kept, and no upper-case letter remains. |
| Ascii.ToLowerIdempotent | src/handlers.rs:28 | Lower-casing twice equals lower-casing once, and text with no upper-case letter is unchanged. |
| Ascii.ContainsIff | src/handlers.rs:28 | The left-to-right scan reports `t` exactly when `t` occurs at some position of `s`. |
| Base64.Encode | src/handlers.rs:50 | The encoding has 4 characters for every started group of 3 bytes. |
| Base64.EncodeShape | src/handlers.rs:50 | The encoding is alphabet characters followed by exactly 0, 2 or 1 `=`, for input lengths 0, 1 and 2 modulo 3. |
| Base64.IndexOfCharOf | src/handlers.rs:50 | Every 6-bit value maps to an alphabet character that maps back to it. |
| Base64.DecodeEncode | src/handlers.rs:50 | Decoding the encoding of any byte string gives that byte string back. |
| Base64.EncodeDecode | src/handlers.rs:50 | Any string that decodes is the encoding of what it decodes to, so only canonical text decodes. |
| Base64.DecodeIffEncode | src/handlers.rs:50 | `s` decodes to `b` if and only if `b` encodes to `s`. |
| Http.GetFirst | src/handlers.rs:23-31 | Header lookup finds nothing exactly when no header has the name, whatever the letter case. Otherwise it returns the value of the first header with that name. |
| WebSocket.AcceptKey | src/handlers.rs:45-50 | The accept value is 28 characters: 27 base64 alphabet characters and a final `=`. It is ASCII and decodes to exactly SHA-1 of the key bytes followed by the RFC 6455 GUID. |
| WebSocket.AcceptKeyInjective | src/handlers.rs:45-50 | Two keys get the same accept value exactly when their key-plus-GUID digests are equal. |
| WebSocket.SampleAccept | src/handlers.rs:45-50 | The RFC 6455 sample key `dGhlIHNhbXBsZSBub25jZQ==` gets `s3pPLMBiTxaQ9kYGzzhZRbK+xOo=` whenever SHA-1 gives the standard digest for the sample input. |
| Handlers.StreamStep | src/handlers.rs:133-143 | Each step of the stream advances the index by exactly one. |
| Handlers.FramesFrom | src/handlers.rs:131-144 | From index `idx` the stream yields the chunks from `idx` on, in order, and nothing once the index has reached the end. |
| Handlers.StreamSendsAllChunks | src/handlers.rs:130-155 | A fresh stream yields exactly four frames: "This", "is", "a", "just an stream data", in that order. |
| Handlers.StreamResponseSendsChunks | src/handlers.rs:73-94 | The `/stream` answer of `handle_http2`, and of `handle_http1` for a non-upgrade request, has status 200 and its body sends exactly the four chunks, in order. |
| Handlers.HandleHttp1 | src/handlers.rs:19-80 | The handler never fails. Both directions of each outcome are stated. An upgrade task is spawned exactly for an upgrade request with a key, and the answer is then 101 with an empty body and exactly the three headers `upgrade: websocket`, `connection: Upgrade` and `sec-websocket-accept: <accept>`. 400 "Missing Sec-WebSocket-Key" is returned exactly for an upgrade request without a key. The stream is returned exactly for a non-upgrade request to `/stream`. 200 "Hello" is returned for every other request. |
| Handlers.AcceptIsHeaderText | src/handlers.rs:66-68 | All three header values of the 101 answer parse, so the `parse().unwrap()` calls cannot panic. |
| Handlers.HandleHttp2 | src/handlers.rs:84-94 | The handler never upgrades and always answers 200. It returns the stream exactly on `/stream` and "Hello from http2" on every other path. |
| Handlers.UpgradeCondition | src/handlers.rs:23-30 | A request is an upgrade request if and only if two things hold. The first `Upgrade` header is byte for byte "websocket". The first `Connection` header is visible ASCII and, lower-cased, contains "upgrade". |
| Handlers.FirstIsUnique | src/handlers.rs:23-31 | Only one position holds the first header of a given name. |
| Handlers.UpgradeTokenIsCaseSensitive | src/handlers.rs:24 | `Upgrade: WebSocket` is not an upgrade request and is answered with 200. |
| Handlers.OpaqueConnectionDisablesUpgrade | src/handlers.rs:28 | A `Connection` value with a byte outside visible ASCII never makes the request an upgrade request. |
| Handlers.EmptyKeyIsAccepted | src/handlers.rs:31-39 | An upgrade request with a present but empty key gets 101 and an upgrade task. |
| Handlers.UpgradeBeforeStream | src/handlers.rs:23-75 | An upgrade request for `/stream` gets 101 or 400, never the stream. |
| Handlers.AcceptDependsOnKeyOnly | src/handlers.rs:31-50 | Two upgrade requests with the same key bytes get identical replies. |
| CertResolver.Resolve | src/cert_reslover/reslover.rs:16-20 | With no SNI name there is no key. With a name, a key is returned exactly when the table holds that name, and it is the stored key. |
| CertResolver.CollectCerts | src/cert_reslover/reslover.rs:30 | Collecting succeeds exactly when every entry parsed, and then yields all certificates in order. Otherwise it yields the error of the first entry that failed. |
| CertResolver.BuildKey | src/cert_reslover/reslover.rs:29-32 | Building succeeds exactly when the key reads, the chain file opens, every certificate parses and the key type is supported. The result is the collected chain with the signing key. On failure the error is from the first failing step, in source order, and carries that step's message: key read, then chain file, then certificate parse, then key type. |
| CertResolver.Insert | src/cert_reslover/reslover.rs:23-35 | Insert succeeds exactly when the key can be built. On failure the table is unchanged and the failing step's error is returned. On success `host` maps to the new key, replacing any earlier one, the key set grows by `host` only, and every other entry is unchanged. |
| CertResolver.ResolveAfterInsert | src/cert_reslover/reslover.rs:16-35 | After a successful insert for `host`, resolving `host` gives the new key, and resolving any other name gives what it gave before. |
| CertResolver.ResolveLatest | src/cert_reslover/reslover.rs:16-35 | After any series of inserts, resolving a name gives the key of the most recent insert for it that succeeded. Each insert reads its files afresh, so each call has its own loader results. When no insert for the name succeeded, it gives what it gave before the series. |
| Listen.PlaintextDispatch | src/listen.rs:19-30 | Every plaintext connection is served by the HTTP/1.1 engine with upgrades and `handle_http1`, never HTTP/2. A serving error is logged. |
| Listen.TlsDispatch | src/listen.rs:77-113 | A failed handshake runs no handler. A connection is served exactly when the negotiated protocol is in the ALPN list `["h2", "http/1.1"]`. "h2" goes to the HTTP/2 engine with `handle_http2`. "http/1.1" goes to the HTTP/1.1 engine with upgrades and `handle_http1`, and a serving error then panics the connection task. No protocol, or any other protocol, drops the connection as invalid. |
| Listen.TlsHttp11LikePlaintext | src/listen.rs:101-106 | A TLS session on "http/1.1" is served like a plaintext connection, apart from the error policy. |
| Listen.ServeRequest | src/listen.rs:90-107 | A served request gets its connection's handler's reply. HTTP/2 requests never upgrade and always get 200. |
| Listen.UpgradeOnlyWithUpgrades | src/listen.rs:90-107 | On any connection either listener serves, an upgrade task is spawned only where the connection has upgrades enabled. |
| Listen.ConnectionEnd | src/listen.rs:94-106 | A connection task panics exactly when serving fails under the panic policy. It logs exactly when serving fails under the logging policy. |
| Listen.OnlyTlsHttp11Panics | src/listen.rs:94-106 | Across both listeners, a connection task panics exactly when serving fails on a TLS connection that negotiated "http/1.1". |
| Listen.HttpsStartup | src/listen.rs:57-60 | Startup goes on exactly when the configured key can be built. The resolver then holds exactly one entry, the configured domain with the built key. Otherwise startup panics with the insert's error. |
| Listen.StartupResolvesOnlyDomain | src/listen.rs:57-65 | Once started, the TLS listener finds a certificate exactly for a client naming the configured domain, and that certificate is the built key. |

## Left out

- Binding, accepting, `tokio::spawn`, `select!` and `TokioExecutor`: these are async I/O and scheduling. A connection is an input of the model.
- The TLS handshake and rustls's ALPN selection: these are foreign library code. The model starts from the handshake's outcome and its negotiated protocol, and holds the list the server offers as `Listen.AlpnProtocols`.
- The log lines, including the "Negotiated protocol" message: these are output only.
- SHA-1: it is a parameter, not a definition. See above.
- PEM and DER parsing, and `any_supported_type`: these are foreign calls, held as the functions of `CertResolver.Loader`.
- DashMap's concurrent access: the table is a sequential `map`.
- `websocket_handler`'s message loop and the `hyper::upgrade::on` hand-off: these are I/O over an upgraded socket. The model records only whether the upgrade task was spawned.
- The one-second `sleep` between stream chunks: this is a timer.
- Body boxing (`empty_body`, `full_body`): the body is a plain datatype.
- `src/main.rs`: this is startup wiring only.
- Non-ASCII letter case: header-name case folding and `to_lowercase` are modelled as ASCII-only. This agrees with the code: `to_str` only yields ASCII, and `hyper` header names are ASCII.
