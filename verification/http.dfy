/** The HTTP values the handlers see and produce: a decoded request (path and
    header list), a response (status, headers, body), and what a handler call
    ends in. Header names compare case-insensitively, as `hyper`'s
    `HeaderName` does; header values are raw bytes (`HeaderValue`). */
module Http {
  import opened Wrappers
  import opened Ascii

  datatype Header = Header(name: string, value: Bytes)
  type Headers = seq<Header>

  // The `hyper::header` constants used by the handlers, in the lower-case
  // form `HeaderName` stores.
  const UpgradeName: string := "upgrade"
  const ConnectionName: string := "connection"
  const SecWebSocketKeyName: string := "sec-websocket-key"
  const SecWebSocketAcceptName: string := "sec-websocket-accept"

  // Status codes.
  const SwitchingProtocols: nat := 101
  const Ok: nat := 200
  const BadRequest: nat := 400

  /** A decoded request: the URI's path and the headers in arrival order. */
  datatype Request = Request(path: string, headers: Headers)

  /** A response body: nothing, one fixed chunk, or a stream of frames
      produced by the chunk generator started from state `seed`. */
  datatype Body = Empty | Full(data: string) | Streamed(seed: nat)

  datatype Response = Response(status: nat, headers: Headers, body: Body)

  /** What one handler call ends in: a response, together with whether an
      upgrade task was spawned for the connection, or a panic of the connection task. */
  datatype Reply = Reply(response: Response, upgradeSpawned: bool) | Panic(message: string)

  predicate NameIs(h: Header, name: string) {
    ToLower(h.name) == name
  }

  /** `i` is the first position holding a header called `name`. */
  predicate IsFirst(hs: Headers, name: string, i: nat) {
    && i < |hs|
    && NameIs(hs[i], name)
    && forall j :: 0 <= j < i ==> !NameIs(hs[j], name)
  }

  /** `HeaderMap::get`: the first value stored under `name`. */
  function Get(hs: Headers, name: string): Option<Bytes>
    decreases |hs|
  {
    if |hs| == 0 then None
    else if NameIs(hs[0], name) then Some(hs[0].value)
    else Get(hs[1..], name)
  }

  /** `Get` finds a value exactly when some header has the name, and the value
      it finds is that of the first such header. */
  lemma {:induction false} GetFirst(hs: Headers, name: string)
    ensures Get(hs, name).None? <==> forall i :: 0 <= i < |hs| ==> !NameIs(hs[i], name)
    ensures Get(hs, name).Some? ==> exists i: nat :: IsFirst(hs, name, i) && hs[i].value == Get(hs, name).value
    decreases |hs|
  {
    if |hs| == 0 {
    } else if NameIs(hs[0], name) {
      assert IsFirst(hs, name, 0);
    } else {
      GetFirst(hs[1..], name);
      if Get(hs[1..], name).Some? {
        var i: nat :| IsFirst(hs[1..], name, i) && hs[1..][i].value == Get(hs[1..], name).value;
        assert IsFirst(hs, name, i + 1) by {
          forall j | 0 <= j < i + 1
            ensures !NameIs(hs[j], name)
          {
            if j > 0 {
              assert hs[j] == hs[1..][j - 1];
            }
          }
        }
      } else {
        forall i | 0 <= i < |hs|
          ensures !NameIs(hs[i], name)
        {
          if i > 0 {
            assert hs[i] == hs[1..][i - 1];
          }
        }
      }
    }
  }
}
