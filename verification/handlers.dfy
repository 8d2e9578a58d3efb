/** Request routing for the HTTP/1.1 and HTTP/2 connections
    (`handle_http1`, `handle_http2`) and the chunk stream behind `/stream`
    (`simple_array_send`). */
module Handlers {
  import opened Wrappers
  import opened Ascii
  import opened Http
  import WebSocket
  import Base64

  const StreamPath: string := "/stream"

  /** The values the stream sends, one data frame each, in order. */
  const StreamChunks: seq<string> := ["This", "is", "a", "just an stream data"]

  /** One step of the `unfold` behind the stream: from index `idx`, the next
      frame and the following index, or the end of the stream. */
  function StreamStep(idx: nat): (r: Option<(string, nat)>)
    ensures r.Some? ==> r.value.1 == idx + 1
  {
    if idx >= |StreamChunks| then None
    else Some((StreamChunks[idx], idx + 1))
  }

  /** The frames the stream yields when started from index `idx`, up to its
      end. */
  function Frames(idx: nat): seq<string>
    decreases |StreamChunks| - idx
  {
    match StreamStep(idx)
    case None => []
    case Some((data, next)) => [data] + Frames(next)
  }

  /** From index `idx` the stream yields exactly the chunks not yet sent, in
      order, and nothing once the index has reached the end. */
  lemma {:induction false} FramesFrom(idx: nat)
    ensures idx < |StreamChunks| ==> Frames(idx) == StreamChunks[idx..]
    ensures idx >= |StreamChunks| ==> Frames(idx) == []
    decreases |StreamChunks| - idx
  {
    if idx < |StreamChunks| {
      FramesFrom(idx + 1);
      if idx + 1 < |StreamChunks| {
        assert StreamChunks[idx..] == [StreamChunks[idx]] + StreamChunks[idx + 1..];
      }
    }
  }

  /** A fresh stream yields the four chunks "This", "is", "a",
      "just an stream data", in that order, and then ends. */
  lemma StreamSendsAllChunks()
    ensures Frames(0) == ["This", "is", "a", "just an stream data"]
    ensures |Frames(0)| == 4
  {
    FramesFrom(0);
  }

  /** `simple_array_send`: status 200 and a body streamed from index 0. */
  function StreamResponse(): Response {
    Response(Ok, [], Streamed(0))
  }

  /** The data frames a body sends: none, its one chunk, or what the chunk
      stream yields from its start state. */
  function BodyFrames(b: Body): seq<string> {
    match b
    case Empty => []
    case Full(data) => [data]
    case Streamed(seed) => Frames(seed)
  }

  /** The `/stream` answer of either handler sends the four chunks, in order,
      with status 200. */
  lemma StreamResponseSendsChunks(req: Request, sha1: WebSocket.Sha1)
    ensures StreamResponse().status == Ok
    ensures BodyFrames(StreamResponse().body) == StreamChunks
    ensures req.path == StreamPath ==> BodyFrames(HandleHttp2(req).response.body) == StreamChunks
    ensures req.path == StreamPath && !IsWebSocketUpgrade(req.headers) ==>
      BodyFrames(HandleHttp1(req, sha1).response.body) == StreamChunks
  {
  }

  /** The request asks for a WebSocket: its first `Upgrade` value is exactly
      the bytes of "websocket", and its first `Connection` value, read as
      text (empty when it is not visible ASCII) and lower-cased, contains
      "upgrade". */
  predicate IsWebSocketUpgrade(hs: Headers) {
    && Get(hs, UpgradeName) == Some(OfString("websocket"))
    && match Get(hs, ConnectionName)
       case None => false
       case Some(v) => Contains(ToLower(ToStr(v).GetOr("")), "upgrade")
  }

  /** The 101 response: its three header values are parsed from text, and a
      value that failed to parse would panic the handler. */
  function SwitchingResponse(accept: string): Reply
    requires IsAscii(accept)
  {
    match (ParseHeaderValue(OfString("websocket")), ParseHeaderValue(OfString("Upgrade")),
           ParseHeaderValue(OfString(accept)))
    case (Some(upgrade), Some(connection), Some(acceptValue)) =>
      Reply(Response(SwitchingProtocols,
                     [Header(UpgradeName, upgrade), Header(ConnectionName, connection),
                      Header(SecWebSocketAcceptName, acceptValue)],
                     Empty),
            true)
    case _ => Panic("called `Result::unwrap()` on an `Err` value")
  }

  /** `handle_http1`. A WebSocket upgrade request gets the 101 answer with the
      accept value of its key, and an upgrade task, or a 400 when it has no
      key; any other request gets the stream on `/stream` and "Hello"
      elsewhere. The handler never panics. */
  function HandleHttp1(req: Request, sha1: WebSocket.Sha1): (r: Reply)
    ensures r.Reply?
    ensures r.upgradeSpawned <==> IsWebSocketUpgrade(req.headers) && Get(req.headers, SecWebSocketKeyName).Some?
    ensures r.response.status == SwitchingProtocols <==> r.upgradeSpawned
    ensures r.upgradeSpawned ==>
      var key := Get(req.headers, SecWebSocketKeyName).value;
      && r.response.body == Empty
      && r.response.headers
         == [Header(UpgradeName, OfString("websocket")), Header(ConnectionName, OfString("Upgrade")),
             Header(SecWebSocketAcceptName, OfString(WebSocket.AcceptKey(sha1, key)))]
    ensures r.response.status == BadRequest <==>
      IsWebSocketUpgrade(req.headers) && Get(req.headers, SecWebSocketKeyName).None?
    ensures r.response.status == BadRequest ==>
      r.response == Response(BadRequest, [], Full("Missing Sec-WebSocket-Key"))
    ensures r.response == StreamResponse() <==> !IsWebSocketUpgrade(req.headers) && req.path == StreamPath
    ensures r.response == Response(Ok, [], Full("Hello")) <==>
      !IsWebSocketUpgrade(req.headers) && req.path != StreamPath
  {
    if IsWebSocketUpgrade(req.headers) then
      match Get(req.headers, SecWebSocketKeyName)
      case None => Reply(Response(BadRequest, [], Full("Missing Sec-WebSocket-Key")), false)
      case Some(key) =>
        var accept := WebSocket.AcceptKey(sha1, key);
        AcceptIsHeaderText(accept);
        SwitchingResponse(accept)
    else if req.path == StreamPath then
      Reply(StreamResponse(), false)
    else
      Reply(Response(Ok, [], Full("Hello")), false)
  }

  /** The three header values of the 101 response parse: base64 text is
      printable ASCII. */
  lemma AcceptIsHeaderText(accept: string)
    requires IsAscii(accept) && |accept| == 28 && accept[27] == Base64.Pad
    requires forall i :: 0 <= i < 27 ==> Base64.IsAlphabetChar(accept[i])
    ensures ParseHeaderValue(OfString("websocket")) == Some(OfString("websocket"))
    ensures ParseHeaderValue(OfString("Upgrade")) == Some(OfString("Upgrade"))
    ensures ParseHeaderValue(OfString(accept)) == Some(OfString(accept))
  {
  }

  /** `handle_http2`: the same routing without the upgrade branch. */
  function HandleHttp2(req: Request): (r: Reply)
    ensures r.Reply? && !r.upgradeSpawned && r.response.status == Ok
    ensures r.response == StreamResponse() <==> req.path == StreamPath
    ensures r.response == Response(Ok, [], Full("Hello from http2")) <==> req.path != StreamPath
  {
    if req.path == StreamPath then Reply(StreamResponse(), false)
    else Reply(Response(Ok, [], Full("Hello from http2")), false)
  }

  /** The connection value asks for an upgrade: it is visible ASCII and,
      lower-cased, has "upgrade" somewhere in it. */
  ghost predicate MentionsUpgrade(v: Bytes) {
    ToStr(v).Some? && exists p: nat :: OccursAt(ToLower(ToStr(v).value), "upgrade", p)
  }

  /** Only one position is the first with a given name. */
  lemma FirstIsUnique(hs: Headers, name: string, i: nat, j: nat)
    requires IsFirst(hs, name, i) && IsFirst(hs, name, j)
    ensures i == j
  {
  }

  /** The upgrade test in terms of header positions: the first `Upgrade`
      header holds exactly "websocket" and the first `Connection` header
      mentions "upgrade", in any letter case. */
  lemma UpgradeCondition(hs: Headers)
    ensures IsWebSocketUpgrade(hs) <==>
      && (exists i: nat :: IsFirst(hs, UpgradeName, i) && hs[i].value == OfString("websocket"))
      && (exists j: nat :: IsFirst(hs, ConnectionName, j) && MentionsUpgrade(hs[j].value))
  {
    GetFirst(hs, UpgradeName);
    GetFirst(hs, ConnectionName);
    if Get(hs, ConnectionName).Some? {
      var v := Get(hs, ConnectionName).value;
      ContainsIff(ToLower(ToStr(v).GetOr("")), "upgrade");
      if ToStr(v).None? {
        assert !Contains(ToLower(""), "upgrade");
      }
      forall j: nat | IsFirst(hs, ConnectionName, j)
        ensures hs[j].value == v
      {
        var j0: nat :| IsFirst(hs, ConnectionName, j0) && hs[j0].value == v;
        FirstIsUnique(hs, ConnectionName, j, j0);
      }
    } else {
      assert !exists j: nat :: IsFirst(hs, ConnectionName, j);
    }
    if Get(hs, UpgradeName).Some? {
      var u := Get(hs, UpgradeName).value;
      forall i: nat | IsFirst(hs, UpgradeName, i)
        ensures hs[i].value == u
      {
        var i0: nat :| IsFirst(hs, UpgradeName, i0) && hs[i0].value == u;
        FirstIsUnique(hs, UpgradeName, i, i0);
      }
    } else {
      assert !exists i: nat :: IsFirst(hs, UpgradeName, i);
    }
  }

  /** The `Upgrade` token is compared byte for byte: "WebSocket" is not an
      upgrade request, whatever the other headers say. */
  lemma UpgradeTokenIsCaseSensitive(req: Request, sha1: WebSocket.Sha1)
    requires Get(req.headers, UpgradeName) == Some(OfString("WebSocket"))
    ensures !HandleHttp1(req, sha1).upgradeSpawned
    ensures HandleHttp1(req, sha1).response.status == Ok
  {
    assert OfString("WebSocket")[3] != OfString("websocket")[3];
  }

  /** A `Connection` value with a byte outside visible ASCII reads as empty
      text and so never asks for an upgrade. */
  lemma OpaqueConnectionDisablesUpgrade(req: Request, sha1: WebSocket.Sha1, v: Bytes, k: nat)
    requires Get(req.headers, ConnectionName) == Some(v)
    requires k < |v| && !IsVisible(v[k])
    ensures !IsWebSocketUpgrade(req.headers)
    ensures HandleHttp1(req, sha1).response.status == Ok
  {
    assert ToStr(v).None?;
    assert !Contains(ToLower(""), "upgrade");
  }

  /** An upgrade request whose key is present but empty is not rejected. */
  lemma EmptyKeyIsAccepted(req: Request, sha1: WebSocket.Sha1)
    requires IsWebSocketUpgrade(req.headers)
    requires Get(req.headers, SecWebSocketKeyName) == Some([])
    ensures HandleHttp1(req, sha1).upgradeSpawned
    ensures HandleHttp1(req, sha1).response.status == SwitchingProtocols
  {
  }

  /** The upgrade decision comes before the path: an upgrade request for
      `/stream` is answered with 101 or 400, never with the stream. */
  lemma UpgradeBeforeStream(req: Request, sha1: WebSocket.Sha1)
    requires IsWebSocketUpgrade(req.headers) && req.path == StreamPath
    ensures HandleHttp1(req, sha1).response.status in {SwitchingProtocols, BadRequest}
    ensures HandleHttp1(req, sha1).response != StreamResponse()
  {
  }

  /** Two upgrade requests with the same key bytes get the same answer: the
      accept value depends on the key alone. */
  lemma AcceptDependsOnKeyOnly(r1: Request, r2: Request, sha1: WebSocket.Sha1)
    requires IsWebSocketUpgrade(r1.headers) && IsWebSocketUpgrade(r2.headers)
    requires Get(r1.headers, SecWebSocketKeyName) == Get(r2.headers, SecWebSocketKeyName)
    ensures HandleHttp1(r1, sha1) == HandleHttp1(r2, sha1)
  {
  }
}
