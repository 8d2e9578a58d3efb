/** The server side of the WebSocket opening handshake (section 4.2.2 of
    RFC 6455): the `Sec-WebSocket-Accept` value is the padded standard base64
    of the SHA-1 digest of the client's `Sec-WebSocket-Key` bytes followed by
    the protocol's fixed GUID (section 1.3 of RFC 6455).

    SHA-1 (FIPS 180-4) is not modelled: it is a parameter of type `Sha1`, any
    function from bytes to 20-byte digests. */
module WebSocket {
  import opened Wrappers
  import opened Ascii
  import Base64

  type Digest = d: Bytes | |d| == 20
    witness [0, 0, 0, 0, 0, 0, 0, 0, 0, 0, 0, 0, 0, 0, 0, 0, 0, 0, 0, 0]

  type Sha1 = Bytes -> Digest

  /** The GUID of section 1.3 of RFC 6455. */
  const Guid: string := "258EAFA5-E914-47DA-95CA-C5AB0DC85B11"

  function GuidBytes(): (g: Bytes)
    ensures |g| == 36
  {
    OfString(Guid)
  }

  /** The accept value for a client key: 28 base64 characters, the last one a
      single `=`, which decode to exactly the digest of key ++ GUID. So it is
      always valid header-value text. */
  function AcceptKey(sha1: Sha1, key: Bytes): (accept: string)
    ensures |accept| == 28
    ensures forall i :: 0 <= i < 27 ==> Base64.IsAlphabetChar(accept[i])
    ensures accept[27] == Base64.Pad
    ensures IsAscii(accept)
    ensures Base64.Decode(accept) == Some(sha1(key + GuidBytes()))
  {
    var digest := sha1(key + GuidBytes());
    DigestEncoding(digest);
    Base64.Encode(digest)
  }

  /** The base64 text of any 20-byte digest. */
  lemma DigestEncoding(d: Digest)
    ensures |Base64.Encode(d)| == 28
    ensures forall i :: 0 <= i < 27 ==> Base64.IsAlphabetChar(Base64.Encode(d)[i])
    ensures Base64.Encode(d)[27] == Base64.Pad
    ensures IsAscii(Base64.Encode(d))
    ensures Base64.Decode(Base64.Encode(d)) == Some(d)
  {
    var s := Base64.Encode(d);
    Base64.EncodeShape(d);
    assert Base64.PadLength(|d|) == 1;
    assert Base64.HasShape(s, 1);
    Base64.DecodeEncode(d);
  }

  /** The accept value is a function of the key bytes alone, and different
      digests never share an accept value. */
  lemma AcceptKeyInjective(sha1: Sha1, k1: Bytes, k2: Bytes)
    ensures AcceptKey(sha1, k1) == AcceptKey(sha1, k2) <==> sha1(k1 + GuidBytes()) == sha1(k2 + GuidBytes())
  {
  }

  /** The sample key of section 1.3 of RFC 6455. */
  const SampleKey: string := "dGhlIHNhbXBsZSBub25jZQ=="

  /** SHA-1 of the sample key followed by the GUID, per FIPS 180-4
      (b37a4f2c c0624f16 90f64606 cf385945 b2bec4ea). */
  const SampleDigest: Digest := [179, 122, 79, 44, 192, 98, 79, 22, 144, 246, 70, 6, 207, 56, 89, 69, 178, 190, 196, 234]

  /** The accept value section 1.3 of RFC 6455 quotes for the sample key,
      cut into the 4-character groups of the encoding. */
  const SampleAcceptGroups: seq<string> := ["s3pP", "LMBi", "TxaQ", "9kYG", "zzhZ", "RbK+", "xOo="]

  function Concat(gs: seq<string>): string
    decreases |gs|
  {
    if |gs| == 0 then "" else gs[0] + Concat(gs[1..])
  }

  lemma SampleAcceptText()
    ensures Concat(SampleAcceptGroups) == "s3pPLMBiTxaQ9kYGzzhZRbK+xOo="
  {
  }

  /** Group `j` of the sample digest encodes to group `j` of the quoted text. */
  lemma SampleGroup(d: Digest, j: nat)
    requires d == SampleDigest && j < 6
    ensures Base64.EncodeTriple(d[3 * j], d[3 * j + 1], d[3 * j + 2]) == SampleAcceptGroups[j]
  {
    if j == 0 {
      assert Base64.EncodeTriple(179, 122, 79) == "s3pP";
    } else if j == 1 {
      assert Base64.EncodeTriple(44, 192, 98) == "LMBi";
    } else if j == 2 {
      assert Base64.EncodeTriple(79, 22, 144) == "TxaQ";
    } else if j == 3 {
      assert Base64.EncodeTriple(246, 70, 6) == "9kYG";
    } else if j == 4 {
      assert Base64.EncodeTriple(207, 56, 89) == "zzhZ";
    } else {
      assert Base64.EncodeTriple(69, 178, 190) == "RbK+";
    }
  }

  /** The sample digest from group `j` on encodes to the quoted groups from
      `j` on. */
  lemma {:induction false} SampleSuffix(d: Digest, j: nat)
    requires d == SampleDigest && j <= 6
    ensures Base64.Encode(d[3 * j..]) == Concat(SampleAcceptGroups[j..])
    decreases 6 - j
  {
    var gs := SampleAcceptGroups[j..];
    if j == 6 {
      assert d[18..] == [196, 234];
      assert Base64.EncodePair(196, 234) == "xOo=";
      assert gs == ["xOo="];
    } else {
      SampleSuffix(d, j + 1);
      SampleGroup(d, j);
      Base64.EncodeCons(d[3 * j..]);
      assert d[3 * j..][3..] == d[3 * j + 3..];
      assert gs[0] == SampleAcceptGroups[j] && gs[1..] == SampleAcceptGroups[j + 1..];
    }
  }

  /** With a SHA-1 that gives the standard digest for the sample input, the
      sample key's accept value is the one section 1.3 of RFC 6455 quotes. */
  lemma SampleAccept(sha1: Sha1)
    requires sha1(OfString(SampleKey) + GuidBytes()) == SampleDigest
    ensures AcceptKey(sha1, OfString(SampleKey)) == "s3pPLMBiTxaQ9kYGzzhZRbK+xOo="
  {
    var d := sha1(OfString(SampleKey) + GuidBytes());
    SampleSuffix(d, 0);
    assert d[0..] == d;
    assert SampleAcceptGroups[0..] == SampleAcceptGroups;
    SampleAcceptText();
  }
}
