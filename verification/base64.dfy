/** Base64 with the standard alphabet and `=` padding, as section 4 of
    RFC 4648 defines it (the `general_purpose::STANDARD` engine of the
    `base64` crate). Every 3 input bytes become 4 characters of 6 bits each;
    a final group of 1 or 2 bytes is zero-filled and padded with `==` or `=`.
    Decoding is strict: it rejects characters outside the alphabet, padding
    anywhere but at the end, and non-zero filler bits, so it is an exact
    inverse of encoding. */
module Base64 {
  import opened Wrappers
  import opened Ascii

  /** A 6-bit value, the index of one alphabet character. */
  type Index = i: int | 0 <= i < 64

  const Pad: char := '='

  predicate IsAlphabetChar(c: char) {
    ('A' <= c <= 'Z') || ('a' <= c <= 'z') || ('0' <= c <= '9') || c == '+' || c == '/'
  }

  /** The character that decodes to `c`, if `c` is in the alphabet. */
  function IndexOf(c: char): (r: Option<Index>)
    ensures r.Some? <==> IsAlphabetChar(c)
  {
    if 'A' <= c <= 'Z' then Some(c as int - 'A' as int)
    else if 'a' <= c <= 'z' then Some(c as int - 'a' as int + 26)
    else if '0' <= c <= '9' then Some(c as int - '0' as int + 52)
    else if c == '+' then Some(62)
    else if c == '/' then Some(63)
    else None
  }

  /** Table 1 of RFC 4648: the character for each 6-bit value. */
  function CharOf(v: Index): char {
    if v < 26 then (v + 'A' as int) as char
    else if v < 52 then (v - 26 + 'a' as int) as char
    else if v < 62 then (v - 52 + '0' as int) as char
    else if v == 62 then '+'
    else '/'
  }

  /** Decoding the character of a 6-bit value gives that value back. */
  lemma IndexOfCharOf(v: Index)
    ensures IsAlphabetChar(CharOf(v))
    ensures IndexOf(CharOf(v)) == Some(v)
  {
  }

  /** No two characters decode to the same 6-bit value. */
  lemma IndexOfInjective(c: char, d: char)
    requires IndexOf(c).Some? && IndexOf(c) == IndexOf(d)
    ensures c == d
  {
  }

  /** Number of `=` characters ending the encoding of `n` bytes. */
  function PadLength(n: nat): nat {
    if n % 3 == 0 then 0 else 3 - n % 3
  }

  // The 6-bit groups of three bytes a, b, c (most significant bits first).
  function Hi(a: Byte): Index { a / 4 }
  function Mid(a: Byte, b: Byte): Index { (a % 4) * 16 + b / 16 }
  function Lo(b: Byte, c: Byte): Index { (b % 16) * 4 + c / 64 }
  function Low(c: Byte): Index { c % 64 }

  // The bytes rebuilt from four 6-bit groups c0, c1, c2, c3.
  function Byte0(c0: Index, c1: Index): Byte { c0 * 4 + c1 / 16 }
  function Byte1(c1: Index, c2: Index): Byte { (c1 % 16) * 16 + c2 / 4 }
  function Byte2(c2: Index, c3: Index): Byte { (c2 % 4) * 64 + c3 }

  function EncodeTriple(a: Byte, b: Byte, c: Byte): string {
    [CharOf(Hi(a)), CharOf(Mid(a, b)), CharOf(Lo(b, c)), CharOf(Low(c))]
  }

  function EncodePair(a: Byte, b: Byte): string {
    [CharOf(Hi(a)), CharOf(Mid(a, b)), CharOf(Lo(b, 0)), Pad]
  }

  function EncodeSingle(a: Byte): string {
    [CharOf(Hi(a)), CharOf(Mid(a, 0)), Pad, Pad]
  }

  /** Splitting bytes into 6-bit groups and joining them back is the identity. */
  lemma SplitJoin(a: Byte, b: Byte, c: Byte)
    ensures Byte0(Hi(a), Mid(a, b)) == a
    ensures Byte1(Mid(a, b), Lo(b, c)) == b
    ensures Byte2(Lo(b, c), Low(c)) == c
    ensures Mid(a, 0) % 16 == 0 && Lo(b, 0) % 4 == 0
  {
  }

  /** Joining 6-bit groups into bytes and splitting them again is the identity. */
  lemma JoinSplit(c0: Index, c1: Index, c2: Index, c3: Index)
    ensures Hi(Byte0(c0, c1)) == c0
    ensures Mid(Byte0(c0, c1), Byte1(c1, c2)) == c1
    ensures Lo(Byte1(c1, c2), Byte2(c2, c3)) == c2
    ensures Low(Byte2(c2, c3)) == c3
    ensures c2 % 4 == 0 ==> Lo(Byte1(c1, c2), 0) == c2
    ensures c1 % 16 == 0 ==> Mid(Byte0(c0, c1), 0) == c1
  {
  }

  /** Standard padded base64 encoding. The result has 4 characters per started
      group of 3 bytes, alphabet characters first, then exactly the padding
      the final group calls for. */
  function Encode(b: Bytes): (s: string)
    ensures |s| == 4 * ((|b| + 2) / 3)
    decreases |b|
  {
    if |b| == 0 then ""
    else if |b| == 1 then EncodeSingle(b[0])
    else if |b| == 2 then EncodePair(b[0], b[1])
    else EncodeTriple(b[0], b[1], b[2]) + Encode(b[3..])
  }

  /** `s` is alphabet characters followed by exactly `pad` padding characters. */
  predicate HasShape(s: string, pad: nat) {
    && pad <= |s|
    && (forall i :: 0 <= i < |s| - pad ==> IsAlphabetChar(s[i]))
    && (forall i :: |s| - pad <= i < |s| ==> s[i] == Pad)
  }

  lemma {:induction false} EncodeShape(b: Bytes)
    ensures HasShape(Encode(b), PadLength(|b|))
    decreases |b|
  {
    if |b| == 0 {
    } else if |b| == 1 {
      IndexOfCharOf(Hi(b[0]));
      IndexOfCharOf(Mid(b[0], 0));
    } else if |b| == 2 {
      IndexOfCharOf(Hi(b[0]));
      IndexOfCharOf(Mid(b[0], b[1]));
      IndexOfCharOf(Lo(b[1], 0));
    } else {
      var q := EncodeTriple(b[0], b[1], b[2]);
      IndexOfCharOf(Hi(b[0]));
      IndexOfCharOf(Mid(b[0], b[1]));
      IndexOfCharOf(Lo(b[1], b[2]));
      IndexOfCharOf(Low(b[2]));
      assert HasShape(q, 0);
      EncodeShape(b[3..]);
      EncodeCons(b);
      ShapeAppend(q, Encode(b[3..]), PadLength(|b| - 3));
    }
  }

  lemma ShapeAppend(x: string, y: string, pad: nat)
    requires HasShape(x, 0) && HasShape(y, pad)
    ensures HasShape(x + y, pad)
  {
    var s := x + y;
    forall i | 0 <= i < |s| - pad
      ensures IsAlphabetChar(s[i])
    {
      if i >= |x| {
        assert s[i] == y[i - |x|];
      }
    }
  }

  /** Decodes one group of 4 characters; a padded group is accepted only as
      the `last` one and only when its filler bits are zero. */
  function DecodeQuantum(q: string, last: bool): Option<Bytes>
    requires |q| == 4
  {
    DecodeIndices(IndexOf(q[0]), IndexOf(q[1]), IndexOf(q[2]), IndexOf(q[3]), q[2] == Pad, q[3] == Pad, last)
  }

  /** The bytes of one group, given the 6-bit values of its characters and
      which of the last two characters are padding. */
  function DecodeIndices(i0: Option<Index>, i1: Option<Index>, i2: Option<Index>, i3: Option<Index>,
                         pad2: bool, pad3: bool, last: bool): Option<Bytes>
  {
    if i0.None? || i1.None? then None
    else if i2.Some? && i3.Some? then
      Some([Byte0(i0.value, i1.value), Byte1(i1.value, i2.value), Byte2(i2.value, i3.value)])
    else if last && i2.Some? && pad3 && i2.value % 4 == 0 then
      Some([Byte0(i0.value, i1.value), Byte1(i1.value, i2.value)])
    else if last && pad2 && pad3 && i1.value % 16 == 0 then
      Some([Byte0(i0.value, i1.value)])
    else None
  }

  /** Strict standard base64 decoding; `None` for any non-canonical input. */
  function Decode(s: string): Option<Bytes>
    decreases |s|
  {
    if |s| == 0 then Some([])
    else if |s| < 4 then None
    else
      match DecodeQuantum(s[..4], |s| == 4)
      case None => None
      case Some(head) =>
        match Decode(s[4..])
        case None => None
        case Some(tail) => Some(head + tail)
  }

  lemma DecodeThree(i0: Index, i1: Index, i2: Index, i3: Index, pad2: bool, pad3: bool, last: bool)
    ensures DecodeIndices(Some(i0), Some(i1), Some(i2), Some(i3), pad2, pad3, last)
         == Some([Byte0(i0, i1), Byte1(i1, i2), Byte2(i2, i3)])
  {
  }

  lemma DecodeTwo(i0: Index, i1: Index, i2: Index, pad2: bool)
    requires i2 % 4 == 0
    ensures DecodeIndices(Some(i0), Some(i1), Some(i2), None, pad2, true, true)
         == Some([Byte0(i0, i1), Byte1(i1, i2)])
  {
  }

  lemma DecodeOne(i0: Index, i1: Index)
    requires i1 % 16 == 0
    ensures DecodeIndices(Some(i0), Some(i1), None, None, true, true, true) == Some([Byte0(i0, i1)])
  {
  }

  // Decoding the characters of given 6-bit values, one lemma per group shape.

  lemma DecodeChars3(c0: Index, c1: Index, c2: Index, c3: Index, last: bool)
    ensures DecodeQuantum([CharOf(c0), CharOf(c1), CharOf(c2), CharOf(c3)], last)
         == Some([Byte0(c0, c1), Byte1(c1, c2), Byte2(c2, c3)])
  {
    IndexOfCharOf(c0);
    IndexOfCharOf(c1);
    IndexOfCharOf(c2);
    IndexOfCharOf(c3);
    DecodeThree(c0, c1, c2, c3, CharOf(c2) == Pad, CharOf(c3) == Pad, last);
  }

  lemma DecodeChars2(c0: Index, c1: Index, c2: Index)
    requires c2 % 4 == 0
    ensures DecodeQuantum([CharOf(c0), CharOf(c1), CharOf(c2), Pad], true) == Some([Byte0(c0, c1), Byte1(c1, c2)])
  {
    IndexOfCharOf(c0);
    IndexOfCharOf(c1);
    IndexOfCharOf(c2);
    assert IndexOf(Pad) == None;
    DecodeTwo(c0, c1, c2, CharOf(c2) == Pad);
  }

  lemma DecodeChars1(c0: Index, c1: Index)
    requires c1 % 16 == 0
    ensures DecodeQuantum([CharOf(c0), CharOf(c1), Pad, Pad], true) == Some([Byte0(c0, c1)])
  {
    IndexOfCharOf(c0);
    IndexOfCharOf(c1);
    assert IndexOf(Pad) == None;
    DecodeOne(c0, c1);
  }

  lemma TripleRoundTrip(a: Byte, b: Byte, c: Byte, last: bool)
    ensures DecodeQuantum(EncodeTriple(a, b, c), last) == Some([a, b, c])
  {
    DecodeChars3(Hi(a), Mid(a, b), Lo(b, c), Low(c), last);
    SplitJoin(a, b, c);
  }

  lemma PairRoundTrip(a: Byte, b: Byte)
    ensures DecodeQuantum(EncodePair(a, b), true) == Some([a, b])
  {
    SplitJoin(a, b, 0);
    DecodeChars2(Hi(a), Mid(a, b), Lo(b, 0));
  }

  lemma SingleRoundTrip(a: Byte)
    ensures DecodeQuantum(EncodeSingle(a), true) == Some([a])
  {
    SplitJoin(a, 0, 0);
    DecodeChars1(Hi(a), Mid(a, 0));
  }

  /** The alphabet character of a 6-bit value is the only one decoding to it. */
  lemma CharOfIndexOf(c: char, v: Index)
    requires IndexOf(c) == Some(v)
    ensures CharOf(v) == c
  {
    IndexOfCharOf(v);
    IndexOfInjective(c, CharOf(v));
  }

  /** The characters of a group are the alphabet characters of their values. */
  lemma CharsOf(q: string, c0: Index, c1: Index, c2: Index, c3: Index)
    requires |q| == 4
    requires IndexOf(q[0]) == Some(c0) && IndexOf(q[1]) == Some(c1)
    ensures q[2] == Pad && q[3] == Pad ==> q == [CharOf(c0), CharOf(c1), Pad, Pad]
    ensures IndexOf(q[2]) == Some(c2) && q[3] == Pad ==> q == [CharOf(c0), CharOf(c1), CharOf(c2), Pad]
    ensures IndexOf(q[2]) == Some(c2) && IndexOf(q[3]) == Some(c3)
        ==> q == [CharOf(c0), CharOf(c1), CharOf(c2), CharOf(c3)]
  {
    CharOfIndexOf(q[0], c0);
    CharOfIndexOf(q[1], c1);
    if IndexOf(q[2]) == Some(c2) {
      CharOfIndexOf(q[2], c2);
    }
    if IndexOf(q[3]) == Some(c3) {
      CharOfIndexOf(q[3], c3);
    }
  }

  lemma CanonicalThree(q: string, c0: Index, c1: Index, c2: Index, c3: Index)
    requires |q| == 4
    requires IndexOf(q[0]) == Some(c0) && IndexOf(q[1]) == Some(c1)
    requires IndexOf(q[2]) == Some(c2) && IndexOf(q[3]) == Some(c3)
    ensures EncodeTriple(Byte0(c0, c1), Byte1(c1, c2), Byte2(c2, c3)) == q
  {
    JoinSplit(c0, c1, c2, c3);
    CharsOf(q, c0, c1, c2, c3);
  }

  lemma CanonicalTwo(q: string, c0: Index, c1: Index, c2: Index)
    requires |q| == 4
    requires IndexOf(q[0]) == Some(c0) && IndexOf(q[1]) == Some(c1) && IndexOf(q[2]) == Some(c2)
    requires q[3] == Pad && c2 % 4 == 0
    ensures EncodePair(Byte0(c0, c1), Byte1(c1, c2)) == q
  {
    JoinSplit(c0, c1, c2, 0);
    CharsOf(q, c0, c1, c2, 0);
  }

  lemma CanonicalOne(q: string, c0: Index, c1: Index)
    requires |q| == 4
    requires IndexOf(q[0]) == Some(c0) && IndexOf(q[1]) == Some(c1)
    requires q[2] == Pad && q[3] == Pad && c1 % 16 == 0
    ensures EncodeSingle(Byte0(c0, c1)) == q
  {
    JoinSplit(c0, c1, 0, 0);
    CharsOf(q, c0, c1, 0, 0);
  }

  /** A group that decodes re-encodes to itself: 3 bytes from any group,
      fewer only from a padded last group. */
  lemma QuantumCanonical(q: string, last: bool, h: Bytes)
    requires |q| == 4
    requires DecodeQuantum(q, last) == Some(h)
    ensures |h| == 3 ==> EncodeTriple(h[0], h[1], h[2]) == q
    ensures |h| == 2 ==> last && EncodePair(h[0], h[1]) == q
    ensures |h| == 1 ==> last && EncodeSingle(h[0]) == q
    ensures 1 <= |h| <= 3
  {
    var i0, i1, i2, i3 := IndexOf(q[0]), IndexOf(q[1]), IndexOf(q[2]), IndexOf(q[3]);
    assert DecodeIndices(i0, i1, i2, i3, q[2] == Pad, q[3] == Pad, last) == Some(h);
    assert i0.Some? && i1.Some?;
    var c0, c1 := i0.value, i1.value;
    if i2.Some? && i3.Some? {
      DecodeThree(c0, c1, i2.value, i3.value, q[2] == Pad, q[3] == Pad, last);
      CanonicalThree(q, c0, c1, i2.value, i3.value);
    } else if last && i2.Some? && q[3] == Pad && i2.value % 4 == 0 {
      DecodeTwo(c0, c1, i2.value, q[2] == Pad);
      CanonicalTwo(q, c0, c1, i2.value);
    } else {
      assert last && q[2] == Pad && q[3] == Pad && c1 % 16 == 0;
      DecodeOne(c0, c1);
      CanonicalOne(q, c0, c1);
    }
  }

  /** Decoding a string that starts with a good group. */
  lemma DecodeCons(q: string, rest: string, head: Bytes, tail: Bytes)
    requires |q| == 4
    requires DecodeQuantum(q, |rest| == 0) == Some(head)
    requires Decode(rest) == Some(tail)
    ensures Decode(q + rest) == Some(head + tail)
  {
    var s := q + rest;
    assert s[..4] == q;
    assert s[4..] == rest;
  }

  /** Encoding a string of at least 3 bytes emits its first group, then the rest. */
  lemma EncodeCons(b: Bytes)
    requires |b| >= 3
    ensures Encode(b) == EncodeTriple(b[0], b[1], b[2]) + Encode(b[3..])
  {
  }

  lemma SplitFirstThree(b: Bytes)
    requires |b| >= 3
    ensures [b[0], b[1], b[2]] + b[3..] == b
  {
  }

  /** Decoding undoes encoding, for every byte string. */
  lemma {:induction false} DecodeEncode(b: Bytes)
    ensures Decode(Encode(b)) == Some(b)
    decreases |b|
  {
    if |b| == 0 {
    } else if |b| == 1 {
      SingleRoundTrip(b[0]);
      DecodeCons(EncodeSingle(b[0]), "", [b[0]], []);
      assert EncodeSingle(b[0]) + "" == Encode(b);
      assert [b[0]] + [] == b;
    } else if |b| == 2 {
      PairRoundTrip(b[0], b[1]);
      DecodeCons(EncodePair(b[0], b[1]), "", [b[0], b[1]], []);
      assert EncodePair(b[0], b[1]) + "" == Encode(b);
      assert [b[0], b[1]] + [] == b;
    } else {
      var rest := Encode(b[3..]);
      DecodeEncode(b[3..]);
      TripleRoundTrip(b[0], b[1], b[2], |rest| == 0);
      DecodeCons(EncodeTriple(b[0], b[1], b[2]), rest, [b[0], b[1], b[2]], b[3..]);
      EncodeCons(b);
      SplitFirstThree(b);
    }
  }

  /** Encoding undoes decoding: only canonical strings decode. */
  lemma {:induction false} EncodeDecode(s: string, b: Bytes)
    requires Decode(s) == Some(b)
    ensures Encode(b) == s
    decreases |s|
  {
    if |s| == 0 {
    } else {
      var head :| DecodeQuantum(s[..4], |s| == 4) == Some(head);
      var tail :| Decode(s[4..]) == Some(tail);
      assert b == head + tail;
      QuantumCanonical(s[..4], |s| == 4, head);
      EncodeDecode(s[4..], tail);
      if |head| == 3 {
        assert b[3..] == tail;
        assert s == s[..4] + s[4..];
      } else {
        assert s[4..] == "";
        assert tail == [];
        assert b == head;
      }
    }
  }

  /** Base64 is a bijection between byte strings and canonical strings. */
  lemma DecodeIffEncode(s: string, b: Bytes)
    ensures Decode(s) == Some(b) <==> Encode(b) == s
  {
    if Decode(s) == Some(b) {
      EncodeDecode(s, b);
    }
    if Encode(b) == s {
      DecodeEncode(b);
    }
  }
}
