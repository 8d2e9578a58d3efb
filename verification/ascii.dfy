/** Bytes and the few text operations the handlers perform on header values:
    the visible-ASCII view of a header value, ASCII lower-casing and substring
    search. */
module Ascii {
  import opened Wrappers

  type Byte = b: int | 0 <= b < 256
  type Bytes = seq<Byte>

  const Tab: Byte := 9

  predicate IsAscii(s: string) {
    forall i :: 0 <= i < |s| ==> s[i] as int < 128
  }

  /** The bytes of an ASCII string (its UTF-8 encoding, one byte per char). */
  function OfString(s: string): (b: Bytes)
    requires IsAscii(s)
    ensures |b| == |s|
    ensures forall i :: 0 <= i < |b| ==> b[i] == s[i] as int
  {
    seq(|s|, i requires 0 <= i < |s| => s[i] as int)
  }

  /** A byte that `HeaderValue::to_str` accepts: printable ASCII or TAB. */
  predicate IsVisible(b: Byte) {
    (32 <= b < 127) || b == Tab
  }

  /** A byte that `HeaderValue::from_str` accepts: anything from 32 up except
      DEL, or TAB. */
  predicate IsHeaderValueByte(b: Byte) {
    (b >= 32 && b != 127) || b == Tab
  }

  /** `HeaderValue::to_str`: the value as text when every byte is visible ASCII,
      nothing otherwise. */
  function ToStr(v: Bytes): (r: Option<string>)
    ensures r.Some? <==> forall i :: 0 <= i < |v| ==> IsVisible(v[i])
    ensures r.Some? ==> IsAscii(r.value) && OfString(r.value) == v
  {
    if forall i :: 0 <= i < |v| ==> IsVisible(v[i]) then
      var s := seq(|v|, i requires 0 <= i < |v| => v[i] as char);
      assert OfString(s) == v;
      Some(s)
    else
      None
  }

  /** `HeaderValue::from_str` (the `parse()` of a header value): the bytes when
      each of them may appear in a header value, nothing otherwise. */
  function ParseHeaderValue(b: Bytes): (r: Option<Bytes>)
    ensures r.Some? <==> forall i :: 0 <= i < |b| ==> IsHeaderValueByte(b[i])
    ensures r.Some? ==> r.value == b
  {
    if forall i :: 0 <= i < |b| ==> IsHeaderValueByte(b[i]) then Some(b) else None
  }

  function LowerChar(c: char): char {
    if 'A' <= c <= 'Z' then (c as int + 32) as char else c
  }

  /** ASCII lower-casing: each upper-case letter becomes its lower-case
      letter (32 code points further on), every other character is kept, and
      no upper-case letter is left. */
  function ToLower(s: string): (r: string)
    ensures |r| == |s|
    ensures forall i :: 0 <= i < |s| && 'A' <= s[i] <= 'Z' ==> r[i] as int == s[i] as int + 32
    ensures forall i :: 0 <= i < |s| && !('A' <= s[i] <= 'Z') ==> r[i] == s[i]
    ensures forall i :: 0 <= i < |r| ==> !('A' <= r[i] <= 'Z')
  {
    seq(|s|, i requires 0 <= i < |s| => LowerChar(s[i]))
  }

  /** Lower-casing twice is lower-casing once, and lower-case text is left
      as it is. */
  lemma ToLowerIdempotent(s: string)
    ensures ToLower(ToLower(s)) == ToLower(s)
    ensures (forall i :: 0 <= i < |s| ==> !('A' <= s[i] <= 'Z')) ==> ToLower(s) == s
  {
  }

  /** `t` sits in `s` starting at index `i`. */
  predicate OccursAt(s: string, t: string, i: nat) {
    i + |t| <= |s| && s[i..i + |t|] == t
  }

  /** Substring search (`str::contains`), scanning left to right. */
  predicate Contains(s: string, t: string)
    decreases |s|
  {
    if |t| > |s| then false
    else if s[..|t|] == t then true
    else Contains(s[1..], t)
  }

  /** The scan finds `t` exactly when `t` occurs somewhere in `s`. */
  lemma {:induction false} ContainsIff(s: string, t: string)
    ensures Contains(s, t) <==> exists i: nat :: OccursAt(s, t, i)
    decreases |s|
  {
    if |t| > |s| {
    } else if s[..|t|] == t {
      assert OccursAt(s, t, 0);
    } else {
      ContainsIff(s[1..], t);
      if Contains(s[1..], t) {
        var i: nat :| OccursAt(s[1..], t, i);
        assert s[1..][i..i + |t|] == s[i + 1..i + 1 + |t|];
        assert OccursAt(s, t, i + 1);
      } else {
        forall i: nat | OccursAt(s, t, i)
          ensures false
        {
          assert i != 0;
          assert s[1..][i - 1..i - 1 + |t|] == s[i..i + |t|];
          assert OccursAt(s[1..], t, i - 1);
        }
      }
    }
  }
}
