/** `str.encode('utf-8')` and `bytes.decode('utf-8')`. */
module Utf8 {
  import opened Text

  type byte = b: int | 0 <= b < 256

  function EncodeChar(c: char): (bytes: seq<byte>)
    ensures 1 <= |bytes| <= 4
  {
    var k := c as int;
    if k < 0x80 then [k]
    else if k < 0x800 then [0xc0 + k / 64, 0x80 + k % 64]
    else if k < 0x1_0000 then [0xe0 + k / 64 / 64, 0x80 + k / 64 % 64, 0x80 + k % 64]
    else [0xf0 + k / 64 / 64 / 64, 0x80 + k / 64 / 64 % 64, 0x80 + k / 64 % 64, 0x80 + k % 64]
  }

  function Encode(s: string): seq<byte> {
    if s == "" then [] else EncodeChar(s[0]) + Encode(s[1..])
  }

  predicate Continues(b: byte) {
    0x80 <= b < 0xc0
  }

  /** Six more bits after those already read. */
  function More(high: int, b: byte): int {
    high * 64 + b - 0x80
  }

  function Lead(b: byte, marker: int): int {
    b - marker
  }

  predicate IsScalar(k: int) {
    0 <= k < 0xd800 || 0xe000 <= k < 0x11_0000
  }

  /** The first character of a byte string and its length: overlong forms,
      surrogates and stray bytes are errors. */
  function DecodeChar(bytes: seq<byte>): (r: Option<(char, nat)>)
    requires bytes != []
    ensures r.Some? ==> 1 <= r.value.1 <= |bytes|
  {
    var b := bytes[0];
    if b < 0x80 then Some((b as char, 1))
    else if 0xc2 <= b < 0xe0 && |bytes| >= 2 && Continues(bytes[1]) then
      Some((More(Lead(b, 0xc0), bytes[1]) as char, 2))
    else if 0xe0 <= b < 0xf0 && |bytes| >= 3 && Continues(bytes[1]) && Continues(bytes[2]) then
      var k := More(More(Lead(b, 0xe0), bytes[1]), bytes[2]);
      if k >= 0x800 && IsScalar(k) then Some((k as char, 3)) else None
    else if 0xf0 <= b < 0xf5 && |bytes| >= 4 && Continues(bytes[1]) && Continues(bytes[2]) && Continues(bytes[3]) then
      var k := More(More(More(Lead(b, 0xf0), bytes[1]), bytes[2]), bytes[3]);
      if k >= 0x1_0000 && IsScalar(k) then Some((k as char, 4)) else None
    else None
  }

  function Decode(bytes: seq<byte>): Option<string>
    decreases |bytes|
  {
    if bytes == [] then Some("")
    else
      var first := DecodeChar(bytes);
      if first.None? then None
      else
        var rest := Decode(bytes[first.value.1..]);
        if rest.None? then None else Some([first.value.0] + rest.value)
  }

  lemma SixBits(k: nat)
    ensures k / 64 * 64 + k % 64 == k
  {}

  lemma CharRoundTrip(c: char, rest: seq<byte>)
    ensures DecodeChar(EncodeChar(c) + rest) == Some((c, |EncodeChar(c)|))
  {
    var k := c as int;
    var code := EncodeChar(c);
    var bytes := code + rest;
    SixBits(k);
    SixBits(k / 64);
    SixBits(k / 64 / 64);
    assert forall i :: 0 <= i < |code| ==> bytes[i] == code[i];
    if k < 0x80 {
    } else if k < 0x800 {
      assert More(Lead(bytes[0], 0xc0), bytes[1]) == k;
    } else if k < 0x1_0000 {
      assert More(Lead(bytes[0], 0xe0), bytes[1]) == k / 64;
      assert More(k / 64, bytes[2]) == k;
    } else {
      assert More(Lead(bytes[0], 0xf0), bytes[1]) == k / 64 / 64;
      assert More(k / 64 / 64, bytes[2]) == k / 64;
      assert More(k / 64, bytes[3]) == k;
    }
  }

  /** Every string survives being encoded and decoded. */
  lemma {:induction false} RoundTrip(s: string)
    ensures Decode(Encode(s)) == Some(s)
  {
    if s != "" {
      CharRoundTrip(s[0], Encode(s[1..]));
      RoundTrip(s[1..]);
      var head := EncodeChar(s[0]);
      assert Encode(s)[|head|..] == Encode(s[1..]);
      assert s == [s[0]] + s[1..];
    }
  }

  lemma {:induction false} EncodeConcat(a: string, b: string)
    ensures Encode(a + b) == Encode(a) + Encode(b)
  {
    if a == "" {
      assert a + b == b;
    } else {
      assert (a + b)[1..] == a[1..] + b;
      EncodeConcat(a[1..], b);
    }
  }

  /** A character of the first 128 is one byte, its own code. */
  lemma LastAscii(s: string)
    requires s != "" && s[|s| - 1] as int < 0x80
    ensures Encode(s) != [] && Encode(s)[|Encode(s)| - 1] == s[|s| - 1] as int
  {
    var init, last := s[..|s| - 1], s[|s| - 1];
    assert s == init + [last];
    EncodeConcat(init, [last]);
    assert [last][1..] == "";
    assert Encode([last]) == EncodeChar(last) + [];
  }

  /** The examples of section 7 of RFC 3629 for two, three and four bytes. */
  lemma Vectors()
    ensures Encode("A\U{2262}\U{391}.") == [0x41, 0xe2, 0x89, 0xa2, 0xce, 0x91, 0x2e]
    ensures Encode("\U{233b4}") == [0xf0, 0xa3, 0x8e, 0xb4]
  {
    var s := "A\U{2262}\U{391}.";
    assert s[1..] == "\U{2262}\U{391}." && s[2..] == "\U{391}." && s[3..] == "." && s[4..] == "";
    assert s[1..][1..] == s[2..] && s[2..][1..] == s[3..] && s[3..][1..] == s[4..];
  }
}
