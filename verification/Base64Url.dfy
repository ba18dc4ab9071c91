/** base64url (section 5 of RFC 4648) with the padding dropped, as section 3.2
    of that document permits. */
module Base64Url {
  import opened Text
  import opened Utf8

  type sextet = v: int | 0 <= v < 64

  /** What a token relies on: no padding, no separator, nothing beyond ASCII. */
  predicate Plain(c: char) {
    c != '=' && c != '.' && (c as int) < 128
  }

  function CharOf(v: sextet): (c: char)
    ensures Plain(c)
  {
    if v < 26 then 'A' + v as char
    else if v < 52 then 'a' + (v - 26) as char
    else if v < 62 then '0' + (v - 52) as char
    else if v == 62 then '-'
    else '_'
  }

  /** Decoding translates - and _ to + and /, and so accepts those too. */
  function ValueOf(c: char): Option<sextet> {
    if 'A' <= c <= 'Z' then Some((c - 'A') as int)
    else if 'a' <= c <= 'z' then Some((c - 'a') as int + 26)
    else if '0' <= c <= '9' then Some((c - '0') as int + 52)
    else if c == '-' || c == '+' then Some(62)
    else if c == '_' || c == '/' then Some(63)
    else None
  }

  lemma CharValue(v: sextet)
    ensures ValueOf(CharOf(v)) == Some(v)
  {}

  // ------------------------------------------------------------------ encoding

  /** The characters of one quantum of one, two or three bytes, without padding. */
  function Quantum(q: seq<byte>): (s: string)
    requires 1 <= |q| <= 3
    ensures |s| == |q| + 1
    ensures forall c :: c in s ==> Plain(c)
  {
    if |q| == 1 then [CharOf(q[0] / 4), CharOf(q[0] % 4 * 16)]
    else if |q| == 2 then [CharOf(q[0] / 4), CharOf(q[0] % 4 * 16 + q[1] / 16), CharOf(q[1] % 16 * 4)]
    else [CharOf(q[0] / 4), CharOf(q[0] % 4 * 16 + q[1] / 16), CharOf(q[1] % 16 * 4 + q[2] / 64), CharOf(q[2] % 64)]
  }

  function Padding(n: nat): string {
    if n == 0 then "" else "=" + Padding(n - 1)
  }

  /** `b64encode(raw, altchars=b'-_')`. */
  function EncodePadded(raw: seq<byte>): string {
    if raw == [] then ""
    else if |raw| < 3 then Quantum(raw) + Padding(3 - |raw|)
    else Quantum(raw[..3]) + EncodePadded(raw[3..])
  }

  /** `rstrip('=')`. */
  function StripPadding(s: string): string {
    if s != "" && s[|s| - 1] == '=' then StripPadding(s[..|s| - 1]) else s
  }

  /** `_urlsafe_b64encode`. */
  function Encode(raw: seq<byte>): string {
    StripPadding(EncodePadded(raw))
  }

  /** The same text, built without ever adding padding. */
  function Bare(raw: seq<byte>): (s: string)
    ensures forall c :: c in s ==> Plain(c)
    ensures |s| == (4 * |raw| + 2) / 3
  {
    if raw == [] then ""
    else if |raw| < 3 then Quantum(raw)
    else Quantum(raw[..3]) + Bare(raw[3..])
  }

  lemma {:induction false} StripsPaddingOnly(s: string, n: nat)
    requires s == "" || s[|s| - 1] != '='
    ensures StripPadding(s + Padding(n)) == s
  {
    if n == 0 {
      assert s + Padding(0) == s;
    } else {
      PaddingSnoc(s, n - 1);
      StripsOne(s + Padding(n - 1));
      StripsPaddingOnly(s, n - 1);
    }
  }

  lemma StripsOne(s: string)
    ensures StripPadding(s + "=") == StripPadding(s)
  {
    var t := s + "=";
    assert t[|t| - 1] == '=' && t[..|t| - 1] == s;
  }

  lemma {:induction false} PaddingSnoc(s: string, n: nat)
    ensures s + Padding(n + 1) == s + Padding(n) + "="
    decreases n
  {
    if n > 0 {
      PaddingSnoc("=", n - 1);
    }
    assert Padding(n + 1) == Padding(n) + "=";
  }

  function Missing(raw: seq<byte>): nat {
    (3 - |raw| % 3) % 3
  }

  lemma {:induction false} PaddedIsBare(raw: seq<byte>)
    ensures EncodePadded(raw) == Bare(raw) + Padding(Missing(raw))
  {
    if |raw| >= 3 {
      PaddedIsBare(raw[3..]);
      assert Missing(raw) == Missing(raw[3..]);
      Associate(Quantum(raw[..3]), Bare(raw[3..]), Padding(Missing(raw)));
    } else {
      assert Missing(raw) == if raw == [] then 0 else 3 - |raw|;
    }
  }

  /** Dropping the padding loses nothing else. */
  lemma EncodeIsBare(raw: seq<byte>)
    ensures Encode(raw) == Bare(raw)
  {
    PaddedIsBare(raw);
    var s := Bare(raw);
    assert s != "" ==> s[|s| - 1] in s;
    StripsPaddingOnly(s, Missing(raw));
  }

  // ------------------------------------------------------------------ decoding

  /** The three bytes four sextets hold. */
  function Bytes(a: sextet, b: sextet, c: sextet, d: sextet): (q: seq<byte>)
    ensures |q| == 3
  {
    [a * 4 + b / 16, b % 16 * 16 + c / 4, c % 4 * 64 + d]
  }

  /** `b64decode(s, altchars=b'-_', validate=True)`; None stands for the error.
      The unused low bits before padding are ignored, as the library does. */
  function DecodePadded(s: string): Option<seq<byte>> {
    if s == "" then Some([])
    else if |s| < 4 || ValueOf(s[0]).None? || ValueOf(s[1]).None? then None
    else
      var a, b := ValueOf(s[0]).value, ValueOf(s[1]).value;
      if |s| == 4 && s[2] == '=' && s[3] == '=' then Some(Bytes(a, b, 0, 0)[..1])
      else if ValueOf(s[2]).None? then None
      else if |s| == 4 && s[3] == '=' then Some(Bytes(a, b, ValueOf(s[2]).value, 0)[..2])
      else if ValueOf(s[3]).None? then None
      else
        var rest := DecodePadded(s[4..]);
        if rest.None? then None else Some(Bytes(a, b, ValueOf(s[2]).value, ValueOf(s[3]).value) + rest.value)
  }

  /** `_urlsafe_b64decode`: pad to a multiple of four, then decode. */
  function Decode(data: string): Option<seq<byte>> {
    DecodePadded(data + Padding((4 - |data| % 4) % 4))
  }

  lemma BytesOfQuantum(x: byte, y: byte, z: byte)
    ensures Bytes(x / 4, x % 4 * 16 + y / 16, y % 16 * 4 + z / 64, z % 64) == [x, y, z]
  {}

  lemma FullQuantum(q: seq<byte>, rest: string)
    requires |q| == 3 && DecodePadded(rest).Some?
    ensures DecodePadded(Quantum(q) + rest) == Some(q + DecodePadded(rest).value)
  {
    var s := Quantum(q) + rest;
    var a, b, c, d: sextet := q[0] / 4, q[0] % 4 * 16 + q[1] / 16, q[1] % 16 * 4 + q[2] / 64, q[2] % 64;
    CharValue(a);
    CharValue(b);
    CharValue(c);
    CharValue(d);
    assert s[0] == CharOf(a) && s[1] == CharOf(b) && s[2] == CharOf(c) && s[3] == CharOf(d) && s[4..] == rest;
    BytesOfQuantum(q[0], q[1], q[2]);
    assert q == [q[0], q[1], q[2]];
  }

  lemma OneByte(x: byte)
    ensures DecodePadded(Quantum([x]) + Padding(2)) == Some([x])
  {
    var a, b: sextet := x / 4, x % 4 * 16;
    CharValue(a);
    CharValue(b);
    assert Padding(1) == "=" && Padding(2) == "=" + Padding(1);
    assert Quantum([x]) + Padding(2) == [CharOf(a), CharOf(b), '=', '='];
    assert Bytes(a, b, 0, 0)[..1] == [x];
  }

  lemma TwoBytes(x: byte, y: byte)
    ensures DecodePadded(Quantum([x, y]) + Padding(1)) == Some([x, y])
  {
    var a, b, c: sextet := x / 4, x % 4 * 16 + y / 16, y % 16 * 4;
    CharValue(a);
    CharValue(b);
    CharValue(c);
    assert Padding(1) == "=";
    var s := Quantum([x, y]) + Padding(1);
    assert s == [CharOf(a), CharOf(b), CharOf(c), '='];
    assert DecodePadded(s) == Some(Bytes(a, b, c, 0)[..2]);
    BytesOfQuantum(x, y, 0);
    assert Bytes(a, b, c, 0) == [x, y, 0];
    assert [x, y, 0][..2] == [x, y];
  }

  lemma {:induction false} PaddedRoundTrip(raw: seq<byte>)
    ensures DecodePadded(EncodePadded(raw)) == Some(raw)
  {
    if raw == [] {
    } else if |raw| == 1 {
      assert raw == [raw[0]];
      OneByte(raw[0]);
    } else if |raw| == 2 {
      assert raw == [raw[0], raw[1]];
      TwoBytes(raw[0], raw[1]);
    } else {
      PaddedRoundTrip(raw[3..]);
      FullQuantum(raw[..3], EncodePadded(raw[3..]));
      assert raw == raw[..3] + raw[3..];
    }
  }

  /** The length alone tells how much padding was dropped. */
  lemma PadsBack(n: nat)
    ensures (4 - (4 * n + 2) / 3 % 4) % 4 == (3 - n % 3) % 3
  {
    var q, r := n / 3, n % 3;
    assert n == 3 * q + r;
    QuantaLength(q, r);
  }

  lemma QuantaLength(q: nat, r: nat)
    requires r < 3
    ensures (4 * (3 * q + r) + 2) / 3 == 4 * q + (if r == 0 then 0 else r + 1)
  {}

  /** Decoding inverts encoding on every byte string. */
  lemma RoundTrip(raw: seq<byte>)
    ensures Decode(Encode(raw)) == Some(raw)
  {
    EncodeIsBare(raw);
    PaddedIsBare(raw);
    var s, n := Bare(raw), |raw|;
    PadsBack(n);
    assert (4 - |s| % 4) % 4 == Missing(raw);
    PaddedRoundTrip(raw);
  }

  /** The last character of a text made of whole quanta. */
  lemma {:induction false} LastChar(raw: seq<byte>)
    requires raw != [] && |raw| % 3 == 0
    ensures Bare(raw) != "" && Bare(raw)[|Bare(raw)| - 1] == CharOf(raw[|raw| - 1] % 64)
  {
    if |raw| > 3 {
      LastChar(raw[3..]);
      assert Bare(raw)[|Bare(raw)| - 1] == Bare(raw[3..])[|Bare(raw[3..])| - 1];
    } else {
      assert raw[..3] == raw && raw[3..] == [];
      assert Bare(raw) == Quantum(raw);
    }
  }

  /** The test vectors of section 10 of RFC 4648, */
  lemma Vectors()
    ensures Encode([102]) == "Zg" && Encode([102, 111]) == "Zm8"
  {
    EncodeIsBare([102]);
    EncodeIsBare([102, 111]);
  }

  /** ... and one for the two characters that differ in the safe alphabet. */
  lemma WholeVectors()
    ensures Encode([102, 111, 111]) == "Zm9v"
    ensures Encode([251, 239, 255]) == "--__"
  {
    EncodeIsBare([102, 111, 111]);
    EncodeIsBare([251, 239, 255]);
  }
}
