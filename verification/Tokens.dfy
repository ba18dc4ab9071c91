/** Subscription tokens: a base64url payload `username,time`, a dot, and its
    signature. The keyed hash, the older truncated hash and the JWT library are
    parameters. */
module Tokens {
  import opened Text
  import Utf8
  import Base64Url

  type Digest = d: seq<Utf8.byte> | |d| == 32 witness seq(32, _ => 0)

  /** The parts of the environment a token depends on. */
  datatype Env = Env(
    hmac: string -> Digest,        // HMAC-SHA256 of the encoded payload
    sha: string -> Digest,         // SHA-256 of the encoded payload and the secret
    jwt: string -> Answer,         // what the JWT branch answers
    acceptLegacy: bool)

  /** `Raised` is an exception that leaves get_subscription_payload. */
  datatype Answer = NoPayload | Payload(username: string, createdAt: int) | Raised

  const SEPARATOR: char := '.'
  const LEGACY_LENGTH: nat := 10
  const JWT_HEADER: string := "eyJhbGciOiJIUzI1NiIsInR5cCI6IkpXVCJ9"

  // ------------------------------------------------------------------ integers

  /** `str(n)`. */
  function Printed(n: int): (s: string)
    ensures s != "" && ',' !in s && IsDigit(s[|s| - 1])
  {
    if n < 0 then "-" + Decimal(-n) else Decimal(n)
  }

  predicate AllDigits(s: string) {
    s != "" && forall c :: c in s ==> IsDigit(c)
  }

  /** Digits with single underscores between them, as `int` reads them. */
  function ParseDigits(s: string): Option<int> {
    var groups := Split(s, '_');
    var digits := Join(groups, "");
    if (forall g :: g in groups ==> AllDigits(g)) && AllDigits(digits) then Some(DecimalValue(digits)) else None
  }

  /** A sign, if there is one, and digits. */
  function ParseSigned(t: string): Option<int>
    requires t != ""
  {
    if t[0] == '-' then
      var n := ParseDigits(t[1..]);
      if n.None? then None else Some(-n.value)
    else
      var n := ParseDigits(if t[0] == '+' then t[1..] else t);
      if n.None? then None else Some(n.value)
  }

  /** `int(s)`, None for the ValueError. */
  function ParseInt(s: string): Option<int> {
    var t := Strip(s);
    if t == "" then None else ParseSigned(t)
  }

  lemma ParseDecimal(n: nat)
    ensures ParseDigits(Decimal(n)) == Some(n)
  {
    var s := Decimal(n);
    SplitAbsent(s, '_');
    DecimalRoundTrip(n);
  }

  lemma ParsePrinted(n: int)
    ensures ParseInt(Printed(n)) == Some(n)
  {
    var s := Printed(n);
    assert forall c :: c in s ==> IsDigit(c) || c == '-';
    assert s[0] in s && s[|s| - 1] in s;
    StripTrimmed(s);
    if n < 0 {
      assert s[1..] == Decimal(-n);
      ParseDecimal(-n);
    } else {
      assert IsDigit(s[0]);
      ParseDecimal(n);
    }
  }

  /** A plus sign and white space in front of a number are read over. */
  lemma ParseLoose(n: nat, i: int)
    ensures ParseInt("+" + Decimal(n)) == Some(n)
    ensures ParseInt(" " + Printed(i)) == Some(i)
  {
    var s := "+" + Decimal(n);
    assert s[1..] == Decimal(n) && s[|s| - 1] == Decimal(n)[|Decimal(n)| - 1];
    assert Decimal(n)[|Decimal(n)| - 1] in Decimal(n);
    StripTrimmed(s);
    ParseDecimal(n);
    assert (" " + Printed(i))[1..] == Printed(i);
    ParsePrinted(i);
  }

  // ------------------------------------------------------------------- payload

  /** The seconds `datetime.utcfromtimestamp` accepts: years 1 to 9999. */
  predicate Representable(ts: int) {
    -62_135_596_800 <= ts <= 253_402_300_799
  }

  /** The text before and after the last comma, read as a name and a time. */
  function PayloadOfText(text: string): Answer {
    var comma := LastIndex(text, ',');
    if comma.None? || comma.value == 0 then NoPayload
    else
      var at := ParseInt(text[comma.value + 1..]);
      if at.None? || !Representable(at.value) then NoPayload else Payload(text[..comma.value], at.value)
  }

  /** `_subscription_payload_from_b64`. */
  function PayloadOf(data: string): Answer {
    var raw := Base64Url.Decode(data);
    if raw.None? then NoPayload
    else
      var text := Utf8.Decode(raw.value);
      if text.None? then NoPayload else PayloadOfText(text.value)
  }

  function Data(username: string, ts: int): string {
    Base64Url.Encode(Utf8.Encode(username + "," + Printed(ts)))
  }

  function Sign(env: Env, data: string): string {
    Base64Url.Encode(env.hmac(data))
  }

  function LegacySign(env: Env, data: string): string {
    var s := Base64Url.EncodePadded(env.sha(data));
    if |s| <= LEGACY_LENGTH then s else s[..LEGACY_LENGTH]
  }

  predicate Ascii(s: string) {
    forall c :: c in s ==> (c as int) < 128
  }

  /** `create_subscription_token` at a time whose ceiling is `ts`. */
  function CreateToken(env: Env, username: string, ts: int): string {
    Data(username, ts) + [SEPARATOR] + Sign(env, Data(username, ts))
  }

  /** `get_subscription_payload`. Comparing a signature that is not ASCII raises
      a TypeError nobody catches. */
  function GetPayload(env: Env, token: string): Answer {
    if |token| < 15 then NoPayload
    else if StartsWith(token, JWT_HEADER + ".") then env.jwt(token)
    else if SEPARATOR in token then
      var dot := LastIndex(token, SEPARATOR).value;
      var data, signature := token[..dot], token[dot + 1..];
      if data == "" then NoPayload
      else if !Ascii(signature) then Raised
      else if signature != Sign(env, data) then NoPayload
      else PayloadOf(data)
    else if !env.acceptLegacy then NoPayload
    else
      var data, signature := token[..|token| - LEGACY_LENGTH], token[|token| - LEGACY_LENGTH..];
      if !Ascii(signature) then Raised
      else if signature != LegacySign(env, data) then NoPayload
      else PayloadOf(data)
  }

  // --------------------------------------------------------------- round trips

  /** What a token for this user and time reads back as. */
  function Expected(username: string, ts: int): Answer {
    if username != "" && Representable(ts) then Payload(username, ts) else NoPayload
  }

  /** Commas inside the name do not confuse the split: it is at the last one. */
  lemma TextRoundTrip(username: string, ts: int)
    ensures PayloadOfText(username + "," + Printed(ts)) == Expected(username, ts)
  {
    TextParts(username, ts);
    ParsePrinted(ts);
  }

  /** A payload comes apart at its last comma. */
  lemma TextParts(username: string, ts: int)
    ensures var text := username + "," + Printed(ts);
            && LastIndex(text, ',') == Some(|username|)
            && text[..|username|] == username && text[|username| + 1..] == Printed(ts)
  {
    LastIndexIs(username, ',', Printed(ts));
  }

  lemma DataRoundTrip(username: string, ts: int)
    ensures PayloadOf(Data(username, ts)) == Expected(username, ts)
  {
    var text := username + "," + Printed(ts);
    Base64Url.RoundTrip(Utf8.Encode(text));
    Utf8.RoundTrip(text);
    TextRoundTrip(username, ts);
  }

  lemma PlainText(raw: seq<Utf8.byte>)
    ensures SEPARATOR !in Base64Url.Encode(raw) && Ascii(Base64Url.Encode(raw))
    ensures |Base64Url.Encode(raw)| == (4 * |raw| + 2) / 3
  {
    Base64Url.EncodeIsBare(raw);
  }

  lemma DigitBits(b: Utf8.byte)
    requires '0' as int <= b <= '9' as int
    ensures Base64Url.CharOf(b % 64) != '9'
  {
    Base64Url.CharValue(b % 64);
  }

  /** The encoded payload ends in a digit's bits, the JWT header does not. */
  lemma NeverJwtHeader(username: string, ts: int)
    ensures Data(username, ts) != JWT_HEADER
  {
    var text := username + "," + Printed(ts);
    var raw := Utf8.Encode(text);
    Base64Url.EncodeIsBare(raw);
    assert JWT_HEADER[35] == '9';
    if Data(username, ts) == JWT_HEADER {
      assert |JWT_HEADER| == 36;
      assert |raw| == 27;
      assert text[|text| - 1] == Printed(ts)[|Printed(ts)| - 1];
      Utf8.LastAscii(text);
      Base64Url.LastChar(raw);
      DigitBits(raw[26]);
      assert false;
    }
  }

  lemma HeaderSplit(data: string, rest: string)
    requires SEPARATOR !in data
    requires StartsWith(data + [SEPARATOR] + rest, JWT_HEADER + ".")
    ensures data == JWT_HEADER
  {
    var token := data + [SEPARATOR] + rest;
    assert SEPARATOR !in JWT_HEADER;
    assert token[..37] == JWT_HEADER + ".";
    assert token[36] == (JWT_HEADER + ".")[36];
    FirstIndexIs(data, SEPARATOR, rest);
    FirstIndexIs(JWT_HEADER, SEPARATOR, token[37..]);
    assert token == JWT_HEADER + "." + token[37..];
    assert |data| == 36;
    assert data == token[..36] == JWT_HEADER;
  }

  /** A token the panel issues is read back as the user and the time it was
      issued for, exactly when the name is not empty and the time is one a
      datetime can hold; otherwise it is refused. */
  lemma TokenRoundTrip(env: Env, username: string, ts: int)
    ensures GetPayload(env, CreateToken(env, username, ts))
         == if username != "" && -62_135_596_800 <= ts <= 253_402_300_799 then Payload(username, ts) else NoPayload
  {
    var data := Data(username, ts);
    var signature := Sign(env, data);
    var token := CreateToken(env, username, ts);
    if StartsWith(token, JWT_HEADER + ".") {
      PlainText(Utf8.Encode(username + "," + Printed(ts)));
      HeaderSplit(data, signature);
      NeverJwtHeader(username, ts);
      assert false;
    } else {
      SignedIsRead(env, token, data);
      DataRoundTrip(username, ts);
    }
  }

  lemma TextInjective(u: string, t: int, u': string, t': int)
    requires u + "," + Printed(t) == u' + "," + Printed(t')
    ensures u == u' && t == t'
  {
    TextParts(u, t);
    TextParts(u', t');
    ParsePrinted(t);
    ParsePrinted(t');
  }

  lemma DataInjective(u: string, t: int, u': string, t': int)
    requires Data(u, t) == Data(u', t')
    ensures u == u' && t == t'
  {
    var x, y := u + "," + Printed(t), u' + "," + Printed(t');
    Base64Url.RoundTrip(Utf8.Encode(x));
    Base64Url.RoundTrip(Utf8.Encode(y));
    Utf8.RoundTrip(x);
    Utf8.RoundTrip(y);
    TextInjective(u, t, u', t');
  }

  /** Users never share a token, nor does one user at two times. */
  lemma TokenInjective(env: Env, u: string, t: int, u': string, t': int)
    requires CreateToken(env, u, t) == CreateToken(env, u', t')
    ensures u == u' && t == t'
  {
    var a, b, token := Data(u, t), Data(u', t'), CreateToken(env, u, t);
    PlainText(Utf8.Encode(u + "," + Printed(t)));
    PlainText(Utf8.Encode(u' + "," + Printed(t')));
    FirstIndexIs(a, SEPARATOR, Sign(env, a));
    FirstIndexIs(b, SEPARATOR, Sign(env, b));
    assert a == token[..|a|] && b == token[..|a|];
    DataInjective(u, t, u', t');
  }

  /** The signed form of a payload. */
  predicate SignedForm(env: Env, token: string, data: string) {
    token == data + "." + Base64Url.Encode(env.hmac(data))
  }

  lemma SignedIsRead(env: Env, token: string, data: string)
    requires SignedForm(env, token, data) && !StartsWith(token, JWT_HEADER + ".")
    ensures GetPayload(env, token) == PayloadOf(data)
  {
    var signature := Sign(env, data);
    PlainText(env.hmac(data));
    LastIndexIs(data, SEPARATOR, signature);
    assert token[..|data|] == data && token[|data| + 1..] == signature;
    EmptyDataRefused();
  }

  lemma ReadIsSigned(env: Env, token: string) returns (data: string)
    requires SEPARATOR in token && !StartsWith(token, JWT_HEADER + ".") && GetPayload(env, token).Payload?
    ensures SignedForm(env, token, data)
  {
    data := token[..LastIndex(token, SEPARATOR).value];
    SplitsAt(token, LastIndex(token, SEPARATOR).value);
  }

  lemma EmptyDataRefused()
    ensures PayloadOf("") == NoPayload
  {
    assert Base64Url.Padding(0) == "";
    assert "" + Base64Url.Padding(0) == "";
    assert Base64Url.Decode("") == Some([]);
    assert Utf8.Decode([]) == Some("");
    assert LastIndex("", ',').None?;
  }

  // --------------------------------------------------------- the older format

  function LegacyToken(env: Env, username: string, ts: int): string {
    Data(username, ts) + LegacySign(env, Data(username, ts))
  }

  lemma LegacySignature(env: Env, data: string)
    ensures |LegacySign(env, data)| == LEGACY_LENGTH
    ensures var padded := Base64Url.EncodePadded(env.sha(data)); |padded| >= 10 && LegacySign(env, data) == padded[..10]
    ensures SEPARATOR !in LegacySign(env, data) && Ascii(LegacySign(env, data))
  {
    var raw := env.sha(data);
    Base64Url.PaddedIsBare(raw);
    var s := LegacySign(env, data);
    assert s == Base64Url.Bare(raw)[..LEGACY_LENGTH];
    forall c | c in s ensures Base64Url.Plain(c) {
      assert c in Base64Url.Bare(raw);
    }
  }

  /** A text of the older format, long enough and still honoured. */
  predicate LegacyForm(env: Env, token: string, data: string) {
    && env.acceptLegacy && |token| >= 15 && |Base64Url.EncodePadded(env.sha(data))| >= 10
    && token == data + Base64Url.EncodePadded(env.sha(data))[..10]
  }

  lemma LegacyIsRead(env: Env, token: string, data: string)
    requires SEPARATOR !in token && LegacyForm(env, token, data)
    ensures GetPayload(env, token) == PayloadOf(data)
  {
    HeaderHasSeparator(token);
    LegacySignature(env, data);
    assert token[..|data|] == data && token[|data|..] == LegacySign(env, data);
  }

  lemma ReadIsLegacy(env: Env, token: string) returns (data: string)
    requires SEPARATOR !in token && !StartsWith(token, JWT_HEADER + ".") && GetPayload(env, token).Payload?
    ensures LegacyForm(env, token, data)
  {
    var cut := |token| - LEGACY_LENGTH;
    data := token[..cut];
    LegacySignature(env, data);
    assert token == token[..cut] + token[cut..];
  }

  /** What makes a token genuine: a dot tells which of the two formats it is in. */
  predicate Genuine(env: Env, token: string, data: string) {
    if SEPARATOR in token then SignedForm(env, token, data) else LegacyForm(env, token, data)
  }

  /** Outside the JWT branch, whatever the settings, a payload comes back exactly
      for genuine texts: some data and the signature of that very data, where the
      data holds the name and the time. */
  lemma AcceptedIff(env: Env, token: string, username: string, at: int)
    requires !StartsWith(token, JWT_HEADER + ".")
    ensures GetPayload(env, token) == Payload(username, at)
       <==> exists data :: Genuine(env, token, data) && PayloadOf(data) == Payload(username, at)
  {
    if GetPayload(env, token) == Payload(username, at) {
      if SEPARATOR in token {
        var data := ReadIsSigned(env, token);
        SignedIsRead(env, token, data);
        assert Genuine(env, token, data);
      } else {
        var data := ReadIsLegacy(env, token);
        LegacyIsRead(env, token, data);
        assert Genuine(env, token, data);
      }
    }
    if data :| Genuine(env, token, data) && PayloadOf(data) == Payload(username, at) {
      if SEPARATOR in token {
        SignedIsRead(env, token, data);
      } else {
        LegacyIsRead(env, token, data);
      }
    }
  }

  // ------------------------------------------------------------ the exception

  /** Whatever begins like a JWT is left to that library. */
  lemma JwtIsForwarded(env: Env, rest: string)
    ensures GetPayload(env, JWT_HEADER + "." + rest) == env.jwt(JWT_HEADER + "." + rest)
  {
    assert (JWT_HEADER + "." + rest)[..37] == JWT_HEADER + ".";
  }

  /** The text that is compared with a signature, if any comparison is made. */
  function Compared(env: Env, token: string): Option<string> {
    if |token| < 15 then None
    else if SEPARATOR in token then
      var dot := LastIndex(token, SEPARATOR).value;
      if dot == 0 then None else Some(token[dot + 1..])
    else if env.acceptLegacy then Some(token[|token| - LEGACY_LENGTH..])
    else None
  }

  lemma PayloadNeverRaises(data: string)
    ensures !PayloadOf(data).Raised?
  {}

  /** Outside the JWT branch a request ends in the TypeError exactly when the text
      in the signature's place is compared at all and is not ASCII. */
  lemma RaisedIff(env: Env, token: string)
    requires !StartsWith(token, JWT_HEADER + ".")
    ensures GetPayload(env, token) == Raised <==>
            Compared(env, token).Some? && exists c <- Compared(env, token).value :: c as int >= 128
  {
    if Compared(env, token).Some? {
      if SEPARATOR in token {
        PayloadNeverRaises(token[..LastIndex(token, SEPARATOR).value]);
      } else {
        PayloadNeverRaises(token[..|token| - LEGACY_LENGTH]);
      }
    }
  }

  /** Anybody can send such a token: fourteen letters, a dot and an accent. */
  lemma SomethingRaises(env: Env)
    ensures GetPayload(env, "aaaaaaaaaaaaaa" + ".\U{e9}") == Raised
  {
    var data, signature := "aaaaaaaaaaaaaa", "\U{e9}";
    var token := data + ".\U{e9}";
    assert token == data + [SEPARATOR] + signature;
    assert token[0] == 'a' && (JWT_HEADER + ".")[0] == 'e';
    LastIndexIs(data, SEPARATOR, signature);
    assert token[15..] == signature && signature[0] in signature;
    RaisedIff(env, token);
  }

  lemma HeaderHasSeparator(token: string)
    ensures StartsWith(token, JWT_HEADER + ".") ==> SEPARATOR in token
  {
    if StartsWith(token, JWT_HEADER + ".") {
      assert token[36] == (JWT_HEADER + ".")[36];
    }
  }

  /** Tokens of the older format read back the same way while they are honoured,
      save that a text of three bytes or less makes too short a token. */
  lemma LegacyRoundTrip(env: Env, username: string, ts: int)
    ensures GetPayload(env, LegacyToken(env, username, ts))
         == if && env.acceptLegacy && |Utf8.Encode(username + "," + Printed(ts))| >= 4
               && username != "" && -62_135_596_800 <= ts <= 253_402_300_799
            then Payload(username, ts) else NoPayload
  {
    var raw := Utf8.Encode(username + "," + Printed(ts));
    var data := Data(username, ts);
    var signature := LegacySign(env, data);
    var token := LegacyToken(env, username, ts);
    PlainText(raw);
    LegacySignature(env, data);
    assert SEPARATOR !in token;
    HeaderHasSeparator(token);
    assert token[..|data|] == data && token[|data|..] == signature;
    assert |data| >= 5 <==> |raw| >= 4;
    DataRoundTrip(username, ts);
  }
}
