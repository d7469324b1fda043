/**
 * The cryptographic collaborators of the backend, modelled without their
 * internals: a JSON Web Token is the record of what was signed (claims, key,
 * algorithm, issue and expiry second); checking a token's text is an oracle
 * the caller passes in. Hex encoding of random bytes is modelled exactly.
 */
module Crypto {
  import opened Wrappers

  type Byte = b: int | 0 <= b < 256

  const SecondMs: int := 1000
  const MinuteMs: int := 60 * SecondMs
  const DayMs: int := 24 * 60 * MinuteMs

  /** The lifetimes jsonwebtoken reads from "15m" and "7d", in seconds. */
  const FifteenMinutesSec: nat := 15 * 60
  const SevenDaysSec: nat := 7 * 24 * 60 * 60

  datatype Algorithm = HS256 | RS256

  /** The claims the handlers sign; absent claims are `None`. */
  datatype Claims = Claims(id: Option<int>, correo: Option<string>, rol: Option<string>, sub: Option<int>)

  /** A signed token, as the record of what `jwt.sign` was given. */
  datatype Jwt = Jwt(claims: Claims, key: string, alg: Algorithm, issuedAt: int, expiresAt: int)

  /**
   * `jwt.sign(claims, key, { algorithm, expiresIn })` at wall-clock `nowMs`:
   * `iat` is the current second and `exp` lies `lifetimeSec` after it.
   */
  function Sign(claims: Claims, key: string, alg: Algorithm, nowMs: int, lifetimeSec: nat): (t: Jwt)
    ensures t.claims == claims && t.key == key && t.alg == alg
    ensures t.issuedAt * SecondMs <= nowMs < (t.issuedAt + 1) * SecondMs
    ensures t.expiresAt - t.issuedAt == lifetimeSec
  {
    Jwt(claims, key, alg, nowMs / SecondMs, nowMs / SecondMs + lifetimeSec)
  }

  /** `process.env.X || fallback`: an unset or empty variable gives the fallback. */
  function KeyOr(env: Option<string>, fallback: string): (k: string)
    ensures (env.Some? && env.value != "") ==> k == env.value
    ensures (env.None? || env.value == "") ==> k == fallback
  {
    if env.Some? && env.value != "" then env.value else fallback
  }

  /** The process environment the backend reads its keys from. */
  datatype Env = Env(jwtSecret: Option<string>, jwtRefreshSecret: Option<string>, jwtPrivateKey: Option<string>)

  function AccessKey(env: Env): string { KeyOr(env.jwtSecret, "secret") }
  function RefreshKey(env: Env): string { KeyOr(env.jwtRefreshSecret, "refresh") }

  predicate IsLowerHexChar(c: char) { '0' <= c <= '9' || 'a' <= c <= 'f' }

  function HexDigit(d: int): (c: char)
    requires 0 <= d < 16
    ensures IsLowerHexChar(c)
  {
    if d < 10 then ('0' as int + d) as char else ('a' as int + d - 10) as char
  }

  function HexValue(c: char): (d: int)
    requires IsLowerHexChar(c)
    ensures 0 <= d < 16
  {
    if c <= '9' then c as int - '0' as int else c as int - 'a' as int + 10
  }

  /** `Buffer.from(bytes).toString("hex")`: two lower-case hex digits per byte, high nibble first. */
  function HexEncode(bytes: seq<Byte>): (s: string)
    ensures |s| == 2 * |bytes|
    ensures forall i :: 0 <= i < |s| ==> IsLowerHexChar(s[i])
  {
    if bytes == [] then []
    else [HexDigit(bytes[0] / 16), HexDigit(bytes[0] % 16)] + HexEncode(bytes[1..])
  }

  /** Reading hex text back into bytes. */
  function HexDecode(s: string): seq<Byte>
    requires |s| % 2 == 0
    requires forall i :: 0 <= i < |s| ==> IsLowerHexChar(s[i])
  {
    if s == [] then [] else [16 * HexValue(s[0]) + HexValue(s[1])] + HexDecode(s[2..])
  }

  /** Hex encoding loses nothing: decoding gives the bytes back. */
  lemma {:induction false} HexRoundTrip(bytes: seq<Byte>)
    ensures HexDecode(HexEncode(bytes)) == bytes
  {
    if bytes != [] {
      var s := HexEncode(bytes);
      assert s[2..] == HexEncode(bytes[1..]);
      HexRoundTrip(bytes[1..]);
      assert 16 * HexValue(s[0]) + HexValue(s[1]) == bytes[0];
    }
  }

  /** Different random bytes give different refresh secrets. */
  lemma HexEncodeInjective(a: seq<Byte>, b: seq<Byte>)
    requires HexEncode(a) == HexEncode(b)
    ensures a == b
  {
    HexRoundTrip(a);
    HexRoundTrip(b);
  }

  /**
   * An encoded password hash in the PHC string format that argon2 and bcrypt
   * return: it starts with '$', which no hex secret contains.
   */
  predicate IsPhcEncoded(h: string) {
    |h| > 0 && h[0] == '$'
  }
}
