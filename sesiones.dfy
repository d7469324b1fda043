/**
 * Session issuance (Backend/src/utils/token.ts): `generateTokens` signs an
 * RS256 access token for the user and appends one `Sesion` row that holds
 * only the argon2 hash of a fresh 64-byte refresh secret, valid for 7 days.
 * No handler reads, rotates or revokes these rows.
 */
module Sesiones {
  import opened Wrappers
  import opened Crypto

  /** A row of the `sesiones` table. */
  datatype Sesion = Sesion(
    id: nat,
    userId: int,
    refreshTokenHash: string,
    isRevoked: bool,
    createdAt: int,
    expiresAt: int,
    lastUsedAt: Option<int>,
    ipAddress: Option<string>,
    userAgent: Option<string>)

  /** What `generateTokens` returns: the signed access token and the plaintext refresh secret. */
  datatype TokenPair = TokenPair(accessToken: Jwt, refreshToken: string)

  const SessionLifetimeMs: int := 7 * DayMs

  /** The number of rows that belong to `userId`. */
  function CountFor(rows: seq<Sesion>, userId: int): nat {
    if rows == [] then 0
    else (if rows[0].userId == userId then 1 else 0) + CountFor(rows[1..], userId)
  }

  /** Appending a row adds one session for its user and none for anybody else. */
  lemma {:induction false} CountAfterAppend(rows: seq<Sesion>, s: Sesion, u: int)
    ensures CountFor(rows + [s], u) == CountFor(rows, u) + (if s.userId == u then 1 else 0)
  {
    if rows != [] {
      assert (rows + [s])[1..] == rows[1..] + [s];
      CountAfterAppend(rows[1..], s, u);
    }
  }

  /** The refresh secret: 64 random bytes as hex, i.e. 128 lower-case hex digits. */
  function RefreshSecret(random: seq<Byte>): (secret: string)
    requires |random| == 64
    ensures |secret| == 128
    ensures forall i :: 0 <= i < |secret| ==> IsLowerHexChar(secret[i])
  {
    HexEncode(random)
  }

  /** The stored hash never equals the secret handed to the client, since an encoded hash starts with '$'. */
  lemma StoredHashIsNotTheSecret(random: seq<Byte>, argon2: string -> string)
    requires |random| == 64
    requires IsPhcEncoded(argon2(RefreshSecret(random)))
    ensures argon2(RefreshSecret(random)) != RefreshSecret(random)
  {
    assert IsLowerHexChar(RefreshSecret(random)[0]);
  }

  class SessionLedger {
    var rows: seq<Sesion>
    var nextId: nat

    /** Row ids are distinct and below the next id the auto-increment hands out. */
    ghost predicate Valid()
      reads this
    {
      && nextId >= 1
      && (forall i :: 0 <= i < |rows| ==> 1 <= rows[i].id < nextId)
      && (forall i, j :: 0 <= i < j < |rows| ==> rows[i].id != rows[j].id)
    }

    constructor ()
      ensures Valid() && rows == [] && nextId == 1
    {
      rows := [];
      nextId := 1;
    }

    /**
     * `generateTokens(user)` at `nowMs`, with `random` the 64 bytes drawn by
     * `randomBytes` and `argon2` the hash computed for this call. Signing with
     * an unset or empty private key throws before anything is stored.
     */
    method GenerateTokens(userId: int, env: Env, nowMs: int, random: seq<Byte>, argon2: string -> string)
      returns (pair: Option<TokenPair>)
      requires Valid()
      requires |random| == 64
      modifies this
      ensures Valid()
      ensures KeyOr(env.jwtPrivateKey, "") == "" ==> pair.None? && rows == old(rows) && nextId == old(nextId)
      ensures KeyOr(env.jwtPrivateKey, "") != "" ==>
        && pair.Some?
        && pair.value.accessToken == Sign(Claims(None, None, None, Some(userId)), env.jwtPrivateKey.value, RS256, nowMs, FifteenMinutesSec)
        && pair.value.refreshToken == RefreshSecret(random)
        && nextId == old(nextId) + 1
        && rows == old(rows) + [Sesion(old(nextId), userId, argon2(pair.value.refreshToken), false,
                                       nowMs, nowMs + SessionLifetimeMs, None, None, None)]
    {
      if KeyOr(env.jwtPrivateKey, "") == "" {
        return None;
      }
      var accessToken := Sign(Claims(None, None, None, Some(userId)), env.jwtPrivateKey.value, RS256, nowMs, FifteenMinutesSec);
      var refreshTokenPlain := RefreshSecret(random);
      var refreshTokenHash := argon2(refreshTokenPlain);
      var expiresAt := nowMs + SessionLifetimeMs;
      rows := rows + [Sesion(nextId, userId, refreshTokenHash, false, nowMs, expiresAt, None, None, None)];
      nextId := nextId + 1;
      pair := Some(TokenPair(accessToken, refreshTokenPlain));
    }
  }
}
