/** Access and refresh tokens (internal/service/token.go, internal/storage/redis/token.go). */
module Tokens {
  import opened Prelude
  import opened Decimal
  import opened Encoding
  import opened Redis

  const TOKEN_PARTS_EXPECTED := 2
  const RAW_TOKEN_LENGTH := 32
  const JWT_LEEWAY: int := 5_000
  const INVALIDATED: string := "invalidated"

  /** Dates are whole seconds, as jwt.NewNumericDate truncates them; section 4.1 of RFC 7519. */
  datatype Claims = Claims(uid: string, subject: string, jti: string, issuedAt: int, expiresAt: Option<int>)

  /** The configured lifetimes in milliseconds, and the cryptography as unknown functions:
      signing with the secret key, reading claims without checking the signature, checking the
      signature and its method, and SHA-256. */
  datatype Config = Config(
    accessTtl: int,
    refreshTtl: int,
    sign: Claims -> string,
    decode: string -> Option<Claims>,
    verified: string -> bool,
    sha256: string -> seq<byte>)

  /** What is assumed of the cryptography: a signed token reads back as its claims and carries a
      good signature; a token with a good signature is readable and has no colon, being three
      base64url segments joined by dots (section 7.1 of RFC 7515); a digest has 32 bytes. */
  ghost predicate Sound(cfg: Config) {
    && (forall c :: cfg.decode(cfg.sign(c)) == Some(c) && cfg.verified(cfg.sign(c)))
    && (forall t :: cfg.verified(t) ==> cfg.decode(t).Some? && ':' !in t)
    && (forall x :: |cfg.sha256(x)| == 32)
  }

  datatype Error =
    | TokenMalformed | TokenInvalid | TokenExpired | TokenRevoked | InvalidUserId | NoExpiry
    | RandomFailure | RefreshFormat | StoredHashUnreadable | WrongVerifier
    | SessionNotFound | ReuseDetected | PairMismatch | AgentChanged
    | DuplicateSelector | DuplicateGuid | NoSuchUser | IdsExhausted | StorageFailure

  datatype RefreshParts = RefreshParts(token: string, selector: string, verifierHash: string)

  // ---------- specification ----------

  function MintClaims(cfg: Config, userId: int, now: int, jti: string): Claims {
    Claims(FormatInt(userId), FormatInt(userId), jti, now / 1000, Some((now + cfg.accessTtl) / 1000))
  }

  function MintAccess(cfg: Config, userId: int, now: int, jti: string): string {
    cfg.sign(MintClaims(cfg, userId, now, jti))
  }

  function Selector(raw: seq<byte>): string
    requires |raw| >= 16
  {
    Base64(raw[..16])
  }

  function Verifier(raw: seq<byte>): string
    requires |raw| >= 16
  {
    Base64(raw[16..])
  }

  function VerifierHash(cfg: Config, verifier: string): string {
    Hex(cfg.sha256(verifier))
  }

  /** The refresh token made of 32 random bytes. */
  function MintRefresh(cfg: Config, raw: seq<byte>): RefreshParts
    requires |raw| == RAW_TOKEN_LENGTH
  {
    RefreshParts(Selector(raw) + "." + Verifier(raw), Selector(raw), VerifierHash(cfg, Verifier(raw)))
  }

  /** None when the token is accepted against the stored hash. */
  function CheckRefresh(cfg: Config, token: string, verifierHash: string): Option<Error> {
    var parts := Split(token, '.');
    if |parts| != TOKEN_PARTS_EXPECTED then Some(RefreshFormat)
    else match UnHex(verifierHash)
      case None => Some(StoredHashUnreadable)
      case Some(stored) => if cfg.sha256(parts[1]) == stored then None else Some(WrongVerifier)
  }

  function Authenticate(cfg: Config, s: Store, token: string, now: int): Result<int, Error> {
    if Get(s, token, now) == Some(INVALIDATED) then Err(TokenRevoked)
    else if !cfg.verified(token) then Err(TokenInvalid)
    else match cfg.decode(token)
      case None => Err(TokenInvalid)
      case Some(c) =>
        if c.expiresAt.None? || c.expiresAt.value * 1000 + JWT_LEEWAY <= now then Err(TokenExpired)
        else if c.uid == "" then Err(TokenInvalid)
        else match ParseInt(c.uid)
          case None => Err(InvalidUserId)
          case Some(id) => Ok(id)
  }

  /** The denylist entry lives as long as the token has left; the key is the whole token text. */
  function Invalidate(cfg: Config, s: Store, token: string, now: int): Result<Store, Error> {
    match cfg.decode(token)
    case None => Err(TokenMalformed)
    case Some(c) =>
      if c.expiresAt.None? then Err(NoExpiry)
      else Ok(Set(s, token, INVALIDATED, c.expiresAt.value * 1000 - now, now))
  }

  // ---------- the services ----------

  class TokenStorage {
    const client: RedisClient

    constructor (client: RedisClient)
      ensures this.client == client
    {
      this.client := client;
    }

    method InvalidateToken(token: string, expiration: int, now: int)
      modifies client
      ensures client.entries == Set(old(client.entries), token, INVALIDATED, expiration, now)
    {
      client.SetValue(token, INVALIDATED, expiration, now);
    }

    method IsTokenInvalidated(token: string, now: int) returns (r: bool)
      ensures r == (Get(client.entries, token, now) == Some(INVALIDATED))
    {
      var result := client.GetValue(token, now);
      if result.None? {
        return false;
      }
      return result.value == INVALIDATED;
    }
  }

  class TokenService {
    const cfg: Config
    const tokenStorage: TokenStorage

    constructor (cfg: Config, tokenStorage: TokenStorage)
      ensures this.cfg == cfg && this.tokenStorage == tokenStorage
    {
      this.cfg := cfg;
      this.tokenStorage := tokenStorage;
    }

    method CreateAccessTokenWithJTI(userId: int, now: int, jti: string) returns (token: string)
      ensures token == MintAccess(cfg, userId, now, jti)
    {
      var uid := FormatInt(userId);
      var expires := now + cfg.accessTtl;
      var claims := Claims(uid, uid, jti, now / 1000, Some(expires / 1000));
      token := cfg.sign(claims);
    }

    /** `entropy` is what the random source has to give; the read fails when it is short. */
    method CreateRefreshToken(entropy: seq<byte>) returns (r: Result<RefreshParts, Error>)
      ensures r.Ok? <==> |entropy| >= RAW_TOKEN_LENGTH
      ensures r.Ok? ==> r.value == MintRefresh(cfg, entropy[..RAW_TOKEN_LENGTH])
      ensures r.Err? ==> r.error == RandomFailure
    {
      var rawToken := new byte[RAW_TOKEN_LENGTH];
      if |entropy| < RAW_TOKEN_LENGTH {
        return Err(RandomFailure);
      }
      forall i | 0 <= i < RAW_TOKEN_LENGTH {
        rawToken[i] := entropy[i];
      }
      assert rawToken[..] == entropy[..RAW_TOKEN_LENGTH];
      assert rawToken[..16] == rawToken[..][..16] && rawToken[16..] == rawToken[..][16..];
      var selector := Base64(rawToken[..16]);
      var verifier := Base64(rawToken[16..]);
      var hashed := cfg.sha256(verifier);
      return Ok(RefreshParts(selector + "." + verifier, selector, Hex(hashed)));
    }

    method ValidateRefreshToken(token: string, verifierHash: string) returns (error: Option<Error>)
      ensures error == CheckRefresh(cfg, token, verifierHash)
    {
      var parts := Split(token, '.');
      if |parts| != TOKEN_PARTS_EXPECTED {
        return Some(RefreshFormat);
      }
      var verifier := parts[1];
      var hashedVerifier := UnHex(verifierHash);
      if hashedVerifier.None? {
        return Some(StoredHashUnreadable);
      }
      var newHash := cfg.sha256(verifier);
      return if newHash == hashedVerifier.value then None else Some(WrongVerifier);
    }

    method ValidateAccessTokenAndGetUserID(token: string, now: int) returns (r: Result<int, Error>)
      ensures r == Authenticate(cfg, tokenStorage.client.entries, token, now)
    {
      var isInvalidated := tokenStorage.IsTokenInvalidated(token, now);
      if isInvalidated {
        return Err(TokenRevoked);
      }
      if !cfg.verified(token) {
        return Err(TokenInvalid);
      }
      var claims := cfg.decode(token);
      if claims.None? {
        return Err(TokenInvalid);
      }
      if claims.value.expiresAt.None? || !(now < claims.value.expiresAt.value * 1000 + JWT_LEEWAY) {
        return Err(TokenExpired);
      }
      if claims.value.uid == "" {
        return Err(TokenInvalid);
      }
      var userId := ParseInt(claims.value.uid);
      if userId.None? {
        return Err(InvalidUserId);
      }
      return Ok(userId.value);
    }

    method InvalidateAccessToken(token: string, now: int) returns (error: Option<Error>)
      modifies tokenStorage.client
      ensures match Invalidate(cfg, old(tokenStorage.client.entries), token, now)
              case Ok(s) => error == None && tokenStorage.client.entries == s
              case Err(e) => error == Some(e) && tokenStorage.client.entries == old(tokenStorage.client.entries)
    {
      var claims := cfg.decode(token);
      if claims.None? {
        return Some(TokenMalformed);
      }
      if claims.value.expiresAt.None? {
        return Some(NoExpiry);
      }
      var expiration := claims.value.expiresAt.value * 1000 - now;
      tokenStorage.InvalidateToken(token, expiration, now);
      return None;
    }
  }

  // ---------- what the format promises ----------

  /** A freshly made refresh token splits into exactly its selector and verifier, each 22
      characters long, and is accepted against its own hash. */
  lemma RefreshTokenRoundTrip(cfg: Config, raw: seq<byte>)
    requires |raw| == RAW_TOKEN_LENGTH
    ensures var r := MintRefresh(cfg, raw);
            && Split(r.token, '.') == [r.selector, Verifier(raw)]
            && |r.selector| == 22 && |Verifier(raw)| == 22
            && CheckRefresh(cfg, r.token, r.verifierHash) == None
  {
    var r := MintRefresh(cfg, raw);
    Base64RoundTrip(raw[..16]);
    Base64RoundTrip(raw[16..]);
    SplitInTwo(r.token, Selector(raw), Verifier(raw), '.');
    HexRoundTrip(cfg.sha256(Verifier(raw)));
  }

  /** The texts accepted against a made token's hash are exactly those with one dot, anything
      before it, and after it a text with the same digest as that token's verifier. */
  lemma OnlyTheDigestPasses(cfg: Config, raw: seq<byte>, presented: string)
    requires |raw| == RAW_TOKEN_LENGTH
    ensures CheckRefresh(cfg, presented, MintRefresh(cfg, raw).verifierHash) == None
            <==> exists front: string, v: string ::
                   Split(presented, '.') == [front, v] && cfg.sha256(v) == cfg.sha256(Verifier(raw))
  {
    var parts := Split(presented, '.');
    HexRoundTrip(cfg.sha256(Verifier(raw)));
    if |parts| == 2 {
      assert parts == [parts[0], parts[1]];
    }
  }

  /** So among texts whose verifiers do not collide with the made one, exactly the made verifier passes. */
  lemma OnlyTheVerifierPasses(cfg: Config, raw: seq<byte>, front: string, v: string)
    requires Sound(cfg) && |raw| == RAW_TOKEN_LENGTH && '.' !in front && '.' !in v
    requires CollisionFree(cfg.sha256, {v, Verifier(raw)})
    ensures CheckRefresh(cfg, front + "." + v, MintRefresh(cfg, raw).verifierHash) == None <==> v == Verifier(raw)
  {
    HexRoundTrip(cfg.sha256(Verifier(raw)));
    SplitInTwo(front + "." + v, front, v, '.');
  }

  /** Selectors name the first 16 random bytes, and whole tokens name all 32. */
  lemma TokensAreDistinct(cfg: Config, a: seq<byte>, b: seq<byte>)
    requires |a| == |b| == RAW_TOKEN_LENGTH
    ensures MintRefresh(cfg, a).selector == MintRefresh(cfg, b).selector <==> a[..16] == b[..16]
    ensures MintRefresh(cfg, a).token == MintRefresh(cfg, b).token <==> a == b
  {
    Base64Injective(a[..16], b[..16]);
    Base64Injective(a[16..], b[16..]);
    RefreshTokenRoundTrip(cfg, a);
    RefreshTokenRoundTrip(cfg, b);
    assert a == a[..16] + a[16..] && b == b[..16] + b[16..];
    if MintRefresh(cfg, a).token == MintRefresh(cfg, b).token {
      assert [Selector(a), Verifier(a)][1] == [Selector(b), Verifier(b)][1];
      assert [Selector(a), Verifier(a)][0] == [Selector(b), Verifier(b)][0];
    }
  }

  /** A token that is not on the denylist is accepted exactly until five seconds after its
      expiry second, and stands for the user it was minted for. */
  lemma MintedTokenAccepted(cfg: Config, s: Store, userId: int, jti: string, minted: int, now: int)
    requires Sound(cfg) && MIN_INT64 <= userId <= MAX_INT64
    ensures var token := MintAccess(cfg, userId, minted, jti);
            var expiry := (minted + cfg.accessTtl) / 1000 * 1000;
            && minted + cfg.accessTtl - 1000 < expiry <= minted + cfg.accessTtl
            && Authenticate(cfg, s, token, now) ==
               if Get(s, token, now) == Some(INVALIDATED) then Err(TokenRevoked)
               else if now < expiry + 5_000 then Ok(userId)
               else Err(TokenExpired)
  {
    var c := MintClaims(cfg, userId, minted, jti);
    assert cfg.decode(cfg.sign(c)) == Some(c);
    IntRoundTrip(userId);
  }

  /** Denying an accepted token: it is accepted again only in the five seconds after its expiry,
      and only if it was denied before the expiry. */
  lemma DeniedTokenRejected(cfg: Config, s: Store, userId: int, jti: string, minted: int, at: int, later: int)
    requires Sound(cfg) && MIN_INT64 <= userId <= MAX_INT64 && at <= later
    requires Authenticate(cfg, s, MintAccess(cfg, userId, minted, jti), at).Ok?
    ensures var token := MintAccess(cfg, userId, minted, jti);
            var expiry := (minted + cfg.accessTtl) / 1000 * 1000;
            var denied := Invalidate(cfg, s, token, at);
            && denied.Ok?
            && (Authenticate(cfg, denied.value, token, later).Ok? <==> at < expiry < later < expiry + 5_000)
  {
    var token := MintAccess(cfg, userId, minted, jti);
    assert cfg.decode(token) == Some(MintClaims(cfg, userId, minted, jti));
    MintedTokenAccepted(cfg, s, userId, jti, minted, at);
    MintedTokenAccepted(cfg, Invalidate(cfg, s, token, at).value, userId, jti, minted, later);
  }

  /** What a minted access token says: the user, in both places, the given id, and the whole second
      it was minted in and the one its lifetime ends in. */
  lemma MintedClaimsSay(cfg: Config, userId: int, jti: string, minted: int)
    requires Sound(cfg) && MIN_INT64 <= userId <= MAX_INT64
    ensures var claims := cfg.decode(MintAccess(cfg, userId, minted, jti));
            && claims.Some? && claims.value.expiresAt.Some?
            && ParseInt(claims.value.uid) == Some(userId) && claims.value.subject == claims.value.uid
            && claims.value.jti == jti
            && claims.value.issuedAt * 1000 <= minted < claims.value.issuedAt * 1000 + 1000
            && var expiry := claims.value.expiresAt.value * 1000; expiry <= minted + cfg.accessTtl < expiry + 1000
  {
    assert cfg.decode(MintAccess(cfg, userId, minted, jti)) == Some(MintClaims(cfg, userId, minted, jti));
    IntRoundTrip(userId);
  }

  // ---------- every answer of the checks ----------

  /** The text carries an expiry that is less than five seconds over. */
  ghost predicate InTime(cfg: Config, token: string, now: int) {
    && cfg.decode(token).Some? && cfg.decode(token).value.expiresAt.Some?
    && now < cfg.decode(token).value.expiresAt.value * 1000 + 5_000
  }

  /** It also carries this user's id. */
  ghost predicate Carries(cfg: Config, token: string, now: int, userId: int) {
    InTime(cfg, token, now) && ParseInt(cfg.decode(token).value.uid) == Some(userId)
  }

  /** A text authenticates for a user exactly when it is not denied, its signature is good, and it
      carries that user's id and an expiry less than five seconds ago. */
  lemma AuthenticatesExactly(cfg: Config, s: Store, token: string, now: int, userId: int)
    ensures Authenticate(cfg, s, token, now) == Ok(userId)
            <==> Get(s, token, now) != Some("invalidated") && cfg.verified(token) && Carries(cfg, token, now, userId)
  {
  }

  /** Why a text does not authenticate. */
  lemma RefusedBecause(cfg: Config, s: Store, token: string, now: int)
    requires Sound(cfg) && Authenticate(cfg, s, token, now).Err?
    ensures var (error, denied) := (Authenticate(cfg, s, token, now).error, Get(s, token, now) == Some("invalidated"));
            && error in {TokenRevoked, TokenInvalid, TokenExpired, InvalidUserId}
            && (error == TokenRevoked <==> denied)
            && (error == TokenExpired <==> !denied && cfg.verified(token) && !InTime(cfg, token, now))
            && (error == InvalidUserId <==>
                  && !denied && cfg.verified(token) && InTime(cfg, token, now)
                  && cfg.decode(token).value.uid != "" && ParseInt(cfg.decode(token).value.uid).None?)
            && (error == TokenInvalid <==>
                  !denied && (!cfg.verified(token) || (InTime(cfg, token, now) && cfg.decode(token).value.uid == "")))
  {
  }

  /** What denying a text writes, if its claims can be read and name an expiry: one entry, for as
      long as the token has left, or without a deadline when it has none left. */
  lemma DenialExactly(cfg: Config, s: Store, token: string, now: int)
    ensures var (claims, r) := (cfg.decode(token), Invalidate(cfg, s, token, now));
            && (r == Err(TokenMalformed) <==> claims.None?)
            && (r == Err(NoExpiry) <==> claims.Some? && claims.value.expiresAt.None?)
            && (r.Ok? <==> claims.Some? && claims.value.expiresAt.Some?)
            && (r.Ok? ==>
                  var expiry := claims.value.expiresAt.value * 1000;
                  r.value == s[token := Entry("invalidated", if now < expiry then Some(expiry) else None)])
  {
  }

  /** Every answer of the check of a refresh token: the format first, then the stored hash, then the verifier. */
  lemma CheckedExactly(cfg: Config, token: string, verifierHash: string)
    ensures var error := CheckRefresh(cfg, token, verifierHash);
            var readable := |verifierHash| % 2 == 0 && forall k :: 0 <= k < |verifierHash| ==> HexValue(verifierHash[k]).Some?;
            && (error == Some(RefreshFormat) <==> Occurrences(token, '.') != 1)
            && (error == Some(StoredHashUnreadable) <==> Occurrences(token, '.') == 1 && !readable)
            && (error == None <==>
                  exists front: string, v: string :: token == front + "." + v && '.' !in front && '.' !in v
                                                     && UnHex(verifierHash) == Some(cfg.sha256(v)))
            && (error.Some? ==> error.value in {RefreshFormat, StoredHashUnreadable, WrongVerifier})
  {
    var parts := Split(token, '.');
    SplitCount(token, '.');
    UnHexDomain(verifierHash);
    if |parts| == 2 {
      assert parts == [parts[0], parts[1]];
      SplitInTwo(token, parts[0], parts[1], '.');
    }
    forall front: string, v: string | token == front + "." + v && '.' !in front && '.' !in v
      ensures parts == [front, v]
    {
      SplitInTwo(token, front, v, '.');
    }
  }
}
