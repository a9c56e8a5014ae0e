/** The bearer-token cache of `get_spotify_token_headers` (identical in the api
    and in the earlier backend). The session dictionary is an object with the
    two keys as fields; `time.time()` is an integer clock reading passed in, and
    the client-credentials exchange is a caller-supplied response. */
module TokenCache {
  import opened Common

  /** The JSON of the token endpoint; a key may be missing. */
  datatype AuthResponse = AuthResponse(accessToken: Option<string>, expiresIn: Option<int>)

  /** Seconds by which the stored expiry is brought forward. */
  const SafetyMargin := 60

  /** A new token is requested when none is cached or its expiry is strictly
      before `now`; an expiry equal to `now` still counts as valid. */
  predicate NeedsRefresh(token: Option<string>, expiry: int, now: int) {
    token.None? || expiry < now
  }

  function BearerHeader(token: string): (h: (string, string))
    ensures h.0 == "Authorization" && h.1 == "Bearer " + token
  {
    ("Authorization", "Bearer " + token)
  }

  class Session {
    var token: Option<string>  // session["spotify_token"]
    var expiry: int            // session["spotify_token_expiry"], meaningful when token is set

    constructor ()
      ensures token == None
    {
      token := None;
      expiry := 0;
    }

    /** Returns the Authorization header, refreshing the cached token first when
        it is missing or expired. A response without `access_token` or without
        `expires_in` raises before the session is written. */
    method GetTokenHeaders(now: int, auth: AuthResponse) returns (r: Result<(string, string)>)
      modifies this
      ensures !NeedsRefresh(old(token), old(expiry), now) ==>
        token == old(token) && expiry == old(expiry) && r == Ok(BearerHeader(token.value))
      ensures NeedsRefresh(old(token), old(expiry), now) && auth.accessToken.None? ==>
        token == old(token) && expiry == old(expiry) && r == Err(MissingAccessToken)
      ensures NeedsRefresh(old(token), old(expiry), now) && auth.accessToken.Some? && auth.expiresIn.None? ==>
        token == old(token) && expiry == old(expiry) && r == Err(MissingExpiresIn)
      ensures NeedsRefresh(old(token), old(expiry), now) && auth.accessToken.Some? && auth.expiresIn.Some? ==>
        token == auth.accessToken && expiry == now + auth.expiresIn.value - SafetyMargin &&
        r == Ok(BearerHeader(auth.accessToken.value))
      ensures r.Ok? ==> token.Some? && r.value == BearerHeader(token.value)
    {
      if NeedsRefresh(token, expiry, now) {
        if auth.accessToken.None? {
          return Err(MissingAccessToken);
        }
        if auth.expiresIn.None? {
          return Err(MissingExpiresIn);
        }
        expiry := now + auth.expiresIn.value - SafetyMargin;
        token := auth.accessToken;
      }
      r := Ok(BearerHeader(token.value));
    }
  }

  /** A token obtained at `now` with lifetime `expiresIn` is reused exactly up
      to and including `now + expiresIn - 60`, and replaced after it. */
  lemma RefreshedTokenLifetime(t: string, now: int, expiresIn: int, later: int)
    ensures !NeedsRefresh(Some(t), now + expiresIn - SafetyMargin, later) <==>
      later <= now + expiresIn - SafetyMargin
  {
  }
}
