/** The user authentication entity: token expiry and its query filter. */
module AuthEntity {
  import opened Wrappers
  import opened Clover

  /** An instant, in nanoseconds since the Unix epoch. */
  type Instant = int

  /** The zero time value (January 1 of year 1, UTC), as an instant. */
  const ZeroTime: Instant := -62135596800 * 1000000000

  /** A user's login session: its tokens and when each stops being valid. */
  datatype UserAuth = UserAuth(
    id: string,
    userId: string,
    accessToken: string,
    refreshToken: string,
    accessTokenExpiredAt: Instant,
    refreshTokenExpiredAt: Instant)
  {
    predicate RefreshTokenExpired(now: Instant) {
      refreshTokenExpiredAt < now
    }

    predicate AccessTokenExpired(now: Instant) {
      accessTokenExpiredAt < now
    }
  }

  /**
   * A new session for a user, with no tokens yet. `newId` is the freshly
   * generated identifier.
   */
  function CreateUserAuth(userId: string, newId: string): (a: UserAuth)
    ensures a.id == newId && a.userId == userId
    ensures a.accessToken == "" && a.refreshToken == ""
    ensures a.accessTokenExpiredAt == ZeroTime && a.refreshTokenExpiredAt == ZeroTime
  {
    UserAuth(id := newId, userId := userId, accessToken := "", refreshToken := "",
             accessTokenExpiredAt := ZeroTime, refreshTokenExpiredAt := ZeroTime)
  }

  /** A token is still valid at the very instant it expires. */
  lemma ExpiryIsStrict(a: UserAuth, now: Instant)
    ensures a.accessTokenExpiredAt == now ==> !a.AccessTokenExpired(now)
    ensures a.refreshTokenExpiredAt == now ==> !a.RefreshTokenExpired(now)
  {
  }

  /** Once expired, a token stays expired. */
  lemma ExpiryIsPermanent(a: UserAuth, now: Instant, later: Instant)
    requires now <= later
    ensures a.AccessTokenExpired(now) ==> a.AccessTokenExpired(later)
    ensures a.RefreshTokenExpired(now) ==> a.RefreshTokenExpired(later)
  {
  }

  /** A session that has not been given tokens counts as expired at any time after the zero time. */
  lemma NewSessionIsExpired(userId: string, newId: string, now: Instant)
    requires ZeroTime < now
    ensures CreateUserAuth(userId, newId).AccessTokenExpired(now)
    ensures CreateUserAuth(userId, newId).RefreshTokenExpired(now)
  {
  }

  /** Query filter over sessions. */
  datatype FilterUserAuth = FilterUserAuth(accessToken: string, userId: string) {

    /** The document fields the filter tests, in the order it tests them. */
    function Fields(): seq<(string, string)> {
      [("accessToken", accessToken), ("userId", userId)]
    }

    method Filter() returns (r: Option<Criteria>)
      ensures r.None? <==> accessToken == "" && userId == ""
      ensures r.Some? ==> LeftNested(r.value) && Conjuncts(r.value) == Terms(Fields())
      ensures r.Some? ==> forall doc :: Matches(r.value, doc) <==> Selects(Fields(), doc)
      ensures accessToken != "" && userId != "" ==>
                r == Some(And(Eq("accessToken", accessToken), Eq("userId", userId)))
      ensures accessToken != "" && userId == "" ==> r == Some(Eq("accessToken", accessToken))
      ensures accessToken == "" && userId != "" ==> r == Some(Eq("userId", userId))
    {
      var criterias: seq<Criteria> := [];
      ghost var asked: seq<(string, string)> := [];  // the pairs tested so far
      TermsSnoc(asked, "accessToken", accessToken);
      if accessToken != "" {
        criterias := criterias + [Eq("accessToken", accessToken)];
      }
      asked := asked + [("accessToken", accessToken)];
      TermsSnoc(asked, "userId", userId);
      if userId != "" {
        criterias := criterias + [Eq("userId", userId)];
      }
      asked := asked + [("userId", userId)];
      assert asked == Fields();
      r := Fold(criterias);
      if r.Some? {
        FilterOfFields(asked);
        assert |criterias| == 2 ==> criterias[..1] == [criterias[0]];
      }
    }
  }
}
