/**
 * Attribution handoff: a visitor who arrives with `?referrer=<code>` gets a
 * week-long cookie naming the code's owner (save_referrer_cookie); when that
 * visitor registers, the cookie's referrer is saved as the new user's
 * referrer and the cookie is cleared (save_referrer_on_register).
 */
module Attribution {
  import opened PhpString
  import opened ReferralState
  import opened ReferralIdentity

  /** The users get_users lists for a `ww_referral_code` meta query on `code`:
      existing accounts whose stored code is exactly `code`. */
  function CodeOwners(s: Store, code: string): (owners: set<UserId>)
    ensures forall u :: u in owners ==> Exists(s, u) && u in s.codes && s.codes[u] == code
    ensures forall u :: Exists(s, u) && u in s.codes && s.codes[u] == code ==> u in owners
  {
    set u | u in s.users && u != 0 && u in s.codes && s.codes[u] == code
  }

  /** A code handed out by get_referral_code leads back to its user: staging
      finds that user among the code's owners, provided a code already stored
      for the user was stored trimmed (as get_referral_code itself stores it). */
  lemma {:induction false} IssuedCodeFindsItsOwner(s: Store, userId: UserId, hash: string)
    requires IsCrc32Hex(hash) && Exists(s, Resolve(s, userId))
    requires Resolve(s, userId) in s.codes ==> Trim(s.codes[Resolve(s, userId)]) == s.codes[Resolve(s, userId)]
    ensures var (s1, code) := GetReferralCode(s, userId, hash);
            Resolve(s, userId) in CodeOwners(s1, code)
  {
    var u := Resolve(s, userId);
    var (s1, code) := GetReferralCode(s, userId, hash);
    assert s1.users == s.users && u in s1.codes && s1.codes[u] == code;
  }

  /**
   * save_referrer_cookie, as the relation between the store before (`s`) and
   * after (`s'`) the request. Only an anonymous request carrying a code that
   * some user owns sets the cookie, to one of those owners, expiring a week
   * from `now`. get_users lists the owners by login name and the first is
   * taken; logins are not modelled, so any owner may be the one chosen.
   */
  ghost predicate CookieStaged(s: Store, s': Store, request: Option<string>, now: int)
    // Nothing but the cookie changes.
    ensures CookieStaged(s, s', request, now) ==> s'.(cookie := s.cookie) == s
    // A new cookie comes only from an anonymous request, names an owner of
    // the requested code, and expires a week from now.
    ensures CookieStaged(s, s', request, now) && s'.cookie != s.cookie ==>
              && s.current == 0 && request.Some?
              && s'.cookie.Some? && s'.cookie.value.referrer in CodeOwners(s, request.value)
              && s'.cookie.value.expires == now + WEEK_IN_SECONDS
    // An anonymous request for an owned code always stages a cookie naming an
    // owner of that code, expiring a week from now.
    ensures CookieStaged(s, s', request, now) && s.current == 0 && request.Some? && CodeOwners(s, request.value) != {} ==>
              && s'.cookie.Some? && s'.cookie.value.referrer in CodeOwners(s, request.value)
              && s'.cookie.value.expires == now + WEEK_IN_SECONDS
  {
    if s.current == 0 && request.Some? && CodeOwners(s, request.value) != {} then
      && s'.cookie.Some?
      && s'.cookie.value.referrer in CodeOwners(s, request.value)
      && s'.cookie.value.expires == now + WEEK_IN_SECONDS
      && s' == s.(cookie := s'.cookie)
    else
      s' == s
  }

  /** Every request has an outcome: whatever the store, the request and the
      clock, some store after it satisfies CookieStaged. */
  lemma {:induction false} StagingAlwaysHasOutcome(s: Store, request: Option<string>, now: int)
    ensures exists s' :: CookieStaged(s, s', request, now)
  {
    if s.current == 0 && request.Some? && CodeOwners(s, request.value) != {} {
      var owner :| owner in CodeOwners(s, request.value);
      assert CookieStaged(s, s.(cookie := Some(Cookie(owner, now + WEEK_IN_SECONDS))), request, now);
    } else {
      assert CookieStaged(s, s, request, now);
    }
  }

  /** When the code has one owner, the staged cookie names that owner. */
  lemma {:induction false} StagedCookieNamesOwner(s: Store, s': Store, code: string, owner: UserId, now: int)
    requires s.current == 0 && CodeOwners(s, code) == {owner}
    requires CookieStaged(s, s', Some(code), now)
    ensures s' == s.(cookie := Some(Cookie(owner, now + WEEK_IN_SECONDS)))
  {
    assert s'.cookie.value.referrer in {owner};
  }

  /** A logged-in visitor, a request without the parameter, or a code nobody
      owns leaves everything as it was. */
  lemma StagingNeedsAnonymousOwnedCode(s: Store, s': Store, request: Option<string>, now: int)
    requires CookieStaged(s, s', request, now)
    requires s.current != 0 || request.None? || CodeOwners(s, request.value) == {}
    ensures s' == s
  {
  }

  /** The registration handler finds a cookie naming an existing user. */
  predicate Attributes(s: Store, now: int) {
    match Presented(s, now)
    case Some(v) => v != 0 && Exists(s, v)
    case None => false
  }

  /**
   * save_referrer_on_register: if the browser presents a non-blank cookie
   * naming an existing user, the cookie is cleared (emptied, expiring a day
   * ago) and that user is saved as the referrer of `userId`; otherwise
   * nothing changes.
   */
  function SaveReferrerOnRegister(s: Store, userId: UserId, now: int): (r: Store)
    ensures !Attributes(s, now) ==> r == s
    ensures Attributes(s, now) && userId != 0 ==> GetReferrer(r, userId) == Presented(s, now)
    ensures Attributes(s, now) ==> forall t :: t >= now ==> Presented(r, t).None?
    ensures forall v :: v != 0 && v != userId ==> GetReferrer(r, v) == GetReferrer(s, v)
    ensures r.(referrers := s.referrers, cookie := s.cookie) == s
  {
    match Presented(s, now)
    case Some(v) =>
      if v != 0 && Exists(s, v) then
        SaveReferrer(s.(cookie := Some(Cookie(0, now - DAY_IN_SECONDS))), userId, v)
      else s
    case None => s
  }

  /** The handoff end to end: an anonymous visitor follows a link with a code
      that one user owns and registers within the week; that user becomes the
      new account's referrer and the cookie is gone. */
  lemma {:induction false} HandoffRecordsCodeOwner(
    s0: Store, s1: Store, code: string, owner: UserId, t0: int, newUser: UserId, t1: int)
    requires s0.current == 0 && CodeOwners(s0, code) == {owner}
    requires CookieStaged(s0, s1, Some(code), t0)
    requires t1 <= t0 + WEEK_IN_SECONDS && newUser != 0
    ensures var s2 := SaveReferrerOnRegister(s1, newUser, t1);
            && GetReferrer(s2, newUser) == Some(owner)
            && forall t :: t >= t1 ==> Presented(s2, t).None?
  {
    StagedCookieNamesOwner(s0, s1, code, owner, t0);
    assert Presented(s1, t1) == Some(owner);
    assert owner in CodeOwners(s0, code);
  }

  /** The cookie lives one week: registering later than that attributes
      nothing. */
  lemma {:induction false} StagedCookieExpiresAfterAWeek(
    s0: Store, s1: Store, code: string, t0: int, newUser: UserId, t1: int)
    requires s0.current == 0 && CodeOwners(s0, code) != {}
    requires CookieStaged(s0, s1, Some(code), t0)
    requires t1 > t0 + WEEK_IN_SECONDS
    ensures SaveReferrerOnRegister(s1, newUser, t1) == s1
  {
    assert Presented(s1, t1).None?;
  }

  /** A staged referrer is consumed at most once: after one registration has
      run, a later registration of any user attributes nothing. */
  lemma {:induction false} CookieConsumedOnce(s: Store, userId: UserId, t1: int, other: UserId, t2: int)
    requires t1 <= t2
    ensures var s1 := SaveReferrerOnRegister(s, userId, t1);
            SaveReferrerOnRegister(s1, other, t2) == s1
  {
    var s1 := SaveReferrerOnRegister(s, userId, t1);
    if Attributes(s, t1) {
      assert Presented(s1, t2).None?;
    } else {
      assert s1 == s;
      assert Presented(s, t2).Some? ==> Presented(s, t2) == Presented(s, t1);
    }
  }
}
