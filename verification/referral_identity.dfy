/**
 * Referral identity: each user's referral code, the signup link that carries
 * it, and the referrer recorded for each user together with its reverse
 * lookup (get_referral_code, get_referral_link, get_referrer, save_referrer,
 * get_referred_users).
 */
module ReferralIdentity {
  import opened PhpString
  import opened ReferralState

  /** The request parameter that carries a referral code. */
  const REFERRAL_PARAM: string := "referrer"

  /** What hash("CRC32B", ...) returns: eight lower-case hex digits. The hash
      input (the date and the user id) is not modelled; a new code is given
      to the operations that may need one. */
  predicate IsCrc32Hex(s: string) {
    |s| == 8 && forall i :: 0 <= i < |s| ==> IsLowerHexDigit(s[i])
  }

  predicate IsLowerHexDigit(c: char) {
    ('0' <= c <= '9') || ('a' <= c <= 'f')
  }

  /** A hash output is already trimmed and is never a falsy string. */
  lemma FreshCodeIsStable(code: string)
    requires IsCrc32Hex(code)
    ensures Trim(code) == code && !IsFalsy(code)
  {
    assert IsLowerHexDigit(code[0]) && IsLowerHexDigit(code[7]);
    TrimKeepsTrimmed(code);
  }

  /** The code stored for `u`, as get_referral_code reads it back (trimmed;
      "" when there is none). */
  function StoredCode(s: Store, u: UserId): string {
    if u in s.codes then Trim(s.codes[u]) else ""
  }

  /**
   * get_referral_code: the code of `userId` (of the logged-in user when
   * `userId` is 0), created from the hash output `hash` and stored the first time it is
   * asked for. Returns the new store and the code.
   */
  function GetReferralCode(s: Store, userId: UserId, hash: string): (r: (Store, string))
    requires IsCrc32Hex(hash)
    // No user: the empty code, and nothing is written.
    ensures Resolve(s, userId) == 0 ==> r == (s, "")
    // A user always gets a non-empty code, and it is the code now stored for them.
    ensures Resolve(s, userId) != 0 ==> !IsFalsy(r.1) && StoredCode(r.0, Resolve(s, userId)) == r.1
    // A code already stored is returned and nothing is written.
    ensures (Resolve(s, userId) != 0 && !IsFalsy(StoredCode(s, Resolve(s, userId))))
              ==> r == (s, StoredCode(s, Resolve(s, userId)))
    // With no usable code stored, the new digest is stored and returned.
    ensures (Resolve(s, userId) != 0 && IsFalsy(StoredCode(s, Resolve(s, userId))))
              ==> r == (s.(codes := s.codes[Resolve(s, userId) := hash]), hash)
    // The only write there can be is the returned code under the user's own key.
    ensures r.0 == s || r.0 == s.(codes := s.codes[Resolve(s, userId) := r.1])
  {
    var u := Resolve(s, userId);
    if u == 0 then (s, "")
    else
      var code := StoredCode(s, u);
      if !IsFalsy(code) then (s, code)
      else
        FreshCodeIsStable(hash);
        (s.(codes := s.codes[u := hash]), hash)
  }

  /** Asking for a code a second time returns the first answer and writes
      nothing, whatever hash code the second call is given. */
  lemma {:induction false} GetReferralCodeIdempotent(s: Store, userId: UserId, hash1: string, hash2: string)
    requires IsCrc32Hex(hash1) && IsCrc32Hex(hash2)
    ensures var (s1, c1) := GetReferralCode(s, userId, hash1);
            GetReferralCode(s1, userId, hash2) == (s1, c1)
  {
    var (s1, c1) := GetReferralCode(s, userId, hash1);
    assert s1.current == s.current;
  }

  /** The base of a signup link: the trimmed `link`, or the registration URL
      when the trimmed link is falsy. */
  function LinkBase(link: string, registrationUrl: string): (base: string)
    ensures !IsFalsy(Trim(link)) ==> base == Trim(link)
    ensures IsFalsy(Trim(link)) ==> base == registrationUrl
  {
    var t := Trim(link);
    if IsFalsy(t) then registrationUrl else t
  }

  /** The query parameter get_referral_link adds: `referrer=<code>`. */
  function ReferralParam(code: string): string {
    REFERRAL_PARAM + "=" + code
  }

  /**
   * The string part of get_referral_link: `code` appended as the `referrer`
   * query parameter to the link's base, joined with '&' when the base already
   * has a query string and with '?' otherwise.
   */
  function ReferralLink(code: string, link: string, registrationUrl: string): (url: string)
    ensures var base := LinkBase(link, registrationUrl);
            && |url| == |base| + 1 + |ReferralParam(code)|
            && url[..|base|] == base
            && url[|base|] == (if '?' in base then '&' else '?')
            && url[|base| + 1..] == ReferralParam(code)
  {
    var base := LinkBase(link, registrationUrl);
    var sep := if '?' in base then '&' else '?';
    var tail := [sep] + ReferralParam(code);
    assert (base + tail)[..|base|] == base && (base + tail)[|base|..] == tail;
    assert tail[1..] == ReferralParam(code);
    base + tail
  }

  /** Reading the query string back: when neither the base nor the code has
      a '#', a link built on a base without a query has exactly
      `referrer=<code>` as its query, and on a base with one the parameter
      follows the base's query after an '&'. */
  lemma ReferralLinkQuery(code: string, link: string, registrationUrl: string)
    requires '#' !in LinkBase(link, registrationUrl) && '#' !in code
    ensures var base := LinkBase(link, registrationUrl);
            var url := ReferralLink(code, link, registrationUrl);
            && ('?' !in base ==> QueryString(url) == ReferralParam(code))
            && ('?' in base ==> QueryString(url) == QueryString(base) + ("&" + ReferralParam(code)))
  {
    var base := LinkBase(link, registrationUrl);
    var sep := if '?' in base then '&' else '?';
    assert '#' !in ReferralParam(code);
    assert ReferralLink(code, link, registrationUrl) == base + ([sep] + ReferralParam(code));
    if '?' in base {
      QueryExtends(base, "&" + ReferralParam(code));
    } else {
      QueryAfterQuestionMark(base, ReferralParam(code));
    }
  }

  /** A base link with a fragment loses the parameter: the separator and
      `referrer=<code>` are appended after the '#', inside the fragment, and
      the link's query is the base's own. A browser does not send the
      fragment, so such a link carries no referral code. */
  lemma {:induction false} FragmentBaseLosesReferralParam(code: string, link: string, registrationUrl: string)
    requires '#' in LinkBase(link, registrationUrl)
    ensures QueryString(ReferralLink(code, link, registrationUrl)) == QueryString(LinkBase(link, registrationUrl))
  {
    var base := LinkBase(link, registrationUrl);
    var sep := if '?' in base then '&' else '?';
    assert ReferralLink(code, link, registrationUrl) == base + ([sep] + ReferralParam(code));
    FragmentHidesAppended(base, [sep] + ReferralParam(code));
  }

  /** get_referrer: the referrer stored for `userId` (for the logged-in user
      when `userId` is 0); None when nothing, or a falsy value, is stored. */
  function GetReferrer(s: Store, userId: UserId): (r: Option<UserId>)
    ensures r.Some? <==> (var u := Resolve(s, userId); u != 0 && u in s.referrers && s.referrers[u] != 0)
    ensures r.Some? ==> r.value == s.referrers[Resolve(s, userId)]
  {
    var u := Resolve(s, userId);
    if u != 0 && u in s.referrers && s.referrers[u] != 0 then Some(s.referrers[u]) else None
  }

  /**
   * save_referrer: records `referrerId` as the referrer of `userId`,
   * replacing whatever was there. WordPress writes no metadata for user 0.
   */
  function SaveReferrer(s: Store, userId: UserId, referrerId: UserId): (r: Store)
    ensures userId == 0 ==> r == s
    ensures userId != 0 ==> GetReferrer(r, userId) == (if referrerId == 0 then None else Some(referrerId))
    ensures forall v :: v != 0 && v != userId ==> GetReferrer(r, v) == GetReferrer(s, v)
    ensures r.(referrers := s.referrers) == s
  {
    if userId == 0 then s else s.(referrers := s.referrers[userId := referrerId])
  }

  /** get_referred_users: the users whose stored referrer is `userId` (the
      logged-in user when `userId` is 0), in no particular order. */
  function GetReferredUsers(s: Store, userId: UserId): (users: set<UserId>)
    ensures forall u :: u in users ==> u in s.referrers
    // For a real user, the list is exactly the users whose referrer they are.
    ensures Resolve(s, userId) != 0 ==>
              forall u :: u != 0 ==> (u in users <==> GetReferrer(s, u) == Some(Resolve(s, userId)))
  {
    var r := Resolve(s, userId);
    set u | u in s.referrers && s.referrers[u] == r
  }

  /** get_referred_users is the reverse of get_referrer: a user is listed for
      referrer `r` exactly when `r` is that user's referrer. */
  lemma ReferredUsersAreReverseOfReferrer(s: Store, userId: UserId, u: UserId)
    requires Resolve(s, userId) != 0 && u != 0
    ensures u in GetReferredUsers(s, userId) <==> GetReferrer(s, u) == Some(Resolve(s, userId))
  {
  }

  /** A referrer saved for one user appears in that referrer's list and in no
      other referrer's list. */
  lemma {:induction false} SavedReferrerIsListed(s: Store, userId: UserId, referrerId: UserId, other: UserId)
    requires userId != 0 && referrerId != 0 && other != 0
    ensures userId in GetReferredUsers(SaveReferrer(s, userId, referrerId), other) <==> other == referrerId
  {
    ReferredUsersAreReverseOfReferrer(SaveReferrer(s, userId, referrerId), other, userId);
  }

  /** save_referrer does not keep a first referrer: a second save replaces it
      (the code has no "set at most once" rule). */
  lemma SaveReferrerOverwrites(s: Store, userId: UserId, first: UserId, second: UserId)
    requires userId != 0 && second != 0
    ensures GetReferrer(SaveReferrer(SaveReferrer(s, userId, first), userId, second), userId) == Some(second)
  {
  }

  /** save_referrer accepts a user as their own referrer (the code has no
      self-referral check). */
  lemma SaveReferrerAcceptsSelf(s: Store, userId: UserId)
    requires userId != 0
    ensures GetReferrer(SaveReferrer(s, userId, userId), userId) == Some(userId)
  {
  }
}
