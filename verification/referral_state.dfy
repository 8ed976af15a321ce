/**
 * The state the referral action reads and writes: WordPress users, their
 * metadata under the plugin's three keys, the visitor's referral cookie,
 * the wallet ledger and the action's settings.
 *
 * User and order ids follow WordPress: a positive number names a record and
 * 0 stands for "none" (no logged-in user, a failed lookup, an empty
 * argument). Metadata values are kept as the numbers or strings the plugin
 * stores; 0 and "" read back as false, as they do in PHP.
 */
module ReferralState {

  type UserId = nat
  type OrderId = nat

  datatype Option<T> = None | Some(value: T)

  /** WordPress's WEEK_IN_SECONDS and DAY_IN_SECONDS. */
  const WEEK_IN_SECONDS: int := 604800
  const DAY_IN_SECONDS: int := 86400

  /** The action's settings. `requirePurchase` is the checkbox value ("yes" or
      "no"), compared as a string by both reward handlers; `threshold` and
      `amount` are money in the shop's smallest unit. */
  datatype Config = Config(enabled: bool, requirePurchase: string, threshold: int, amount: int)

  /** The referral cookie as the visitor's browser holds it: the referrer's
      user id (0 for the cleared value '') and its expiry time. */
  datatype Cookie = Cookie(referrer: UserId, expires: int)

  /** Why a wallet credit was made; stands for the transaction note, which
      names the referred user. */
  datatype Reason = ReferredSignup(user: UserId) | ReferredPurchase(customer: UserId)

  /** One credit appended to the wallet ledger. */
  datatype Credit = Credit(recipient: UserId, amount: int, reason: Reason)

  /**
   * Everything the action sees:
   * - `users`: ids of existing accounts; `current`: the logged-in user, or 0;
   * - `codes`, `referrers`, `rewarded`: user metadata under the keys
   *   ww_referral_code, ww_referral_referrer_id and
   *   ww_referral_referrer_rewarded_for_purchase;
   * - `cookie`: the referral cookie, if one was ever set;
   * - `ledger`: every wallet credit, oldest first;
   * - `settings`: the action's configuration.
   */
  datatype Store = Store(
    users: set<UserId>,
    current: UserId,
    codes: map<UserId, string>,
    referrers: map<UserId, UserId>,
    rewarded: map<UserId, OrderId>,
    cookie: Option<Cookie>,
    ledger: seq<Credit>,
    settings: Config)

  /** `get_user_by("id", u)` finds an account (so `->ID` is truthy). */
  predicate Exists(s: Store, u: UserId) {
    u != 0 && u in s.users
  }

  /** An empty user-id argument stands for the logged-in user. */
  function Resolve(s: Store, userId: UserId): UserId {
    if userId == 0 then s.current else userId
  }

  /** The purchase-reward marker of `u` is set (reads back truthy). */
  predicate Rewarded(s: Store, u: UserId) {
    u in s.rewarded && s.rewarded[u] != 0
  }

  /** The cookie the browser sends at time `now`: it sends a cookie until its
      expiry time has passed. */
  function Presented(s: Store, now: int): (c: Option<UserId>)
    ensures c.Some? <==> s.cookie.Some? && now <= s.cookie.value.expires
  {
    match s.cookie
    case Some(Cookie(referrer, expires)) => if now <= expires then Some(referrer) else None
    case None => None
  }

  /** A store as the plugin finds it on activation: no metadata of its own,
      no cookie, an empty ledger. */
  function Fresh(users: set<UserId>, current: UserId, settings: Config): Store {
    Store(users, current, map[], map[], map[], None, [], settings)
  }
}
