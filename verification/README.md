# Wallet referrals, modelled in Dafny

This project models the referral core of the "WooCommerce Wallet - Referrals" WordPress plugin: class
`Action_Custom_Referral_Action` in `woo-wallet-referral.php`. The plugin does four things:

- It gives every user a lazily created referral code and builds signup links that carry that code.
- It stages a referrer in a week-long cookie when an anonymous visitor arrives with
  `?referrer=<code>`. It consumes that cookie when the visitor registers and records the code's
  owner as the new user's referrer.
- It credits the referrer's wallet, on one of two paths chosen by the `require_purchase` setting:
  - when the referred user registers;
  - when the referred customer completes an order. This path has a lifetime-value threshold and a
    per-customer marker, so it pays once.
- It answers the reverse question: which users did a given user refer.

The site's state is the value `ReferralState.Store`. It holds:

- the existing accounts and the logged-in user (0 when nobody is logged in);
- the three user-metadata keys the plugin writes: `ww_referral_code`, `ww_referral_referrer_id` and
  `ww_referral_referrer_rewarded_for_purchase`;
- the referral cookie as the browser holds it;
- the wallet credits issued so far, as a ledger;
- the settings.

Each handler is a function on `Store`, and the properties are proved about those functions.
`Action.ReferralAction` is the plugin object itself. Its fields are the same state, and each of its
methods follows the PHP guards step by step. Each method is proved to produce the new state that
the matching function describes.

`Lifecycle` puts the handlers on their WordPress hooks. It proves a property of every run:

- a run is any sequence of code requests, saves, page loads, registrations, order status changes,
  and changes the platform makes by itself;
- the ledger only grows at its end;
- a set purchase marker never changes;
- from a fresh site, no customer's referrer is ever paid more than one purchase reward.

Some properties one might expect of a referral scheme are properties the code does not have,
and the model follows the code:

- a referrer that is set once and never changes;
- rejection of self-referral;
- a signed cookie;
- a replay guard on the signup reward;
- a signup link that keeps the code when the base link has a `#` fragment: the parameter is
  appended inside the fragment, so the link's query does not carry it.

Lemmas `ReferralIdentity.SaveReferrerOverwrites`, `ReferralIdentity.SaveReferrerAcceptsSelf`,
`RewardEngine.SignupRewardRepeats` and `ReferralIdentity.FragmentBaseLosesReferralParam` state what
the code does instead.

Modules:

- `PhpString` covers `trim`, PHP truthiness of strings, and reading a URL's query component back
  as section 3.4 of RFC 3986 delimits it (after the first `?`, up to the `#` fragment).
- `ReferralState` holds the store, ids, settings, cookie and ledger.
- `ReferralIdentity` has the code, link, referrer and referred-users operations.
- `Attribution` has cookie staging and the registration handoff.
- `RewardEngine` has the two reward paths.
- `Lifecycle` covers hook order and runs.
- `Action` has the class.

## Model

| member | source | states |
|---|---|---|
| PhpString.Trim | woo-wallet-referral.php:318 | `trim` never lengthens the string, and the result neither starts nor ends with one of PHP's six default trim characters |
| PhpString.TrimCutsOnlyTrimmable | woo-wallet-referral.php:296 | the trimmed string is a contiguous piece of the input, and everything cut on either side is a trim character |
| PhpString.TrimIdempotent | woo-wallet-referral.php:296 | trimming twice is trimming once |
| PhpString.QueryAfterQuestionMark | woo-wallet-referral.php:325-331 | appending `?` and a tail to a URL with no `?` and no fragment makes that tail, when it has no `#`, the URL's query |
| PhpString.QueryExtends | woo-wallet-referral.php:325-328 | appending text without `#` to a URL that has a query and no fragment extends its query by exactly that text |
| ReferralIdentity.FreshCodeIsStable | woo-wallet-referral.php:300 | a CRC32B hex digest survives `trim` unchanged and is never empty or "0", so a newly stored code is read back as itself |
| ReferralIdentity.GetReferralCode | woo-wallet-referral.php:285-307 | user 0 means the logged-in user; with no user the result is "" and nothing is written; otherwise the result is non-empty and is the code now stored for the user; a stored code is returned trimmed without a write; when the stored code is falsy, the new digest is stored under the user's key and returned; no other write happens |
| ReferralIdentity.GetReferralCodeIdempotent | woo-wallet-referral.php:296-303 | a second request for the same user returns the first request's code and writes nothing, whatever digest it is given |
| ReferralIdentity.LinkBase | woo-wallet-referral.php:318-323 | the link's base is the trimmed link when that is truthy, and the registration URL when it is falsy |
| ReferralIdentity.ReferralLink | woo-wallet-referral.php:315-335 | the link is the base, then `&` if the base contains `?` (else `?`), then `referrer=<code>`, with nothing else added |
| ReferralIdentity.ReferralLinkQuery | woo-wallet-referral.php:325-334 | when neither the base nor the code contains `#`, the link's query is `referrer=<code>`, or, when the base already has a query, the base's own query followed by `&referrer=<code>` |
| ReferralIdentity.FragmentBaseLosesReferralParam | woo-wallet-referral.php:325-334 | when the base link has a `#` fragment, the separator and `referrer=<code>` land inside the fragment and the link's query is the base's own, so the link carries no referral code |
| PhpString.FragmentHidesAppended | woo-wallet-referral.php:334 | text appended to a URL that has a fragment leaves its query unchanged |
| ReferralIdentity.GetReferrer | woo-wallet-referral.php:370-385 | user 0 means the logged-in user; a referrer is returned exactly when a truthy one is stored for a real user, and it is the stored value |
| ReferralIdentity.SaveReferrer | woo-wallet-referral.php:392-395 | after the save, `get_referrer` of that user returns the saved id (none when it is 0); every other user's referrer and all other state are unchanged; saving for user 0 changes nothing |
| ReferralIdentity.GetReferredUsers | woo-wallet-referral.php:342-363 | user 0 means the logged-in user; only users with a stored referrer entry are listed; for a real user r, a non-zero user is listed exactly when `get_referrer` of that user returns r |
| ReferralIdentity.ReferredUsersAreReverseOfReferrer | woo-wallet-referral.php:353-362 | for a real user r, a user is listed as referred by r if and only if `get_referrer` of that user returns r |
| ReferralIdentity.SavedReferrerIsListed | woo-wallet-referral.php:394 | after `save_referrer(u, r)`, u appears in r's referred-users list and in no other user's list |
| ReferralIdentity.SaveReferrerOverwrites | woo-wallet-referral.php:392-395 | a second save replaces the first referrer, so the referrer is not set at most once |
| ReferralIdentity.SaveReferrerAcceptsSelf | woo-wallet-referral.php:392-395 | a user can be saved as their own referrer, because there is no self-referral check |
| Attribution.CodeOwners | woo-wallet-referral.php:188-199 | the meta query finds exactly the existing accounts whose stored code is the requested code: every one found owns it, and every owner is found |
| Attribution.IssuedCodeFindsItsOwner | woo-wallet-referral.php:188-199 | a code that `get_referral_code` hands out for an existing user leads staging back to that user, provided any code already stored was stored trimmed |
| Attribution.CookieStaged | woo-wallet-referral.php:182-206 | `save_referrer_cookie` changes nothing but the cookie; an anonymous request whose code some user owns always stages a cookie naming one of the code's owners and expiring one week from now; any other request changes nothing |
| Attribution.StagingAlwaysHasOutcome | woo-wallet-referral.php:182-206 | every request has some outcome that satisfies the staging relation, whatever the state, the request and the clock |
| Attribution.StagedCookieNamesOwner | woo-wallet-referral.php:184-204 | for an anonymous request whose code has a single owner, the only change is a cookie naming that owner that expires one week from now |
| Attribution.StagingNeedsAnonymousOwnedCode | woo-wallet-referral.php:184-201 | a logged-in visitor, a request without the parameter, or a code no user owns leaves the state unchanged |
| Attribution.SaveReferrerOnRegister | woo-wallet-referral.php:212-225 | without a presented cookie naming an existing user nothing changes; otherwise the new user's referrer becomes the cookie's user, the cookie is never presented again, and every other user's referrer is untouched |
| Attribution.HandoffRecordsCodeOwner | woo-wallet-referral.php:182-225 | if a visitor follows a link whose code has one owner and registers within the week, that owner becomes the new user's referrer and the cookie is gone |
| Attribution.StagedCookieExpiresAfterAWeek | woo-wallet-referral.php:203 | a registration more than a week after staging attributes nothing |
| Attribution.CookieConsumedOnce | woo-wallet-referral.php:214-222 | after a registration has run, any later registration attributes nothing |
| RewardEngine.RewardOnRegister | woo-wallet-referral.php:231-246 | when signup rewards are on, the user and their referrer exist, and the filter approves, exactly one credit of the signup amount for that user goes to the referrer; otherwise nothing changes; no marker is read or written |
| RewardEngine.RewardOnPurchase | woo-wallet-referral.php:254-278 | purchase rewards must be on and the new status "completed". The order must exist with a non-zero id, and the customer and their referrer must exist. The marker must be unset and when the threshold is positive, the lifetime value must reach it. Then one credit goes to the referrer and the marker is set to the order id; otherwise nothing changes |
| RewardEngine.PathsAreExclusive | woo-wallet-referral.php:233 | unless `require_purchase` is "no" a registration credits nothing, and unless it is "yes" an order credits nothing |
| RewardEngine.RewardedCustomerIsNotPaidAgain | woo-wallet-referral.php:267-269 | once a customer's marker is set, no order of theirs changes anything |
| RewardEngine.TwoOrdersPayAtMostOnce | woo-wallet-referral.php:267-273 | two order events for one customer add at most one credit; if the first pays, the second changes nothing and the marker holds the first order's id |
| RewardEngine.WithheldRewardStaysAvailable | woo-wallet-referral.php:269-273 | an order below the threshold changes nothing, so a later order that meets it is still paid |
| RewardEngine.SignupRewardRepeats | woo-wallet-referral.php:240-243 | the same registration delivered twice pays twice, because the signup path has no replay guard |
| Lifecycle.OnRegister | woo-wallet-referral.php:111-113 | `register_new_user` saves the referrer (priority 9001) before it rewards (priority 9002), so a cookie-referred registration with signup rewards on pays the cookie's user in that same registration; without a cookie to consume, only the reward runs; at most one credit is appended |
| Lifecycle.StepPreserves | woo-wallet-referral.php:110-114 | every hook event, including register_new_user running the cookie handoff before the reward, keeps the ledger's past and any set marker, and never lets purchase credits exceed the marker |
| Lifecycle.RunPreserves | woo-wallet-referral.php:110-114 | over any run, the ledger only grows at its end and a set marker keeps its value |
| Lifecycle.PurchaseRewardPaidAtMostOnce | woo-wallet-referral.php:267-273 | from a site where the plugin has written nothing, every run holds at most one purchase credit per customer |
| Action.ReferralAction.constructor | woo-wallet-referral.php:91-115 | the object works over the site state it is given: existing codes, referrers, markers, cookie and credits are kept, and constructing writes nothing |
| Action.ReferralAction.GetReferralCode | woo-wallet-referral.php:285-307 | the in-place handler returns the code and leaves the state that `ReferralIdentity.GetReferralCode` describes |
| Action.ReferralAction.GetReferralLink | woo-wallet-referral.php:315-335 | the in-place handler stores a code as `get_referral_code` does and returns `ReferralIdentity.ReferralLink` of that code |
| Action.ReferralAction.SaveReferrer | woo-wallet-referral.php:392-395 | the in-place handler leaves the state that `ReferralIdentity.SaveReferrer` describes |
| Action.ReferralAction.SaveReferrerCookie | woo-wallet-referral.php:182-206 | the in-place handler's old and new state satisfy `Attribution.CookieStaged` |
| Action.ReferralAction.SaveReferrerOnRegister | woo-wallet-referral.php:212-225 | the in-place handler leaves the state that `Attribution.SaveReferrerOnRegister` describes |
| Action.ReferralAction.RewardOnRegister | woo-wallet-referral.php:231-246 | the in-place handler leaves the state that `RewardEngine.RewardOnRegister` describes |
| Action.ReferralAction.RewardOnPurchase | woo-wallet-referral.php:254-278 | the in-place handler leaves the state that `RewardEngine.RewardOnPurchase` describes |
| Action.TwoCompletedOrders | woo-wallet-referral.php:267-273 | a referred customer who completes two orders, with no threshold and an amount of 10, earns the referrer exactly one credit of 10, and the marker holds the first order |
| Action.ThresholdGating | woo-wallet-referral.php:269 | with a threshold of 50, an order at a lifetime value of 30 pays nothing and leaves no marker, and a later order at 60 pays |

## Left out

- Hook registration (`add_action`/`add_filter`), the settings form, translations and the global
  wrapper functions are not modelled. `Lifecycle` fixes the order of the register_new_user
  handlers instead.
- The `ww_referral_reward_user` filter is the boolean `approved`: whether it returned something
  other than `false`.
- `hash("CRC32B", date(...) . ...)` is not computed. A new code is a parameter that must be eight
  lower-case hex digits, since the date and the hash function are outside the model.
- HTTP transport is not modelled. The cookie is the browser's copy: it is presented while the
  clock has not passed its expiry. A cookie set during a request is therefore visible to a
  registration in that same request, where PHP's `$_COOKIE` would not yet hold it.
- The cookie name (an md5 of ABSPATH) is not modelled, and neither are cookie values that are not
  a user id. A cleared cookie is user id 0, which PHP's truthiness test also rejects.
- There is one clock. The source stages the cookie with `current_time("timestamp")` (local time)
  and clears it with `time()` (UTC). The offset between the two is not modelled.
- ReferralIdentity.ReferralLinkQuery: does not describe the query of a link whose code contains
  `#`. Generated codes are hex digits, but a code stored by other means could hold one, and the
  query would then end inside the code.
- Attribution.CookieStaged: does not say which owner the cookie names when several users share a
  code. `get_users` orders the owners by login and the first is taken, and logins are not modelled.
- Action.ReferralAction.SaveReferrerCookie: does not say which owner is chosen when several users
  share a code. `get_users` orders owners by login, and logins are not modelled.
- Attribution.CodeOwners: compares codes exactly. WordPress's meta query trims a string value
  before it builds the SQL, so `?referrer=%20abcd1234` also finds the owner of `abcd1234`. MySQL's
  default WordPress collation ignores letter case and trailing spaces when it compares
  `meta_value`, so `?referrer=ABCD1234` finds that owner too. Neither is modelled.
- The SQL of `get_referred_users` is a set comprehension over the stored referrers. The order of
  the rows and the string form of the ids are not modelled.
- `wc_get_order` and `wc_get_user_value` are not modelled. They become the order's customer
  (`None` when no order is found) and the customer's lifetime value. The order found is taken to
  carry the requested id.
- The wallet is not modelled. A credit is an appended ledger entry with the recipient, the amount
  and a reason that stands for the memo text. The credit call's own failures are not modelled.
- `reward_on_purchase` ignores its `$old_status` argument, so the model has none.
- Concurrent requests are not modelled, including two order-completion events racing past the
  marker check.
- Settings are integers and strings with PHP's loose comparisons taken at face value. Metadata
  values are user or order ids, with 0 standing for a falsy stored value.
