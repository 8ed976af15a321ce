/**
 * The handlers as WordPress runs them, one hook at a time, interleaved with
 * what the platform itself changes (accounts, the logged-in user, the
 * settings). register_new_user runs save_referrer_on_register (priority
 * 9001) and then reward_on_register (priority 9002). Properties that hold
 * for every such run are proved here.
 */
module Lifecycle {
  import opened ReferralState
  import opened ReferralIdentity
  import opened Attribution
  import opened RewardEngine

  datatype Event =
    | CodeRequested(userId: UserId, hash: string)                  // get_referral_code, get_referral_link
    | ReferrerSaved(userId: UserId, referrerId: UserId)            // ww_referral_save_referrer
    | RequestStarted(request: Option<string>, now: int)            // init
    | UserRegistered(userId: UserId, now: int, approved: bool)     // register_new_user
    | OrderStatusChanged(orderId: OrderId, newStatus: string,
                         customer: Option<UserId>, lifetimeValue: int)  // woocommerce_order_status_changed
    | PlatformChanged(users: set<UserId>, current: UserId, settings: Config)  // outside the plugin

  /** The handlers register_new_user runs, in priority order. */
  function OnRegister(s: Store, userId: UserId, now: int, approved: bool): (r: Store)
    // The referrer is saved first, so a signup reward already goes to the
    // referrer the cookie named in this same registration.
    ensures Attributes(s, now) && Exists(s, userId) && approved
            && s.settings.enabled && s.settings.requirePurchase == "no" && s.settings.amount > 0
            ==> r.ledger == s.ledger + [Credit(Presented(s, now).value, s.settings.amount, ReferredSignup(userId))]
    // Without a cookie to consume, only the reward handler acts.
    ensures !Attributes(s, now) ==> r == RewardOnRegister(s, userId, approved)
    // At most one credit is added, after the existing ones.
    ensures |s.ledger| <= |r.ledger| <= |s.ledger| + 1 && r.ledger[..|s.ledger|] == s.ledger
  {
    RewardOnRegister(SaveReferrerOnRegister(s, userId, now), userId, approved)
  }

  /** One event takes the store `s` to `s'`. */
  ghost predicate Step(s: Store, e: Event, s': Store) {
    match e
    case CodeRequested(userId, hash) => IsCrc32Hex(hash) && s' == GetReferralCode(s, userId, hash).0
    case ReferrerSaved(userId, referrerId) => s' == SaveReferrer(s, userId, referrerId)
    case RequestStarted(request, now) => CookieStaged(s, s', request, now)
    case UserRegistered(userId, now, approved) => s' == OnRegister(s, userId, now, approved)
    case OrderStatusChanged(orderId, newStatus, customer, lifetimeValue) =>
      s' == RewardOnPurchase(s, orderId, newStatus, customer, lifetimeValue)
    case PlatformChanged(users, current, settings) =>
      s' == s.(users := users, current := current, settings := settings)
  }

  /** `states` is a run of `events`: each state follows from the one before. */
  ghost predicate IsRun(states: seq<Store>, events: seq<Event>) {
    && |states| == |events| + 1
    && forall i :: 0 <= i < |events| ==> Step(states[i], events[i], states[i + 1])
  }

  /** How many purchase rewards for `customer` the ledger holds. */
  function PurchaseCredits(ledger: seq<Credit>, customer: UserId): nat {
    if ledger == [] then 0
    else
      PurchaseCredits(ledger[..|ledger| - 1], customer)
      + (if ledger[|ledger| - 1].reason == ReferredPurchase(customer) then 1 else 0)
  }

  /** Purchase rewards paid for `customer` so far: none while the marker is
      unset, at most one once it is. */
  ghost predicate PaidAtMostOnce(s: Store, customer: UserId) {
    PurchaseCredits(s.ledger, customer) <= (if Rewarded(s, customer) then 1 else 0)
  }

  /** Every event keeps the ledger's past, keeps a set marker's value, and
      keeps PaidAtMostOnce. */
  lemma {:induction false} StepPreserves(s: Store, e: Event, s': Store, c: UserId)
    requires Step(s, e, s')
    ensures |s.ledger| <= |s'.ledger| && s'.ledger[..|s.ledger|] == s.ledger
    ensures Rewarded(s, c) ==> c in s'.rewarded && s'.rewarded[c] == s.rewarded[c]
    ensures PaidAtMostOnce(s, c) ==> PaidAtMostOnce(s', c)
  {
    match e
    case UserRegistered(userId, now, approved) =>
      var s1 := SaveReferrerOnRegister(s, userId, now);
      if SignupRewardDue(s1, userId, approved) {
        var x := Credit(GetReferrer(s1, userId).value, s1.settings.amount, ReferredSignup(userId));
        assert s'.ledger == s.ledger + [x];
        assert s'.ledger[..|s'.ledger| - 1] == s.ledger;
      }
    case OrderStatusChanged(orderId, newStatus, customer, lifetimeValue) =>
      if PurchaseRewardDue(s, orderId, newStatus, customer, lifetimeValue) {
        var x := Credit(GetReferrer(s, customer.value).value, s.settings.amount, ReferredPurchase(customer.value));
        assert s'.ledger == s.ledger + [x];
        assert s'.ledger[..|s'.ledger| - 1] == s.ledger;
      }
    case CodeRequested(_, _) =>
    case ReferrerSaved(_, _) =>
    case RequestStarted(_, _) =>
    case PlatformChanged(_, _, _) =>
  }

  /** Over any run: the ledger only grows at its end, a set marker never
      changes, and PaidAtMostOnce is kept. */
  lemma {:induction false} RunPreserves(states: seq<Store>, events: seq<Event>, c: UserId)
    requires IsRun(states, events)
    ensures var first, last := states[0], states[|states| - 1];
            && |first.ledger| <= |last.ledger| && last.ledger[..|first.ledger|] == first.ledger
            && (Rewarded(first, c) ==> c in last.rewarded && last.rewarded[c] == first.rewarded[c])
            && (PaidAtMostOnce(first, c) ==> PaidAtMostOnce(last, c))
    decreases |events|
  {
    if events != [] {
      var n := |events| - 1;
      assert IsRun(states[..n + 1], events[..n]) by {
        forall i | 0 <= i < n ensures Step(states[..n + 1][i], events[..n][i], states[..n + 1][i + 1]) {
          assert Step(states[i], events[i], states[i + 1]);
        }
      }
      RunPreserves(states[..n + 1], events[..n], c);
      StepPreserves(states[n], events[n], states[n + 1], c);
      var first, mid, last := states[0], states[n], states[n + 1];
      assert last.ledger[..|first.ledger|] == last.ledger[..|mid.ledger|][..|first.ledger|];
    }
  }

  /** From the store the plugin starts with, every run pays each customer's
      referrer at most one purchase reward, whatever orders, registrations,
      logins and setting changes happen in between. */
  lemma {:induction false} PurchaseRewardPaidAtMostOnce(states: seq<Store>, events: seq<Event>, c: UserId)
    requires IsRun(states, events)
    requires states[0] == Fresh(states[0].users, states[0].current, states[0].settings)
    ensures PurchaseCredits(states[|states| - 1].ledger, c) <= 1
  {
    assert PaidAtMostOnce(states[0], c);
    RunPreserves(states, events, c);
  }
}
