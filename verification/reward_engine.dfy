/**
 * Reward engine: the two handlers that credit a referrer's wallet. The
 * signup path (reward_on_register) is active when purchases are not
 * required; the purchase path (reward_on_purchase) when they are, and it
 * alone keeps a per-customer marker so that it pays once.
 */
module RewardEngine {
  import opened ReferralState
  import opened ReferralIdentity

  /** `u` exists and has a stored referrer that exists too. */
  predicate HasLiveReferrer(s: Store, u: UserId) {
    Exists(s, u) && GetReferrer(s, u).Some? && Exists(s, GetReferrer(s, u).value)
  }

  /** The guards of reward_on_register: signup rewards are on, the user and
      their referrer exist, and the approval filter did not return false. */
  predicate SignupRewardDue(s: Store, userId: UserId, approved: bool) {
    && s.settings.enabled && s.settings.requirePurchase == "no" && s.settings.amount > 0
    && HasLiveReferrer(s, userId)
    && approved
  }

  /**
   * reward_on_register: one credit of the configured amount to the new
   * user's referrer when every guard holds; otherwise nothing. `approved` is
   * whether the ww_referral_reward_user filter returned something other
   * than false. No marker is read or written.
   */
  function RewardOnRegister(s: Store, userId: UserId, approved: bool): (r: Store)
    ensures r.(ledger := s.ledger) == s
    ensures SignupRewardDue(s, userId, approved) ==>
              r.ledger == s.ledger + [Credit(GetReferrer(s, userId).value, s.settings.amount, ReferredSignup(userId))]
    ensures !SignupRewardDue(s, userId, approved) ==> r.ledger == s.ledger
  {
    if SignupRewardDue(s, userId, approved) then
      var referrer := GetReferrer(s, userId).value;
      s.(ledger := s.ledger + [Credit(referrer, s.settings.amount, ReferredSignup(userId))])
    else s
  }

  /** The guards of reward_on_purchase before it looks at the marker:
      purchase rewards are on and the order has just been completed. */
  predicate PurchasePathOpen(s: Store, newStatus: string) {
    s.settings.enabled && s.settings.requirePurchase == "yes" && s.settings.amount > 0
    && newStatus == "completed"
  }

  /** The lifetime-value gate: with a positive threshold, a customer who has
      spent less than it does not qualify yet. */
  predicate BelowThreshold(s: Store, lifetimeValue: int) {
    s.settings.threshold > 0 && lifetimeValue < s.settings.threshold
  }

  /**
   * Every guard of reward_on_purchase. `customer` is what wc_get_order finds
   * for `orderId`: None when there is no such order, otherwise the order's
   * customer id (0 for a guest order). The order found has id `orderId`, so
   * `$order->get_id()` is truthy exactly when `orderId` is not 0.
   */
  predicate PurchaseRewardDue(s: Store, orderId: OrderId, newStatus: string,
                              customer: Option<UserId>, lifetimeValue: int) {
    && PurchasePathOpen(s, newStatus)
    && customer.Some? && orderId != 0
    && HasLiveReferrer(s, customer.value)
    && !Rewarded(s, customer.value)
    && !BelowThreshold(s, lifetimeValue)
  }

  /**
   * reward_on_purchase: when every guard holds, one credit of the configured
   * amount to the customer's referrer, and the customer's marker set to the
   * order id; otherwise nothing.
   */
  function RewardOnPurchase(s: Store, orderId: OrderId, newStatus: string,
                            customer: Option<UserId>, lifetimeValue: int): (r: Store)
    ensures r.(ledger := s.ledger, rewarded := s.rewarded) == s
    ensures PurchaseRewardDue(s, orderId, newStatus, customer, lifetimeValue) ==>
              && r.ledger == s.ledger + [Credit(GetReferrer(s, customer.value).value, s.settings.amount,
                                                ReferredPurchase(customer.value))]
              && r.rewarded == s.rewarded[customer.value := orderId]
              && Rewarded(r, customer.value)
    ensures !PurchaseRewardDue(s, orderId, newStatus, customer, lifetimeValue) ==> r == s
  {
    if PurchaseRewardDue(s, orderId, newStatus, customer, lifetimeValue) then
      var c := customer.value;
      var referrer := GetReferrer(s, c).value;
      s.(ledger := s.ledger + [Credit(referrer, s.settings.amount, ReferredPurchase(c))],
         rewarded := s.rewarded[c := orderId])
    else s
  }

  /** Only one path is live for a given setting: under "yes" a registration
      credits nothing, and under anything but "yes" an order credits nothing. */
  lemma PathsAreExclusive(s: Store, userId: UserId, approved: bool, orderId: OrderId,
                          newStatus: string, customer: Option<UserId>, lifetimeValue: int)
    ensures s.settings.requirePurchase != "no" ==> RewardOnRegister(s, userId, approved) == s
    ensures s.settings.requirePurchase != "yes" ==> RewardOnPurchase(s, orderId, newStatus, customer, lifetimeValue) == s
  {
  }

  /** Once a customer's marker is set, no order of theirs credits again and
      the marker keeps its value. */
  lemma {:induction false} RewardedCustomerIsNotPaidAgain(s: Store, orderId: OrderId, newStatus: string,
                                                          c: UserId, lifetimeValue: int)
    requires Rewarded(s, c)
    ensures RewardOnPurchase(s, orderId, newStatus, Some(c), lifetimeValue) == s
  {
    assert !PurchaseRewardDue(s, orderId, newStatus, Some(c), lifetimeValue);
  }

  /** Two completed-order events for the same customer credit at most once
      between them; when the first pays, the marker holds the first order's
      id afterwards. */
  lemma {:induction false} TwoOrdersPayAtMostOnce(s: Store, c: UserId,
                                                  order1: OrderId, status1: string, value1: int,
                                                  order2: OrderId, status2: string, value2: int)
    ensures var s1 := RewardOnPurchase(s, order1, status1, Some(c), value1);
            var s2 := RewardOnPurchase(s1, order2, status2, Some(c), value2);
            && |s2.ledger| <= |s.ledger| + 1
            && (|s1.ledger| > |s.ledger| ==> s2 == s1 && s2.rewarded[c] == order1)
  {
    var s1 := RewardOnPurchase(s, order1, status1, Some(c), value1);
    if PurchaseRewardDue(s, order1, status1, Some(c), value1) {
      RewardedCustomerIsNotPaidAgain(s1, order2, status2, c, value2);
    }
  }

  /** A reward withheld for the threshold leaves no trace, so a later order
      that reaches the threshold is still paid. */
  lemma {:induction false} WithheldRewardStaysAvailable(s: Store, c: UserId,
                                                        order1: OrderId, value1: int,
                                                        order2: OrderId, value2: int)
    requires PurchasePathOpen(s, "completed") && HasLiveReferrer(s, c) && !Rewarded(s, c)
    requires order1 != 0 && order2 != 0
    requires BelowThreshold(s, value1) && !BelowThreshold(s, value2)
    ensures var s1 := RewardOnPurchase(s, order1, "completed", Some(c), value1);
            && s1 == s
            && RewardOnPurchase(s1, order2, "completed", Some(c), value2).ledger
                 == s.ledger + [Credit(GetReferrer(s, c).value, s.settings.amount, ReferredPurchase(c))]
  {
    assert !PurchaseRewardDue(s, order1, "completed", Some(c), value1);
    assert PurchaseRewardDue(s, order2, "completed", Some(c), value2);
  }

  /** The signup path has no replay guard: delivering the same registration
      twice pays the referrer twice. */
  lemma {:induction false} SignupRewardRepeats(s: Store, userId: UserId)
    requires SignupRewardDue(s, userId, true)
    ensures var s2 := RewardOnRegister(RewardOnRegister(s, userId, true), userId, true);
            |s2.ledger| == |s.ledger| + 2
  {
    var s1 := RewardOnRegister(s, userId, true);
    assert s1.(ledger := s.ledger) == s;
    assert SignupRewardDue(s1, userId, true);
  }
}
