/**
 * Action_Custom_Referral_Action as an object: its handlers read and update
 * the user metadata, the referral cookie and the wallet ledger in place,
 * following the PHP guards step by step. Each handler is proved to do what
 * the corresponding function on `Store` describes, so the properties proved
 * about those functions hold of the object.
 */
module Action {
  import opened PhpString
  import opened ReferralState
  import ReferralIdentity
  import Attribution
  import RewardEngine

  class ReferralAction {
    var users: set<UserId>
    var currentUser: UserId
    var codes: map<UserId, string>
    var referrers: map<UserId, UserId>
    var rewarded: map<UserId, OrderId>
    var cookie: Option<Cookie>
    var ledger: seq<Credit>
    var settings: Config

    /** The object's state as a `Store` value. */
    function State(): Store
      reads this
    {
      Store(users, currentUser, codes, referrers, rewarded, cookie, ledger, settings)
    }

    /** The action as each request builds it: it reads the site's settings
        and works over whatever metadata, cookie and credits already exist,
        writing nothing itself. */
    constructor (s: Store)
      ensures State() == s
    {
      users := s.users;
      currentUser := s.current;
      codes := s.codes;
      referrers := s.referrers;
      rewarded := s.rewarded;
      cookie := s.cookie;
      ledger := s.ledger;
      settings := s.settings;
    }

    /** get_referral_code; `hash` is what the CRC32B hash would return. */
    method GetReferralCode(userId: UserId, hash: string) returns (code: string)
      requires ReferralIdentity.IsCrc32Hex(hash)
      modifies this
      ensures (State(), code) == ReferralIdentity.GetReferralCode(old(State()), userId, hash)
    {
      var u := userId;
      if u == 0 {
        u := currentUser;
      }
      code := "";
      if u != 0 {
        code := if u in codes then Trim(codes[u]) else "";
        if IsFalsy(code) {
          code := hash;
          codes := codes[u := code];
        }
      }
    }

    /** get_referral_link: asks for the user's code (which may store one) and
        appends it to the trimmed link, or to the registration URL. */
    method GetReferralLink(userId: UserId, link: string, registrationUrl: string, hash: string)
      returns (url: string)
      requires ReferralIdentity.IsCrc32Hex(hash)
      modifies this
      ensures var (s, code) := ReferralIdentity.GetReferralCode(old(State()), userId, hash);
              State() == s && url == ReferralIdentity.ReferralLink(code, link, registrationUrl)
    {
      var code := GetReferralCode(userId, hash);
      var base := Trim(link);
      if IsFalsy(base) {
        base := registrationUrl;
      }
      var sep := if '?' in base then "&" else "?";
      url := base + sep + ReferralIdentity.REFERRAL_PARAM + "=" + code;
      assert url == base + (sep + ReferralIdentity.ReferralParam(code));
    }

    /** save_referrer. */
    method SaveReferrer(userId: UserId, referrerId: UserId)
      modifies this
      ensures State() == ReferralIdentity.SaveReferrer(old(State()), userId, referrerId)
    {
      if userId != 0 {
        referrers := referrers[userId := referrerId];
      }
    }

    /** save_referrer_cookie; `request` is the `referrer` request parameter,
        if the request has one. */
    method SaveReferrerCookie(request: Option<string>, now: int)
      modifies this
      ensures Attribution.CookieStaged(old(State()), State(), request, now)
    {
      if currentUser == 0 && request.Some? {
        var owners := Attribution.CodeOwners(State(), request.value);
        if owners != {} {
          var first :| first in owners;
          cookie := Some(Cookie(first, now + WEEK_IN_SECONDS));
        }
      }
    }

    /** save_referrer_on_register. */
    method SaveReferrerOnRegister(userId: UserId, now: int)
      modifies this
      ensures State() == Attribution.SaveReferrerOnRegister(old(State()), userId, now)
    {
      var presented := Presented(State(), now);
      if presented.Some? && presented.value != 0 {
        var referrer := presented.value;
        if referrer in users {
          cookie := Some(Cookie(0, now - DAY_IN_SECONDS));
          SaveReferrer(userId, referrer);
        }
      }
    }

    /** reward_on_register; `approved` is whether the approval filter
        returned something other than false. */
    method RewardOnRegister(userId: UserId, approved: bool)
      modifies this
      ensures State() == RewardEngine.RewardOnRegister(old(State()), userId, approved)
    {
      if settings.enabled && settings.requirePurchase == "no" && settings.amount > 0 {
        var userFound := userId != 0 && userId in users;
        var referrer := ReferralIdentity.GetReferrer(State(), if userFound then userId else 0);
        if userFound && referrer.Some? && referrer.value in users {
          if approved {
            ledger := ledger + [Credit(referrer.value, settings.amount, ReferredSignup(userId))];
          }
        }
      }
    }

    /** reward_on_purchase; `customer` is the customer of the order
        wc_get_order finds (None when it finds none) and `lifetimeValue` what
        wc_get_user_value reports for that customer. */
    method RewardOnPurchase(orderId: OrderId, newStatus: string, customer: Option<UserId>, lifetimeValue: int)
      modifies this
      ensures State() == RewardEngine.RewardOnPurchase(old(State()), orderId, newStatus, customer, lifetimeValue)
    {
      if settings.enabled && settings.requirePurchase == "yes" && settings.amount > 0 && newStatus == "completed" {
        if customer.Some? && orderId != 0 {
          var c := customer.value;
          var userFound := c != 0 && c in users;
          var referrer := ReferralIdentity.GetReferrer(State(), if userFound then c else 0);
          if userFound && referrer.Some? && referrer.value in users {
            var alreadyRewarded := c in rewarded && rewarded[c] != 0;
            if !alreadyRewarded && !(settings.threshold > 0 && lifetimeValue < settings.threshold) {
              ledger := ledger + [Credit(referrer.value, settings.amount, ReferredPurchase(c))];
              rewarded := rewarded[c := orderId];
            }
          }
        }
      }
    }
  }

  /** A client of the object: a customer referred by `referrer` completes
      two orders while purchase rewards of 10 are on with no threshold. The
      referrer is paid once, and the marker keeps the first order's id. */
  method TwoCompletedOrders(referrer: UserId, customer: UserId, order1: OrderId, order2: OrderId)
    returns (credits: seq<Credit>, marker: OrderId)
    requires referrer != 0 && customer != 0 && order1 != 0
    ensures credits == [Credit(referrer, 10, ReferredPurchase(customer))]
    ensures marker == order1
  {
    var action := new ReferralAction(Fresh({referrer, customer}, 0, Config(true, "yes", 0, 10)));
    action.SaveReferrer(customer, referrer);
    action.RewardOnPurchase(order1, "completed", Some(customer), 0);
    action.RewardOnPurchase(order2, "completed", Some(customer), 0);
    credits, marker := action.ledger, action.rewarded[customer];
  }

  /** A client of the object: with a threshold of 50, an order that leaves
      the customer's lifetime value at 30 pays nothing and sets no marker; a
      later order that brings it to 60 pays the referrer. */
  method ThresholdGating(referrer: UserId, customer: UserId, order1: OrderId, order2: OrderId)
    returns (afterFirst: seq<Credit>, markedAfterFirst: bool, afterSecond: seq<Credit>)
    requires referrer != 0 && customer != 0 && order1 != 0 && order2 != 0
    ensures afterFirst == [] && !markedAfterFirst
    ensures afterSecond == [Credit(referrer, 10, ReferredPurchase(customer))]
  {
    var action := new ReferralAction(Fresh({referrer, customer}, 0, Config(true, "yes", 50, 10)));
    action.SaveReferrer(customer, referrer);
    action.RewardOnPurchase(order1, "completed", Some(customer), 30);
    afterFirst, markedAfterFirst := action.ledger, Rewarded(action.State(), customer);
    action.RewardOnPurchase(order2, "completed", Some(customer), 60);
    afterSecond := action.ledger;
  }
}
