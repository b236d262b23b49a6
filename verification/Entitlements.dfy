/** The pure entitlement resolver. */
module Entitlements {
  import opened Wrappers

  datatype Entitlement = Entitlement(id: int, appId: int, identifier: string)

  datatype Product = Product(id: int, appId: int, storeProductId: string)

  datatype Subscription = Subscription(
    id: int, customerId: int, productId: Option<int>, store: string, originalTransactionId: string,
    periodStart: Option<int>, periodEnd: Option<int>, status: string, autoRenew: bool,
    graceUntil: Option<int>, isTrial: bool, updatedAt: int)

  datatype EntitlementInfo = EntitlementInfo(
    identifier: string, isActive: bool, willRenew: bool, periodType: string,
    latestPurchase: Option<int>, expires: Option<int>, graceUntil: Option<int>,
    store: string, productIdentifier: Option<string>)

  predicate Matches(sub: Subscription, productIds: seq<int>) {
    sub.productId.Some? && sub.productId.value in productIds
  }

  predicate Unexpired(sub: Subscription, now: int) {
    sub.periodEnd.Some? ==> sub.periodEnd.value > now
  }

  predicate InGrace(sub: Subscription, now: int) {
    sub.graceUntil.Some? && sub.graceUntil.value > now
  }

  predicate IsMoreRelevant(current: Option<Subscription>, candidate: Subscription, now: int) {
    if current.None? then true
    else
      var candActive := if candidate.periodEnd.Some? then candidate.periodEnd.value > now else true;
      var curActive := if current.value.periodEnd.Some? then current.value.periodEnd.value > now else true;
      if candActive != curActive then candActive
      else
        match (candidate.periodEnd, current.value.periodEnd)
        case (Some(a), Some(b)) => a > b
        case (Some(_), None) => true
        case _ => false
  }

  /** The last product with that id, as building a map from the list leaves it. */
  function ProductIdentifier(products: seq<Product>, id: int): Option<string> {
    if products == [] then None
    else
      var last := products[|products| - 1];
      if last.id == id then Some(last.storeProductId) else ProductIdentifier(products[..|products| - 1], id)
  }

  function NoSubscription(identifier: string): EntitlementInfo {
    EntitlementInfo(identifier, false, false, "normal", None, None, None, "unknown", None)
  }

  function InfoFrom(identifier: string, s: Subscription, products: seq<Product>, now: int): EntitlementInfo {
    var expired := if s.periodEnd.Some? then s.periodEnd.value <= now else false;
    var inGrace := if s.graceUntil.Some? then s.graceUntil.value > now else false;
    EntitlementInfo(
      identifier, !expired || inGrace, s.autoRenew,
      if s.isTrial then "trial" else if inGrace then "grace" else "normal",
      s.periodStart, s.periodEnd, s.graceUntil, s.store,
      if s.productId.Some? then ProductIdentifier(products, s.productId.value) else None)
  }

  /** The subscription the loop ends up with. */
  function Best(subs: seq<Subscription>, productIds: seq<int>, now: int): Option<Subscription> {
    if subs == [] then None
    else
      var k := |subs| - 1;
      var best := Best(subs[..k], productIds, now);
      if Matches(subs[k], productIds) && IsMoreRelevant(best, subs[k], now) then Some(subs[k]) else best
  }

  function Info(ent: Entitlement, productIds: seq<int>, subs: seq<Subscription>,
                products: seq<Product>, now: int): EntitlementInfo
  {
    var best := Best(subs, productIds, now);
    if best.None? then NoSubscription(ent.identifier) else InfoFrom(ent.identifier, best.value, products, now)
  }

  method Resolve(entitlements: seq<(Entitlement, seq<int>)>, subs: seq<Subscription>,
                 products: seq<Product>, now: int) returns (out: seq<EntitlementInfo>)
    ensures |out| == |entitlements|
    ensures forall i :: 0 <= i < |out| ==>
      out[i] == Info(entitlements[i].0, entitlements[i].1, subs, products, now)
  {
    out := [];
    for i := 0 to |entitlements|
      invariant |out| == i
      invariant forall k :: 0 <= k < i ==>
        out[k] == Info(entitlements[k].0, entitlements[k].1, subs, products, now)
    {
      var (ent, productIds) := entitlements[i];
      var best: Option<Subscription> := None;
      for j := 0 to |subs|
        invariant best == Best(subs[..j], productIds, now)
      {
        assert subs[..j + 1][..j] == subs[..j];
        if subs[j].productId.Some? {
          if subs[j].productId.value in productIds {
            if IsMoreRelevant(best, subs[j], now) {
              best := Some(subs[j]);
            }
          }
        }
      }
      assert subs[..|subs|] == subs;
      var info := if best.None? then NoSubscription(ent.identifier)
                  else InfoFrom(ent.identifier, best.value, products, now);
      out := out + [info];
    }
  }

  // ----- the order -----

  predicate Beats(a: Subscription, b: Subscription, now: int) {
    IsMoreRelevant(Some(b), a, now)
  }

  predicate Ties(a: Subscription, b: Subscription, now: int) {
    !Beats(a, b, now) && !Beats(b, a, now)
  }

  /** A strict weak order: unexpired before expired, then later expiry, "never" counting as earliest. */
  lemma BeatsIsAStrictWeakOrder(a: Subscription, b: Subscription, c: Subscription, now: int)
    ensures !Beats(a, a, now)
    ensures Beats(a, b, now) && Beats(b, c, now) ==> Beats(a, c, now)
    ensures Ties(a, b, now) && Ties(b, c, now) ==> Ties(a, c, now)
  {
  }

  /** Whoever is not beaten by a winner is not beaten by what the winner beats. */
  lemma BeatsNegated(a: Subscription, b: Subscription, c: Subscription, now: int)
    ensures Beats(a, b, now) && !Beats(c, b, now) ==> Beats(a, c, now)
    ensures Beats(a, b, now) && !Beats(c, a, now) && Beats(c, b, now) ==> !Beats(b, c, now)
  {
  }

  /** `k` is the first of the matching subscriptions that no matching one beats. */
  ghost predicate IsFirstMaximum(subs: seq<Subscription>, productIds: seq<int>, now: int, k: nat) {
    && k < |subs| && Matches(subs[k], productIds)
    && (forall j :: 0 <= j < |subs| && Matches(subs[j], productIds) ==> !Beats(subs[j], subs[k], now))
    && (forall j :: 0 <= j < k && Matches(subs[j], productIds) ==> Beats(subs[k], subs[j], now))
  }

  lemma {:induction false} BestIsFirstMaximum(subs: seq<Subscription>, productIds: seq<int>, now: int)
    returns (k: nat)
    ensures Best(subs, productIds, now).None? <==> forall j :: 0 <= j < |subs| ==> !Matches(subs[j], productIds)
    ensures Best(subs, productIds, now).Some? ==>
      IsFirstMaximum(subs, productIds, now, k) && Best(subs, productIds, now) == Some(subs[k])
    decreases |subs|
  {
    k := 0;
    if subs != [] {
      var n := |subs| - 1;
      var prefix := subs[..n];
      k := BestIsFirstMaximum(prefix, productIds, now);
      var best := Best(prefix, productIds, now);
      assert forall j :: 0 <= j < n ==> subs[j] == prefix[j];
      if Matches(subs[n], productIds) && IsMoreRelevant(best, subs[n], now) {
        forall j | 0 <= j < n && Matches(subs[j], productIds)
          ensures Beats(subs[n], subs[j], now) && !Beats(subs[j], subs[n], now)
        {
          assert best.Some?;
          BeatsNegated(subs[n], prefix[k], subs[j], now);
          BeatsIsAStrictWeakOrder(subs[j], subs[n], subs[j], now);
        }
        BeatsIsAStrictWeakOrder(subs[n], subs[n], subs[n], now);
        k := n;
      }
    }
  }

  /**
    The pick in plain terms: a matching subscription, unexpired if any matching one is, and with the
    latest period end among those that are as unexpired as it is.  One that never ends counts as
    earliest, so it is picked only if no dated one is left.
   */
  lemma PickIsLatest(subs: seq<Subscription>, productIds: seq<int>, now: int)
    ensures Best(subs, productIds, now).None? <==>
      forall s :: s in subs ==> s.productId.None? || s.productId.value !in productIds
    ensures Best(subs, productIds, now).Some? ==> var b := Best(subs, productIds, now).value;
      && b in subs && b.productId.Some? && b.productId.value in productIds
      && forall s :: s in subs && s.productId.Some? && s.productId.value in productIds ==>
           var on, off := s.periodEnd.None? || s.periodEnd.value > now, b.periodEnd.None? || b.periodEnd.value > now;
           && (on ==> off)
           && (on == off && s.periodEnd.Some? ==> b.periodEnd.Some? && s.periodEnd.value <= b.periodEnd.value)
  {
    var k := BestIsFirstMaximum(subs, productIds, now);
    if Best(subs, productIds, now).Some? {
      forall s | s in subs && Matches(s, productIds) ensures !Beats(s, subs[k], now) {
        var j :| 0 <= j < |subs| && subs[j] == s;
      }
    } else {
      forall s | s in subs ensures !Matches(s, productIds) {
        var j :| 0 <= j < |subs| && subs[j] == s;
      }
    }
  }

  /** A subscription that never ends is passed over for one that ends soon, whose dates are then reported. */
  lemma LifetimeIsPassedOver(ent: Entitlement, products: seq<Product>)
    ensures var forever := Subscription(1, 1, Some(10), "s", "a", None, None, "active", false, None, false, 0);
      var month := Subscription(2, 1, Some(10), "s", "b", None, Some(11), "active", true, None, false, 0);
      var info := Info(ent, [10], [forever, month], products, 10);
      info.isActive && info.expires == Some(11) && info.willRenew
  {
    var forever := Subscription(1, 1, Some(10), "s", "a", None, None, "active", false, None, false, 0);
    var month := Subscription(2, 1, Some(10), "s", "b", None, Some(11), "active", true, None, false, 0);
    PickIsLatest([forever, month], [10], 10);
    assert month in [forever, month];
  }

  /** The reported product is one of the catalogue with the subscription's product id. */
  lemma {:induction false} IdentifierIsOfTheProduct(products: seq<Product>, id: int)
    ensures ProductIdentifier(products, id).Some? <==> exists p :: p in products && p.id == id
    ensures ProductIdentifier(products, id).Some? ==>
      exists p :: p in products && p.id == id && ProductIdentifier(products, id) == Some(p.storeProductId)
    decreases |products|
  {
    if products != [] {
      var k := |products| - 1;
      IdentifierIsOfTheProduct(products[..k], id);
      assert forall p :: p in products <==> p in products[..k] || p == products[k];
    }
  }

  /** What is reported about the picked subscription, and what if there is none. */
  lemma InfoTells(ent: Entitlement, productIds: seq<int>, subs: seq<Subscription>, products: seq<Product>, now: int)
    ensures var i, best := Info(ent, productIds, subs, products, now), Best(subs, productIds, now);
      && i.identifier == ent.identifier
      && (best.None? ==>
            && !i.isActive && !i.willRenew && i.periodType == "normal" && i.store == "unknown"
            && i.latestPurchase.None? && i.expires.None? && i.graceUntil.None? && i.productIdentifier.None?)
      && (best.Some? ==> var s := best.value;
            && (i.isActive <==>
                  s.periodEnd.None? || s.periodEnd.value > now || (s.graceUntil.Some? && s.graceUntil.value > now))
            && i.willRenew == s.autoRenew && i.store == s.store
            && i.latestPurchase == s.periodStart && i.expires == s.periodEnd && i.graceUntil == s.graceUntil
            && (i.periodType == "trial" <==> s.isTrial)
            && (i.periodType == "grace" <==> !s.isTrial && s.graceUntil.Some? && s.graceUntil.value > now)
            && i.periodType in {"trial", "grace", "normal"}
            && (i.productIdentifier.Some? <==> exists p :: p in products && s.productId == Some(p.id))
            && (i.productIdentifier.Some? ==>
                  exists p :: p in products && s.productId == Some(p.id) && i.productIdentifier == Some(p.storeProductId)))
  {
    hide Best, ProductIdentifier;
    var best := Best(subs, productIds, now);
    if best.Some? && best.value.productId.Some? { IdentifierIsOfTheProduct(products, best.value.productId.value); }
  }

  // ----- what activity means -----

  predicate AnyUnexpired(subs: seq<Subscription>, productIds: seq<int>, now: int) {
    exists j :: 0 <= j < |subs| && Matches(subs[j], productIds) && Unexpired(subs[j], now)
  }

  /**
    An entitlement is active exactly when some matching subscription is unexpired, or the one
    that was picked is in its grace period.
   */
  lemma ActiveMeans(ent: Entitlement, productIds: seq<int>, subs: seq<Subscription>, products: seq<Product>, now: int)
    ensures Info(ent, productIds, subs, products, now).isActive <==>
      AnyUnexpired(subs, productIds, now)
      || (Best(subs, productIds, now).Some? && InGrace(Best(subs, productIds, now).value, now))
  {
    var k := BestIsFirstMaximum(subs, productIds, now);
    if AnyUnexpired(subs, productIds, now) {
      var j :| 0 <= j < |subs| && Matches(subs[j], productIds) && Unexpired(subs[j], now);
      assert !Beats(subs[j], subs[k], now);
    }
  }

  /** Another matching subscription in grace does not help: only the picked one's grace counts. */
  lemma GraceOfTheOthersIsIgnored(ent: Entitlement, products: seq<Product>)
    ensures var late := Subscription(1, 1, Some(10), "s", "a", None, Some(5), "expired", false, None, false, 0);
      var grace := Subscription(2, 1, Some(10), "s", "b", None, Some(4), "expired", false, Some(20), false, 0);
      && Matches(grace, [10]) && InGrace(grace, 10)
      && !Info(ent, [10], [late, grace], products, 10).isActive
  {
    var late := Subscription(1, 1, Some(10), "s", "a", None, Some(5), "expired", false, None, false, 0);
    var grace := Subscription(2, 1, Some(10), "s", "b", None, Some(4), "expired", false, Some(20), false, 0);
    var k := BestIsFirstMaximum([late, grace], [10], 10);
    assert [late, grace][0] == late && [late, grace][1] == grace;
    assert Best([late, grace], [10], 10).Some? by { assert Matches([late, grace][0], [10]); }
    assert Beats(late, grace, 10);
  }

  /** Among expired subscriptions the choice no longer depends on the time. */
  lemma {:induction false} BestIsStableOnceExpired(subs: seq<Subscription>, productIds: seq<int>, now: int, later: int)
    requires now <= later && !AnyUnexpired(subs, productIds, now)
    ensures Best(subs, productIds, later) == Best(subs, productIds, now)
    ensures Best(subs, productIds, now).Some? ==>
      Matches(Best(subs, productIds, now).value, productIds) && !Unexpired(Best(subs, productIds, now).value, now)
    decreases |subs|
  {
    if subs != [] {
      var n := |subs| - 1;
      assert forall j :: 0 <= j < n ==> subs[..n][j] == subs[j];
      BestIsStableOnceExpired(subs[..n], productIds, now, later);
    }
  }

  /** Time alone never re-activates an entitlement. */
  lemma InactiveStaysInactive(ent: Entitlement, productIds: seq<int>, subs: seq<Subscription>,
                              products: seq<Product>, now: int, later: int)
    requires now <= later && !Info(ent, productIds, subs, products, now).isActive
    ensures !Info(ent, productIds, subs, products, later).isActive
  {
    ActiveMeans(ent, productIds, subs, products, now);
    ActiveMeans(ent, productIds, subs, products, later);
    BestIsStableOnceExpired(subs, productIds, now, later);
    forall j | 0 <= j < |subs| && Unexpired(subs[j], later) ensures Unexpired(subs[j], now) {
    }
  }
}
