/** Plan changes within a billing period, and how their prorations add up under truncating division. */
module Proration {
  import opened Wrappers

  const DAY: int := 86_400

  /** Rust's `/` on integers truncates toward zero. */
  function TruncDiv(a: int, b: int): int
    requires b > 0
  {
    if a >= 0 then a / b else -((-a) / b)
  }

  function Abs(a: int): nat { if a < 0 then -a else a }

  function Max(a: int, b: int): int { if a > b then a else b }

  function Days(from: int, to: int): int { TruncDiv(to - from, DAY) }

  function TotalDays(startedAt: int, nextBillingAt: int): (d: int)
    ensures d >= 1
  {
    Max(Days(startedAt, nextBillingAt), 1)
  }

  function UnusedDays(startedAt: int, nextBillingAt: int, now: int): (d: int)
    ensures 0 <= d <= TotalDays(startedAt, nextBillingAt)
  {
    Max(TotalDays(startedAt, nextBillingAt) - Max(Days(startedAt, now), 0), 0)
  }

  /** Credit (positive) or charge for the unused days of a period. */
  function Prorate(oldPrice: int, newPrice: int, unused: int, total: int): int
    requires total > 0
  {
    TruncDiv((oldPrice - newPrice) * unused, total)
  }

  // ----- the service -----

  /** Timestamps are absent until the first billing period has been set up. */
  datatype Subscription = Subscription(planId: string, startedAt: Option<int>, nextBillingAt: Option<int>, prorationCents: int)

  function PriceOf(plans: map<string, int>, planId: string): int {
    if planId != "" && planId in plans then plans[planId] else 0
  }

  function NewPriceOf(plans: map<string, int>, planId: string): int {
    if planId in plans then plans[planId] else 0
  }

  function ProrationFor(plans: map<string, int>, s: Subscription, newPlanId: string, now: int): int {
    if s.startedAt.None? || s.nextBillingAt.None? then 0
    else
      Prorate(PriceOf(plans, s.planId), NewPriceOf(plans, newPlanId),
              UnusedDays(s.startedAt.value, s.nextBillingAt.value, now),
              TotalDays(s.startedAt.value, s.nextBillingAt.value))
  }

  function Changed(plans: map<string, int>, s: Subscription, newPlanId: string, now: int): Subscription {
    s.(planId := newPlanId, prorationCents := ProrationFor(plans, s, newPlanId, now),
       nextBillingAt := if s.startedAt.None? || s.nextBillingAt.None? then Some(now + 30 * DAY) else s.nextBillingAt)
  }

  class SubscriptionPlans {
    const plans: map<string, int>
    var subs: map<int, Subscription>

    constructor (plans: map<string, int>, subs: map<int, Subscription>)
      ensures this.plans == plans && this.subs == subs
    {
      this.plans, this.subs := plans, subs;
    }

    /** For an unknown tenant the update finds no row and the proration is zero. */
    method ChangePlan(now: int, tenantId: int, newPlanId: string) returns (proration: int)
      modifies this
      ensures tenantId in old(subs) ==>
        && proration == ProrationFor(plans, old(subs)[tenantId], newPlanId, now)
        && subs == old(subs)[tenantId := Changed(plans, old(subs)[tenantId], newPlanId, now)]
      ensures tenantId !in old(subs) ==> proration == 0 && subs == old(subs)
    {
      if tenantId !in subs {
        return 0;
      }
      var current := subs[tenantId];
      var oldPrice := if current.planId == "" then 0 else PriceOf(plans, current.planId);
      var newPrice := if newPlanId in plans then plans[newPlanId] else 0;
      var nextBilling;
      if current.startedAt.None? || current.nextBillingAt.None? {
        proration, nextBilling := 0, now + 30 * DAY;
      } else {
        var startedAt, nextBillingAt := current.startedAt.value, current.nextBillingAt.value;
        var totalDays := Max(TruncDiv(nextBillingAt - startedAt, DAY), 1);
        var usedDays := Max(TruncDiv(now - startedAt, DAY), 0);
        var unusedDays := Max(totalDays - usedDays, 0);
        proration := TruncDiv((oldPrice - newPrice) * unusedDays, totalDays);
        nextBilling := nextBillingAt;
      }
      subs := subs[tenantId :=
        current.(planId := newPlanId, prorationCents := proration, nextBillingAt := Some(nextBilling))];
    }
  }

  // ----- arithmetic of truncation -----

  /** Quotient and remainder, the remainder with the sign of the dividend. */
  lemma TruncDivSplits(a: int, b: int) returns (q: int, r: int)
    requires b > 0
    ensures q == TruncDiv(a, b) && a == q * b + r && Abs(r) < b
    ensures (a >= 0 ==> r >= 0) && (a <= 0 ==> r <= 0)
  {
    q := TruncDiv(a, b);
    r := a - q * b;
    if a < 0 {
      assert -a == (-a) / b * b + (-a) % b;
      assert q * b == -((-a) / b * b);
    }
  }

  lemma MulMono(a: int, b: int, c: int)
    requires a <= b && 0 <= c
    ensures a * c <= b * c
  {
  }

  lemma SmallMultiple(k: int, b: int, bound: int)
    requires b > 0 && bound >= 0 && -((bound + 1) * b) < k * b < (bound + 1) * b
    ensures -bound <= k <= bound
  {
    if k > bound {
      MulMono(bound + 1, k, b);
    } else if k < -bound {
      MulMono(k, -(bound + 1), b);
    }
  }

  /** Three divisions by `b` whose dividends add up. */
  lemma QuotientsAlmostAdd(p: int, r: int, q: int, s: int, t: int, u: int, b: int)
    requires b > 0 && p * b + r + q * b + s == t * b + u
    requires -2 * b < r + s - u < 2 * b
    ensures Abs(t - p - q) <= 1
  {
    var k := t - p - q;
    assert k * b == t * b - p * b - q * b;
    SmallMultiple(k, b, 1);
  }

  /** Truncating a sum and summing truncations differ by at most one. */
  lemma TruncDivAlmostAdds(x: int, y: int, b: int)
    requires b > 0
    ensures Abs(TruncDiv(x + y, b) - TruncDiv(x, b) - TruncDiv(y, b)) <= 1
  {
    hide TruncDiv;
    var p, r := TruncDivSplits(x, b);
    var q, s := TruncDivSplits(y, b);
    var t, u := TruncDivSplits(x + y, b);
    QuotientsAlmostAdd(p, r, q, s, t, u, b);
  }

  // ----- one change -----

  /** Swapping the plans negates the proration exactly, and it never exceeds the price difference. */
  lemma ProrationIsFair(oldPrice: int, newPrice: int, unused: int, total: int)
    requires 0 <= unused <= total && total > 0
    ensures Prorate(newPrice, oldPrice, unused, total) == -Prorate(oldPrice, newPrice, unused, total)
    ensures Abs(Prorate(oldPrice, newPrice, unused, total)) <= Abs(oldPrice - newPrice)
    ensures oldPrice >= newPrice ==> Prorate(oldPrice, newPrice, unused, total) >= 0
    ensures oldPrice <= newPrice ==> Prorate(oldPrice, newPrice, unused, total) <= 0
    ensures unused == total ==> Prorate(oldPrice, newPrice, unused, total) == oldPrice - newPrice
  {
    var d := oldPrice - newPrice;
    assert (newPrice - oldPrice) * unused == -(d * unused);
    ShareIsSmaller(Abs(d), unused, total);
    if d < 0 {
      assert -(d * unused) == (-d) * unused;
    }
  }

  lemma QuotientBounds(x: int, total: int)
    requires total > 0
    ensures (x / total) * total <= x < (x / total + 1) * total
  {
  }

  lemma LessByMultiples(a: int, b: int, total: int)
    requires total > 0 && a * total < b * total
    ensures a < b
  {
    if a >= b { MulMono(b, a, total); }
  }

  lemma QuotientAtMost(x: int, d: int, total: int)
    requires total > 0 && 0 <= x <= d * total
    ensures 0 <= x / total <= d
    ensures x == d * total ==> x / total == d
  {
    var q := x / total;
    QuotientBounds(x, total);
    LessByMultiples(q, d + 1, total) by { assert (d + 1) * total == d * total + total; }
    LessByMultiples(-1, q, total) by { assert (q + 1) * total == q * total + total; }
    if x == d * total {
      LessByMultiples(d, q + 1, total);
    }
  }

  lemma ShareIsSmaller(d: nat, unused: int, total: int)
    requires 0 <= unused <= total && total > 0
    ensures 0 <= d * unused && 0 <= (d * unused) / total <= d
    ensures unused == total ==> (d * unused) / total == d
  {
    MulMono(unused, total, d);
    MulMono(0, unused, d);
    QuotientAtMost(d * unused, d, total);
  }

  // ----- over the period -----

  lemma WholeDays(days: int, rest: int)
    requires 0 <= days && 0 <= rest < 86_400
    ensures TruncDiv(days * 86_400 + rest, 86_400) == days
  {
  }

  lemma NoDayYet(late: int)
    requires 0 <= late
    ensures TruncDiv(-late, 86_400) <= 0
  {
  }

  /**
    On day `d` of a period of `n` days the remaining `n - d` days count, before it all of them, and
    none once it is over.
   */
  lemma DaysLeft(startedAt: int, n: int, d: int, rest: int, late: int)
    requires 1 <= n && 0 <= d && 0 <= rest < 86_400 && 0 <= late
    ensures TotalDays(startedAt, startedAt + n * 86_400) == n
    ensures UnusedDays(startedAt, startedAt + n * 86_400, startedAt + d * 86_400 + rest) == if d <= n then n - d else 0
    ensures UnusedDays(startedAt, startedAt + n * 86_400, startedAt - late) == n
  {
    WholeDays(n, 0);
    WholeDays(d, rest);
    NoDayYet(late);
  }

  /**
    What a change of plan on day `d` of a period of `n` days returns: the price difference for the
    days that are left, no plan and a plan that is not in the catalogue costing nothing.
   */
  lemma ChangeOnDay(plans: map<string, int>, s: Subscription, newPlanId: string, n: int, d: int, rest: int)
    requires s.startedAt.Some? && 1 <= n && s.nextBillingAt == Some(s.startedAt.value + n * 86_400)
    requires 0 <= d <= n && 0 <= rest < 86_400
    ensures var oldPrice, newPrice :=
        if s.planId == "" || s.planId !in plans then 0 else plans[s.planId],
        if newPlanId in plans then plans[newPlanId] else 0;
      var p := ProrationFor(plans, s, newPlanId, s.startedAt.value + d * 86_400 + rest);
      && p == TruncDiv((oldPrice - newPrice) * (n - d), n)
      && (d == 0 ==> p == oldPrice - newPrice) && (d == n ==> p == 0)
  {
    DaysLeft(s.startedAt.value, n, d, rest, 0);
    var oldPrice, newPrice := PriceOf(plans, s.planId), NewPriceOf(plans, newPlanId);
    ProrationIsFair(oldPrice, newPrice, n - d, n);
  }

  /** Later in the period a change never counts for more. */
  lemma LaterCountsForLess(oldPrice: int, newPrice: int, earlier: int, later: int, total: int)
    requires 0 <= later <= earlier && total > 0
    ensures Abs(Prorate(oldPrice, newPrice, later, total)) <= Abs(Prorate(oldPrice, newPrice, earlier, total))
  {
    var d := Abs(oldPrice - newPrice);
    MulMono(later, earlier, d);
    MulMono(0, later, d);
    QuotientGrows(d * later, d * earlier, total);
    if oldPrice < newPrice {
      assert (oldPrice - newPrice) * later == -(d * later) && (oldPrice - newPrice) * earlier == -(d * earlier);
    }
  }

  lemma QuotientGrows(x: int, y: int, total: int)
    requires 0 <= x <= y && total > 0
    ensures 0 <= x / total <= y / total
  {
    QuotientBounds(x, total);
    QuotientBounds(y, total);
    LessByMultiples(x / total, y / total + 1, total);
    LessByMultiples(-1, x / total, total) by { assert (x / total + 1) * total == x / total * total + total; }
  }

  /** Without a billing period nothing is prorated, and one of thirty days begins. */
  lemma FirstPeriod(plans: map<string, int>, s: Subscription, newPlanId: string, now: int)
    requires s.startedAt.None? || s.nextBillingAt.None?
    ensures ProrationFor(plans, s, newPlanId, now) == 0
    ensures Changed(plans, s, newPlanId, now) == Subscription(newPlanId, s.startedAt, Some(now + 30 * 86_400), 0)
  {
  }

  // ----- a chain of changes -----

  /** The prorations of changing from price to price along the list. */
  function ChainSum(prices: seq<int>, unused: int, total: int): int
    requires total > 0
  {
    if |prices| < 2 then 0
    else
      var k := |prices| - 1;
      ChainSum(prices[..k], unused, total) + Prorate(prices[k - 1], prices[k], unused, total)
  }

  /** What truncation cuts off, with the sign of the dividend. */
  function Cut(a: int, b: int): int
    requires b > 0
  {
    a - TruncDiv(a, b) * b
  }

  lemma CutBounds(a: int, b: int)
    requires b > 0
    ensures a >= 0 ==> 0 <= Cut(a, b) <= b - 1
    ensures a <= 0 ==> -(b - 1) <= Cut(a, b) <= 0
  {
    var q, r := TruncDivSplits(a, b);
  }

  function CutSum(prices: seq<int>, unused: int, total: int): int
    requires total > 0
  {
    if |prices| < 2 then 0
    else
      var k := |prices| - 1;
      CutSum(prices[..k], unused, total) + Cut((prices[k - 1] - prices[k]) * unused, total)
  }

  /** The changes of a chain add up to the direct change before anything is cut off. */
  lemma {:induction false} ChainTelescopes(prices: seq<int>, unused: int, total: int)
    requires total > 0 && prices != []
    ensures (prices[0] - prices[|prices| - 1]) * unused
         == ChainSum(prices, unused, total) * total + CutSum(prices, unused, total)
    decreases |prices|
  {
    hide TruncDiv;
    if |prices| >= 2 {
      var k := |prices| - 1;
      ChainTelescopes(prices[..k], unused, total);
      assert (prices[0] - prices[k]) * unused == (prices[0] - prices[k - 1]) * unused + (prices[k - 1] - prices[k]) * unused;
      var before, step := ChainSum(prices[..k], unused, total), Prorate(prices[k - 1], prices[k], unused, total);
      assert (before + step) * total == before * total + step * total;
    }
  }

  /** Each change cuts off less than a cent; if the sum has the other sign, one change cuts the other way. */
  lemma {:induction false} CutSumBounds(prices: seq<int>, unused: int, total: int)
    requires total > 0 && |prices| >= 2
    ensures var n, x := |prices| - 1, (prices[0] - prices[|prices| - 1]) * unused;
      && -n * (total - 1) <= CutSum(prices, unused, total) <= n * (total - 1)
      && (x < 0 ==> CutSum(prices, unused, total) <= (n - 1) * (total - 1))
      && (x > 0 ==> -(n - 1) * (total - 1) <= CutSum(prices, unused, total))
    decreases |prices|
  {
    hide Cut, TruncDiv;
    var k := |prices| - 1;
    var step := (prices[k - 1] - prices[k]) * unused;
    CutBounds(step, total);
    if k == 1 {
      assert CutSum(prices[..1], unused, total) == 0;
    } else {
      CutSumBounds(prices[..k], unused, total);
      var x := (prices[0] - prices[k - 1]) * unused;
      assert (prices[0] - prices[k]) * unused == x + step;
      OneMore(k - 1, total - 1);
      OneMore(k - 2, total - 1);
    }
  }

  lemma OneMore(n: int, t: int)
    ensures (n + 1) * t == n * t + t && -(n + 1) * t == -n * t - t
  {
  }

  function CeilDiv(a: nat, b: int): (c: nat)
    requires b > 0
    ensures (c - 1) * b < a <= c * b
  {
    var q := a / b;
    assert a == q * b + a % b && (q + 1) * b == q * b + b && (q - 1) * b == q * b - b;
    if a % b == 0 then q else q + 1
  }

  /** In cents, the most that `n` changes can lose: one each, less one for every `total` of them begun. */
  function Slack(n: nat, total: int): int
    requires total > 0
  {
    n - CeilDiv(n, total)
  }

  /** A multiple of `total` that n changes can cut off is at most the slack. */
  lemma WithinSlack(e: int, n: nat, total: int)
    requires total > 0 && e * total <= n * (total - 1)
    ensures e <= Slack(n, total)
  {
    var c := CeilDiv(n, total);
    assert n * (total - 1) == n * total - n;
    assert (n - c + 1) * total == n * total - (c - 1) * total;
    LessByMultiples(e, n - c + 1, total);
  }

  /** A chain of n changes adds up to the direct change, within n cents less one for every `total` changes begun. */
  lemma ChainIsAlmostDirect(prices: seq<int>, unused: int, total: int)
    requires total > 0 && |prices| >= 2
    ensures Abs(ChainSum(prices, unused, total) - Prorate(prices[0], prices[|prices| - 1], unused, total))
         <= Slack(|prices| - 1, total)
  {
    hide TruncDiv, Slack, ChainSum, CutSum;
    var n := |prices| - 1;
    var x := (prices[0] - prices[n]) * unused;
    var sum, direct := ChainSum(prices, unused, total), Prorate(prices[0], prices[n], unused, total);
    ChainTelescopes(prices, unused, total);
    CutSumBounds(prices, unused, total);
    CutBounds(x, total);
    assert direct * total == x - Cut(x, total);
    assert (direct - sum) * total == direct * total - sum * total;
    assert (sum - direct) * total == -((direct - sum) * total);
    OneMore(n - 1, total - 1);
    WithinSlack(direct - sum, n, total);
    WithinSlack(sum - direct, n, total);
  }

  /** Prices `top`, `top - 1`, ..., `top - n`. */
  function Descending(top: int, n: nat): (prices: seq<int>)
    ensures |prices| == n + 1 && prices[0] == top && prices[n] == top - n
  {
    if n == 0 then [top] else Descending(top, n - 1) + [top - n]
  }

  /** The bound is attained for every n: drops of one cent, a day into the period, all vanish. */
  lemma BoundIsAttained(top: int, n: nat, total: int)
    requires 0 < n && 0 < total
    ensures ChainSum(Descending(top, n), total - 1, total) == 0
    ensures Prorate(top, top - n, total - 1, total) == Slack(n, total)
  {
    hide ChainSum;
    StepsVanish(top, n, total);
    var c := CeilDiv(n, total);
    assert n * (total - 1) == (n - c) * total + (c * total - n);
    assert (c - 1) * total == c * total - total;
    AtLeastOneEach(n, total);
    QuotientIs(n * (total - 1), total, n - c, c * total - n);
  }

  lemma AtLeastOneEach(n: nat, total: int)
    requires total > 0
    ensures CeilDiv(n, total) <= n
  {
    if CeilDiv(n, total) > n { MulMono(n, CeilDiv(n, total) - 1, total); MulMono(1, total, n); }
  }

  lemma QuotientIs(a: int, b: int, q: int, r: int)
    requires 0 <= r < b && a == q * b + r && q >= 0
    ensures a >= 0 && a / b == q
  {
    var p := a / b;
    assert a == p * b + a % b;
    assert (p - q) * b == r - a % b;
    SmallMultiple(p - q, b, 0);
    assert q * b >= 0;
  }

  lemma OneCentVanishes(price: int, total: int)
    requires total > 0
    ensures Prorate(price, price - 1, total - 1, total) == 0
  {
    assert (price - (price - 1)) * (total - 1) == total - 1;
    QuotientIs(total - 1, total, 0, total - 1);
  }

  lemma {:induction false} StepsVanish(top: int, n: nat, total: int)
    requires total > 0
    ensures ChainSum(Descending(top, n), total - 1, total) == 0
    decreases n
  {
    if n > 0 {
      hide Prorate;
      StepsVanish(top, n - 1, total);
      assert Descending(top, n)[..n] == Descending(top, n - 1);
      OneCentVanishes(top - n + 1, total);
    }
  }

  // ----- through the service -----

  /** One tenant's plan changes, each at its own instant. */
  datatype Change = Change(now: int, planId: string)

  function Replay(plans: map<string, int>, s: Subscription, changes: seq<Change>): Subscription {
    if changes == [] then s
    else
      var k := |changes| - 1;
      Changed(plans, Replay(plans, s, changes[..k]), changes[k].planId, changes[k].now)
  }

  /** The sum of what the calls return. */
  function Returned(plans: map<string, int>, s: Subscription, changes: seq<Change>): int {
    if changes == [] then 0
    else
      var k := |changes| - 1;
      Returned(plans, s, changes[..k])
      + ProrationFor(plans, Replay(plans, s, changes[..k]), changes[k].planId, changes[k].now)
  }

  function Prices(plans: map<string, int>, s: Subscription, changes: seq<Change>): (prices: seq<int>)
    ensures |prices| == |changes| + 1
  {
    if changes == [] then [PriceOf(plans, s.planId)]
    else
      var k := |changes| - 1;
      Prices(plans, s, changes[..k]) + [NewPriceOf(plans, changes[k].planId)]
  }

  predicate SameDay(s: Subscription, a: int, b: int) {
    s.startedAt.Some? ==> Days(s.startedAt.value, a) == Days(s.startedAt.value, b)
  }

  /** Changing plans leaves the period alone, and the old price of a call is the new price of the last. */
  lemma {:induction false} ReplayIsAChain(plans: map<string, int>, s: Subscription, changes: seq<Change>, day: int)
    requires s.startedAt.Some? && s.nextBillingAt.Some? && "" !in plans
    requires forall i :: 0 <= i < |changes| ==> SameDay(s, changes[i].now, day)
    ensures var last := Replay(plans, s, changes);
      && last.startedAt == s.startedAt && last.nextBillingAt == s.nextBillingAt
      && PriceOf(plans, last.planId) == Prices(plans, s, changes)[|changes|]
    ensures Prices(plans, s, changes)[0] == PriceOf(plans, s.planId)
    ensures Returned(plans, s, changes) ==
      ChainSum(Prices(plans, s, changes), UnusedDays(s.startedAt.value, s.nextBillingAt.value, day),
               TotalDays(s.startedAt.value, s.nextBillingAt.value))
    decreases |changes|
  {
    if changes != [] {
      hide TruncDiv, Prorate;
      var k := |changes| - 1;
      ReplayIsAChain(plans, s, changes[..k], day);
      assert Prices(plans, s, changes)[..k + 1] == Prices(plans, s, changes[..k]);
    }
  }

  /** The chain starts at the current price and ends at the last plan's, which the direct change goes to. */
  lemma DirectChange(plans: map<string, int>, s: Subscription, changes: seq<Change>)
    requires s.startedAt.Some? && s.nextBillingAt.Some? && changes != []
    requires Prices(plans, s, changes)[0] == PriceOf(plans, s.planId)
    ensures ProrationFor(plans, s, changes[|changes| - 1].planId, changes[0].now)
      == Prorate(Prices(plans, s, changes)[0], Prices(plans, s, changes)[|changes|],
                 UnusedDays(s.startedAt.value, s.nextBillingAt.value, changes[0].now),
                 TotalDays(s.startedAt.value, s.nextBillingAt.value))
  {
    hide Prorate, PriceOf, NewPriceOf, UnusedDays, TotalDays;
  }

  /**
    Any number of plan changes on the same day of a period return, in total, what the one direct
    change would have returned, within a cent for every change, less one for every length of the
    period (in days) that the number of changes begins.
   */
  lemma SameDayChangesAddUp(plans: map<string, int>, s: Subscription, changes: seq<Change>)
    requires s.startedAt.Some? && s.nextBillingAt.Some? && "" !in plans && changes != []
    requires forall i :: 0 <= i < |changes| ==> SameDay(s, changes[i].now, changes[0].now)
    ensures Abs(Returned(plans, s, changes)
                - ProrationFor(plans, s, changes[|changes| - 1].planId, changes[0].now))
         <= Slack(|changes|, TotalDays(s.startedAt.value, s.nextBillingAt.value))
  {
    hide *;
    var prices := Prices(plans, s, changes);
    var total := TotalDays(s.startedAt.value, s.nextBillingAt.value);
    ReplayIsAChain(plans, s, changes, changes[0].now);
    DirectChange(plans, s, changes);
    ChainIsAlmostDirect(prices, UnusedDays(s.startedAt.value, s.nextBillingAt.value, changes[0].now), total);
  }
}
