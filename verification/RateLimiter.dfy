/** The in-memory token-bucket limiter, over exact reals instead of `f64`. */
module RateLimiter {

  datatype Config = Config(capacity: real, refillPerSecond: real) {
    predicate Valid() { 0.0 <= capacity && 0.0 <= refillPerSecond }
  }

  datatype Bucket = Bucket(tokens: real, lastUpdated: real)

  type Buckets = map<string, Bucket>

  /** What a wait of `d` seconds refills. */
  function Refill(cfg: Config, d: real): real { d * cfg.refillPerSecond }

  function Min(a: real, b: real): real { if a <= b then a else b }

  /** The level a check of `key` at `now` finds after refilling; an unseen key starts full. */
  function Level(cfg: Config, bs: Buckets, key: string, now: real): real {
    if key in bs
    then Min(bs[key].tokens + Refill(cfg, now - bs[key].lastUpdated), cfg.capacity)
    else cfg.capacity
  }

  function Allowed(cfg: Config, bs: Buckets, key: string, now: real): bool {
    Level(cfg, bs, key, now) >= 1.0
  }

  function After(cfg: Config, bs: Buckets, key: string, now: real): Buckets {
    var level := Level(cfg, bs, key, now);
    bs[key := Bucket(if level >= 1.0 then level - 1.0 else level, now)]
  }

  class Limiter {
    const cfg: Config
    var buckets: Buckets

    constructor (capacity: real, refillPerSecond: real)
      ensures cfg == Config(capacity, refillPerSecond) && buckets == map[]
    {
      cfg := Config(capacity, refillPerSecond);
      buckets := map[];
    }

    method Check(key: string, now: real) returns (allowed: bool)
      modifies this
      ensures allowed == Allowed(cfg, old(buckets), key, now)
      ensures buckets == After(cfg, old(buckets), key, now)
    {
      if key !in buckets {
        buckets := buckets[key := Bucket(cfg.capacity, now)];
      }
      var bucket := buckets[key];
      var tokens := Min(bucket.tokens + Refill(cfg, now - bucket.lastUpdated), cfg.capacity);
      RefillLaws(cfg, 0.0, 0.0);
      if tokens >= 1.0 {
        tokens := tokens - 1.0;
        allowed := true;
      } else {
        allowed := false;
      }
      buckets := buckets[key := Bucket(tokens, now)];
    }
  }

  // ----- runs -----

  datatype Request = Request(key: string, at: real)

  /** The monotonic clock: requests arrive in order, none before `from`. */
  predicate Ordered(from: real, run: seq<Request>)
    decreases |run|
  {
    run == [] || (from <= run[0].at && Ordered(run[0].at, run[1..]))
  }

  function Outcomes(cfg: Config, bs: Buckets, run: seq<Request>): (r: seq<bool>)
    ensures |r| == |run|
    decreases |run|
  {
    if run == [] then []
    else [Allowed(cfg, bs, run[0].key, run[0].at)]
         + Outcomes(cfg, After(cfg, bs, run[0].key, run[0].at), run[1..])
  }

  function Final(cfg: Config, bs: Buckets, run: seq<Request>): Buckets
    decreases |run|
  {
    if run == [] then bs else Final(cfg, After(cfg, bs, run[0].key, run[0].at), run[1..])
  }

  /** Every bucket was last touched by `now` and holds between 0 and `capacity` tokens. */
  ghost predicate Sound(cfg: Config, bs: Buckets, now: real) {
    forall k :: k in bs ==> 0.0 <= bs[k].tokens <= cfg.capacity && bs[k].lastUpdated <= now
  }

  /** All that is used of multiplication: additive, and not negative for a valid rate. */
  lemma RefillLaws(cfg: Config, d: real, e: real)
    ensures Refill(cfg, d + e) == Refill(cfg, d) + Refill(cfg, e)
    ensures Refill(cfg, 0.0) == 0.0
    ensures cfg.Valid() && 0.0 <= d ==> 0.0 <= Refill(cfg, d)
    ensures cfg.Valid() && 0.0 <= e ==> 0.0 <= Refill(cfg, e)
  {
  }

  lemma RefillIsTheRate(cfg: Config, d: real)
    ensures Refill(cfg, d) == cfg.refillPerSecond * d
  {
  }

  lemma SoundStep(cfg: Config, bs: Buckets, key: string, from: real, now: real)
    requires cfg.Valid() && Sound(cfg, bs, from) && from <= now
    ensures Sound(cfg, After(cfg, bs, key, now), now)
  {
    hide Refill;
    if key in bs {
      RefillLaws(cfg, now - bs[key].lastUpdated, 0.0);
    }
  }

  lemma {:induction false} SoundRun(cfg: Config, bs: Buckets, from: real, run: seq<Request>)
    requires cfg.Valid() && Sound(cfg, bs, from) && Ordered(from, run)
    ensures Sound(cfg, Final(cfg, bs, run), if run == [] then from else run[|run| - 1].at)
    decreases |run|
  {
    hide Refill;
    if run != [] {
      SoundStep(cfg, bs, run[0].key, from, run[0].at);
      SoundRun(cfg, After(cfg, bs, run[0].key, run[0].at), run[0].at, run[1..]);
    }
  }

  // ----- the whole-run bound -----

  /** Allowed requests of `key`. */
  function Granted(run: seq<Request>, outcomes: seq<bool>, key: string): nat
    requires |run| == |outcomes|
  {
    if run == [] then 0
    else (if run[0].key == key && outcomes[0] then 1 else 0) + Granted(run[1..], outcomes[1..], key)
  }

  function LastAt(from: real, run: seq<Request>): real {
    if run == [] then from else run[|run| - 1].at
  }

  /** Waiting refills at the rate, up to the capacity. */
  lemma LevelGrows(cfg: Config, bs: Buckets, key: string, s: real, t: real)
    requires cfg.Valid() && Sound(cfg, bs, s) && s <= t
    ensures 0.0 <= Level(cfg, bs, key, t) <= cfg.capacity
    ensures Level(cfg, bs, key, t) == Min(Level(cfg, bs, key, s) + Refill(cfg, t - s), cfg.capacity)
  {
    hide Refill;
    RefillLaws(cfg, 0.0, t - s);
    if key in bs {
      var d := s - bs[key].lastUpdated;
      RefillLaws(cfg, d, t - s);
      assert t - bs[key].lastUpdated == d + (t - s);
    }
  }

  /** One check trades a unit of level for a grant. */
  lemma CheckTrades(cfg: Config, bs: Buckets, key: string, r: Request)
    requires Level(cfg, bs, key, r.at) <= cfg.capacity
    ensures Level(cfg, After(cfg, bs, r.key, r.at), key, r.at)
         == Level(cfg, bs, key, r.at) - (if r.key == key && Allowed(cfg, bs, key, r.at) then 1.0 else 0.0)
  {
    hide Refill;
    RefillLaws(cfg, 0.0, 0.0);
    assert r.at - r.at == 0.0;
  }

  /** Grants are paid for by the starting level and the refill; what is left is still there. */
  lemma {:induction false} PaidFor(cfg: Config, bs: Buckets, from: real, run: seq<Request>, key: string)
    requires cfg.Valid() && Sound(cfg, bs, from) && Ordered(from, run)
    ensures from <= LastAt(from, run)
    ensures Granted(run, Outcomes(cfg, bs, run), key) as real
              + Level(cfg, Final(cfg, bs, run), key, LastAt(from, run))
         <= Level(cfg, bs, key, from) + Refill(cfg, LastAt(from, run) - from)
    decreases |run|
  {
    hide Refill;
    if run == [] {
      RefillLaws(cfg, 0.0, 0.0);
      assert from - from == 0.0;
    } else {
      var r := run[0];
      var bs' := After(cfg, bs, r.key, r.at);
      var e := LastAt(from, run);
      SoundStep(cfg, bs, r.key, from, r.at);
      PaidFor(cfg, bs', r.at, run[1..], key);
      LevelGrows(cfg, bs, key, from, r.at);
      CheckTrades(cfg, bs, key, r);
      RefillLaws(cfg, e - r.at, r.at - from);
      assert e == LastAt(r.at, run[1..]) && e - from == (e - r.at) + (r.at - from);
      assert Outcomes(cfg, bs, run)[1..] == Outcomes(cfg, bs', run[1..]);
    }
  }

  /** In numbers: grants and what is left never exceed the starting level and the rate times the time. */
  lemma GrantsArePaidFor(cfg: Config, bs: Buckets, from: real, run: seq<Request>, key: string)
    requires cfg.Valid() && Sound(cfg, bs, from) && Ordered(from, run)
    ensures Granted(run, Outcomes(cfg, bs, run), key) as real
              + Level(cfg, Final(cfg, bs, run), key, LastAt(from, run))
         <= Level(cfg, bs, key, from) + cfg.refillPerSecond * (LastAt(from, run) - from)
  {
    hide *;
    PaidFor(cfg, bs, from, run, key);
    RefillIsTheRate(cfg, LastAt(from, run) - from);
  }

  lemma {:induction false} SplitRun(cfg: Config, bs: Buckets, from: real, a: seq<Request>, b: seq<Request>)
    requires Ordered(from, a + b)
    ensures Ordered(from, a) && Ordered(LastAt(from, a), b)
    ensures Outcomes(cfg, bs, a + b) == Outcomes(cfg, bs, a) + Outcomes(cfg, Final(cfg, bs, a), b)
    decreases |a|
  {
    hide Refill;
    if a == [] {
      assert a + b == b;
    } else {
      assert (a + b)[0] == a[0] && (a + b)[1..] == a[1..] + b;
      var bs' := After(cfg, bs, a[0].key, a[0].at);
      SplitRun(cfg, bs', a[0].at, a[1..], b);
      assert Outcomes(cfg, bs, a + b) == [Allowed(cfg, bs, a[0].key, a[0].at)] + Outcomes(cfg, bs', a[1..] + b);
      assert LastAt(from, a) == LastAt(a[0].at, a[1..]);
    }
  }

  lemma {:induction false} OrderedFromHead(from: real, run: seq<Request>)
    requires Ordered(from, run) && run != []
    ensures Ordered(run[0].at, run)
  {
    hide Refill;
  }

  lemma StretchBound(cfg: Config, bs: Buckets, from: real, run: seq<Request>, key: string)
    requires cfg.Valid() && Sound(cfg, bs, from) && Ordered(from, run) && run != []
    ensures Granted(run, Outcomes(cfg, bs, run), key) as real
         <= cfg.capacity + Refill(cfg, run[|run| - 1].at - run[0].at)
  {
    hide Refill;
    var s, e := run[0].at, run[|run| - 1].at;
    OrderedFromHead(from, run);
    PaidFor(cfg, bs, s, run, key);
    LevelGrows(cfg, bs, key, s, s);
    SoundRun(cfg, bs, s, run);
    LevelGrows(cfg, Final(cfg, bs, run), key, e, e);
  }

  lemma SoundFromStart(cfg: Config, from: real, run: seq<Request>)
    requires cfg.Valid() && Ordered(from, run)
    ensures Sound(cfg, Final(cfg, map[], run), LastAt(from, run))
  {
    SoundRun(cfg, map[], from, run);
  }

  /** A stretch of a run is itself a run, from the buckets its prefix leaves. */
  lemma Stretch(cfg: Config, bs: Buckets, from: real, run: seq<Request>, i: nat, j: nat)
    requires i <= j <= |run| && Ordered(from, run)
    ensures Ordered(from, run[..i]) && Ordered(LastAt(from, run[..i]), run[i..j])
    ensures Outcomes(cfg, bs, run)[i..j] == Outcomes(cfg, Final(cfg, bs, run[..i]), run[i..j])
  {
    hide *;
    var a, m, b := run[..i], run[i..j], run[j..];
    assert run == a + (m + b);
    SplitRun(cfg, bs, from, a, m + b);
    SplitRun(cfg, Final(cfg, bs, a), LastAt(from, a), m, b);
  }

  /**
    Take any run of a fresh limiter and any stretch `run[i..j]` of it: the requests of one key
    granted in the stretch number at most the capacity plus the rate times its length.
   */
  lemma BurstBound(cfg: Config, from: real, run: seq<Request>, i: nat, j: nat, key: string)
    requires cfg.Valid() && i < j <= |run| && Ordered(from, run)
    ensures Granted(run[i..j], Outcomes(cfg, map[], run)[i..j], key) as real
         <= cfg.capacity + cfg.refillPerSecond * (run[j - 1].at - run[i].at)
  {
    hide *;
    RefillIsTheRate(cfg, run[j - 1].at - run[i].at);
    var bs := Final(cfg, map[], run[..i]);
    Stretch(cfg, map[], from, run, i, j);
    SoundFromStart(cfg, from, run[..i]);
    StretchBound(cfg, bs, LastAt(from, run[..i]), run[i..j], key);
  }

  // ----- and the limiter is no stricter than the bound -----

  lemma {:induction false} FinalSnoc(cfg: Config, bs: Buckets, run: seq<Request>, j: nat)
    requires j < |run|
    ensures Final(cfg, bs, run[..j + 1]) == After(cfg, Final(cfg, bs, run[..j]), run[j].key, run[j].at)
    ensures Outcomes(cfg, bs, run)[j] == Allowed(cfg, Final(cfg, bs, run[..j]), run[j].key, run[j].at)
    decreases |run|
  {
    hide After, Allowed;
    if j == 0 {
      assert run[..1][1..] == [];
    } else {
      var bs1 := After(cfg, bs, run[0].key, run[0].at);
      FinalSnoc(cfg, bs1, run[1..], j - 1);
      assert run[..j + 1][1..] == run[1..][..j] && run[..j][1..] == run[1..][..j - 1];
    }
  }

  lemma {:induction false} GrantedSnoc(run: seq<Request>, outcomes: seq<bool>, key: string, i: nat, j: nat)
    requires |run| == |outcomes| && i <= j < |run|
    ensures Granted(run[i..j + 1], outcomes[i..j + 1], key)
         == Granted(run[i..j], outcomes[i..j], key) + if run[j].key == key && outcomes[j] then 1 else 0
    decreases j - i
  {
    if i < j {
      GrantedSnoc(run, outcomes, key, i + 1, j);
      assert run[i..j + 1][1..] == run[i + 1..j + 1] && run[i..j][1..] == run[i + 1..j];
      assert outcomes[i..j + 1][1..] == outcomes[i + 1..j + 1] && outcomes[i..j][1..] == outcomes[i + 1..j];
    } else {
      assert run[i..j + 1] == [run[j]] && outcomes[i..j + 1] == [outcomes[j]];
    }
  }

  /** What the stretch `run[i..j]` leaves of the capacity and its refill, seen at request `j`. */
  function Slack(cfg: Config, run: seq<Request>, outcomes: seq<bool>, key: string, i: nat, j: nat): real
    requires |run| == |outcomes| && i <= j < |run|
  {
    cfg.capacity + Refill(cfg, run[j].at - run[i].at) - Granted(run[i..j], outcomes[i..j], key) as real
  }

  lemma SlackStep(cfg: Config, run: seq<Request>, outcomes: seq<bool>, key: string, i: nat, j: nat)
    requires |run| == |outcomes| && i <= j < |run| - 1
    ensures Slack(cfg, run, outcomes, key, i, j + 1)
         == Slack(cfg, run, outcomes, key, i, j) + Refill(cfg, run[j + 1].at - run[j].at)
            - if run[j].key == key && outcomes[j] then 1.0 else 0.0
  {
    hide Refill;
    GrantedSnoc(run, outcomes, key, i, j);
    RefillLaws(cfg, run[j].at - run[i].at, run[j + 1].at - run[j].at);
    assert run[j + 1].at - run[i].at == (run[j].at - run[i].at) + (run[j + 1].at - run[j].at);
  }

  lemma SlackOfNothing(cfg: Config, run: seq<Request>, outcomes: seq<bool>, key: string, j: nat)
    requires |run| == |outcomes| && j < |run|
    ensures Slack(cfg, run, outcomes, key, j, j) == cfg.capacity
  {
    hide Refill;
    RefillLaws(cfg, 0.0, 0.0);
    assert run[j].at - run[j].at == 0.0 && run[j..j] == [];
  }

  lemma {:induction false} OrderedNeighbours(from: real, run: seq<Request>, j: nat)
    requires Ordered(from, run) && j < |run| - 1
    ensures run[j].at <= run[j + 1].at
    decreases |run|
  {
    if j > 0 { OrderedNeighbours(run[0].at, run[1..], j - 1); }
  }

  /** The level at request `j` is the least slack over all stretches that end there. */
  lemma {:induction false} LeastSlack(cfg: Config, from: real, run: seq<Request>, key: string, j: nat)
    returns (i: nat)
    requires cfg.Valid() && Ordered(from, run) && j < |run|
    ensures i <= j
    ensures var level := Level(cfg, Final(cfg, map[], run[..j]), key, run[j].at);
      && level == Slack(cfg, run, Outcomes(cfg, map[], run), key, i, j)
      && (forall k :: 0 <= k <= j ==> level <= Slack(cfg, run, Outcomes(cfg, map[], run), key, k, j))
    decreases j
  {
    hide Refill, Level, Slack, Ordered, Outcomes, After, Allowed, Sound;
    var outcomes := Outcomes(cfg, map[], run);
    SlackOfNothing(cfg, run, outcomes, key, j);
    if j == 0 {
      i := 0;
      FreshLevel(cfg, key, run[0].at);
      assert run[..0] == [];
    } else {
      var bs, bs' := Final(cfg, map[], run[..j - 1]), Final(cfg, map[], run[..j]);
      var r := run[j - 1];
      i := LeastSlack(cfg, from, run, key, j - 1);
      FinalSnoc(cfg, map[], run, j - 1);
      StretchOrdered(cfg, from, run, j - 1);
      LevelCapped(cfg, bs, LastAt(from, run[..j - 1]), key, r.at);
      CheckTrades(cfg, bs, key, r);
      AllowedOfKey(cfg, bs, r, key);
      OrderedNeighbours(from, run, j - 1);
      StretchOrdered(cfg, from, run, j);
      LastOfPrefix(from, run, j);
      LevelGrows(cfg, bs', key, r.at, run[j].at);
      forall k | 0 <= k <= j - 1 ensures
        Slack(cfg, run, outcomes, key, k, j) ==
          Slack(cfg, run, outcomes, key, k, j - 1) + Refill(cfg, run[j].at - r.at)
          - if r.key == key && outcomes[j - 1] then 1.0 else 0.0
      {
        SlackStep(cfg, run, outcomes, key, k, j - 1);
      }
      if Level(cfg, bs', key, run[j].at) == cfg.capacity { i := j; }
    }
  }

  lemma FreshLevel(cfg: Config, key: string, now: real)
    ensures Level(cfg, map[], key, now) == cfg.capacity
    ensures Final(cfg, map[], []) == map[]
  {
  }

  lemma AllowedOfKey(cfg: Config, bs: Buckets, r: Request, key: string)
    ensures r.key == key ==> Allowed(cfg, bs, key, r.at) == Allowed(cfg, bs, r.key, r.at)
  {
  }

  lemma LastOfPrefix(from: real, run: seq<Request>, j: nat)
    requires 0 < j <= |run|
    ensures LastAt(from, run[..j]) == run[j - 1].at
  {
  }

  lemma StretchOrdered(cfg: Config, from: real, run: seq<Request>, j: nat)
    requires cfg.Valid() && Ordered(from, run) && j < |run|
    ensures Ordered(from, run[..j]) && LastAt(from, run[..j]) <= run[j].at
    ensures Sound(cfg, Final(cfg, map[], run[..j]), LastAt(from, run[..j]))
  {
    hide Refill, Outcomes, Sound;
    Stretch(cfg, map[], from, run, j, |run|);
    SoundFromStart(cfg, from, run[..j]);
  }

  lemma LevelCapped(cfg: Config, bs: Buckets, from: real, key: string, now: real)
    requires cfg.Valid() && Sound(cfg, bs, from) && from <= now
    ensures Level(cfg, bs, key, now) <= cfg.capacity
  {
    hide Refill;
  }

  lemma SlackInNumbers(cfg: Config, run: seq<Request>, outcomes: seq<bool>, key: string, i: nat, j: nat)
    requires |run| == |outcomes| && i <= j < |run|
    ensures Slack(cfg, run, outcomes, key, i, j)
         == cfg.capacity + cfg.refillPerSecond * (run[j].at - run[i].at) - Granted(run[i..j], outcomes[i..j], key) as real
  {
    hide Granted, Refill;
    RefillIsTheRate(cfg, run[j].at - run[i].at);
  }

  /**
    The level a request finds is the least that any stretch ending with it leaves of the capacity
    and the rate times its length, and some stretch leaves just that.
   */
  lemma LevelIsLeastSlack(cfg: Config, from: real, run: seq<Request>, key: string, j: nat) returns (i: nat)
    requires cfg.Valid() && Ordered(from, run) && j < |run|
    ensures i <= j
    ensures var level, outcomes := Level(cfg, Final(cfg, map[], run[..j]), key, run[j].at), Outcomes(cfg, map[], run);
      && level == cfg.capacity + cfg.refillPerSecond * (run[j].at - run[i].at)
                  - Granted(run[i..j], outcomes[i..j], key) as real
      && (forall k :: 0 <= k <= j ==>
            level <= cfg.capacity + cfg.refillPerSecond * (run[j].at - run[k].at)
                     - Granted(run[k..j], outcomes[k..j], key) as real)
  {
    hide *;
    var outcomes := Outcomes(cfg, map[], run);
    i := LeastSlack(cfg, from, run, key, j);
    forall k | 0 <= k <= j ensures Slack(cfg, run, outcomes, key, k, j)
      == cfg.capacity + cfg.refillPerSecond * (run[j].at - run[k].at) - Granted(run[k..j], outcomes[k..j], key) as real
    {
      SlackInNumbers(cfg, run, outcomes, key, k, j);
    }
  }

  /**
    The limiter is exactly the rule "no stretch may exceed the capacity plus the rate times its
    length": a request is allowed if and only if granting it keeps every stretch that ends with it
    within that budget.
   */
  lemma AllowedExactly(cfg: Config, from: real, run: seq<Request>, j: nat)
    requires cfg.Valid() && Ordered(from, run) && j < |run|
    ensures Outcomes(cfg, map[], run)[j] <==>
      forall i :: 0 <= i <= j ==>
        Granted(run[i..j], Outcomes(cfg, map[], run)[i..j], run[j].key) as real + 1.0
        <= cfg.capacity + cfg.refillPerSecond * (run[j].at - run[i].at)
  {
    hide Refill, Level, Final, Outcomes, Granted, Ordered;
    var i := LevelIsLeastSlack(cfg, from, run, run[j].key, j);
    FinalSnoc(cfg, map[], run, j);
  }

  // ----- denied requests and other keys leave no trace -----

  /** The requests (or outcomes) a mask keeps. */
  function Keep<T>(s: seq<T>, mask: seq<bool>): (r: seq<T>)
    requires |s| == |mask|
    ensures |r| == Kept(mask)
  {
    if s == [] then [] else (if mask[0] then [s[0]] else []) + Keep(s[1..], mask[1..])
  }

  function Kept(mask: seq<bool>): nat {
    if mask == [] then 0 else (if mask[0] then 1 else 0) + Kept(mask[1..])
  }

  /** The outcomes of one key's requests, in order. */
  function OutcomesOf(run: seq<Request>, outcomes: seq<bool>, key: string): seq<bool>
    requires |run| == |outcomes|
  {
    if run == [] then []
    else (if run[0].key == key then [outcomes[0]] else []) + OutcomesOf(run[1..], outcomes[1..], key)
  }

  /** Only requests that were denied, or of other keys, are left out. */
  predicate DropsOnlyIdle(run: seq<Request>, outcomes: seq<bool>, mask: seq<bool>, key: string)
    requires |run| == |outcomes| == |mask|
  {
    forall i :: 0 <= i < |run| && !mask[i] ==> run[i].key != key || !outcomes[i]
  }

  /** From `now` on, two limiters cannot be told apart by checks of `key`. */
  ghost predicate Same(cfg: Config, bs: Buckets, cs: Buckets, key: string, now: real) {
    forall t :: now <= t ==> Level(cfg, bs, key, t) == Level(cfg, cs, key, t)
  }

  /** A denied check, or a check of another key, cannot be observed later. */
  lemma IdleIsInvisible(cfg: Config, bs: Buckets, from: real, r: Request, key: string)
    requires cfg.Valid() && Sound(cfg, bs, from) && from <= r.at
    requires r.key != key || !Allowed(cfg, bs, r.key, r.at)
    ensures Same(cfg, bs, After(cfg, bs, r.key, r.at), key, r.at)
  {
    hide Refill;
    SoundStep(cfg, bs, r.key, from, r.at);
    forall t | r.at <= t
      ensures Level(cfg, bs, key, t) == Level(cfg, After(cfg, bs, r.key, r.at), key, t)
    {
      LevelGrows(cfg, bs, key, r.at, t);
    }
  }

  lemma SameStep(cfg: Config, bs: Buckets, cs: Buckets, r: Request, key: string, from: real)
    requires cfg.Valid() && Sound(cfg, bs, from) && Sound(cfg, cs, from) && from <= r.at
    requires Same(cfg, bs, cs, key, from)
    ensures r.key == key ==> Allowed(cfg, bs, key, r.at) == Allowed(cfg, cs, key, r.at)
    ensures Same(cfg, After(cfg, bs, r.key, r.at), After(cfg, cs, r.key, r.at), key, r.at)
  {
    hide Refill;
    assert Level(cfg, bs, key, r.at) == Level(cfg, cs, key, r.at);
    forall t | r.at <= t
      ensures Level(cfg, After(cfg, bs, r.key, r.at), key, t) == Level(cfg, After(cfg, cs, r.key, r.at), key, t)
    {
      assert Level(cfg, bs, key, t) == Level(cfg, cs, key, t);
    }
  }

  lemma {:induction false} DroppingIdle(cfg: Config, bs: Buckets, cs: Buckets, from: real,
                                        run: seq<Request>, mask: seq<bool>, key: string)
    requires cfg.Valid() && Sound(cfg, bs, from) && Sound(cfg, cs, from) && Ordered(from, run)
    requires |mask| == |run| && Same(cfg, bs, cs, key, from)
    requires DropsOnlyIdle(run, Outcomes(cfg, bs, run), mask, key)
    ensures OutcomesOf(Keep(run, mask), Outcomes(cfg, cs, Keep(run, mask)), key)
         == OutcomesOf(Keep(run, mask), Keep(Outcomes(cfg, bs, run), mask), key)
    decreases |run|
  {
    hide Refill;
    if run != [] {
      var r := run[0];
      var bs' := After(cfg, bs, r.key, r.at);
      SoundStep(cfg, bs, r.key, from, r.at);
      assert Outcomes(cfg, bs, run)[1..] == Outcomes(cfg, bs', run[1..]);
      if mask[0] {
        var cs' := After(cfg, cs, r.key, r.at);
        SoundStep(cfg, cs, r.key, from, r.at);
        SameStep(cfg, bs, cs, r, key, from);
        DroppingIdle(cfg, bs', cs', r.at, run[1..], mask[1..], key);
        assert Keep(run, mask)[1..] == Keep(run[1..], mask[1..]);
        assert Outcomes(cfg, cs, Keep(run, mask))[1..] == Outcomes(cfg, cs', Keep(run[1..], mask[1..]));
        assert Keep(Outcomes(cfg, bs, run), mask)[1..] == Keep(Outcomes(cfg, bs', run[1..]), mask[1..]);
      } else {
        IdleIsInvisible(cfg, bs, from, r, key);
        forall t | r.at <= t ensures Level(cfg, bs', key, t) == Level(cfg, cs, key, t) {
          assert Level(cfg, bs, key, t) == Level(cfg, bs', key, t);
        }
        DroppingIdle(cfg, bs', cs, r.at, run[1..], mask[1..], key);
        assert Keep(run, mask) == Keep(run[1..], mask[1..]);
        assert Keep(Outcomes(cfg, bs, run), mask) == Keep(Outcomes(cfg, bs', run[1..]), mask[1..]);
      }
    }
  }

  lemma {:induction false} SameForEveryKey(run: seq<Request>, xs: seq<bool>, ys: seq<bool>)
    requires |run| == |xs| == |ys|
    requires forall key :: OutcomesOf(run, xs, key) == OutcomesOf(run, ys, key)
    ensures xs == ys
    decreases |run|
  {
    if run != [] {
      var k := run[0].key;
      assert OutcomesOf(run, xs, k) == [xs[0]] + OutcomesOf(run[1..], xs[1..], k);
      assert OutcomesOf(run, ys, k) == [ys[0]] + OutcomesOf(run[1..], ys[1..], k);
      assert OutcomesOf(run, xs, k)[0] == OutcomesOf(run, ys, k)[0];
      forall key ensures OutcomesOf(run[1..], xs[1..], key) == OutcomesOf(run[1..], ys[1..], key) {
        assert OutcomesOf(run, xs, key) == OutcomesOf(run, ys, key);
        if key == k {
          assert OutcomesOf(run, xs, k)[1..] == OutcomesOf(run[1..], xs[1..], k);
          assert OutcomesOf(run, ys, k)[1..] == OutcomesOf(run[1..], ys[1..], k);
        } else {
          assert OutcomesOf(run, xs, key) == OutcomesOf(run[1..], xs[1..], key);
          assert OutcomesOf(run, ys, key) == OutcomesOf(run[1..], ys[1..], key);
        }
      }
      SameForEveryKey(run[1..], xs[1..], ys[1..]);
    }
  }

  /** Leaving any of the denied requests out of a run changes no other outcome. */
  lemma DeniedRequestsAreInvisible(cfg: Config, from: real, run: seq<Request>, mask: seq<bool>)
    requires cfg.Valid() && Ordered(from, run) && |mask| == |run|
    requires forall i :: 0 <= i < |run| && !mask[i] ==> !Outcomes(cfg, map[], run)[i]
    ensures Outcomes(cfg, map[], Keep(run, mask)) == Keep(Outcomes(cfg, map[], run), mask)
  {
    hide Refill;
    forall key
      ensures OutcomesOf(Keep(run, mask), Outcomes(cfg, map[], Keep(run, mask)), key)
           == OutcomesOf(Keep(run, mask), Keep(Outcomes(cfg, map[], run), mask), key)
    {
      DroppingIdle(cfg, map[], map[], from, run, mask, key);
    }
    SameForEveryKey(Keep(run, mask), Outcomes(cfg, map[], Keep(run, mask)), Keep(Outcomes(cfg, map[], run), mask));
  }

  /** A key's outcomes are what they would be if no other key were ever checked. */
  lemma OtherKeysHaveNoEffect(cfg: Config, from: real, run: seq<Request>, key: string)
    requires cfg.Valid() && Ordered(from, run)
    ensures var mask := seq(|run|, i requires 0 <= i < |run| => run[i].key == key);
      Outcomes(cfg, map[], Keep(run, mask)) == OutcomesOf(run, Outcomes(cfg, map[], run), key)
  {
    hide Refill;
    var mask := seq(|run|, i requires 0 <= i < |run| => run[i].key == key);
    DroppingIdle(cfg, map[], map[], from, run, mask, key);
    KeptAreOfKey(run, Outcomes(cfg, map[], run), mask, key);
    AllOfKey(Keep(run, mask), Outcomes(cfg, map[], Keep(run, mask)), key);
    AllOfKey(Keep(run, mask), Keep(Outcomes(cfg, map[], run), mask), key);
  }

  lemma {:induction false} KeptAreOfKey(run: seq<Request>, outcomes: seq<bool>, mask: seq<bool>, key: string)
    requires |run| == |outcomes| == |mask|
    requires forall i :: 0 <= i < |run| ==> mask[i] == (run[i].key == key)
    ensures forall r :: r in Keep(run, mask) ==> r.key == key
    ensures Keep(outcomes, mask) == OutcomesOf(run, outcomes, key)
    decreases |run|
  {
    if run != [] {
      KeptAreOfKey(run[1..], outcomes[1..], mask[1..], key);
    }
  }

  lemma {:induction false} AllOfKey(run: seq<Request>, outcomes: seq<bool>, key: string)
    requires |run| == |outcomes| && forall r :: r in run ==> r.key == key
    ensures OutcomesOf(run, outcomes, key) == outcomes
    decreases |run|
  {
    if run != [] {
      AllOfKey(run[1..], outcomes[1..], key);
    }
  }
}
