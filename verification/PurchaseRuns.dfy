/** Replayed purchases: uniqueness of rows, first-come transactions, and the access they grant. */
module PurchaseRuns {
  import opened Wrappers
  import opened Entitlements
  import opened BillingStore

  function Run(db: Db, events: seq<Event>): Db
    decreases |events|
  {
    if events == [] then db else Run(Apply(db, events[0]), events[1..])
  }

  /** What each call reports. */
  function NewFlags(db: Db, events: seq<Event>): (flags: seq<bool>)
    ensures |flags| == |events|
    decreases |events|
  {
    if events == [] then [] else [IsNew(db, events[0])] + NewFlags(Apply(db, events[0]), events[1..])
  }

  predicate HasKey(db: Db, key: SubKey) {
    exists i :: 0 <= i < |db.subs| && KeyOf(db.subs[i]) == key
  }

  /** Some purchase of the run is for that subscription. */
  predicate Buys(events: seq<Event>, key: SubKey) {
    events != [] && (EventKey(events[0]) == key || Buys(events[1..], key))
  }

  /** Some purchase of the run carries that transaction. */
  predicate Carries(events: seq<Event>, key: TxKey) {
    events != [] && (TxKeyOf(events[0].purchase) == key || Carries(events[1..], key))
  }

  /** A purchase changes at most the row of its key, and leaves exactly one such row. */
  lemma ApplyRow(db: Db, e: Event)
    ensures var db', k := Apply(db, e), Find(db.subs, EventKey(e));
      && |db'.subs| == (if k < |db.subs| then |db.subs| else |db.subs| + 1)
      && db'.subs[k] == RowAfter(db, e) && KeyOf(db'.subs[k]) == EventKey(e)
      && (forall i :: 0 <= i < |db.subs| && i != k ==> db'.subs[i] == db.subs[i])
      && (k < |db.subs| ==> KeyOf(db.subs[k]) == EventKey(e) && RowAfter(db, e).id == db.subs[k].id)
      && (k == |db.subs| ==> RowAfter(db, e).id == db.nextId)
  {
  }

  lemma ApplyKeepsValid(db: Db, e: Event)
    requires Valid(db)
    ensures Valid(Apply(db, e))
  {
    hide RowAfter;
    ApplyRow(db, e);
  }

  lemma ApplyKeys(db: Db, e: Event, key: SubKey)
    ensures HasKey(Apply(db, e), key) <==> HasKey(db, key) || key == EventKey(e)
  {
    hide RowAfter;
    var db', k := Apply(db, e), Find(db.subs, EventKey(e));
    ApplyRow(db, e);
    if HasKey(db, key) {
      var i :| 0 <= i < |db.subs| && KeyOf(db.subs[i]) == key;
      assert KeyOf(db'.subs[i]) == key;
    }
    if HasKey(db', key) {
      var i :| 0 <= i < |db'.subs| && KeyOf(db'.subs[i]) == key;
      assert i != k ==> KeyOf(db.subs[i]) == key;
    }
    assert KeyOf(db'.subs[k]) == EventKey(e);
  }

  lemma IsNewMeans(db: Db, e: Event)
    ensures IsNew(db, e) <==> !HasKey(db, EventKey(e))
  {
    var k := Find(db.subs, EventKey(e));
    if k < |db.subs| { assert KeyOf(db.subs[k]) == EventKey(e); }
  }

  /**
    Over any run of purchases the keys stay unique and are exactly those there before plus those
    purchased.
   */
  lemma {:induction false} OneRowPerKey(db: Db, events: seq<Event>, key: SubKey)
    requires Valid(db)
    ensures Valid(Run(db, events))
    ensures HasKey(Run(db, events), key) <==> HasKey(db, key) || Buys(events, key)
    decreases |events|
  {
    if events != [] {
      ApplyKeepsValid(db, events[0]);
      ApplyKeys(db, events[0], key);
      OneRowPerKey(Apply(db, events[0]), events[1..], key);
    }
  }

  /** A call reports "new" exactly when its key was neither there nor purchased before. */
  lemma {:induction false} NewOnlyOnce(db: Db, events: seq<Event>, i: nat)
    requires i < |events|
    ensures NewFlags(db, events)[i] <==>
      !HasKey(db, EventKey(events[i])) && !Buys(events[..i], EventKey(events[i]))
    decreases |events|
  {
    hide IsNew, Apply, HasKey, EventKey;
    if i == 0 {
      IsNewMeans(db, events[0]);
    } else {
      NewOnlyOnce(Apply(db, events[0]), events[1..], i - 1);
      ApplyKeys(db, events[0], EventKey(events[i]));
      assert events[..i][1..] == events[1..][..i - 1];
    }
  }

  lemma {:induction false} KeptTransaction(db: Db, events: seq<Event>, key: TxKey)
    ensures key in db.txs ==> key in Run(db, events).txs && Run(db, events).txs[key] == db.txs[key]
    ensures key in Run(db, events).txs <==> key in db.txs || Carries(events, key)
    decreases |events|
  {
    if events != [] {
      KeptTransaction(Apply(db, events[0]), events[1..], key);
    }
  }

  /**
    Purchases of one customer and store share a row exactly if they name the same transaction: by
    their original one, or, where they name none, by their own.
   */
  lemma SharedRows(db: Db, e: Event, f: Event)
    ensures !IsNew(Apply(db, e), f) <==>
      || !IsNew(db, f)
      || (e.customerId == f.customerId && e.purchase.store == f.purchase.store
          && match (e.purchase.originalTransactionId, f.purchase.originalTransactionId)
             case (Some(x), Some(y)) => x == y
             case (Some(x), None) => x == f.purchase.storeTransactionId
             case (None, Some(y)) => e.purchase.storeTransactionId == y
             case (None, None) => e.purchase.storeTransactionId == f.purchase.storeTransactionId)
  {
    hide Apply, IsNew, HasKey;
    IsNewMeans(db, f);
    IsNewMeans(Apply(db, e), f);
    ApplyKeys(db, e, EventKey(f));
  }

  /** Two purchases carry the same transaction exactly if store and transaction id agree. */
  lemma SharedTransactions(db: Db, e: Event, f: Event)
    ensures TxKeyOf(f.purchase) in Apply(db, e).txs <==>
      || TxKeyOf(f.purchase) in db.txs
      || (e.purchase.store == f.purchase.store && e.purchase.storeTransactionId == f.purchase.storeTransactionId)
  {
  }

  predicate HasRow(db: Db, id: int, key: SubKey) {
    exists i :: 0 <= i < |db.subs| && db.subs[i].id == id && KeyOf(db.subs[i]) == key
  }

  /** A row keeps its id and its key. */
  lemma {:induction false} KeptRow(db: Db, events: seq<Event>, id: int, key: SubKey)
    requires HasRow(db, id, key)
    ensures HasRow(Run(db, events), id, key)
    decreases |events|
  {
    if events != [] {
      hide RowAfter;
      ApplyRow(db, events[0]);
      var i :| 0 <= i < |db.subs| && db.subs[i].id == id && KeyOf(db.subs[i]) == key;
      assert Apply(db, events[0]).subs[i].id == id && KeyOf(Apply(db, events[0]).subs[i]) == key;
      KeptRow(Apply(db, events[0]), events[1..], id, key);
    }
  }

  /** The first purchase of a transaction records it; nothing ever rewrites it. */
  lemma {:induction false} FirstTransactionWins(db: Db, events: seq<Event>, i: nat)
    requires i < |events|
    requires var key := TxKeyOf(events[i].purchase); key !in db.txs && !Carries(events[..i], key)
    ensures var e := events[i];
      && TxKeyOf(e.purchase) in Run(db, events).txs
      && var tx := Run(db, events).txs[TxKeyOf(e.purchase)];
         && tx.customerId == e.customerId && tx.productId == e.productId
         && tx.purchasedAt == e.purchase.purchasedAt && tx.expiresAt == e.purchase.expiresAt
         && tx.isTrial == e.purchase.isTrial && tx.isRenewal == e.purchase.isRenewal
         && HasRow(Run(db, events), tx.subscriptionId, EventKey(e))
    decreases |events|
  {
    var db1 := Apply(db, events[0]);
    if i == 0 {
      KeptTransaction(db1, events[1..], TxKeyOf(events[0].purchase));
      ApplyRow(db, events[0]);
      KeptRow(db1, events[1..], RowAfter(db, events[0]).id, EventKey(events[0]));
    } else {
      assert events[..i][1..] == events[1..][..i - 1];
      FirstTransactionWins(db1, events[1..], i - 1);
    }
  }

  /** In a valid table a key finds its only row. */
  lemma FindIsTheRow(db: Db, i: nat)
    requires Valid(db) && i < |db.subs|
    ensures Find(db.subs, KeyOf(db.subs[i])) == i
  {
  }

  /** A purchase leaves every row but its own where it is. */
  lemma ApplyFinds(db: Db, e: Event, key: SubKey)
    requires Valid(db)
    ensures var db', k := Apply(db, e), Find(db.subs, key);
      && (EventKey(e) == key ==> Find(db'.subs, key) == k < |db'.subs| && db'.subs[k] == RowAfter(db, e))
      && (EventKey(e) != key && k < |db.subs| ==> Find(db'.subs, key) == k < |db'.subs| && db'.subs[k] == db.subs[k])
      && (EventKey(e) != key && k == |db.subs| ==> Find(db'.subs, key) == |db'.subs|)
  {
    hide Valid, Apply, RowAfter;
    var db', k := Apply(db, e), Find(db.subs, EventKey(e));
    ApplyRow(db, e);
    ApplyKeepsValid(db, e);
    FindIsTheRow(db', k);
    if EventKey(e) != key {
      var i := Find(db.subs, key);
      if i < |db.subs| {
        FindIsTheRow(db', i);
      } else {
        assert forall j :: 0 <= j < |db'.subs| && j != k ==> db'.subs[j] == db.subs[j];
      }
    }
  }

  /** A later delivery writes the same row whether or not the purchase was delivered before. */
  lemma SameRowAgain(db: Db, e: Event, later: int)
    requires Valid(db)
    ensures var db1, e1 := Apply(db, e), e.(now := later);
      && Find(db1.subs, EventKey(e)) == Find(db.subs, EventKey(e)) < |db1.subs|
      && RowAfter(db1, e1) == RowAfter(db, e1)
  {
    hide Valid, Apply;
    ApplyFinds(db, e, EventKey(e));
    ApplyRow(db, e);
  }

  /** Delivering a purchase again, at whatever instant, leaves what delivering it then alone would have left. */
  lemma ReplayIsIdempotent(db: Db, e: Event, later: int)
    requires Valid(db)
    ensures Apply(Apply(db, e), e.(now := later)) == Apply(db, e.(now := later))
    ensures !IsNew(Apply(db, e), e.(now := later))
  {
    hide Valid, Find;
    var db1, e1 := Apply(db, e), e.(now := later);
    SameRowAgain(db, e, later);
    ApplyRow(db, e);
    assert RowAfter(db, e1).id == RowAfter(db, e).id;
    assert Apply(db1, e1).subs == Apply(db, e1).subs;
  }

  // ----- the columns of a row over a run -----

  /** A column of a subscription's row, if there is a row. */
  function ColumnOf<T>(db: Db, key: SubKey, col: Subscription -> Option<T>): Option<T> {
    var k := Find(db.subs, key);
    if k < |db.subs| then col(db.subs[k]) else None
  }

  /** What the last delivered purchase of the subscription that says anything says. */
  function LastOf<T>(events: seq<Event>, key: SubKey, said: Event -> Option<T>): Option<T> {
    if events == [] then None
    else
      var last := events[|events| - 1];
      if EventKey(last) == key && said(last).Some? then said(last) else LastOf(events[..|events| - 1], key, said)
  }

  /** A purchase writes to the column what it says, and nothing if it says nothing. */
  ghost predicate Writes<T(!new)>(col: Subscription -> Option<T>, said: Event -> Option<T>) {
    forall db, e :: col(RowAfter(db, e)) == Coalesce(said(e), ColumnOf(db, EventKey(e), col))
  }

  lemma {:induction false} RunSnoc(db: Db, events: seq<Event>, e: Event)
    ensures Run(db, events + [e]) == Apply(Run(db, events), e)
    decreases |events|
  {
    if events == [] {
      assert events + [e] == [e] && [e][1..] == [];
    } else {
      assert (events + [e])[1..] == events[1..] + [e];
      RunSnoc(Apply(db, events[0]), events[1..], e);
    }
  }

  lemma ApplyColumn<T(!new)>(db: Db, e: Event, key: SubKey, col: Subscription -> Option<T>, said: Event -> Option<T>)
    requires Valid(db) && Writes(col, said)
    ensures ColumnOf(Apply(db, e), key, col) ==
      if EventKey(e) == key then Coalesce(said(e), ColumnOf(db, key, col)) else ColumnOf(db, key, col)
  {
    hide Valid, Apply, RowAfter, EventKey;
    ApplyFinds(db, e, key);
    assert col(RowAfter(db, e)) == Coalesce(said(e), ColumnOf(db, EventKey(e), col));
  }

  /** After any run of deliveries a column holds what was said last, or what it held before. */
  lemma {:induction false} ColumnIsTheLast<T(!new)>(db: Db, events: seq<Event>, key: SubKey,
                                              col: Subscription -> Option<T>, said: Event -> Option<T>)
    requires Valid(db) && Writes(col, said)
    ensures ColumnOf(Run(db, events), key, col) == Coalesce(LastOf(events, key, said), ColumnOf(db, key, col))
    decreases |events|
  {
    if events != [] {
      hide Valid, Apply, ColumnOf, Writes;
      var k := |events| - 1;
      var last := events[k];
      assert events == events[..k] + [last];
      RunSnoc(db, events[..k], last);
      OneRowPerKey(db, events[..k], key);
      ColumnIsTheLast(db, events[..k], key, col, said);
      ApplyColumn(Run(db, events[..k]), last, key, col, said);
    }
  }

  function EndColumn(s: Subscription): Option<int> { s.periodEnd }

  function StartColumn(s: Subscription): Option<int> { s.periodStart }

  function ProductColumn(s: Subscription): Option<int> { s.productId }

  function ExpirySaid(e: Event): Option<int> { e.purchase.expiresAt }

  function StartSaid(e: Event): Option<int> { e.purchase.purchasedAt }

  function ProductSaid(e: Event): Option<int> { e.productId }

  function GraceColumn(s: Subscription): Option<int> { s.graceUntil }

  /** No purchase says anything about the grace period. */
  function NothingSaid(e: Event): Option<int> { None }

  /** The columns that every purchase overwrites. */
  datatype Flags = Flags(status: string, autoRenew: bool, isTrial: bool, updatedAt: int)

  function FlagColumns(s: Subscription): Option<Flags> { Some(Flags(s.status, s.autoRenew, s.isTrial, s.updatedAt)) }

  function FlagsSaid(e: Event): Option<Flags> {
    var over := e.purchase.expiresAt.Some? && e.purchase.expiresAt.value <= e.now;
    Some(Flags(if over then "expired" else "active", e.purchase.autoRenew, e.purchase.isTrial, e.now))
  }

  /** The stored period end of a subscription. */
  function EndOf(db: Db, key: SubKey): Option<int> { ColumnOf(db, key, EndColumn) }

  /** The expiry of the last delivered purchase of the subscription that has one. */
  function LastExpiry(events: seq<Event>, key: SubKey): Option<int> { LastOf(events, key, ExpirySaid) }

  /**
    After any run of purchases, in whatever order they were delivered, a subscription's period
    ends at the expiry delivered last, or where it ended before if no delivery had one.
   */
  lemma PeriodEndIsTheLastDelivered(db: Db, events: seq<Event>, key: SubKey)
    requires Valid(db)
    ensures EndOf(Run(db, events), key) == Coalesce(LastExpiry(events, key), EndOf(db, key))
  {
    ColumnIsTheLast(db, events, key, EndColumn, ExpirySaid);
  }

  lemma {:induction false} NothingIsSaid(events: seq<Event>, key: SubKey)
    ensures LastOf(events, key, NothingSaid) == None
    decreases |events|
  {
    if events != [] { NothingIsSaid(events[..|events| - 1], key); }
  }

  /**
    The whole row after a run: product, start and end are those delivered last, if any, status and
    flags those of the last delivery, and the grace period is untouched.
   */
  lemma RowIsItsHistory(db: Db, events: seq<Event>, key: SubKey)
    requires Valid(db) && HasKey(Run(db, events), key)
    ensures var w := Run(db, events); var k := Find(w.subs, key);
      && k < |w.subs| && KeyOf(w.subs[k]) == key
      && w.subs[k].productId == Coalesce(LastOf(events, key, ProductSaid), ColumnOf(db, key, ProductColumn))
      && w.subs[k].periodStart == Coalesce(LastOf(events, key, StartSaid), ColumnOf(db, key, StartColumn))
      && w.subs[k].periodEnd == Coalesce(LastOf(events, key, ExpirySaid), ColumnOf(db, key, EndColumn))
      && FlagColumns(w.subs[k]) == Coalesce(LastOf(events, key, FlagsSaid), ColumnOf(db, key, FlagColumns))
      && w.subs[k].graceUntil == ColumnOf(db, key, GraceColumn)
  {
    hide Run, LastOf;
    ColumnIsTheLast(db, events, key, GraceColumn, NothingSaid);
    NothingIsSaid(events, key);
    ColumnIsTheLast(db, events, key, ProductColumn, ProductSaid);
    ColumnIsTheLast(db, events, key, StartColumn, StartSaid);
    ColumnIsTheLast(db, events, key, EndColumn, ExpirySaid);
    ColumnIsTheLast(db, events, key, FlagColumns, FlagsSaid);
  }

  /**
    Delivering an old purchase once more leaves the period end alone if and only if it has no
    expiry or the one delivered last; otherwise it moves the end, backwards if it is stale.
   */
  lemma RedeliveryMovesTheEnd(db: Db, events: seq<Event>, i: nat, later: int)
    requires Valid(db) && i < |events|
    ensures var e, key := events[i].(now := later), EventKey(events[i]);
      EndOf(Run(db, events + [e]), key) == EndOf(Run(db, events), key)
      <==> e.purchase.expiresAt.None? || e.purchase.expiresAt == LastExpiry(events, key)
  {
    hide Run, EndOf, Valid, LastExpiry;
    var e, key := events[i].(now := later), EventKey(events[i]);
    PeriodEndIsTheLastDelivered(db, events, key);
    PeriodEndIsTheLastDelivered(db, events + [e], key);
    LastExpirySnoc(events, e);
    if e.purchase.expiresAt.Some? { ExpiryWasDelivered(events, i); }
  }

  lemma LastExpirySnoc(events: seq<Event>, e: Event)
    ensures LastExpiry(events + [e], EventKey(e))
      == if e.purchase.expiresAt.Some? then e.purchase.expiresAt else LastExpiry(events, EventKey(e))
  {
    assert (events + [e])[..|events|] == events;
  }

  lemma {:induction false} ExpiryWasDelivered(events: seq<Event>, i: nat)
    requires i < |events| && events[i].purchase.expiresAt.Some?
    ensures LastExpiry(events, EventKey(events[i])).Some?
    decreases |events|
  {
    var k := |events| - 1;
    if i < k { ExpiryWasDelivered(events[..k], i); }
  }

  // ----- access -----

  /** The stored row of a subscription, whose product is linked to the entitlement. */
  predicate Linked(db: Db, k: nat, ent: Entitlement, links: seq<(int, int)>)
    requires k < |db.subs|
  {
    db.subs[k].productId.Some? && (ent.id, db.subs[k].productId.value) in links
  }

  function InfoFor(db: Db, customerId: int, ent: Entitlement, links: seq<(int, int)>,
                   products: seq<Product>, t: int): EntitlementInfo
  {
    Info(ent, LinkedTo(links, ent.id), RowsOf(db.subs, customerId), products, t)
  }

  /** A linked row whose period ends later than `t` makes the entitlement active at `t`, whatever else is owned. */
  lemma RowGrantsAccess(db: Db, k: nat, t: int, ent: Entitlement, links: seq<(int, int)>, products: seq<Product>)
    requires k < |db.subs| && Linked(db, k, ent, links) && Unexpired(db.subs[k], t)
    ensures InfoFor(db, db.subs[k].customerId, ent, links, products, t).isActive
  {
    var row := db.subs[k];
    var subs := RowsOf(db.subs, row.customerId);
    RowsOfMembers(db.subs, row.customerId, row);
    LinkedMembers(links, ent.id, row.productId.value);
    var i :| 0 <= i < |subs| && subs[i] == row;
    assert Matches(subs[i], LinkedTo(links, ent.id)) && Unexpired(subs[i], t);
    ActiveMeans(ent, LinkedTo(links, ent.id), subs, products, t);
  }

  /** No other row of the customer matches the entitlement. */
  predicate OnlyMatch(db: Db, k: nat, ent: Entitlement, links: seq<(int, int)>)
    requires k < |db.subs|
  {
    forall i :: 0 <= i < |db.subs| && i != k && db.subs[i].customerId == db.subs[k].customerId ==>
      !Matches(db.subs[i], LinkedTo(links, ent.id))
  }

  /** With no other matching row and no grace period, access is decided by the row's period end alone. */
  lemma AccessIsTheRowsEnd(db: Db, k: nat, t: int, ent: Entitlement, links: seq<(int, int)>, products: seq<Product>)
    requires k < |db.subs| && Linked(db, k, ent, links)
    requires db.subs[k].graceUntil.None? && OnlyMatch(db, k, ent, links)
    ensures InfoFor(db, db.subs[k].customerId, ent, links, products, t).isActive <==> Unexpired(db.subs[k], t)
  {
    var row := db.subs[k];
    var subs := RowsOf(db.subs, row.customerId);
    var ids := LinkedTo(links, ent.id);
    if Unexpired(row, t) {
      RowGrantsAccess(db, k, t, ent, links, products);
    } else {
      forall i | 0 <= i < |subs| && Matches(subs[i], ids) ensures subs[i] == row {
        RowsOfMembers(db.subs, row.customerId, subs[i]);
        var j :| 0 <= j < |db.subs| && db.subs[j] == subs[i];
      }
      ActiveMeans(ent, ids, subs, products, t);
      var best := BestIsFirstMaximum(subs, ids, t);
    }
  }

  /** The period end the customer's row has after the purchase. */
  function EndAfter(db: Db, e: Event): Option<int> { RowAfter(db, e).periodEnd }

  /** After the purchase the row is linked: by the product bought now, or else by the one it had. */
  predicate LinkedAfter(db: Db, e: Event, ent: Entitlement, links: seq<(int, int)>) {
    RowAfter(db, e).productId.Some? && (ent.id, RowAfter(db, e).productId.value) in links
  }

  /**
    Right after a purchase whose resulting period end lies later than `t`, every entitlement the
    row's product is linked to resolves as active at `t`, whatever else the customer owns.
   */
  lemma PurchaseGrantsAccess(db: Db, e: Event, t: int, ent: Entitlement, links: seq<(int, int)>, products: seq<Product>)
    requires LinkedAfter(db, e, ent, links)
    requires EndAfter(db, e).Some? ==> EndAfter(db, e).value > t
    ensures InfoFor(Apply(db, e), e.customerId, ent, links, products, t).isActive
    ensures e.productId.Some? ==> RowAfter(db, e).productId == e.productId
    ensures e.purchase.expiresAt.Some? ==> EndAfter(db, e) == e.purchase.expiresAt
  {
    ApplyRow(db, e);
    RowGrantsAccess(Apply(db, e), Find(db.subs, EventKey(e)), t, ent, links, products);
  }

  /**
    With no other matching subscription and no grace period, access after the purchase depends on
    the coalesced period end alone.
   */
  lemma AccessIsTheCoalescedEnd(db: Db, e: Event, t: int, ent: Entitlement, links: seq<(int, int)>, products: seq<Product>)
    requires LinkedAfter(db, e, ent, links) && RowAfter(db, e).graceUntil.None?
    requires OnlyMatch(Apply(db, e), Find(db.subs, EventKey(e)), ent, links)
    ensures InfoFor(Apply(db, e), e.customerId, ent, links, products, t).isActive
      <==> (EndAfter(db, e).Some? ==> EndAfter(db, e).value > t)
  {
    ApplyRow(db, e);
    AccessIsTheRowsEnd(Apply(db, e), Find(db.subs, EventKey(e)), t, ent, links, products);
  }

  /**
    The same over runs: access after any deliveries depends on the expiry delivered last alone, so
    a stale redelivery takes access away exactly if its expiry has passed.
   */
  lemma AccessIsTheLastDelivered(db: Db, events: seq<Event>, key: SubKey, t: int, ent: Entitlement,
                                 links: seq<(int, int)>, products: seq<Product>)
    requires Valid(db)
    requires var w := Run(db, events); var k := Find(w.subs, key);
      k < |w.subs| && Linked(w, k, ent, links) && w.subs[k].graceUntil.None? && OnlyMatch(w, k, ent, links)
    ensures var end := Coalesce(LastExpiry(events, key), EndOf(db, key));
      InfoFor(Run(db, events), key.customerId, ent, links, products, t).isActive <==> (end.Some? ==> end.value > t)
  {
    hide OnlyMatch, Linked, InfoFor, Run;
    var w := Run(db, events);
    PeriodEndIsTheLastDelivered(db, events, key);
    AccessIsTheRowsEnd(w, Find(w.subs, key), t, ent, links, products);
  }

  /**
    What is reported after any run of deliveries, with no other matching row and no grace period:
    dates, renewal and trial as delivered last, and activity by the date so found.
   */
  lemma ReportedAfterRun(db: Db, events: seq<Event>, key: SubKey, t: int, ent: Entitlement,
                         links: seq<(int, int)>, products: seq<Product>)
    requires Valid(db)
    requires var w := Run(db, events); var k := Find(w.subs, key);
      k < |w.subs| && Linked(w, k, ent, links) && w.subs[k].graceUntil.None? && OnlyMatch(w, k, ent, links)
    ensures var i := InfoFor(Run(db, events), key.customerId, ent, links, products, t);
      var start := Coalesce(LastOf(events, key, StartSaid), ColumnOf(db, key, StartColumn));
      var end := Coalesce(LastOf(events, key, ExpirySaid), ColumnOf(db, key, EndColumn));
      var flags := Coalesce(LastOf(events, key, FlagsSaid), ColumnOf(db, key, FlagColumns));
      && flags.Some? && i.identifier == ent.identifier && i.store == key.store
      && i.latestPurchase == start && i.expires == end && i.graceUntil.None?
      && (i.isActive <==> end.None? || end.value > t)
      && i.willRenew == flags.value.autoRenew && i.periodType == if flags.value.isTrial then "trial" else "normal"
  {
    hide Run, LastOf, Best, RowsOf, LinkedTo;
    var w := Run(db, events);
    var k := Find(w.subs, key);
    assert HasKey(w, key);
    RowIsItsHistory(db, events, key);
    OnlyRowIsPicked(w, k, t, ent, links);
    InfoTells(ent, LinkedTo(links, ent.id), RowsOf(w.subs, key.customerId), products, t);
  }

  /** The only matching row is the one picked. */
  lemma OnlyRowIsPicked(db: Db, k: nat, t: int, ent: Entitlement, links: seq<(int, int)>)
    requires k < |db.subs| && Linked(db, k, ent, links) && OnlyMatch(db, k, ent, links)
    ensures Best(RowsOf(db.subs, db.subs[k].customerId), LinkedTo(links, ent.id), t) == Some(db.subs[k])
  {
    var row := db.subs[k];
    var subs, ids := RowsOf(db.subs, row.customerId), LinkedTo(links, ent.id);
    PickIsLatest(subs, ids, t);
    RowsOfMembers(db.subs, row.customerId, row);
    LinkedMembers(links, ent.id, row.productId.value);
    var b := Best(subs, ids, t).value;
    RowsOfMembers(db.subs, row.customerId, b);
    var j :| 0 <= j < |db.subs| && db.subs[j] == b;
  }

  /**
    A lifetime purchase (no expiry) of a subscription whose row has expired keeps the old period
    end: the row says "active", and the entitlement stays inactive.
   */
  lemma LifetimePurchaseMayGrantNothing(ent: Entitlement, products: seq<Product>)
    returns (db: Db, e: Event, links: seq<(int, int)>)
    ensures Valid(db) && e.now == 10 && e.productId.Some? && (ent.id, e.productId.value) in links
    ensures e.purchase.expiresAt == None
    ensures RowAfter(db, e).status == "active"
    ensures !InfoFor(Apply(db, e), e.customerId, ent, links, products, 10).isActive
  {
    var stored := Subscription(1, 1, Some(7), "s", "o", None, Some(5), "expired", false, None, false, 0);
    db := Db([stored], 2, map[]);
    e := Event(10, 1, Some(7), Purchase("s", "t2", Some("o"), None, None, false, false, false));
    links := [(ent.id, 7)];
    assert links[0] == (ent.id, 7);
    assert Find(db.subs, EventKey(e)) == 0;
    AccessIsTheCoalescedEnd(db, e, 10, ent, links, products);
  }
}
