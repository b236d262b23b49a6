/** Subscriptions and transactions as the billing tables keep them, and what purchases do to them. */
module BillingStore {
  import opened Wrappers
  import opened Entitlements

  datatype Purchase = Purchase(
    store: string, storeTransactionId: string, originalTransactionId: Option<string>,
    purchasedAt: Option<int>, expiresAt: Option<int>, isTrial: bool, isRenewal: bool, autoRenew: bool)

  datatype Transaction = Transaction(
    subscriptionId: int, customerId: int, productId: Option<int>,
    purchasedAt: Option<int>, expiresAt: Option<int>, isTrial: bool, isRenewal: bool)

  /** UNIQUE (customer, store, original transaction) and UNIQUE (store, transaction). */
  datatype SubKey = SubKey(customerId: int, store: string, originalTransactionId: string)
  type TxKey = (string, string)

  /** `subs` in ascending id order; `nextId` is the sequence behind BIGSERIAL. */
  datatype Db = Db(subs: seq<Subscription>, nextId: int, txs: map<TxKey, Transaction>)

  function KeyOf(s: Subscription): SubKey { SubKey(s.customerId, s.store, s.originalTransactionId) }

  function Otid(p: Purchase): string {
    if p.originalTransactionId.Some? then p.originalTransactionId.value else p.storeTransactionId
  }

  function PurchaseKey(customerId: int, p: Purchase): SubKey { SubKey(customerId, p.store, Otid(p)) }

  function TxKeyOf(p: Purchase): TxKey { (p.store, p.storeTransactionId) }

  function Coalesce<T>(a: Option<T>, b: Option<T>): Option<T> { if a.Some? then a else b }

  /** Index of the row with that key, or the number of rows. */
  function Find(subs: seq<Subscription>, key: SubKey): (k: nat)
    ensures k <= |subs|
    ensures k < |subs| ==> KeyOf(subs[k]) == key
    ensures k == |subs| <==> forall i :: 0 <= i < |subs| ==> KeyOf(subs[i]) != key
  {
    if subs == [] then 0
    else if KeyOf(subs[0]) == key then 0
    else 1 + Find(subs[1..], key)
  }

  function StatusAt(p: Purchase, now: int): string {
    if (if p.expiresAt.Some? then p.expiresAt.value > now else true) then "active" else "expired"
  }

  function NewRow(id: int, now: int, customerId: int, productId: Option<int>, p: Purchase): Subscription {
    Subscription(id, customerId, productId, p.store, Otid(p), p.purchasedAt, p.expiresAt,
                 StatusAt(p, now), p.autoRenew, None, p.isTrial, now)
  }

  function UpdatedRow(row: Subscription, now: int, productId: Option<int>, p: Purchase): Subscription {
    row.(productId := Coalesce(productId, row.productId),
         periodStart := Coalesce(p.purchasedAt, row.periodStart),
         periodEnd := Coalesce(p.expiresAt, row.periodEnd),
         status := StatusAt(p, now), autoRenew := p.autoRenew, isTrial := p.isTrial, updatedAt := now)
  }

  /** One call: at `now`, for a customer, with the catalogue product it was mapped to (if any). */
  datatype Event = Event(now: int, customerId: int, productId: Option<int>, purchase: Purchase)

  function EventKey(e: Event): SubKey { PurchaseKey(e.customerId, e.purchase) }

  function RowAfter(db: Db, e: Event): Subscription {
    var k := Find(db.subs, EventKey(e));
    if k < |db.subs| then UpdatedRow(db.subs[k], e.now, e.productId, e.purchase)
    else NewRow(db.nextId, e.now, e.customerId, e.productId, e.purchase)
  }

  predicate IsNew(db: Db, e: Event) { Find(db.subs, EventKey(e)) == |db.subs| }

  function Apply(db: Db, e: Event): Db {
    var k := Find(db.subs, EventKey(e));
    var row := RowAfter(db, e);
    var p := e.purchase;
    var tx := Transaction(row.id, e.customerId, e.productId, p.purchasedAt, p.expiresAt, p.isTrial, p.isRenewal);
    Db(if k < |db.subs| then db.subs[k := row] else db.subs + [row],
       if k < |db.subs| then db.nextId else db.nextId + 1,
       if TxKeyOf(p) in db.txs then db.txs else db.txs[TxKeyOf(p) := tx])
  }

  predicate Valid(db: Db) {
    && (forall i :: 0 <= i < |db.subs| ==> db.subs[i].id < db.nextId)
    && (forall i, j :: 0 <= i < j < |db.subs| ==>
          db.subs[i].id < db.subs[j].id && KeyOf(db.subs[i]) != KeyOf(db.subs[j]))
  }

  function RowsOf(subs: seq<Subscription>, customerId: int): seq<Subscription> {
    if subs == [] then []
    else
      var k := |subs| - 1;
      RowsOf(subs[..k], customerId) + if subs[k].customerId == customerId then [subs[k]] else []
  }

  /** The products linked to an entitlement, in link order. */
  function LinkedTo(links: seq<(int, int)>, entitlementId: int): seq<int> {
    if links == [] then []
    else
      var k := |links| - 1;
      LinkedTo(links[..k], entitlementId) + if links[k].0 == entitlementId then [links[k].1] else []
  }

  lemma LinkedSnoc(links: seq<(int, int)>, r: nat, e: int)
    requires r < |links|
    ensures LinkedTo(links[..r + 1], e)
         == if e == links[r].0 then LinkedTo(links[..r], e) + [links[r].1] else LinkedTo(links[..r], e)
  {
    assert links[..r + 1][..r] == links[..r];
  }

  function OfApp(ents: seq<Entitlement>, appId: int): seq<Entitlement> {
    if ents == [] then []
    else
      var k := |ents| - 1;
      OfApp(ents[..k], appId) + if ents[k].appId == appId then [ents[k]] else []
  }

  function ProductsOf(products: seq<Product>, appId: int): seq<Product> {
    if products == [] then []
    else
      var k := |products| - 1;
      ProductsOf(products[..k], appId) + if products[k].appId == appId then [products[k]] else []
  }

  predicate DistinctEntitlements(ents: seq<Entitlement>) {
    forall i, j :: 0 <= i < j < |ents| ==> ents[i].id != ents[j].id
  }

  class Store {
    var db: Db
    var entitlements: seq<Entitlement>
    var links: seq<(int, int)>
    var products: seq<Product>

    constructor (entitlements: seq<Entitlement>, links: seq<(int, int)>, products: seq<Product>)
      ensures db == Db([], 1, map[]) && this.entitlements == entitlements
      ensures this.links == links && this.products == products
    {
      db := Db([], 1, map[]);
      this.entitlements, this.links, this.products := entitlements, links, products;
    }

    method UpsertSubscriptionFromPurchase(now: int, customerId: int, productId: Option<int>, p: Purchase)
      returns (sub: Subscription, isNew: bool)
      modifies this`db
      ensures var e := Event(now, customerId, productId, p);
        db == Apply(old(db), e) && sub == RowAfter(old(db), e) && isNew == IsNew(old(db), e)
    {
      var otid := if p.originalTransactionId.Some? then p.originalTransactionId.value else p.storeTransactionId;
      var k := Find(db.subs, SubKey(customerId, p.store, otid));
      var status := StatusAt(p, now);
      if k < |db.subs| {
        var row := db.subs[k];
        sub := row.(productId := Coalesce(productId, row.productId),
                    periodStart := Coalesce(p.purchasedAt, row.periodStart),
                    periodEnd := Coalesce(p.expiresAt, row.periodEnd),
                    status := status, autoRenew := p.autoRenew, isTrial := p.isTrial, updatedAt := now);
        db := db.(subs := db.subs[k := sub]);
        isNew := false;
      } else {
        sub := Subscription(db.nextId, customerId, productId, p.store, otid, p.purchasedAt, p.expiresAt,
                            status, p.autoRenew, None, p.isTrial, now);
        db := db.(subs := db.subs + [sub], nextId := db.nextId + 1);
        isNew := true;
      }
      if (p.store, p.storeTransactionId) !in db.txs {
        var tx := Transaction(sub.id, customerId, productId, p.purchasedAt, p.expiresAt, p.isTrial, p.isRenewal);
        db := db.(txs := db.txs[(p.store, p.storeTransactionId) := tx]);
      }
    }

    method ListSubscriptions(customerId: int) returns (subs: seq<Subscription>)
      ensures subs == RowsOf(db.subs, customerId)
    {
      subs := [];
      for i := 0 to |db.subs|
        invariant subs == RowsOf(db.subs[..i], customerId)
      {
        assert db.subs[..i + 1][..i] == db.subs[..i];
        if db.subs[i].customerId == customerId {
          subs := subs + [db.subs[i]];
        }
      }
      assert db.subs[..|db.subs|] == db.subs;
    }

    method ListProducts(appId: int) returns (listed: seq<Product>)
      ensures listed == ProductsOf(products, appId)
    {
      listed := [];
      for i := 0 to |products|
        invariant listed == ProductsOf(products[..i], appId)
      {
        assert products[..i + 1][..i] == products[..i];
        if products[i].appId == appId {
          listed := listed + [products[i]];
        }
      }
      assert products[..|products|] == products;
    }

    /** Start every entitlement with an empty list, then push each link's product where it belongs. */
    method EntitlementProductMap(appId: int) returns (out: seq<(Entitlement, seq<int>)>)
      requires DistinctEntitlements(entitlements)
      ensures |out| == |OfApp(entitlements, appId)|
      ensures forall i :: 0 <= i < |out| ==>
        out[i] == (OfApp(entitlements, appId)[i], LinkedTo(links, OfApp(entitlements, appId)[i].id))
    {
      var ents := OfApp(entitlements, appId);
      OfAppDistinct(entitlements, appId);
      out := seq(|ents|, i requires 0 <= i < |ents| => (ents[i], []));
      for r := 0 to |links|
        invariant |out| == |ents|
        invariant forall i :: 0 <= i < |ents| ==> out[i] == (ents[i], LinkedTo(links[..r], ents[i].id))
      {
        var (eid, pid) := links[r];
        var i := 0;
        while i < |out| && out[i].0.id != eid
          invariant 0 <= i <= |out|
          invariant forall k :: 0 <= k < i ==> ents[k].id != eid
        {
          i := i + 1;
        }
        forall e ensures LinkedTo(links[..r + 1], e)
          == if e == eid then LinkedTo(links[..r], e) + [pid] else LinkedTo(links[..r], e)
        {
          LinkedSnoc(links, r, e);
        }
        assert forall k :: 0 <= k < |ents| && k != i ==> ents[k].id != eid;
        if i < |out| {
          out := out[i := (out[i].0, out[i].1 + [pid])];
        }
      }
      assert links[..|links|] == links;
    }

    method ResolveEntitlements(appId: int, customerId: int, now: int) returns (out: seq<EntitlementInfo>)
      requires DistinctEntitlements(entitlements)
      ensures |out| == |OfApp(entitlements, appId)|
      ensures forall i :: 0 <= i < |out| ==>
        var ent := OfApp(entitlements, appId)[i];
        out[i] == Info(ent, LinkedTo(links, ent.id), RowsOf(db.subs, customerId),
                         ProductsOf(products, appId), now)
    {
      var subs := ListSubscriptions(customerId);
      var linked := EntitlementProductMap(appId);
      var listed := ListProducts(appId);
      out := Resolve(linked, subs, listed, now);
    }
  }

  lemma {:induction false} OfAppDistinct(ents: seq<Entitlement>, appId: int)
    requires DistinctEntitlements(ents)
    ensures DistinctEntitlements(OfApp(ents, appId))
    ensures forall e :: e in OfApp(ents, appId) <==> e in ents && e.appId == appId
    decreases |ents|
  {
    if ents != [] {
      var k := |ents| - 1;
      OfAppDistinct(ents[..k], appId);
      assert ents == ents[..k] + [ents[k]];
      assert forall e :: e in OfApp(ents[..k], appId) ==> e in ents[..k];
    }
  }

  /** `LinkedTo` holds exactly the linked products. */
  lemma {:induction false} LinkedMembers(links: seq<(int, int)>, entitlementId: int, product: int)
    ensures product in LinkedTo(links, entitlementId) <==> (entitlementId, product) in links
    decreases |links|
  {
    if links != [] {
      var k := |links| - 1;
      LinkedMembers(links[..k], entitlementId, product);
      assert links == links[..k] + [links[k]];
    }
  }

  lemma {:induction false} RowsOfMembers(subs: seq<Subscription>, customerId: int, s: Subscription)
    ensures s in RowsOf(subs, customerId) <==> s in subs && s.customerId == customerId
    decreases |subs|
  {
    if subs != [] {
      var k := |subs| - 1;
      RowsOfMembers(subs[..k], customerId, s);
      assert subs == subs[..k] + [subs[k]];
    }
  }

  /** A customer's rows come in the order of their ids. */
  lemma {:induction false} RowsOfAscend(subs: seq<Subscription>, customerId: int)
    requires forall i, j :: 0 <= i < j < |subs| ==> subs[i].id < subs[j].id
    ensures var own := RowsOf(subs, customerId);
      forall i, j :: 0 <= i < j < |own| ==> own[i].id < own[j].id
    decreases |subs|
  {
    if subs != [] {
      var k := |subs| - 1;
      var before := RowsOf(subs[..k], customerId);
      RowsOfAscend(subs[..k], customerId);
      forall i | 0 <= i < |before| ensures before[i].id < subs[k].id {
        RowsOfMembers(subs[..k], customerId, before[i]);
      }
    }
  }

  /** A product of another app gives access if it is linked, but its identifier is never reported. */
  lemma {:induction false} OnlyOwnProductsAreNamed(products: seq<Product>, appId: int, id: int)
    ensures ProductIdentifier(ProductsOf(products, appId), id).Some? <==>
      exists p :: p in products && p.id == id && p.appId == appId
    decreases |products|
  {
    if products != [] {
      var k := |products| - 1;
      var own := ProductsOf(products[..k], appId);
      OnlyOwnProductsAreNamed(products[..k], appId, id);
      assert forall p :: p in products <==> p in products[..k] || p == products[k];
      assert (own + [products[k]])[..|own|] == own && own + [] == own;
    }
  }
}
