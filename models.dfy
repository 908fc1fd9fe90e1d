/** The persistent entities of the flash-promo application
    (flash_promo/models.py), their table constraints, and the one
    `Database` object whose tables the services update in place. */
module Models {
  import opened Wrappers
  import opened Constants

  type StoreId = nat
  type ProductId = nat
  type StoreProductId = nat
  type PromoId = nat
  type UserId = nat
  /** A reservation token; the model draws fresh tokens from a counter. */
  type Token = nat
  /** Wall-clock time in whole seconds. */
  type Time = int
  /** A local calendar day. */
  type Date = int
  /** A two-decimal price, in cents. */
  type Cents = int

  /** A WGS84 point, longitude first. */
  datatype Point = Point(lon: real, lat: real)

  /** One profile per user; the location may be missing. */
  datatype Profile = Profile(user: UserId, geom: Option<Point>, isNewUser: bool, isFrequent: bool)

  datatype Store = Store(name: string, geom: Point)

  datatype Product = Product(name: string, sku: string, brand: string, category: string)

  /** The stock ledger row of one product at one store. */
  datatype StoreProduct = StoreProduct(store: StoreId, product: ProductId, stock: nat, basePrice: Cents)

  datatype FlashPromo = FlashPromo(
    storeProduct: StoreProductId,
    promoPrice: Cents,
    startsAt: Time,
    endsAt: Time,
    status: PromoStatus)

  datatype Reservation = Reservation(
    token: Token,
    promo: PromoId,
    storeProduct: StoreProductId,
    user: UserId,
    status: ReservationStatus,
    expiresAt: Time,
    createdAt: Time)

  /** The unique key of a NotificationLog row. */
  datatype NotificationKey = NotificationKey(user: UserId, promo: PromoId, sentDate: Date)

  const DEFAULT_PROMO_STATUS: PromoStatus := Scheduled
  const DEFAULT_RESERVATION_STATUS: ReservationStatus := Hold

  /** The field defaults: a promo row without a status is SCHEDULED, the
      first lifecycle state, and a reservation row without one is HOLD, the
      one non-terminal status. They mirror the field declarations only: the
      hold and the promo creation write HOLD and SCHEDULED explicitly. */
  lemma DefaultStatusesAreInitial()
    ensures DEFAULT_PROMO_STATUS.Rank() == 0 && DEFAULT_PROMO_STATUS.Value() == "SCHEDULED"
    ensures !DEFAULT_RESERVATION_STATUS.IsTerminal() && DEFAULT_RESERVATION_STATUS.Value() == "HOLD"
  {
  }

  /** A NotificationLog row created without an explicit date is stamped with
      the local date of its creation. */
  function NewNotificationKey(user: UserId, promo: PromoId, today: Date): (k: NotificationKey)
    ensures k.user == user && k.promo == promo && k.sentDate == today
  {
    NotificationKey(user, promo, today)
  }

  /** unique_together (store, product). */
  ghost predicate UniqueStoreProductPairs(sps: map<StoreProductId, StoreProduct>) {
    forall a, b :: a in sps && b in sps && a != b ==>
      sps[a].store != sps[b].store || sps[a].product != sps[b].product
  }

  /** Product.sku is unique. */
  ghost predicate UniqueSkus(products: map<ProductId, Product>) {
    forall a, b :: a in products && b in products && a != b ==> products[a].sku != products[b].sku
  }

  /** A promo row references an existing StoreProduct and satisfies the
      `promo_valid_window` check constraint. */
  predicate PromoRowOk(sps: map<StoreProductId, StoreProduct>, p: FlashPromo) {
    p.storeProduct in sps && p.startsAt < p.endsAt
  }

  /** ACTIVE and `now` inside the closed window `[starts_at, ends_at]`: the
      "active now" column of the promo admin, and the filter the
      active-promo query, the reserve view and `notify_active_promos` share. */
  predicate IsActiveNow(p: FlashPromo, now: Time) {
    p.status == Active && p.startsAt <= now <= p.endsAt
  }

  /** The promo's StoreProduct and its Store both exist. */
  predicate Resolves(sps: map<StoreProductId, StoreProduct>, stores: map<StoreId, Store>, p: FlashPromo) {
    p.storeProduct in sps && sps[p.storeProduct].store in stores
  }

  /** `promo.store_product.store`. */
  function PromoStore(sps: map<StoreProductId, StoreProduct>, stores: map<StoreId, Store>, p: FlashPromo): Store
    requires Resolves(sps, stores, p)
  {
    stores[sps[p.storeProduct].store]
  }

  /** The part of the store the reservation engine reads and writes. */
  datatype Ledger = Ledger(
    storeProducts: map<StoreProductId, StoreProduct>,
    reservations: map<Token, Reservation>,
    nextToken: Token)

  /** Every reservation sits under its own token, references an existing
      StoreProduct, and every token handed out so far is below `nextToken`. */
  ghost predicate LedgerValid(l: Ledger) {
    forall t :: t in l.reservations ==>
      t < l.nextToken && l.reservations[t].token == t
      && l.reservations[t].storeProduct in l.storeProducts
  }

  /** A reservation still accounts for a unit of `sp`: held or sold. */
  predicate Takes(r: Reservation, sp: StoreProductId) {
    r.storeProduct == sp && (r.status == Hold || r.status == Confirmed)
  }

  /** The reservations that account for units of `sp`. */
  function Outstanding(res: map<Token, Reservation>, sp: StoreProductId): set<Token> {
    set t | t in res && Takes(res[t], sp)
  }

  /** All units of `sp`: on the shelf plus held or sold. */
  function Units(l: Ledger, sp: StoreProductId): nat {
    (if sp in l.storeProducts then l.storeProducts[sp].stock else 0) + |Outstanding(l.reservations, sp)|
  }

  /** No unit of any StoreProduct is created or lost between `a` and `b`. */
  ghost predicate Conserves(a: Ledger, b: Ledger) {
    forall sp :: Units(a, sp) == Units(b, sp)
  }

  /** A terminal reservation keeps its row unchanged. */
  ghost predicate TerminalFrozen(a: map<Token, Reservation>, b: map<Token, Reservation>) {
    forall t :: t in a && a[t].status.IsTerminal() ==> t in b && b[t] == a[t]
  }

  /** Nothing becomes CANCELED. */
  ghost predicate NeverCancels(a: map<Token, Reservation>, b: map<Token, Reservation>) {
    forall t :: t in b && b[t].status == Canceled ==> t in a && a[t].status == Canceled
  }

  /** What every reservation-engine step keeps. */
  ghost predicate EngineInvariant(a: Ledger, b: Ledger) {
    && LedgerValid(b)
    && a.storeProducts.Keys == b.storeProducts.Keys
    && a.reservations.Keys <= b.reservations.Keys
    && Conserves(a, b)
    && TerminalFrozen(a.reservations, b.reservations)
    && NeverCancels(a.reservations, b.reservations)
  }

  predicate Distinct<T(==)>(s: seq<T>) {
    forall i, j :: 0 <= i < j < |s| ==> s[i] != s[j]
  }

  /** `s` lists the elements of `e`, each exactly once, in some order. */
  ghost predicate EnumerationOf(s: seq<nat>, e: set<nat>) {
    Distinct(s) && (forall x :: x in s <==> x in e)
  }

  /** Every reservation references an existing promo (on_delete=PROTECT). */
  ghost predicate ReservationPromosExist(res: map<Token, Reservation>, promos: map<PromoId, FlashPromo>) {
    forall t :: t in res ==> res[t].promo in promos
  }

  /** The foreign keys and check constraints of every table outside the
      reservation ledger. The two uniqueness keys are the separate
      predicates UniqueStoreProductPairs and UniqueSkus. */
  ghost predicate CatalogValid(
    stores: map<StoreId, Store>,
    products: map<ProductId, Product>,
    sps: map<StoreProductId, StoreProduct>,
    promos: map<PromoId, FlashPromo>,
    profiles: map<UserId, Profile>,
    log: set<NotificationKey>)
  {
    && (forall id :: id in sps ==> sps[id].store in stores && sps[id].product in products)
    && (forall id :: id in promos ==> PromoRowOk(sps, promos[id]))
    && (forall u :: u in profiles ==> profiles[u].user == u)
    && (forall k :: k in log ==> k.promo in promos)
  }

  /** `b` holds the same StoreProduct rows as `a` up to stock and price. */
  ghost predicate SameRows(a: map<StoreProductId, StoreProduct>, b: map<StoreProductId, StoreProduct>) {
    a.Keys == b.Keys
    && forall id :: id in a ==> b[id].store == a[id].store && b[id].product == a[id].product
  }

  /** Changing only stock or price keeps all catalog constraints. */
  lemma StockChangeKeepsCatalog(
    stores: map<StoreId, Store>,
    products: map<ProductId, Product>,
    sps: map<StoreProductId, StoreProduct>,
    sps': map<StoreProductId, StoreProduct>,
    promos: map<PromoId, FlashPromo>,
    profiles: map<UserId, Profile>,
    log: set<NotificationKey>)
    requires CatalogValid(stores, products, sps, promos, profiles, log)
    requires SameRows(sps, sps')
    ensures CatalogValid(stores, products, sps', promos, profiles, log)
  {
  }

  /** Changing only stock or price keeps the (store, product) key unique. */
  lemma StockChangeKeepsUniquePairs(sps: map<StoreProductId, StoreProduct>, sps': map<StoreProductId, StoreProduct>)
    requires UniqueStoreProductPairs(sps) && SameRows(sps, sps')
    ensures UniqueStoreProductPairs(sps')
  {
  }

  /** Changing the status of one reservation keeps its promo reference. */
  lemma StatusChangeKeepsPromoRefs(res: map<Token, Reservation>, t: Token, status: ReservationStatus, promos: map<PromoId, FlashPromo>)
    requires ReservationPromosExist(res, promos) && t in res
    ensures ReservationPromosExist(res[t := res[t].(status := status)], promos)
  {
  }

  /** `queryset.update(status=s)` over the selected promos: a bulk status
      overwrite, whatever each status was. */
  function Overwrite(promos: map<PromoId, FlashPromo>, selection: set<PromoId>, s: PromoStatus): map<PromoId, FlashPromo> {
    map id | id in promos :: if id in selection then promos[id].(status := s) else promos[id]
  }

  /** A promo table with the same ids still holds every reservation's promo. */
  lemma SameKeysKeepPromos(res: map<Token, Reservation>, promos: map<PromoId, FlashPromo>, promos': map<PromoId, FlashPromo>)
    requires ReservationPromosExist(res, promos) && promos.Keys == promos'.Keys
    ensures ReservationPromosExist(res, promos')
  {
  }

  /** Changing only promo statuses keeps all catalog constraints. */
  lemma StatusChangeKeepsCatalog(
    stores: map<StoreId, Store>,
    products: map<ProductId, Product>,
    sps: map<StoreProductId, StoreProduct>,
    promos: map<PromoId, FlashPromo>,
    promos': map<PromoId, FlashPromo>,
    profiles: map<UserId, Profile>,
    log: set<NotificationKey>)
    requires CatalogValid(stores, products, sps, promos, profiles, log)
    requires promos.Keys == promos'.Keys
    requires forall id :: id in promos ==> promos'[id] == promos[id].(status := promos'[id].status)
    ensures CatalogValid(stores, products, sps, promos', profiles, log)
  {
  }

  /** The application's tables. */
  class Database {
    var stores: map<StoreId, Store>
    var products: map<ProductId, Product>
    var storeProducts: map<StoreProductId, StoreProduct>
    var promos: map<PromoId, FlashPromo>
    var profiles: map<UserId, Profile>
    var reservations: map<Token, Reservation>
    var notificationLog: set<NotificationKey>
    /** Stands for `uuid.uuid4()`: the next unused reservation token. */
    var nextToken: Token

    /** Foreign keys and check constraints of the tables; the uniqueness
        keys are the separate predicates UniqueStoreProductPairs and
        UniqueSkus. */
    ghost predicate Valid()
      reads this
    {
      && CatalogValid(stores, products, storeProducts, promos, profiles, notificationLog)
      && LedgerValid(Ledger(storeProducts, reservations, nextToken))
      && ReservationPromosExist(reservations, promos)
    }

    function LedgerView(): Ledger
      reads this`storeProducts, this`reservations, this`nextToken
    {
      Ledger(storeProducts, reservations, nextToken)
    }

    constructor ()
      ensures Valid()
      ensures stores == map[] && products == map[] && storeProducts == map[] && promos == map[]
      ensures profiles == map[] && reservations == map[] && notificationLog == {} && nextToken == 0
    {
      stores, products, storeProducts, promos := map[], map[], map[], map[];
      profiles, reservations, notificationLog, nextToken := map[], map[], {}, 0;
    }
  }

  /** Under a valid store every promo's store can be looked up. */
  lemma ValidPromoResolves(db: Database, id: PromoId)
    requires db.Valid() && id in db.promos
    ensures Resolves(db.storeProducts, db.stores, db.promos[id])
  {
  }
}
