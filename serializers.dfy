/** The write-side checks of the admin API (flash_promo/serializers.py):
    promo creation, the StoreProduct (store, product) check with its create
    and update, and the Store create and update. Each `validate` is a
    function returning either the validated values or the first error it
    raises. */
module Serializers {
  import opened Wrappers
  import opened Constants
  import opened Models

  // ---------- FlashPromoCreateSerializer ----------

  /** `extra_kwargs = {"promo_price": {"min_value": 0}}`. */
  const MIN_PROMO_PRICE: Cents := 0
  /** A promo window lasts at least one minute. */
  const MIN_WINDOW_SECONDS: int := 60

  datatype PromoField = StoreProductIdField | PromoPriceField | StartsAtField | EndsAtField

  /** The request body of a promo creation; a field may be absent. */
  datatype PromoInput = PromoInput(
    storeProductId: Option<int>,
    promoPrice: Option<Cents>,
    startsAt: Option<Time>,
    endsAt: Option<Time>)

  /** What the serializer rejects a promo with. Field-level errors are all
      collected before `validate` runs; `validate` stops at its first. */
  datatype PromoError =
    | FieldErrors(missing: set<PromoField>, priceBelowMinimum: bool)
    | StoreProductDoesNotExist
    | WindowNotOrdered
    | WindowTooShort
    | PriceNotBelowBase

  /** The required fields the body leaves out. */
  function MissingPromoFields(input: PromoInput): (r: set<PromoField>)
    ensures StoreProductIdField in r <==> input.storeProductId.None?
    ensures PromoPriceField in r <==> input.promoPrice.None?
    ensures StartsAtField in r <==> input.startsAt.None?
    ensures EndsAtField in r <==> input.endsAt.None?
  {
    (if input.storeProductId.None? then {StoreProductIdField} else {})
    + (if input.promoPrice.None? then {PromoPriceField} else {})
    + (if input.startsAt.None? then {StartsAtField} else {})
    + (if input.endsAt.None? then {EndsAtField} else {})
  }

  /** `FlashPromoCreateSerializer.validate`: the StoreProduct must exist,
      the window must be ordered and at least a minute long, and the promo
      price must be below the base price, checked in that order. On
      success it yields the StoreProduct to create the promo on. */
  function ValidatePromo(sps: map<StoreProductId, StoreProduct>, input: PromoInput): (r: Result<StoreProductId, PromoError>)
    ensures r.Success? ==> input.storeProductId == Some(r.value as int) && r.value in sps
    ensures r.Success? <==>
      && input.storeProductId.Some? && input.storeProductId.value >= 0 && input.storeProductId.value as StoreProductId in sps
      && input.startsAt.Some? && input.endsAt.Some?
      && input.endsAt.value - input.startsAt.value >= MIN_WINDOW_SECONDS
      && input.promoPrice.Some? && input.promoPrice.value < sps[input.storeProductId.value as StoreProductId].basePrice
  {
    if input.storeProductId.None? || input.storeProductId.value < 0 || input.storeProductId.value as StoreProductId !in sps then
      Failure(StoreProductDoesNotExist)
    else
      var sp := input.storeProductId.value as StoreProductId;
      if input.startsAt.None? || input.endsAt.None? || input.startsAt.value >= input.endsAt.value then Failure(WindowNotOrdered)
      else if input.endsAt.value - input.startsAt.value < MIN_WINDOW_SECONDS then Failure(WindowTooShort)
      else if input.promoPrice.None? || input.promoPrice.value >= sps[sp].basePrice then Failure(PriceNotBelowBase)
      else Success(sp)
  }

  /** `is_valid()` then `save()` on a FlashPromoCreateSerializer: the field
      checks, `validate`, then the promo row `create` builds. */
  function CreateFlashPromo(sps: map<StoreProductId, StoreProduct>, input: PromoInput): (r: Result<FlashPromo, PromoError>)
    ensures r.Success? ==>
      && PromoRowOk(sps, r.value)
      && r.value.status == Scheduled
      && r.value.endsAt - r.value.startsAt >= MIN_WINDOW_SECONDS
      && MIN_PROMO_PRICE <= r.value.promoPrice < sps[r.value.storeProduct].basePrice
      && input == PromoInput(Some(r.value.storeProduct as int), Some(r.value.promoPrice), Some(r.value.startsAt), Some(r.value.endsAt))
  {
    var missing := MissingPromoFields(input);
    var negative := input.promoPrice.Some? && input.promoPrice.value < MIN_PROMO_PRICE;
    if missing != {} || negative then Failure(FieldErrors(missing, negative))
    else match ValidatePromo(sps, input)
      case Failure(e) => Failure(e)
      case Success(sp) =>
        Success(FlashPromo(sp, input.promoPrice.value, input.startsAt.value, input.endsAt.value, Scheduled))
  }

  /** A promo is accepted exactly when every field is present, the price is
      not negative, and `validate` passes. */
  lemma CreateFlashPromoAccepts(sps: map<StoreProductId, StoreProduct>, input: PromoInput)
    ensures CreateFlashPromo(sps, input).Success? <==>
      MissingPromoFields(input) == {} && input.promoPrice.value >= MIN_PROMO_PRICE && ValidatePromo(sps, input).Success?
  {
    if MissingPromoFields(input) == {} {
      assert input.promoPrice.Some?;
    }
  }

  /** Field errors come first: while a field is missing or the price is
      negative, the StoreProduct table is not consulted. */
  lemma FieldErrorsBeforeLookup(sps: map<StoreProductId, StoreProduct>, sps': map<StoreProductId, StoreProduct>, input: PromoInput)
    requires MissingPromoFields(input) != {} || (input.promoPrice.Some? && input.promoPrice.value < MIN_PROMO_PRICE)
    ensures CreateFlashPromo(sps, input) == CreateFlashPromo(sps', input)
    ensures CreateFlashPromo(sps, input).Failure? && CreateFlashPromo(sps, input).error.FieldErrors?
  {
  }

  /** An inserted accepted promo keeps the catalog constraints, including
      the `promo_valid_window` check. */
  lemma CreatedPromoKeepsCatalog(
    stores: map<StoreId, Store>,
    products: map<ProductId, Product>,
    sps: map<StoreProductId, StoreProduct>,
    promos: map<PromoId, FlashPromo>,
    profiles: map<UserId, Profile>,
    log: set<NotificationKey>,
    input: PromoInput,
    id: PromoId)
    requires CatalogValid(stores, products, sps, promos, profiles, log)
    requires CreateFlashPromo(sps, input).Success?
    ensures CatalogValid(stores, products, sps, promos[id := CreateFlashPromo(sps, input).value], profiles, log)
  {
  }

  // ---------- StoreProductSerializer ----------

  datatype StoreProductError = StoreDoesNotExist | ProductDoesNotExist | PairExists

  /** A StoreProduct row for the pair exists already. */
  predicate PairTaken(sps: map<StoreProductId, StoreProduct>, store: StoreId, product: ProductId) {
    exists id :: id in sps && sps[id].store == store && sps[id].product == product
  }

  /** `StoreProductSerializer.validate`: the store must exist, then the
      product, then, unless an instance is being updated, the pair must be
      new. A missing id looks up `pk=None` and so fails like an unknown one. */
  function ValidateStoreProduct(
    stores: map<StoreId, Store>,
    products: map<ProductId, Product>,
    sps: map<StoreProductId, StoreProduct>,
    storeId: Option<int>,
    productId: Option<int>,
    isUpdate: bool): (r: Result<(StoreId, ProductId), StoreProductError>)
    ensures r.Success? <==>
      && storeId.Some? && storeId.value >= 0 && storeId.value as StoreId in stores
      && productId.Some? && productId.value >= 0 && productId.value as ProductId in products
      && (isUpdate || !PairTaken(sps, storeId.value as StoreId, productId.value as ProductId))
    ensures r.Success? ==>
      (r.value.0 in stores && r.value.1 in products && storeId == Some(r.value.0 as int) && productId == Some(r.value.1 as int))
    ensures r == Failure(PairExists) ==> !isUpdate
  {
    if storeId.None? || storeId.value < 0 || storeId.value as StoreId !in stores then Failure(StoreDoesNotExist)
    else if productId.None? || productId.value < 0 || productId.value as ProductId !in products then Failure(ProductDoesNotExist)
    else
      var store := storeId.value as StoreId;
      var product := productId.value as ProductId;
      if PairTaken(sps, store, product) && !isUpdate then Failure(PairExists)
      else Success((store, product))
  }

  /** The body of a StoreProduct create or update, past its field checks. */
  datatype StoreProductInput = StoreProductInput(
    storeId: Option<int>,
    productId: Option<int>,
    stock: Option<nat>,
    basePrice: Cents)

  /** `StoreProductSerializer.create`: validate as a new row, then build it
      on the looked-up store and product; stock defaults to 0. */
  function CreateStoreProduct(
    stores: map<StoreId, Store>,
    products: map<ProductId, Product>,
    sps: map<StoreProductId, StoreProduct>,
    input: StoreProductInput): (r: Result<StoreProduct, StoreProductError>)
    ensures r.Success? ==>
      (&& r.value.store in stores && r.value.product in products
       && !PairTaken(sps, r.value.store, r.value.product)
       && r.value.stock == input.stock.GetOr(0) && r.value.basePrice == input.basePrice)
  {
    match ValidateStoreProduct(stores, products, sps, input.storeId, input.productId, false)
      case Failure(e) => Failure(e)
      case Success(ids) => Success(StoreProduct(ids.0, ids.1, input.stock.GetOr(0), input.basePrice))
  }

  /** Inserting a created row keeps the (store, product) key unique and its
      foreign keys resolving. */
  lemma CreateStoreProductKeepsPairsUnique(
    stores: map<StoreId, Store>,
    products: map<ProductId, Product>,
    sps: map<StoreProductId, StoreProduct>,
    input: StoreProductInput,
    id: StoreProductId)
    requires UniqueStoreProductPairs(sps) && id !in sps
    requires CreateStoreProduct(stores, products, sps, input).Success?
    ensures UniqueStoreProductPairs(sps[id := CreateStoreProduct(stores, products, sps, input).value])
  {
    var row := CreateStoreProduct(stores, products, sps, input).value;
    var sps' := sps[id := row];
    forall a, b | a in sps' && b in sps' && a != b
      ensures sps'[a].store != sps'[b].store || sps'[a].product != sps'[b].product
    {
      if a == id {
        assert !(sps[b].store == row.store && sps[b].product == row.product);
      } else if b == id {
        assert !(sps[a].store == row.store && sps[a].product == row.product);
      }
    }
  }

  /** `StoreProductSerializer.update`: the store and product keys of the
      body are dropped, so only stock and base price can change. */
  function UpdateStoreProduct(instance: StoreProduct, input: StoreProductInput): (r: StoreProduct)
    ensures r.store == instance.store && r.product == instance.product
    ensures r.stock == input.stock.GetOr(instance.stock) && r.basePrice == input.basePrice
  {
    instance.(stock := input.stock.GetOr(instance.stock), basePrice := input.basePrice)
  }

  /** An update is validated with an instance, so it never fails on the pair
      check; when it passes, it keeps every row's keys and hence the
      (store, product) key unique, whatever ids the body names. */
  lemma UpdateStoreProductKeepsPairsUnique(
    stores: map<StoreId, Store>,
    products: map<ProductId, Product>,
    sps: map<StoreProductId, StoreProduct>,
    id: StoreProductId,
    input: StoreProductInput)
    requires UniqueStoreProductPairs(sps) && id in sps
    ensures ValidateStoreProduct(stores, products, sps, input.storeId, input.productId, true) != Failure(PairExists)
    ensures SameRows(sps, sps[id := UpdateStoreProduct(sps[id], input)])
    ensures UniqueStoreProductPairs(sps[id := UpdateStoreProduct(sps[id], input)])
  {
    StockChangeKeepsUniquePairs(sps, sps[id := UpdateStoreProduct(sps[id], input)]);
  }

  // ---------- StoreSerializer ----------

  /** `StoreSerializer.create`: the point is built longitude first. */
  function CreateStore(name: string, lat: real, lon: real): (r: Store)
    ensures r.name == name && r.geom.lon == lon && r.geom.lat == lat
  {
    Store(name, Point(lon, lat))
  }

  /** `StoreSerializer.update` on the loaded instance: the location moves
      only when both coordinates are given; the name is replaced when
      given. */
  function UpdateStore(instance: Store, name: Option<string>, lat: Option<real>, lon: Option<real>): (r: Store)
    ensures r.name == name.GetOr(instance.name)
    ensures lat.None? || lon.None? ==> r.geom == instance.geom
    ensures lat.Some? && lon.Some? ==> r.geom == Point(lon.value, lat.value)
  {
    var geom := if lat.Some? && lon.Some? then Point(lon.value, lat.value) else instance.geom;
    instance.(geom := geom, name := name.GetOr(instance.name))
  }

  /** Updating twice with the same body is updating once. */
  lemma UpdateStoreIdempotent(instance: Store, name: Option<string>, lat: Option<real>, lon: Option<real>)
    ensures UpdateStore(UpdateStore(instance, name, lat, lon), name, lat, lon) == UpdateStore(instance, name, lat, lon)
  {
  }

  /** An update giving every field yields the store a create with the same
      values would build. */
  lemma FullUpdateIsCreate(instance: Store, name: string, lat: real, lon: real)
    ensures UpdateStore(instance, Some(name), Some(lat), Some(lon)) == CreateStore(name, lat, lon)
  {
  }

  /** `instance.save()` after the update: the row under `id` is replaced by
      the updated instance and no other table changes. */
  method SaveStoreUpdate(db: Database, id: StoreId, name: Option<string>, lat: Option<real>, lon: Option<real>)
    requires db.Valid() && id in db.stores
    modifies db`stores
    ensures db.Valid()
    ensures db.stores == old(db.stores)[id := UpdateStore(old(db.stores)[id], name, lat, lon)]
  {
    var instance := db.stores[id];
    var updated := UpdateStore(instance, name, lat, lon);
    db.stores := db.stores[id := updated];
  }
}
