/** The reservation endpoints (flash_promo/views.py): the guard chain of
    each view and the HTTP answer it maps every outcome to. The views only
    read; every change goes through a step function of the reservation
    engine, so each view is a function returning its response together with
    the ledger it leaves. */
module Views {
  import opened Wrappers
  import opened Constants
  import opened Models
  import opened Queries
  import opened Services

  const HTTP_200_OK: int := 200
  const HTTP_201_CREATED: int := 201
  const HTTP_400_BAD_REQUEST: int := 400
  const HTTP_403_FORBIDDEN: int := 403
  const HTTP_404_NOT_FOUND: int := 404
  /** An exception no handler catches. */
  const HTTP_500_INTERNAL_SERVER_ERROR: int := 500

  const PROMO_NOT_ACTIVATED: string := "Promo not activated"
  const NOT_ELIGIBLE: string := "User does not meet both condition"
  const RESERVATION_NOT_FOUND: string := "Reserva no encontrada"
  /** The text of the ORM's `Reservation.DoesNotExist`. */
  const DOES_NOT_EXIST_TEXT: string := "Reservation matching query does not exist."

  /** What a response carries. */
  datatype Body =
    | Detail(message: string)
    | FieldRequired(field: string)
    | NotFound
    | Created(token: Token, expiresAt: Time)
    | StatusView(token: Token, status: ReservationStatus, expiresAt: Time)
    | PromoList(ids: set<PromoId>)
    | Unhandled(error: QueryError)

  datatype Response = Response(code: int, body: Body)

  /** A view's answer and the ledger after it. */
  datatype ViewOutcome = ViewOutcome(response: Response, ledger: Ledger)

  /** Every promo's StoreProduct and Store exist (the foreign keys). */
  ghost predicate PromosResolve(promos: map<PromoId, FlashPromo>, sps: map<StoreProductId, StoreProduct>, stores: map<StoreId, Store>) {
    forall id :: id in promos ==> Resolves(sps, stores, promos[id])
  }

  /** `str(e)` of a service error. */
  function ErrorText(e: ServiceError): string {
    match e
    case ValueError(message) => message
    case ReservationDoesNotExist => DOES_NOT_EXIST_TEXT
  }

  /** `ReservationStatusSerializer(reservation).data`. */
  function StatusOf(r: Reservation): (b: Body)
    ensures b.StatusView? && b.token == r.token && b.status == r.status && b.expiresAt == r.expiresAt
  {
    StatusView(r.token, r.status, r.expiresAt)
  }

  /** `ActivePromosView.get`: the promos the caller's profile may see; a
      user without a profile escapes as an unhandled error. */
  function ActivePromosView(
    within: WithinRadius,
    promos: map<PromoId, FlashPromo>,
    profiles: map<UserId, Profile>,
    sps: map<StoreProductId, StoreProduct>,
    stores: map<StoreId, Store>,
    user: UserId,
    now: Time): (r: Response)
    ensures r.code == HTTP_500_INTERNAL_SERVER_ERROR <==> user !in profiles
    ensures user in profiles ==>
      r == Response(HTTP_200_OK, PromoList(ActivePromosForProfile(within, profiles[user], promos, sps, stores, now, MINIMUM_DISTANCE)))
  {
    match GetProfileByUser(profiles, user)
    case Failure(e) => Response(HTTP_500_INTERNAL_SERVER_ERROR, Unhandled(e))
    case Success(profile) => Response(HTTP_200_OK, PromoList(ActivePromosForProfile(within, profile, promos, sps, stores, now, MINIMUM_DISTANCE)))
  }

  // ---------- reserve ----------

  /** `ReservePromoView.post` by `user` at `now` with body field `promo_id`:
      the body check, the promo lookup, the window, the profile, the
      eligibility, then the hold. Only a hold changes the ledger. */
  function ReserveView(
    within: WithinRadius,
    promos: map<PromoId, FlashPromo>,
    profiles: map<UserId, Profile>,
    stores: map<StoreId, Store>,
    l: Ledger,
    user: UserId,
    promoId: Option<int>,
    now: Time): (o: ViewOutcome)
    requires PromosResolve(promos, l.storeProducts, stores)
    ensures o.response.code in {HTTP_201_CREATED, HTTP_400_BAD_REQUEST, HTTP_403_FORBIDDEN, HTTP_404_NOT_FOUND, HTTP_500_INTERNAL_SERVER_ERROR}
    ensures o.response.code != HTTP_201_CREATED ==> o.ledger == l
  {
    if promoId.None? then ViewOutcome(Response(HTTP_400_BAD_REQUEST, FieldRequired("promo_id")), l)
    else if promoId.value < 0 || promoId.value as PromoId !in promos then ViewOutcome(Response(HTTP_404_NOT_FOUND, NotFound), l)
    else
      var id := promoId.value as PromoId;
      var promo := promos[id];
      if !IsActiveNow(promo, now) then ViewOutcome(Response(HTTP_400_BAD_REQUEST, Detail(PROMO_NOT_ACTIVATED)), l)
      else match GetProfileByUser(profiles, user)
        case Failure(e) => ViewOutcome(Response(HTTP_500_INTERNAL_SERVER_ERROR, Unhandled(e)), l)
        case Success(profile) =>
          if !UserIsEligibleForPromo(within, profile, l.storeProducts, stores, promo, MINIMUM_DISTANCE) then
            ViewOutcome(Response(HTTP_403_FORBIDDEN, Detail(NOT_ELIGIBLE)), l)
          else
            var h := HoldStep(l, user, id, promo.storeProduct, now);
            match h.result
            case Failure(e) => ViewOutcome(Response(HTTP_400_BAD_REQUEST, Detail(ErrorText(e))), h.ledger)
            case Success(r) => ViewOutcome(Response(HTTP_201_CREATED, Created(r.token, r.expiresAt)), h.ledger)
  }

  /** An unknown promo answers 404 before the window, the profile or the
      stock is looked at. */
  lemma ReserveUnknownPromoFirst(
    within: WithinRadius, promos: map<PromoId, FlashPromo>, profiles: map<UserId, Profile>,
    stores: map<StoreId, Store>, l: Ledger, user: UserId, id: int, now: Time)
    requires PromosResolve(promos, l.storeProducts, stores)
    requires id < 0 || id as PromoId !in promos
    ensures ReserveView(within, promos, profiles, stores, l, user, Some(id), now) == ViewOutcome(Response(HTTP_404_NOT_FOUND, NotFound), l)
  {
  }

  /** A promo not ACTIVE inside its window answers 400 before the profile,
      the distance or the stock is consulted. */
  lemma ReserveInactiveBeforeEligibility(
    within: WithinRadius, within': WithinRadius,
    promos: map<PromoId, FlashPromo>, profiles: map<UserId, Profile>, profiles': map<UserId, Profile>,
    stores: map<StoreId, Store>, l: Ledger, user: UserId, id: PromoId, now: Time)
    requires PromosResolve(promos, l.storeProducts, stores)
    requires id in promos && !IsActiveNow(promos[id], now)
    ensures ReserveView(within, promos, profiles, stores, l, user, Some(id as int), now)
         == ReserveView(within', promos, profiles', stores, l, user, Some(id as int), now)
         == ViewOutcome(Response(HTTP_400_BAD_REQUEST, Detail(PROMO_NOT_ACTIVATED)), l)
  {
  }

  /** An ineligible user is refused with 403 and no hold is attempted, so
      the ledger is untouched whatever the stock. */
  lemma ReserveIneligibleNeverHolds(
    within: WithinRadius, promos: map<PromoId, FlashPromo>, profiles: map<UserId, Profile>,
    stores: map<StoreId, Store>, l: Ledger, user: UserId, id: PromoId, now: Time)
    requires PromosResolve(promos, l.storeProducts, stores)
    requires id in promos && IsActiveNow(promos[id], now) && user in profiles
    requires !UserIsEligibleForPromo(within, profiles[user], l.storeProducts, stores, promos[id], MINIMUM_DISTANCE)
    ensures ReserveView(within, promos, profiles, stores, l, user, Some(id as int), now)
         == ViewOutcome(Response(HTTP_403_FORBIDDEN, Detail(NOT_ELIGIBLE)), l)
  {
  }

  /** A reservation is created exactly when the promo exists, is active now,
      the user has a profile and is eligible, and the row has stock; the
      answer then carries the hold's token and its deadline a minute ahead,
      and the ledger is the hold's. */
  lemma {:induction false} ReserveCreatedIff(
    within: WithinRadius, promos: map<PromoId, FlashPromo>, profiles: map<UserId, Profile>,
    stores: map<StoreId, Store>, l: Ledger, user: UserId, id: PromoId, now: Time)
    requires PromosResolve(promos, l.storeProducts, stores) && LedgerValid(l)
    ensures var o := ReserveView(within, promos, profiles, stores, l, user, Some(id as int), now);
      o.response.code == HTTP_201_CREATED <==>
        && id in promos && IsActiveNow(promos[id], now) && user in profiles
        && UserIsEligibleForPromo(within, profiles[user], l.storeProducts, stores, promos[id], MINIMUM_DISTANCE)
        && l.storeProducts[promos[id].storeProduct].stock > 0
    ensures var o := ReserveView(within, promos, profiles, stores, l, user, Some(id as int), now);
      o.response.code == HTTP_201_CREATED ==>
        && o.response.body == Created(l.nextToken, now + HOLD_SECONDS)
        && o.ledger == HoldStep(l, user, id, promos[id].storeProduct, now).ledger
  {
    if id in promos && IsActiveNow(promos[id], now) && user in profiles {
      assert Resolves(l.storeProducts, stores, promos[id]);
      HoldSpec(l, user, id, promos[id].storeProduct, now);
    }
  }

  /** An eligible user on a row without stock gets 400 with the hold's
      error text, and nothing changes. */
  lemma ReserveNoStockIsBadRequest(
    within: WithinRadius, promos: map<PromoId, FlashPromo>, profiles: map<UserId, Profile>,
    stores: map<StoreId, Store>, l: Ledger, user: UserId, id: PromoId, now: Time)
    requires PromosResolve(promos, l.storeProducts, stores) && LedgerValid(l)
    requires id in promos && IsActiveNow(promos[id], now) && user in profiles
    requires UserIsEligibleForPromo(within, profiles[user], l.storeProducts, stores, promos[id], MINIMUM_DISTANCE)
    requires promos[id].storeProduct in l.storeProducts && l.storeProducts[promos[id].storeProduct].stock == 0
    ensures ReserveView(within, promos, profiles, stores, l, user, Some(id as int), now)
         == ViewOutcome(Response(HTTP_400_BAD_REQUEST, Detail(NO_STOCK_MESSAGE)), l)
  {
  }

  /** Whatever the request, a reserve keeps the engine invariant: no unit is
      created or lost. */
  lemma {:induction false} ReserveKeepsInvariant(
    within: WithinRadius, promos: map<PromoId, FlashPromo>, profiles: map<UserId, Profile>,
    stores: map<StoreId, Store>, l: Ledger, user: UserId, promoId: Option<int>, now: Time)
    requires PromosResolve(promos, l.storeProducts, stores) && LedgerValid(l)
    ensures EngineInvariant(l, ReserveView(within, promos, profiles, stores, l, user, promoId, now).ledger)
  {
    if promoId.Some? && promoId.value >= 0 && promoId.value as PromoId in promos {
      var id := promoId.value as PromoId;
      assert Resolves(l.storeProducts, stores, promos[id]);
      HoldKeepsInvariant(l, user, id, promos[id].storeProduct, now);
    }
  }

  // ---------- checkout ----------

  /** `ConfirmReservationView.put` by `user` at `now` with body field
      `reservation_token`: the confirm step, its DoesNotExist mapped to 404
      and its ValueError to 400 with the error's text. */
  function CheckoutView(l: Ledger, user: UserId, token: Option<Token>, now: Time): (o: ViewOutcome)
    ensures o.response.code in {HTTP_200_OK, HTTP_400_BAD_REQUEST, HTTP_404_NOT_FOUND}
    ensures o.response.code == HTTP_404_NOT_FOUND ==> o.ledger == l
    ensures token.None? ==> o == ViewOutcome(Response(HTTP_400_BAD_REQUEST, FieldRequired("reservation_token")), l)
  {
    if token.None? then ViewOutcome(Response(HTTP_400_BAD_REQUEST, FieldRequired("reservation_token")), l)
    else
      var c := ConfirmStep(l, token.value, user, now);
      match c.result
      case Failure(ReservationDoesNotExist) => ViewOutcome(Response(HTTP_404_NOT_FOUND, Detail(RESERVATION_NOT_FOUND)), c.ledger)
      case Failure(ValueError(message)) => ViewOutcome(Response(HTTP_400_BAD_REQUEST, Detail(message)), c.ledger)
      case Success(r) => ViewOutcome(Response(HTTP_200_OK, StatusOf(r)), c.ledger)
  }

  /** Checkout answers 404 exactly when the token is unknown or belongs to
      someone else; 200 exactly for a live HOLD, which comes back CONFIRMED. */
  lemma CheckoutOutcomes(l: Ledger, user: UserId, token: Token, now: Time)
    ensures var o := CheckoutView(l, user, Some(token), now);
      && (o.response.code == HTTP_404_NOT_FOUND <==> token !in l.reservations || l.reservations[token].user != user)
      && (o.response.code == HTTP_200_OK <==>
            && token in l.reservations && l.reservations[token].user == user
            && l.reservations[token].status == Hold && now < l.reservations[token].expiresAt)
      && (o.response.code == HTTP_200_OK ==> o.response.body.status == Confirmed)
  {
    ConfirmRejectsSpec(l, token, user, now);
  }

  /** An expired hold answers 400 "Reservation expired", yet its unit is
      back on the shelf: the write commits before the error is raised. */
  lemma CheckoutExpiredStillReturnsUnit(l: Ledger, user: UserId, token: Token, now: Time)
    requires LedgerValid(l) && token in l.reservations && l.reservations[token].user == user
    requires l.reservations[token].status == Hold && l.reservations[token].expiresAt <= now
    ensures var o := CheckoutView(l, user, Some(token), now);
      var sp := l.reservations[token].storeProduct;
      && o.response == Response(HTTP_400_BAD_REQUEST, Detail(EXPIRED_MESSAGE))
      && o.ledger.storeProducts[sp].stock == l.storeProducts[sp].stock + 1
      && o.ledger.reservations[token].status == Expired
  {
    ConfirmExpiredSpec(l, token, user, now);
  }

  lemma CheckoutKeepsInvariant(l: Ledger, user: UserId, token: Option<Token>, now: Time)
    requires LedgerValid(l)
    ensures EngineInvariant(l, CheckoutView(l, user, token, now).ledger)
  {
    if token.Some? {
      ConfirmKeepsInvariant(l, token.value, user, now);
    }
  }

  // ---------- cancel ----------

  /** `CancelReservationView.put` by `user` with body field
      `reservation_token`: the reservation is looked up by token and owner,
      then handed to the release step, whose answer is always 200. */
  function CancelView(l: Ledger, user: UserId, token: Option<Token>): (o: ViewOutcome)
    requires LedgerValid(l)
    ensures o.response.code in {HTTP_200_OK, HTTP_400_BAD_REQUEST, HTTP_404_NOT_FOUND}
    ensures o.response.code != HTTP_200_OK ==> o.ledger == l
  {
    if token.None? then ViewOutcome(Response(HTTP_400_BAD_REQUEST, FieldRequired("reservation_token")), l)
    else if token.value !in l.reservations || l.reservations[token.value].user != user then
      ViewOutcome(Response(HTTP_404_NOT_FOUND, Detail(RESERVATION_NOT_FOUND)), l)
    else
      var c := ReleaseStep(l, token.value);
      ViewOutcome(Response(HTTP_200_OK, StatusOf(c.result.value)), c.ledger)
  }

  /** Cancel and checkout find the same reservations: both answer 404 for
      exactly the same token and user. */
  lemma CancelAndCheckoutAgreeOnNotFound(l: Ledger, user: UserId, token: Token, now: Time)
    requires LedgerValid(l)
    ensures (CancelView(l, user, Some(token)).response.code == HTTP_404_NOT_FOUND)
        <==> (CheckoutView(l, user, Some(token), now).response.code == HTTP_404_NOT_FOUND)
  {
    CheckoutOutcomes(l, user, token, now);
  }

  /** A found reservation is answered 200; a HOLD comes back EXPIRED with
      its unit returned, any other comes back as it was and nothing
      changes. */
  lemma CancelFoundOutcome(l: Ledger, user: UserId, token: Token)
    requires LedgerValid(l) && token in l.reservations && l.reservations[token].user == user
    ensures var o := CancelView(l, user, Some(token));
      var r := l.reservations[token];
      && o.response.code == HTTP_200_OK
      && (r.status == Hold ==>
            (&& o.response.body == StatusOf(r.(status := Expired))
             && o.ledger == ReleaseStep(l, token).ledger
             && o.ledger.storeProducts[r.storeProduct].stock == l.storeProducts[r.storeProduct].stock + 1))
      && (r.status != Hold ==> o == ViewOutcome(Response(HTTP_200_OK, StatusOf(r)), l))
  {
    ReleaseSpec(l, token);
  }

  lemma CancelKeepsInvariant(l: Ledger, user: UserId, token: Option<Token>)
    requires LedgerValid(l)
    ensures EngineInvariant(l, CancelView(l, user, token).ledger)
  {
    if token.Some? && token.value in l.reservations && l.reservations[token.value].user == user {
      ReleaseKeepsInvariant(l, token.value);
    }
  }
}
