/** The reservation engine and the notification audience
    (flash_promo/services.py). Each atomic service function is a method on
    the Database, proved equal to a step function on the Ledger; the
    properties of the engine are lemmas about the step functions. */
module Services {
  import opened Wrappers
  import opened Constants
  import opened Models
  import opened Queries

  /** A hold lasts one minute. */
  const HOLD_SECONDS: int := 60

  const NO_STOCK_MESSAGE: string := "No stock for "
  const NOT_HOLD_MESSAGE: string := "Reservation not in HOLD state"
  const EXPIRED_MESSAGE: string := "Reservation expired"

  /** What a service function raises: a `ValueError` with its text, or the
      ORM's `Reservation.DoesNotExist`. */
  datatype ServiceError = ValueError(message: string) | ReservationDoesNotExist

  /** The answer of a service function together with the ledger it leaves. */
  datatype Outcome<T> = Outcome(result: Result<T, ServiceError>, ledger: Ledger)

  // ---------- notification audience ----------

  /** `eligible_profiles_for_promo`: the users whose profile has the
      behaviour flag and lies within MINIMUM_DISTANCE of the promo's store. */
  function EligibleProfilesForPromo(
    within: WithinRadius,
    profiles: map<UserId, Profile>,
    sps: map<StoreProductId, StoreProduct>,
    stores: map<StoreId, Store>,
    promo: FlashPromo): (r: set<UserId>)
    requires Resolves(sps, stores, promo)
    ensures r <= profiles.Keys
    ensures forall u :: u in r ==> BehaviorOk(profiles[u]) && profiles[u].geom.Some?
  {
    set u | u in profiles
      && (profiles[u].isNewUser || profiles[u].isFrequent)
      && Near(within, profiles[u].geom, Some(PromoStore(sps, stores, promo).geom), MINIMUM_DISTANCE)
  }

  /** The set filter here and the per-user check of the reserve view agree
      whenever the distance is symmetric (the two compare the points in
      opposite order). */
  lemma EligibleAgreesWithUserCheck(
    within: WithinRadius,
    profiles: map<UserId, Profile>,
    sps: map<StoreProductId, StoreProduct>,
    stores: map<StoreId, Store>,
    promo: FlashPromo,
    u: UserId)
    requires Resolves(sps, stores, promo) && Symmetric(within) && u in profiles
    ensures u in EligibleProfilesForPromo(within, profiles, sps, stores, promo)
        <==> UserIsEligibleForPromo(within, profiles[u], sps, stores, promo, MINIMUM_DISTANCE)
  {
    var g := profiles[u].geom;
    var s := PromoStore(sps, stores, promo).geom;
    if g.Some? {
      assert within(g.value, s, MINIMUM_DISTANCE) == within(s, g.value, MINIMUM_DISTANCE);
    }
  }

  /** The users already logged for `promo` on `today`. */
  function NotifiedOn(log: set<NotificationKey>, promo: PromoId, today: Date): (r: set<UserId>)
    ensures forall u :: u in r <==> NewNotificationKey(u, promo, today) in log
  {
    set k | k in log && k.promo == promo && k.sentDate == today :: k.user
  }

  /** `profiles_to_notify_for_promo`: the eligible users that have no log
      entry for this promo today. */
  function ProfilesToNotifyForPromo(
    within: WithinRadius,
    profiles: map<UserId, Profile>,
    sps: map<StoreProductId, StoreProduct>,
    stores: map<StoreId, Store>,
    log: set<NotificationKey>,
    promoId: PromoId,
    promo: FlashPromo,
    today: Date): (r: set<UserId>)
    requires Resolves(sps, stores, promo)
    ensures forall u :: u in r <==>
      u in EligibleProfilesForPromo(within, profiles, sps, stores, promo) && NewNotificationKey(u, promoId, today) !in log
  {
    EligibleProfilesForPromo(within, profiles, sps, stores, promo) - NotifiedOn(log, promoId, today)
  }

  // ---------- the reservation engine as step functions ----------

  /** `F("stock") + 1` through a filtered update: a missing row updates nothing. */
  function Increment(sps: map<StoreProductId, StoreProduct>, id: StoreProductId): (r: map<StoreProductId, StoreProduct>)
    ensures SameRows(sps, r)
    ensures forall k :: k in sps ==> r[k].stock == sps[k].stock + (if k == id then 1 else 0)
  {
    if id in sps then sps[id := sps[id].(stock := sps[id].stock + 1)] else sps
  }

  /** `hold_store_product_db`: take one unit of `sp` and record a HOLD
      reservation under a fresh token that expires a minute from `now`. */
  function HoldStep(l: Ledger, user: UserId, promoId: PromoId, sp: StoreProductId, now: Time): Outcome<Reservation>
    requires sp in l.storeProducts
  {
    var row := l.storeProducts[sp];
    if row.stock <= 0 then Outcome(Failure(ValueError(NO_STOCK_MESSAGE)), l)
    else
      var token := l.nextToken;
      var r := Reservation(token, promoId, sp, user, Hold, now + HOLD_SECONDS, now);
      Outcome(Success(r), Ledger(l.storeProducts[sp := row.(stock := row.stock - 1)], l.reservations[token := r], token + 1))
  }

  /** `confirm_reservation`: look the reservation up by token and owner;
      a HOLD past its deadline is expired and its unit returned (the write
      commits before the error is raised); a live HOLD is confirmed. */
  function ConfirmStep(l: Ledger, token: Token, user: UserId, now: Time): Outcome<Reservation> {
    if token !in l.reservations || l.reservations[token].user != user then
      Outcome(Failure(ReservationDoesNotExist), l)
    else
      var r := l.reservations[token];
      if r.status != Hold then Outcome(Failure(ValueError(NOT_HOLD_MESSAGE)), l)
      else if r.expiresAt <= now then
        Outcome(Failure(ValueError(EXPIRED_MESSAGE)),
                Ledger(Increment(l.storeProducts, r.storeProduct), l.reservations[token := r.(status := Expired)], l.nextToken))
      else
        Outcome(Success(r.(status := Confirmed)), Ledger(l.storeProducts, l.reservations[token := r.(status := Confirmed)], l.nextToken))
  }

  /** `cancel_or_expire_reservation` on the reservation stored under
      `token`: nothing unless HOLD; a HOLD returns its unit and becomes
      EXPIRED. */
  function ReleaseStep(l: Ledger, token: Token): Outcome<Reservation>
    requires token in l.reservations && l.reservations[token].storeProduct in l.storeProducts
  {
    var r := l.reservations[token];
    if r.status != Hold then Outcome(Success(r), l)
    else
      var row := l.storeProducts[r.storeProduct];
      Outcome(Success(r.(status := Expired)),
              Ledger(l.storeProducts[r.storeProduct := row.(stock := row.stock + 1)], l.reservations[token := r.(status := Expired)], l.nextToken))
  }

  // ---------- what each step does ----------

  /** A hold fails exactly when the row has no stock, and then changes
      nothing; otherwise stock drops by one on that row only, and exactly
      one HOLD reservation appears under a token never used before. */
  lemma HoldSpec(l: Ledger, user: UserId, promoId: PromoId, sp: StoreProductId, now: Time)
    requires LedgerValid(l) && sp in l.storeProducts
    ensures var o := HoldStep(l, user, promoId, sp, now);
      && (o.result.Failure? <==> l.storeProducts[sp].stock == 0)
      && (o.result.Failure? ==> o.result.error == ValueError(NO_STOCK_MESSAGE) && o.ledger == l)
      && (o.result.Success? ==>
            var r := o.result.value;
            && r.token !in l.reservations
            && r.status == Hold && r.expiresAt == now + HOLD_SECONDS
            && r.user == user && r.promo == promoId && r.storeProduct == sp
            && o.ledger.reservations == l.reservations[r.token := r]
            && |o.ledger.reservations| == |l.reservations| + 1
            && o.ledger.storeProducts.Keys == l.storeProducts.Keys
            && o.ledger.storeProducts[sp].stock == l.storeProducts[sp].stock - 1
            && (forall id :: id in l.storeProducts && id != sp ==> o.ledger.storeProducts[id] == l.storeProducts[id]))
  {
  }

  /** Confirming an unknown token, or somebody else's reservation, raises
      DoesNotExist; a reservation that is not HOLD raises "not in HOLD
      state"; neither changes anything. */
  lemma ConfirmRejectsSpec(l: Ledger, token: Token, user: UserId, now: Time)
    ensures var o := ConfirmStep(l, token, user, now);
      && ((token !in l.reservations || l.reservations[token].user != user) <==> o.result == Failure(ReservationDoesNotExist))
      && ((token in l.reservations && l.reservations[token].user == user && l.reservations[token].status != Hold)
          <==> o.result == Failure(ValueError(NOT_HOLD_MESSAGE)))
      && (o.result == Failure(ReservationDoesNotExist) || o.result == Failure(ValueError(NOT_HOLD_MESSAGE)) ==> o.ledger == l)
  {
  }

  /** A HOLD at or past its deadline: one unit back on its row, the row
      EXPIRED, and the error "Reservation expired". */
  lemma ConfirmExpiredSpec(l: Ledger, token: Token, user: UserId, now: Time)
    requires LedgerValid(l)
    requires token in l.reservations && l.reservations[token].user == user
    requires l.reservations[token].status == Hold && l.reservations[token].expiresAt <= now
    ensures var o := ConfirmStep(l, token, user, now);
      var r := l.reservations[token];
      && o.result == Failure(ValueError(EXPIRED_MESSAGE))
      && o.ledger.reservations == l.reservations[token := r.(status := Expired)]
      && o.ledger.storeProducts.Keys == l.storeProducts.Keys
      && o.ledger.storeProducts[r.storeProduct].stock == l.storeProducts[r.storeProduct].stock + 1
      && (forall id :: id in l.storeProducts && id != r.storeProduct ==> o.ledger.storeProducts[id] == l.storeProducts[id])
  {
  }

  /** A live HOLD becomes CONFIRMED and no stock moves. */
  lemma ConfirmLiveSpec(l: Ledger, token: Token, user: UserId, now: Time)
    requires token in l.reservations && l.reservations[token].user == user
    requires l.reservations[token].status == Hold && now < l.reservations[token].expiresAt
    ensures var o := ConfirmStep(l, token, user, now);
      && o.result == Success(l.reservations[token].(status := Confirmed))
      && o.ledger.storeProducts == l.storeProducts
      && o.ledger.reservations == l.reservations[token := l.reservations[token].(status := Confirmed)]
  {
  }

  /** A reservation that is not HOLD is returned untouched; a HOLD one
      returns its unit to its row and becomes EXPIRED. */
  lemma ReleaseSpec(l: Ledger, token: Token)
    requires LedgerValid(l) && token in l.reservations
    ensures var o := ReleaseStep(l, token);
      var r := l.reservations[token];
      && (r.status != Hold ==> o == Outcome(Success(r), l))
      && (r.status == Hold ==>
            && o.result == Success(r.(status := Expired))
            && o.ledger.reservations == l.reservations[token := r.(status := Expired)]
            && o.ledger.storeProducts == Increment(l.storeProducts, r.storeProduct))
  {
  }

  // ---------- conservation ----------

  lemma CardRemoveOne<T>(s: set<T>, x: T)
    requires x in s
    ensures |s - {x}| == |s| - 1
  {
    assert s == (s - {x}) + {x};
  }

  /** A new row under an unused token adds one unit to the StoreProduct it takes. */
  lemma OutstandingAddOne(res: map<Token, Reservation>, t: Token, r: Reservation, id: StoreProductId)
    requires t !in res
    ensures |Outstanding(res[t := r], id)| == |Outstanding(res, id)| + (if Takes(r, id) then 1 else 0)
  {
    if Takes(r, id) {
      assert Outstanding(res[t := r], id) == Outstanding(res, id) + {t};
    } else {
      assert Outstanding(res[t := r], id) == Outstanding(res, id);
    }
  }

  /** Expiring a HOLD row removes one unit from its own StoreProduct only. */
  lemma OutstandingExpireOne(res: map<Token, Reservation>, t: Token, id: StoreProductId)
    requires t in res && res[t].status == Hold
    ensures |Outstanding(res[t := res[t].(status := Expired)], id)|
         == |Outstanding(res, id)| - (if id == res[t].storeProduct then 1 else 0)
  {
    if id == res[t].storeProduct {
      assert Outstanding(res[t := res[t].(status := Expired)], id) == Outstanding(res, id) - {t};
      CardRemoveOne(Outstanding(res, id), t);
    } else {
      assert Outstanding(res[t := res[t].(status := Expired)], id) == Outstanding(res, id);
    }
  }

  /** Confirming a HOLD row keeps it among the units it takes. */
  lemma OutstandingConfirmOne(res: map<Token, Reservation>, t: Token, id: StoreProductId)
    requires t in res && res[t].status == Hold
    ensures Outstanding(res[t := res[t].(status := Confirmed)], id) == Outstanding(res, id)
  {
  }

  /** A hold moves one unit of `sp` from the shelf into a HOLD reservation. */
  lemma {:induction false} HoldKeepsInvariant(l: Ledger, user: UserId, promoId: PromoId, sp: StoreProductId, now: Time)
    requires LedgerValid(l) && sp in l.storeProducts
    ensures EngineInvariant(l, HoldStep(l, user, promoId, sp, now).ledger)
  {
    var o := HoldStep(l, user, promoId, sp, now);
    if o.result.Success? {
      assert l.nextToken !in l.reservations;
      forall id
        ensures Units(l, id) == Units(o.ledger, id)
      {
        OutstandingAddOne(l.reservations, l.nextToken, o.result.value, id);
      }
    }
  }

  /** Expiring a HOLD reservation moves its unit back to the shelf. */
  lemma {:induction false} ExpireOneConserves(l: Ledger, token: Token, l': Ledger)
    requires LedgerValid(l) && token in l.reservations && l.reservations[token].status == Hold
    requires l'.storeProducts == Increment(l.storeProducts, l.reservations[token].storeProduct)
    requires l'.reservations == l.reservations[token := l.reservations[token].(status := Expired)]
    requires l'.nextToken == l.nextToken
    ensures EngineInvariant(l, l')
  {
    forall id
      ensures Units(l, id) == Units(l', id)
    {
      OutstandingExpireOne(l.reservations, token, id);
    }
  }

  /** Confirming keeps every unit accounted: either nothing changes, a HOLD
      becomes CONFIRMED (both count), or an expired HOLD returns its unit. */
  lemma {:induction false} ConfirmKeepsInvariant(l: Ledger, token: Token, user: UserId, now: Time)
    requires LedgerValid(l)
    ensures EngineInvariant(l, ConfirmStep(l, token, user, now).ledger)
  {
    var o := ConfirmStep(l, token, user, now);
    if token in l.reservations && l.reservations[token].user == user && l.reservations[token].status == Hold {
      if l.reservations[token].expiresAt <= now {
        ExpireOneConserves(l, token, o.ledger);
      } else {
        forall id
          ensures Units(l, id) == Units(o.ledger, id)
        {
          OutstandingConfirmOne(l.reservations, token, id);
        }
      }
    }
  }

  /** Releasing keeps every unit accounted. */
  lemma {:induction false} ReleaseKeepsInvariant(l: Ledger, token: Token)
    requires LedgerValid(l) && token in l.reservations
    ensures EngineInvariant(l, ReleaseStep(l, token).ledger)
  {
    if l.reservations[token].status == Hold {
      ExpireOneConserves(l, token, ReleaseStep(l, token).ledger);
    }
  }

  /** The invariant composes, so it holds across any run of engine steps. */
  lemma EngineInvariantTransitive(a: Ledger, b: Ledger, c: Ledger)
    requires EngineInvariant(a, b) && EngineInvariant(b, c)
    ensures EngineInvariant(a, c)
  {
    forall t | t in c.reservations && c.reservations[t].status == Canceled
      ensures t in a.reservations && a.reservations[t].status == Canceled
    {
      assert t in b.reservations && b.reservations[t].status == Canceled;
    }
  }

  // ---------- round trips and repeated calls ----------

  /** Releasing twice is releasing once. */
  lemma ReleaseIdempotent(l: Ledger, token: Token)
    requires LedgerValid(l) && token in l.reservations
    ensures var o := ReleaseStep(l, token);
      token in o.ledger.reservations && o.ledger.reservations[token].storeProduct in o.ledger.storeProducts
      && ReleaseStep(o.ledger, token) == Outcome(o.result, o.ledger)
  {
  }

  /** A hold followed by the release of the reservation it created gives
      back the stock exactly as it was before the hold. */
  lemma HoldThenReleaseRestoresStock(l: Ledger, user: UserId, promoId: PromoId, sp: StoreProductId, now: Time)
    requires LedgerValid(l) && sp in l.storeProducts
    requires HoldStep(l, user, promoId, sp, now).result.Success?
    ensures var h := HoldStep(l, user, promoId, sp, now);
      var t := h.result.value.token;
      t in h.ledger.reservations && h.ledger.reservations[t].storeProduct in h.ledger.storeProducts
      && ReleaseStep(h.ledger, t).ledger.storeProducts == l.storeProducts
      && ReleaseStep(h.ledger, t).ledger.reservations[t].status == Expired
  {
    var h := HoldStep(l, user, promoId, sp, now);
    var after := ReleaseStep(h.ledger, h.result.value.token).ledger.storeProducts;
    assert after.Keys == l.storeProducts.Keys;
    forall id | id in l.storeProducts
      ensures after[id] == l.storeProducts[id]
    {
    }
  }

  /** After a confirm reported "Reservation expired", confirming again
      reports "not in HOLD state" and moves no stock. */
  lemma ExpiredConfirmThenNotHold(l: Ledger, token: Token, user: UserId, now: Time, later: Time)
    requires ConfirmStep(l, token, user, now).result == Failure(ValueError(EXPIRED_MESSAGE))
    ensures var l' := ConfirmStep(l, token, user, now).ledger;
      ConfirmStep(l', token, user, later) == Outcome(Failure(ValueError(NOT_HOLD_MESSAGE)), l')
  {
  }

  /** A confirmed reservation cannot be confirmed or released again:
      confirming reports "not in HOLD state" and releasing returns it as it
      is, and neither moves anything. */
  lemma ConfirmedIsFinal(l: Ledger, token: Token, user: UserId, now: Time, later: Time)
    requires ConfirmStep(l, token, user, now).result.Success?
    ensures var l' := ConfirmStep(l, token, user, now).ledger;
      && ConfirmStep(l', token, user, later) == Outcome(Failure(ValueError(NOT_HOLD_MESSAGE)), l')
      && l'.reservations[token].status == Confirmed
      && (l'.reservations[token].storeProduct in l'.storeProducts ==>
            ReleaseStep(l', token) == Outcome(Success(l'.reservations[token]), l'))
  {
  }

  /** `k` holds by anyone on one StoreProduct, one after the other. */
  function HoldMany(l: Ledger, user: UserId, promoId: PromoId, sp: StoreProductId, now: Time, k: nat): (o: (nat, Ledger))
    requires sp in l.storeProducts
    ensures sp in o.1.storeProducts
    decreases k
  {
    if k == 0 then (0, l)
    else
      var h := HoldStep(l, user, promoId, sp, now);
      var rest := HoldMany(h.ledger, user, promoId, sp, now, k - 1);
      (rest.0 + (if h.result.Success? then 1 else 0), rest.1)
  }

  /** No overselling: of `k` holds on a row with `n` units exactly
      min(k, n) succeed, and the row ends with n - min(k, n). */
  lemma {:induction false} HoldManyTakesAtMostStock(l: Ledger, user: UserId, promoId: PromoId, sp: StoreProductId, now: Time, k: nat)
    requires sp in l.storeProducts
    ensures var o := HoldMany(l, user, promoId, sp, now, k);
      var n := l.storeProducts[sp].stock;
      var m := if k < n then k else n;
      o.0 == m && o.1.storeProducts[sp].stock == n - m
    decreases k
  {
    if k > 0 {
      var h := HoldStep(l, user, promoId, sp, now);
      HoldManyTakesAtMostStock(h.ledger, user, promoId, sp, now, k - 1);
    }
  }

  // ---------- the service functions on the store ----------

  /** `hold_store_product_db(user, promo)`. */
  method HoldStoreProduct(db: Database, user: UserId, promoId: PromoId, now: Time) returns (result: Result<Reservation, ServiceError>)
    requires db.Valid() && promoId in db.promos
    modifies db`storeProducts, db`reservations, db`nextToken
    ensures db.Valid()
    ensures db.promos[promoId].storeProduct in old(db.storeProducts)
    ensures Outcome(result, db.LedgerView()) == HoldStep(old(db.LedgerView()), user, promoId, db.promos[promoId].storeProduct, now)
  {
    ghost var before := db.LedgerView();
    var sp := db.promos[promoId].storeProduct;
    var row := db.storeProducts[sp];
    if row.stock <= 0 {
      return Failure(ValueError(NO_STOCK_MESSAGE));
    }
    var token := db.nextToken;
    var reservation := Reservation(token, promoId, sp, user, Hold, now + HOLD_SECONDS, now);
    var rows := db.storeProducts[sp := row.(stock := row.stock - 1)];
    var held := db.reservations[token := reservation];
    assert Ledger(rows, held, token + 1) == HoldStep(before, user, promoId, sp, now).ledger;
    StockChangeKeepsCatalog(db.stores, db.products, db.storeProducts, rows, db.promos, db.profiles, db.notificationLog);
    db.storeProducts, db.reservations, db.nextToken := rows, held, token + 1;
    result := Success(reservation);
  }

  /** `confirm_reservation(token, user)`, with its `expired` and `not_hold`
      flags set inside the transaction and raised after it. */
  method ConfirmReservation(db: Database, token: Token, user: UserId, now: Time) returns (result: Result<Reservation, ServiceError>)
    requires db.Valid()
    modifies db`storeProducts, db`reservations
    ensures db.Valid()
    ensures Outcome(result, db.LedgerView()) == ConfirmStep(old(db.LedgerView()), token, user, now)
  {
    ghost var before := db.LedgerView();
    if token !in db.reservations || db.reservations[token].user != user {
      return Failure(ReservationDoesNotExist);
    }
    var expired := false;
    var notHold := false;
    var rows, held := db.storeProducts, db.reservations;
    var reservation := held[token];
    if reservation.status != Hold {
      notHold := true;
    } else if reservation.expiresAt <= now {
      rows := Increment(rows, reservation.storeProduct);
      reservation := reservation.(status := Expired);
      held := held[token := reservation];
      expired := true;
      StatusChangeKeepsPromoRefs(db.reservations, token, Expired, db.promos);
    } else {
      reservation := reservation.(status := Confirmed);
      held := held[token := reservation];
      StatusChangeKeepsPromoRefs(db.reservations, token, Confirmed, db.promos);
    }
    assert Ledger(rows, held, db.nextToken) == ConfirmStep(before, token, user, now).ledger;
    StockChangeKeepsCatalog(db.stores, db.products, db.storeProducts, rows, db.promos, db.profiles, db.notificationLog);
    db.storeProducts, db.reservations := rows, held;
    if notHold {
      return Failure(ValueError(NOT_HOLD_MESSAGE));
    }
    if expired {
      return Failure(ValueError(EXPIRED_MESSAGE));
    }
    result := Success(reservation);
  }

  /** `cancel_or_expire_reservation` on the reservation stored under `token`. */
  method CancelOrExpireReservation(db: Database, token: Token) returns (result: Reservation)
    requires db.Valid() && token in db.reservations
    modifies db`storeProducts, db`reservations
    ensures db.Valid()
    ensures Outcome(Success(result), db.LedgerView()) == ReleaseStep(old(db.LedgerView()), token)
  {
    ghost var before := db.LedgerView();
    var reservation := db.reservations[token];
    if reservation.status != Hold {
      return reservation;
    }
    var rows, held := db.storeProducts, db.reservations;
    var row := rows[reservation.storeProduct];
    rows := rows[reservation.storeProduct := row.(stock := row.stock + 1)];
    reservation := reservation.(status := Expired);
    held := held[token := reservation];
    assert Ledger(rows, held, db.nextToken) == ReleaseStep(before, token).ledger;
    StockChangeKeepsCatalog(db.stores, db.products, db.storeProducts, rows, db.promos, db.profiles, db.notificationLog);
    StatusChangeKeepsPromoRefs(db.reservations, token, Expired, db.promos);
    db.storeProducts, db.reservations := rows, held;
    result := reservation;
  }
}
