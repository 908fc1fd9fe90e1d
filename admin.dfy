/** The admin actions over promos and reservations (flash_promo/admin.py);
    the "active now" column of the promo list is `Models.IsActiveNow`. */
module Admin {
  import opened Constants
  import opened Models

  /** `make_active`: every selected promo becomes ACTIVE, whatever it was. */
  method MakeActive(db: Database, selection: set<PromoId>) returns (count: nat)
    requires db.Valid()
    modifies db`promos
    ensures db.Valid()
    ensures db.promos == Overwrite(old(db.promos), selection, Active)
    ensures count == |selection * old(db.promos).Keys|
  {
    var promos' := Overwrite(db.promos, selection, Active);
    StatusChangeKeepsCatalog(db.stores, db.products, db.storeProducts, db.promos, promos', db.profiles, db.notificationLog);
    SameKeysKeepPromos(db.reservations, db.promos, promos');
    count := |selection * db.promos.Keys|;
    db.promos := promos';
  }

  /** `make_finished`: every selected promo becomes FINISHED, whatever it was. */
  method MakeFinished(db: Database, selection: set<PromoId>) returns (count: nat)
    requires db.Valid()
    modifies db`promos
    ensures db.Valid()
    ensures db.promos == Overwrite(old(db.promos), selection, Finished)
    ensures count == |selection * old(db.promos).Keys|
  {
    var promos' := Overwrite(db.promos, selection, Finished);
    StatusChangeKeepsCatalog(db.stores, db.products, db.storeProducts, db.promos, promos', db.profiles, db.notificationLog);
    SameKeysKeepPromos(db.reservations, db.promos, promos');
    count := |selection * db.promos.Keys|;
    db.promos := promos';
  }

  /** Unlike the scheduler, the admin actions can move a status backwards:
      a FINISHED promo selected for `make_active` is ACTIVE again, and the
      rest of the row is untouched. */
  lemma MakeActiveReopensFinished(promos: map<PromoId, FlashPromo>, selection: set<PromoId>, id: PromoId)
    requires id in promos && id in selection && promos[id].status == Finished
    ensures id in Overwrite(promos, selection, Active)
    ensures Overwrite(promos, selection, Active)[id].status.Rank() < promos[id].status.Rank()
    ensures Overwrite(promos, selection, Active)[id] == promos[id].(status := Active)
  {
  }

  // ---------- expire_reservations ----------

  /** `queryset.filter(status=HOLD)`: the selected reservations still on hold. */
  function HeldIn(res: map<Token, Reservation>, selection: set<Token>): (r: set<Token>)
    ensures r <= selection && r <= res.Keys
    ensures forall t :: t in r ==> res[t].status == Hold
  {
    set t | t in selection && t in res && res[t].status == Hold
  }

  /** The reservations after every one in `chosen` is marked EXPIRED. */
  function ExpireAll(res: map<Token, Reservation>, chosen: set<Token>): map<Token, Reservation> {
    map t | t in res :: if t in chosen then res[t].(status := Expired) else res[t]
  }

  /** The reservations of `chosen` that belong to StoreProduct `sp`. */
  function ChosenOf(res: map<Token, Reservation>, chosen: set<Token>, sp: StoreProductId): set<Token> {
    set t | t in chosen && t in res && res[t].storeProduct == sp
  }

  /** The StoreProducts that some reservation of `chosen` belongs to. */
  function TouchedBy(res: map<Token, Reservation>, chosen: set<Token>): set<StoreProductId> {
    set t | t in chosen && t in res :: res[t].storeProduct
  }

  /** Stock after each chosen reservation returns one unit to its row. */
  function Restock(sps: map<StoreProductId, StoreProduct>, res: map<Token, Reservation>, chosen: set<Token>): map<StoreProductId, StoreProduct> {
    map id | id in sps :: sps[id].(stock := sps[id].stock + |ChosenOf(res, chosen, id)|)
  }

  /** Stock as the action writes it: each touched row is written as the value
      read before the loop plus one, however many reservations it has. */
  function SnapshotRestock(sps: map<StoreProductId, StoreProduct>, res: map<Token, Reservation>, chosen: set<Token>): map<StoreProductId, StoreProduct> {
    map id | id in sps :: if id in TouchedBy(res, chosen) then sps[id].(stock := sps[id].stock + 1) else sps[id]
  }

  lemma CardDifference<T>(a: set<T>, b: set<T>)
    requires b <= a
    ensures |a - b| == |a| - |b|
  {
    assert a == (a - b) + b;
  }

  lemma {:induction false} ChosenOfGrows(res: map<Token, Reservation>, done: set<Token>, t: Token, sp: StoreProductId)
    requires t !in done && t in res
    ensures |ChosenOf(res, done + {t}, sp)| == |ChosenOf(res, done, sp)| + (if res[t].storeProduct == sp then 1 else 0)
  {
    if res[t].storeProduct == sp {
      assert ChosenOf(res, done + {t}, sp) == ChosenOf(res, done, sp) + {t};
    } else {
      assert ChosenOf(res, done + {t}, sp) == ChosenOf(res, done, sp);
    }
  }

  /** One more expired reservation adds exactly one unit to its own row. */
  lemma RestockStep(sps: map<StoreProductId, StoreProduct>, res: map<Token, Reservation>, done: set<Token>, t: Token,
                    cur: map<StoreProductId, StoreProduct>, sp: StoreProductId, row: StoreProduct)
    requires t !in done && t in res && sp == res[t].storeProduct && sp in sps
    requires cur == Restock(sps, res, done)
    requires sp in cur && row == cur[sp]
    ensures Restock(sps, res, done + {t}) == cur[sp := row.(stock := row.stock + 1)]
  {
    var after := Restock(sps, res, done + {t});
    var stepped := cur[sp := row.(stock := row.stock + 1)];
    forall id | id in sps
      ensures after[id] == stepped[id]
    {
      ChosenOfGrows(res, done, t, id);
    }
    assert after.Keys == stepped.Keys;
  }

  lemma NothingChosen(sps: map<StoreProductId, StoreProduct>, res: map<Token, Reservation>)
    ensures Restock(sps, res, {}) == sps
    ensures SnapshotRestock(sps, res, {}) == sps
    ensures ExpireAll(res, {}) == res
  {
    forall id | id in sps
      ensures Restock(sps, res, {})[id] == sps[id]
    {
      assert ChosenOf(res, {}, id) == {};
    }
  }

  /** One more expired reservation changes only its own row. */
  lemma ExpireAllStep(res: map<Token, Reservation>, done: set<Token>, t: Token, cur: map<Token, Reservation>)
    requires t in res && t !in done
    requires cur == ExpireAll(res, done)
    ensures t in cur && cur[t] == res[t]
    ensures ExpireAll(res, done + {t}) == cur[t := cur[t].(status := Expired)]
  {
    var a := ExpireAll(res, done + {t});
    var b := cur[t := res[t].(status := Expired)];
    forall u | u in res
      ensures a[u] == b[u]
    {
    }
    assert a.Keys == b.Keys;
  }

  lemma SnapshotRestockStep(sps: map<StoreProductId, StoreProduct>, res: map<Token, Reservation>, done: set<Token>, t: Token,
                            cur: map<StoreProductId, StoreProduct>, sp: StoreProductId, row: StoreProduct)
    requires t in res && sp == res[t].storeProduct && sp in sps
    requires cur == SnapshotRestock(sps, res, done)
    requires sp in cur && row == cur[sp]
    ensures SnapshotRestock(sps, res, done + {t}) == cur[sp := row.(stock := sps[sp].stock + 1)]
  {
    var a := SnapshotRestock(sps, res, done + {t});
    var b := cur[sp := row.(stock := sps[sp].stock + 1)];
    assert TouchedBy(res, done + {t}) == TouchedBy(res, done) + {sp};
    forall id | id in sps
      ensures a[id] == b[id]
    {
    }
    assert a.Keys == b.Keys;
  }

  /** Expiring held reservations removes exactly the chosen ones of `sp`
      from the units it accounts for. */
  lemma ExpireAllOutstanding(res: map<Token, Reservation>, chosen: set<Token>, sp: StoreProductId)
    requires forall t :: t in chosen ==> t in res && res[t].status == Hold
    ensures ChosenOf(res, chosen, sp) <= Outstanding(res, sp)
    ensures Outstanding(ExpireAll(res, chosen), sp) == Outstanding(res, sp) - ChosenOf(res, chosen, sp)
  {
  }

  /** Expiring held reservations keeps every token, leaves terminal rows
      alone and cancels nothing. */
  lemma ExpireAllFrozen(res: map<Token, Reservation>, chosen: set<Token>)
    requires forall t :: t in chosen ==> t in res && res[t].status == Hold
    ensures ExpireAll(res, chosen).Keys == res.Keys
    ensures TerminalFrozen(res, ExpireAll(res, chosen))
    ensures NeverCancels(res, ExpireAll(res, chosen))
  {
  }

  /** The corrected release returns exactly the units the expired reservations held. */
  lemma {:induction false} RestockConserves(l: Ledger, chosen: set<Token>, l': Ledger)
    requires LedgerValid(l)
    requires forall t :: t in chosen ==> t in l.reservations && l.reservations[t].status == Hold
    requires l'.storeProducts == Restock(l.storeProducts, l.reservations, chosen)
    requires l'.reservations == ExpireAll(l.reservations, chosen) && l'.nextToken == l.nextToken
    ensures EngineInvariant(l, l')
  {
    ExpireAllFrozen(l.reservations, chosen);
    forall sp
      ensures Units(l, sp) == Units(l', sp)
    {
      var gone := ChosenOf(l.reservations, chosen, sp);
      ExpireAllOutstanding(l.reservations, chosen, sp);
      CardDifference(Outstanding(l.reservations, sp), gone);
      if sp !in l.storeProducts {
        assert gone == {};
      }
    }
  }

  /** Returning stock keeps the StoreProduct rows' keys, stores and products. */
  lemma RestockSameRows(sps: map<StoreProductId, StoreProduct>, res: map<Token, Reservation>, chosen: set<Token>)
    ensures SameRows(sps, Restock(sps, res, chosen))
    ensures SameRows(sps, SnapshotRestock(sps, res, chosen))
  {
  }

  /** Expiring reservations keeps every reservation's token, StoreProduct
      and promo reference, whichever way the stock is written back. */
  lemma ExpireKeepsLedger(l: Ledger, chosen: set<Token>, after: Ledger, promos: map<PromoId, FlashPromo>)
    requires LedgerValid(l) && ReservationPromosExist(l.reservations, promos)
    requires after.storeProducts.Keys == l.storeProducts.Keys
    requires after.reservations == ExpireAll(l.reservations, chosen) && after.nextToken == l.nextToken
    ensures LedgerValid(after)
    ensures ReservationPromosExist(after.reservations, promos)
  {
  }

  /** The loop of `expire_reservations`, with each release written as
      `stock = stock + 1` against the current row. */
  method ReleaseEach(db: Database, toExpire: set<Token>) returns (count: nat)
    requires forall t :: t in toExpire ==> t in db.reservations && db.reservations[t].storeProduct in db.storeProducts
    modifies db`storeProducts, db`reservations
    ensures db.reservations == ExpireAll(old(db.reservations), toExpire)
    ensures db.storeProducts == Restock(old(db.storeProducts), old(db.reservations), toExpire)
    ensures count == |toExpire|
  {
    var rows, held := db.storeProducts, db.reservations;
    ghost var sps0, res0 := rows, held;
    var remaining := toExpire;
    ghost var done: set<Token> := {};
    count := 0;
    NothingChosen(sps0, res0);
    while remaining != {}
      invariant remaining !! done && remaining <= toExpire && done <= toExpire
      invariant forall x :: x in toExpire ==> x in remaining || x in done
      invariant held == ExpireAll(res0, done)
      invariant rows == Restock(sps0, res0, done)
      invariant count == |done|
      decreases remaining
    {
      var t :| t in remaining;
      ExpireAllStep(res0, done, t, held);
      var reservation := held[t];
      var sp := reservation.storeProduct;
      var row := rows[sp];
      RestockStep(sps0, res0, done, t, rows, sp, row);
      rows := rows[sp := row.(stock := row.stock + 1)];
      held := held[t := reservation.(status := Expired)];
      remaining, done := remaining - {t}, done + {t};
      count := count + 1;
    }
    assert done == toExpire;
    db.storeProducts, db.reservations := rows, held;
  }

  /** `expire_reservations` with the release corrected: every HOLD reservation
      of the selection becomes EXPIRED and returns its unit. */
  method ExpireReservations(db: Database, selection: set<Token>) returns (count: nat)
    requires db.Valid()
    modifies db`storeProducts, db`reservations
    ensures db.Valid()
    ensures db.reservations == ExpireAll(old(db.reservations), HeldIn(old(db.reservations), selection))
    ensures db.storeProducts == Restock(old(db.storeProducts), old(db.reservations), HeldIn(old(db.reservations), selection))
    ensures count == |HeldIn(old(db.reservations), selection)|
    ensures EngineInvariant(old(db.LedgerView()), db.LedgerView())
  {
    ghost var before := db.LedgerView();
    var toExpire := HeldIn(db.reservations, selection);
    count := ReleaseEach(db, toExpire);
    RestockConserves(before, toExpire, db.LedgerView());
    RestockSameRows(before.storeProducts, before.reservations, toExpire);
    ExpireKeepsLedger(before, toExpire, db.LedgerView(), db.promos);
    StockChangeKeepsCatalog(db.stores, db.products, before.storeProducts, db.storeProducts, db.promos, db.profiles, db.notificationLog);
  }

  /** The loop of `expire_reservations` exactly as written: each row is
      written as the stock loaded with the selection, plus one. */
  method ReleaseEachFromSnapshot(db: Database, toExpire: set<Token>) returns (count: nat)
    requires forall t :: t in toExpire ==> t in db.reservations && db.reservations[t].storeProduct in db.storeProducts
    modifies db`storeProducts, db`reservations
    ensures db.reservations == ExpireAll(old(db.reservations), toExpire)
    ensures db.storeProducts == SnapshotRestock(old(db.storeProducts), old(db.reservations), toExpire)
    ensures count == |toExpire|
  {
    var loaded := db.storeProducts;
    var rows, held := loaded, db.reservations;
    ghost var res0 := held;
    var remaining := toExpire;
    ghost var done: set<Token> := {};
    count := 0;
    NothingChosen(loaded, res0);
    while remaining != {}
      invariant remaining !! done && remaining <= toExpire && done <= toExpire
      invariant forall x :: x in toExpire ==> x in remaining || x in done
      invariant held == ExpireAll(res0, done)
      invariant rows == SnapshotRestock(loaded, res0, done)
      invariant count == |done|
      decreases remaining
    {
      var t :| t in remaining;
      ExpireAllStep(res0, done, t, held);
      var reservation := held[t];
      var sp := reservation.storeProduct;
      var row := rows[sp];
      SnapshotRestockStep(loaded, res0, done, t, rows, sp, row);
      rows := rows[sp := row.(stock := loaded[sp].stock + 1)];
      held := held[t := reservation.(status := Expired)];
      remaining, done := remaining - {t}, done + {t};
      count := count + 1;
    }
    assert done == toExpire;
    db.storeProducts, db.reservations := rows, held;
  }

  /** `expire_reservations` exactly as the action writes the stock. */
  method ExpireReservationsAsWritten(db: Database, selection: set<Token>) returns (count: nat)
    requires db.Valid()
    modifies db`storeProducts, db`reservations
    ensures db.Valid()
    ensures db.reservations == ExpireAll(old(db.reservations), HeldIn(old(db.reservations), selection))
    ensures db.storeProducts == SnapshotRestock(old(db.storeProducts), old(db.reservations), HeldIn(old(db.reservations), selection))
    ensures count == |HeldIn(old(db.reservations), selection)|
  {
    ghost var before := db.LedgerView();
    var toExpire := HeldIn(db.reservations, selection);
    count := ReleaseEachFromSnapshot(db, toExpire);
    RestockSameRows(before.storeProducts, before.reservations, toExpire);
    ExpireKeepsLedger(before, toExpire, db.LedgerView(), db.promos);
    StockChangeKeepsCatalog(db.stores, db.products, before.storeProducts, db.storeProducts, db.promos, db.profiles, db.notificationLog);
  }

  /** With distinct StoreProducts in the selection the as-written action is
      correct: each touched row rises by exactly one. */
  lemma SnapshotRestockDistinct(sps: map<StoreProductId, StoreProduct>, res: map<Token, Reservation>, chosen: set<Token>)
    requires chosen <= res.Keys
    requires forall a, b :: a in chosen && b in chosen && a != b ==> res[a].storeProduct != res[b].storeProduct
    ensures SnapshotRestock(sps, res, chosen) == Restock(sps, res, chosen)
    ensures forall id :: id in sps && id in TouchedBy(res, chosen) ==> SnapshotRestock(sps, res, chosen)[id].stock == sps[id].stock + 1
  {
    forall id | id in sps
      ensures |ChosenOf(res, chosen, id)| == if id in TouchedBy(res, chosen) then 1 else 0
    {
      if id in TouchedBy(res, chosen) {
        var t :| t in chosen && t in res && res[t].storeProduct == id;
        assert ChosenOf(res, chosen, id) == {t};
      } else {
        assert ChosenOf(res, chosen, id) == {};
      }
    }
  }

  /** Two HOLD reservations of one StoreProduct with stock 5: the as-written
      action expires both but writes stock 6, so one unit disappears; the
      corrected action writes 7. */
  lemma SnapshotRestockLosesUnit()
    ensures var sps := map[1 := StoreProduct(1, 1, 5, 1000)];
            var res := map[1 := Reservation(1, 1, 1, 1, Hold, 60, 0), 2 := Reservation(2, 1, 1, 2, Hold, 60, 0)];
            var chosen := HeldIn(res, {1, 2});
            && SnapshotRestock(sps, res, chosen)[1].stock == 6
            && Restock(sps, res, chosen)[1].stock == 7
            && Units(Ledger(sps, res, 3), 1) == 7
            && Units(Ledger(SnapshotRestock(sps, res, chosen), ExpireAll(res, chosen), 3), 1) == 6
  {
    var sps := map[1 := StoreProduct(1, 1, 5, 1000)];
    var res := map[1 := Reservation(1, 1, 1, 1, Hold, 60, 0), 2 := Reservation(2, 1, 1, 2, Hold, 60, 0)];
    var chosen := HeldIn(res, {1, 2});
    assert chosen == {1, 2};
    assert 1 in TouchedBy(res, chosen);
    assert ChosenOf(res, chosen, 1) == {1, 2};
    assert Outstanding(res, 1) == {1, 2};
    assert Outstanding(ExpireAll(res, chosen), 1) == {};
  }
}
